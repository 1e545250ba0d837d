/** The import store: the tables behind a run, one transaction per row, and the run loop with
    its counters. Rows live in a table addressed by row id; the ledger view is what they mean. */
module Importer {
  import opened Prelude
  import opened ImportLedger

  datatype ImportRow = ImportRow(
    id: string, key: RecordKey, runId: string, rowNumber: nat, status: Status,
    event: Option<EventKey>, reason: Option<string>)

  datatype Tables = Tables(records: seq<ImportRow>, journal: set<EventKey>)

  // ---- ingest, as far as the importer sees it ----

  datatype ReceiptKind = AcceptedIssueEvent | AcceptedNonIssueEvent | DuplicateEvent | QuotaRejected | OtherReceipt

  datatype Receipt = Receipt(kind: ReceiptKind, reason: string)

  // Exists, then the quota gate, then Append; import events always create an issue.
  function Ingest(journal: set<EventKey>, event: EventKey, rejection: Option<string>): (Receipt, set<EventKey>) {
    if event in journal then (Receipt(DuplicateEvent, ""), journal)
    else if rejection.Some? then (Receipt(QuotaRejected, rejection.value), journal)
    else (Receipt(AcceptedIssueEvent, ""), journal + {event})
  }

  function StatusForReceipt(receipt: Receipt): (Status, string) {
    match receipt.kind
    case AcceptedIssueEvent => (Applied, "")
    case AcceptedNonIssueEvent => (Applied, "")
    case DuplicateEvent => (Duplicate, "")
    case QuotaRejected => (Failed, receipt.reason)
    case OtherReceipt => (Failed, "unknown import receipt")
  }

  function NullableText(text: string): Option<string> {
    if text == "" then None else Some(text)
  }

  // ---- the record table ----

  predicate UniqueRows(rows: seq<ImportRow>) {
    forall i, j :: 0 <= i < j < |rows| ==> rows[i].id != rows[j].id && rows[i].key != rows[j].key
  }

  predicate NoneInFlight(rows: seq<ImportRow>) {
    forall i :: 0 <= i < |rows| ==> !rows[i].status.Pending? && !rows[i].status.Skipped?
  }

  // select ... where project_id, source_system, external_id: the first row of that key.
  function FindIdentity(rows: seq<ImportRow>, key: RecordKey): (r: Option<nat>)
    ensures r.Some? ==> r.value < |rows| && rows[r.value].key == key
    ensures r.None? ==> forall i :: 0 <= i < |rows| ==> rows[i].key != key
  {
    if rows == [] then None
    else if rows[0].key == key then Some(0)
    else
      var rest := FindIdentity(rows[1..], key);
      if rest.Some? then Some(rest.value + 1) else None
  }

  predicate IdTaken(rows: seq<ImportRow>, id: string) {
    exists i :: 0 <= i < |rows| && rows[i].id == id
  }

  // update ... where id = $1
  function UpdateById(rows: seq<ImportRow>, id: string, change: ImportRow -> ImportRow): (r: seq<ImportRow>)
    ensures |r| == |rows|
    ensures forall i :: 0 <= i < |rows| ==> r[i] == if rows[i].id == id then change(rows[i]) else rows[i]
  {
    seq(|rows|, i requires 0 <= i < |rows| => if rows[i].id == id then change(rows[i]) else rows[i])
  }

  function RetryFailed(rows: seq<ImportRow>, id: string, runId: string, rowNumber: nat): seq<ImportRow> {
    UpdateById(rows, id, (row: ImportRow) =>
      row.(runId := runId, rowNumber := rowNumber, status := Pending, reason := None))
  }

  function InsertPending(rows: seq<ImportRow>, id: string, key: RecordKey, runId: string, rowNumber: nat): seq<ImportRow> {
    rows + [ImportRow(id, key, runId, rowNumber, Pending, None, None)]
  }

  // A failed row is reset in place; otherwise a pending row is inserted under a new id.
  function PrepareImportRecord(rows: seq<ImportRow>, identity: Option<nat>, newId: string, key: RecordKey,
                               runId: string, rowNumber: nat): Result<(seq<ImportRow>, string), ImportError>
    requires identity.Some? ==> identity.value < |rows|
  {
    if identity.Some? then
      Ok((RetryFailed(rows, rows[identity.value].id, runId, rowNumber), rows[identity.value].id))
    else if IdTaken(rows, newId) then Err(DatabaseError)
    else Ok((InsertPending(rows, newId, key, runId, rowNumber), newId))
  }

  function UpdateFromReceipt(rows: seq<ImportRow>, id: string, event: EventKey, status: Status, reason: string):
    seq<ImportRow>
  {
    UpdateById(rows, id, (row: ImportRow) =>
      row.(status := status, event := Some(event), reason := NullableText(reason)))
  }

  // ---- what the table means ----

  function StatusesOf(rows: seq<ImportRow>): map<RecordKey, Status> {
    if rows == [] then map[]
    else StatusesOf(rows[..|rows| - 1])[rows[|rows| - 1].key := rows[|rows| - 1].status]
  }

  function ViewOf(t: Tables): View {
    View(StatusesOf(t.records), t.journal)
  }

  lemma {:induction false} StatusesAt(rows: seq<ImportRow>, key: RecordKey)
    requires UniqueRows(rows)
    ensures key in StatusesOf(rows) <==> exists i :: 0 <= i < |rows| && rows[i].key == key
    ensures forall i :: 0 <= i < |rows| && rows[i].key == key
              ==> key in StatusesOf(rows) && StatusesOf(rows)[key] == rows[i].status
  {
    if rows != [] {
      var front := rows[..|rows| - 1];
      StatusesAt(front, key);
      if key in StatusesOf(front) {
        var i :| 0 <= i < |front| && front[i].key == key;
        assert rows[i].key == key;
      }
    }
  }

  /** Changing the status of the one row with a given id changes one entry of the view. */
  lemma StatusesAfterUpdate(rows: seq<ImportRow>, rows': seq<ImportRow>, n: nat)
    requires UniqueRows(rows) && UniqueRows(rows') && n < |rows| == |rows'|
    requires forall i :: 0 <= i < |rows| ==> rows'[i].key == rows[i].key
    requires forall i :: 0 <= i < |rows| && i != n ==> rows'[i].status == rows[i].status
    ensures StatusesOf(rows') == StatusesOf(rows)[rows[n].key := rows'[n].status]
  {
    forall key
      ensures key in StatusesOf(rows') <==> key in StatusesOf(rows)[rows[n].key := rows'[n].status]
      ensures key in StatusesOf(rows') ==>
                StatusesOf(rows')[key] == StatusesOf(rows)[rows[n].key := rows'[n].status][key]
    {
      StatusesAt(rows, key);
      StatusesAt(rows', key);
      if key in StatusesOf(rows') {
        var i :| 0 <= i < |rows'| && rows'[i].key == key;
        assert rows[i].key == key;
      }
      if key in StatusesOf(rows) {
        var i :| 0 <= i < |rows| && rows[i].key == key;
        assert rows'[i].key == key;
      }
    }
  }

  // ---- the store ----

  datatype Fault = NoFault | AtBegin | AtFind | AtPrepare | AtIngest | AtUpdate | AtCommit

  // What the surroundings decide for one row: a failing statement, a fresh row id, the quota gate.
  datatype RowEnv = RowEnv(fault: Fault, recordId: string, rejection: Option<string>)

  datatype ImportError = DatabaseError

  datatype RunStatus = Running | Completed | CompletedWithErrors | RunFailed

  datatype ApplyResult = ApplyResult(
    runId: string, totalRows: nat, appliedRows: nat, duplicateRows: nat, skippedRows: nat, failedRows: nat)

  datatype ImportRun = ImportRun(status: RunStatus, result: ApplyResult)

  function CountImportOutcome(outcome: ApplyResult, status: Status): ApplyResult {
    match status
    case Applied => outcome.(appliedRows := outcome.appliedRows + 1)
    case Duplicate => outcome.(duplicateRows := outcome.duplicateRows + 1)
    case Skipped => outcome.(skippedRows := outcome.skippedRows + 1)
    case Failed => outcome.(failedRows := outcome.failedRows + 1)
    case Pending => outcome
  }

  function ImportRunStatus(outcome: ApplyResult): RunStatus {
    if outcome.failedRows > 0 then CompletedWithErrors else Completed
  }

  function RowOf(record: ImportRecord, env: RowEnv): Row {
    Row(record, env.rejection.Some?)
  }

  function RowsOf(records: seq<ImportRecord>, envs: seq<RowEnv>): (rows: seq<Row>)
    requires |records| == |envs|
    ensures |rows| == |records|
    ensures forall i :: 0 <= i < |rows| ==> rows[i] == RowOf(records[i], envs[i])
  {
    seq(|records|, i requires 0 <= i < |records| => RowOf(records[i], envs[i]))
  }

  predicate Tallies(result: ApplyResult, outcomes: seq<Status>) {
    && result.appliedRows == CountOf(outcomes, Applied)
    && result.duplicateRows == CountOf(outcomes, Duplicate)
    && result.skippedRows == CountOf(outcomes, Skipped)
    && result.failedRows == CountOf(outcomes, Failed)
  }

  /** Row conservation: the counters cover every outcome, so the fall-through of the counting
      function is never taken. */
  lemma {:induction false} CountersCoverEveryRow(v: View, rows: seq<Row>, result: ApplyResult)
    requires Tallies(result, Outcomes(v, rows))
    ensures result.appliedRows + result.duplicateRows + result.skippedRows + result.failedRows == |rows|
    ensures forall i :: 0 <= i < |rows| ==> Outcomes(v, rows)[i] != Pending
    ensures ImportRunStatus(result) == CompletedWithErrors <==> Failed in Outcomes(v, rows)
  {
    var outcomes := Outcomes(v, rows);
    CountOfPositive(outcomes, Failed);
    if rows != [] {
      var before := Outcomes(v, rows[..|rows| - 1]);
      assert outcomes[..|outcomes| - 1] == before;
      CountersCoverEveryRow(v, rows[..|rows| - 1],
        ApplyResult("", 0, CountOf(before, Applied), CountOf(before, Duplicate), CountOf(before, Skipped),
                    CountOf(before, Failed)));
    }
  }

  lemma CountOneMore(result: ApplyResult, v: View, rows: seq<Row>)
    requires rows != [] && Tallies(result, Outcomes(v, rows[..|rows| - 1]))
    ensures Tallies(CountImportOutcome(result, Outcomes(v, rows)[|rows| - 1]), Outcomes(v, rows))
  {
  }

  // The view has moved through the first k rows.
  predicate StoppedAt(v: View, v': View, rows: seq<Row>, k: nat)
    requires k <= |rows|
  {
    v' == RunView(v, rows[..k])
  }

  // And each of them has been counted under its outcome.
  predicate RanRows(v: View, v': View, rows: seq<Row>, k: nat, result: ApplyResult)
    requires k <= |rows|
  {
    StoppedAt(v, v', rows, k) && Tallies(result, Outcomes(v, rows[..k]))
  }

  lemma StoppedAtStart(v: View, rows: seq<Row>)
    ensures StoppedAt(v, v, rows, 0)
  {
    assert rows[..0] == [];
  }

  lemma RanAllRows(v: View, v': View, rows: seq<Row>, result: ApplyResult)
    requires RanRows(v, v', rows, |rows|, result)
    ensures result.appliedRows + result.duplicateRows + result.skippedRows + result.failedRows == |rows|
    ensures ImportRunStatus(result) == CompletedWithErrors <==> Failed in Outcomes(v, rows)
  {
    assert rows[..|rows|] == rows;
    CountersCoverEveryRow(v, rows, result);
  }

  // One turn of the run's loop, as the view and the counters see it.
  lemma NextRow(result: ApplyResult, v: View, rows: seq<Row>, i: nat)
    requires i < |rows| && Tallies(result, Outcomes(v, rows[..i]))
    ensures RunView(v, rows[..i + 1]) == RowStep(RunView(v, rows[..i]), rows[i])
    ensures Tallies(CountImportOutcome(result, RowOutcome(RunView(v, rows[..i]), rows[i])), Outcomes(v, rows[..i + 1]))
  {
    var next := rows[..i + 1];
    assert next[..|next| - 1] == rows[..i];
    CountOneMore(result, v, next);
  }

  // The effect of a committed row on the table: a retried or inserted row carries the result.
  ghost predicate RecordsRow(rows: seq<ImportRow>, record: ImportRecord, runId: string, rowNumber: nat, status: Status,
                             reason: string) {
    exists i :: 0 <= i < |rows|
      && rows[i].key == record.key && rows[i].status == status
      && rows[i].runId == runId && rows[i].rowNumber == rowNumber
      && rows[i].event == Some(record.event)
      && rows[i].reason == (if reason == "" then None else Some(reason))
  }

  // Rows of other keys stay as they are, and at most one row is added.
  predicate KeepsOthers(rows: seq<ImportRow>, rows': seq<ImportRow>, key: RecordKey) {
    && |rows| <= |rows'| <= |rows| + 1
    && (forall i :: 0 <= i < |rows| ==> rows'[i].id == rows[i].id && rows'[i].key == rows[i].key)
    && (forall i :: 0 <= i < |rows| && rows[i].key != key ==> rows'[i] == rows[i])
  }

  // A failed row keeps the reason of the rejection, any other none.
  function FailureReason(status: Status, env: RowEnv): string {
    if status == Failed && env.rejection.Some? then env.rejection.value else ""
  }

  // The two ways a row gets its result: an earlier failed row reset and updated, or a new one.
  lemma RetriedRow(rows: seq<ImportRow>, n: nat, record: ImportRecord, runId: string, rowNumber: nat,
                   status: Status, reason: string)
    requires UniqueRows(rows) && NoneInFlight(rows) && n < |rows| && rows[n].key == record.key
    requires !status.Pending? && !status.Skipped?
    ensures
      var rows' := UpdateFromReceipt(RetryFailed(rows, rows[n].id, runId, rowNumber), rows[n].id, record.event, status, reason);
      && UniqueRows(rows') && NoneInFlight(rows')
      && StatusesOf(rows') == StatusesOf(rows)[record.key := status]
      && RecordsRow(rows', record, runId, rowNumber, status, reason)
      && KeepsOthers(rows, rows', record.key)
  {
    var reset := RetryFailed(rows, rows[n].id, runId, rowNumber);
    var rows' := UpdateFromReceipt(reset, rows[n].id, record.event, status, reason);
    forall i | 0 <= i < |rows| && i != n
      ensures rows'[i] == rows[i]
    {
      assert rows[i].id != rows[n].id && reset[i] == rows[i];
    }
    assert rows'[n].id == rows[n].id && rows'[n].key == record.key && rows'[n].status == status && rows'[n].runId == runId;
    ReplacedRow(rows, rows', n);
  }

  lemma ReplacedRow(rows: seq<ImportRow>, rows': seq<ImportRow>, n: nat)
    requires UniqueRows(rows) && NoneInFlight(rows) && n < |rows| == |rows'|
    requires forall i :: 0 <= i < |rows| && i != n ==> rows'[i] == rows[i]
    requires rows'[n].id == rows[n].id && rows'[n].key == rows[n].key
    requires !rows'[n].status.Pending? && !rows'[n].status.Skipped?
    ensures UniqueRows(rows') && NoneInFlight(rows')
    ensures StatusesOf(rows') == StatusesOf(rows)[rows[n].key := rows'[n].status]
  {
    StatusesAfterUpdate(rows, rows', n);
  }

  lemma AppendedRow(rows: seq<ImportRow>, row: ImportRow)
    requires UniqueRows(rows) && NoneInFlight(rows) && !row.status.Pending? && !row.status.Skipped?
    requires forall i :: 0 <= i < |rows| ==> rows[i].key != row.key && rows[i].id != row.id
    ensures UniqueRows(rows + [row]) && NoneInFlight(rows + [row])
    ensures StatusesOf(rows + [row]) == StatusesOf(rows)[row.key := row.status]
  {
    var rows' := rows + [row];
    assert rows'[..|rows'| - 1] == rows;
    forall i, j | 0 <= i < j < |rows'|
      ensures rows'[i].id != rows'[j].id && rows'[i].key != rows'[j].key
    {
      if j < |rows| { assert rows[i].id != rows[j].id && rows[i].key != rows[j].key; }
    }
  }

  lemma InsertedRow(rows: seq<ImportRow>, id: string, record: ImportRecord, runId: string, rowNumber: nat,
                    status: Status, reason: string)
    requires UniqueRows(rows) && NoneInFlight(rows) && !IdTaken(rows, id)
    requires forall i :: 0 <= i < |rows| ==> rows[i].key != record.key
    requires !status.Pending? && !status.Skipped?
    ensures
      var rows' := UpdateFromReceipt(InsertPending(rows, id, record.key, runId, rowNumber), id, record.event, status, reason);
      && UniqueRows(rows') && NoneInFlight(rows')
      && StatusesOf(rows') == StatusesOf(rows)[record.key := status]
      && RecordsRow(rows', record, runId, rowNumber, status, reason)
      && KeepsOthers(rows, rows', record.key)
  {
    var n := |rows|;
    var rows' := UpdateFromReceipt(InsertPending(rows, id, record.key, runId, rowNumber), id, record.event, status, reason);
    assert forall i :: 0 <= i < n ==> rows[i].id != id && rows'[i] == rows[i];
    assert rows' == rows + [rows'[n]];
    AppendedRow(rows, rows'[n]);
    assert rows'[n].key == record.key && rows'[n].status == status && rows'[n].runId == runId;
  }

  lemma IdentityStatus(rows: seq<ImportRow>, key: RecordKey)
    requires UniqueRows(rows)
    ensures FindIdentity(rows, key).Some? <==> key in StatusesOf(rows)
    ensures FindIdentity(rows, key).Some? ==> StatusesOf(rows)[key] == rows[FindIdentity(rows, key).value].status
  {
    StatusesAt(rows, key);
  }

  // ---- row ids ----

  // The second table has no ids but those of the first and this one.
  ghost predicate AddsAtMost(rows: seq<ImportRow>, rows': seq<ImportRow>, id: string) {
    forall other :: IdTaken(rows', other) ==> IdTaken(rows, other) || other == id
  }

  lemma UpdateKeepsIds(rows: seq<ImportRow>, rows': seq<ImportRow>, other: string)
    requires |rows| == |rows'| && forall i :: 0 <= i < |rows| ==> rows'[i].id == rows[i].id
    ensures IdTaken(rows', other) <==> IdTaken(rows, other)
  {
    if IdTaken(rows, other) {
      var i :| 0 <= i < |rows| && rows[i].id == other;
      assert rows'[i].id == other;
    }
    if IdTaken(rows', other) {
      var i :| 0 <= i < |rows'| && rows'[i].id == other;
      assert rows[i].id == other;
    }
  }

  lemma InsertAddsId(rows: seq<ImportRow>, row: ImportRow)
    ensures AddsAtMost(rows, rows + [row], row.id)
  {
    forall other | IdTaken(rows + [row], other)
      ensures IdTaken(rows, other) || other == row.id
    {
      var i :| 0 <= i < |rows + [row]| && (rows + [row])[i].id == other;
      assert i < |rows| ==> rows[i].id == other;
    }
  }

  lemma CommittedIds(rows: seq<ImportRow>, identity: Option<nat>, newId: string, record: ImportRecord, runId: string,
                     rowNumber: nat, status: Status, reason: string)
    requires identity.Some? ==> identity.value < |rows|
    requires PrepareImportRecord(rows, identity, newId, record.key, runId, rowNumber).Ok?
    ensures
      var prepared := PrepareImportRecord(rows, identity, newId, record.key, runId, rowNumber).value;
      AddsAtMost(rows, UpdateFromReceipt(prepared.0, prepared.1, record.event, status, reason), newId)
  {
    var prepared := PrepareImportRecord(rows, identity, newId, record.key, runId, rowNumber).value;
    var after := UpdateFromReceipt(prepared.0, prepared.1, record.event, status, reason);
    if identity.None? { InsertAddsId(rows, ImportRow(newId, record.key, runId, rowNumber, Pending, None, None)); }
    forall other | IdTaken(after, other)
      ensures IdTaken(rows, other) || other == newId
    {
      UpdateKeepsIds(prepared.0, after, other);
      if identity.Some? { UpdateKeepsIds(rows, prepared.0, other); }
    }
  }

  // The ids handed out for the rows of a run are new and distinct.
  predicate FreshIds(rows: seq<ImportRow>, envs: seq<RowEnv>) {
    forall i :: 0 <= i < |envs| ==>
      !IdTaken(rows, envs[i].recordId) && forall j :: 0 <= j < i ==> envs[j].recordId != envs[i].recordId
  }

  predicate NoFaults(envs: seq<RowEnv>) {
    forall i :: 0 <= i < |envs| ==> envs[i].fault.NoFault?
  }

  // After n rows the table has no ids but its own and theirs.
  ghost predicate IdsAfter(rows: seq<ImportRow>, envs: seq<RowEnv>, n: nat, rows': seq<ImportRow>)
    requires n <= |envs|
  {
    forall id :: IdTaken(rows', id) ==> IdTaken(rows, id) || exists j :: 0 <= j < n && envs[j].recordId == id
  }

  // What the transaction leaves in the tables once the row's receipt is known.
  function CommittedTables(t: Tables, prepared: (seq<ImportRow>, string), record: ImportRecord, env: RowEnv): Tables {
    var (receipt, journal) := Ingest(t.journal, record.event, env.rejection);
    var (status, reason) := StatusForReceipt(receipt);
    Tables(UpdateFromReceipt(prepared.0, prepared.1, record.event, status, reason), journal)
  }

  function ReceiptStatus(t: Tables, record: ImportRecord, env: RowEnv): Status {
    StatusForReceipt(Ingest(t.journal, record.event, env.rejection).0).0
  }

  lemma CommittedStep(t: Tables, identity: Option<nat>, record: ImportRecord, runId: string, rowNumber: nat, env: RowEnv)
    requires UniqueRows(t.records) && NoneInFlight(t.records)
    requires identity == FindIdentity(t.records, record.key)
    requires identity.Some? ==> t.records[identity.value].status == Failed
    requires PrepareImportRecord(t.records, identity, env.recordId, record.key, runId, rowNumber).Ok?
    ensures
      var prepared := PrepareImportRecord(t.records, identity, env.recordId, record.key, runId, rowNumber).value;
      var t', status := CommittedTables(t, prepared, record, env), ReceiptStatus(t, record, env);
      && UniqueRows(t'.records) && NoneInFlight(t'.records)
      && status == RowOutcome(ViewOf(t), RowOf(record, env)) != Skipped
      && ViewOf(t') == RowStep(ViewOf(t), RowOf(record, env))
      && RecordsRow(t'.records, record, runId, rowNumber, status, FailureReason(status, env))
      && KeepsOthers(t.records, t'.records, record.key)
  {
    IdentityStatus(t.records, record.key);
    var (status, reason) := StatusForReceipt(Ingest(t.journal, record.event, env.rejection).0);
    if identity.Some? {
      RetriedRow(t.records, identity.value, record, runId, rowNumber, status, reason);
    } else {
      InsertedRow(t.records, env.recordId, record, runId, rowNumber, status, reason);
    }
  }

  class ImportStore {
    var tables: Tables
    var runs: map<string, ImportRun>

    ghost predicate Valid()
      reads this
    {
      UniqueRows(tables.records) && NoneInFlight(tables.records)
    }

    constructor ()
      ensures Valid() && ViewOf(tables) == View(map[], {}) && runs == map[]
    {
      tables, runs := Tables([], {}), map[];
    }

    /** One row, one transaction: on success the view makes exactly the ledger's step, and on
        any error the tables are untouched. */
    method ApplyImportRecord(runId: string, rowNumber: nat, record: ImportRecord, env: RowEnv)
      returns (r: Result<Status, ImportError>)
      requires Valid()
      modifies this`tables
      ensures Valid()
      ensures r.Err? ==> tables == old(tables)
      ensures r.Ok? ==> ViewOf(tables) == RowStep(ViewOf(old(tables)), RowOf(record, env))
      ensures r.Ok? ==> r.value == RowOutcome(ViewOf(old(tables)), RowOf(record, env))
      ensures r.Ok? && r.value == Skipped ==> tables == old(tables)
      ensures r.Ok? && r.value != Skipped ==>
                RecordsRow(tables.records, record, runId, rowNumber, r.value, FailureReason(r.value, env))
      ensures r.Ok? && r.value == Failed ==> env.rejection.Some?
      ensures KeepsOthers(old(tables).records, tables.records, record.key)
      ensures env.fault.NoFault? && !IdTaken(old(tables).records, env.recordId) ==> r.Ok?
      ensures AddsAtMost(old(tables).records, tables.records, env.recordId)
    {
      if env.fault.AtBegin? || env.fault.AtFind? { return Err(DatabaseError); }
      var tx := tables;
      IdentityStatus(tx.records, record.key);
      var identity := FindIdentity(tx.records, record.key);
      if identity.Some? && tx.records[identity.value].status != Failed {
        if env.fault.AtCommit? { return Err(DatabaseError); }
        tables := tx;
        return Ok(Skipped);
      }
      if env.fault.AtPrepare? { return Err(DatabaseError); }
      var prepared := PrepareImportRecord(tx.records, identity, env.recordId, record.key, runId, rowNumber);
      if prepared.Err? { return Err(prepared.error); }
      if env.fault.AtIngest? { return Err(DatabaseError); }
      var (receipt, journal) := Ingest(tx.journal, record.event, env.rejection);
      var (status, reason) := StatusForReceipt(receipt);
      if env.fault.AtUpdate? { return Err(DatabaseError); }
      CommittedStep(tables, identity, record, runId, rowNumber, env);
      CommittedIds(tables.records, identity, env.recordId, record, runId, rowNumber, status, reason);
      tx := Tables(UpdateFromReceipt(prepared.value.0, prepared.value.1, record.event, status, reason), journal);
      assert tx == CommittedTables(tables, prepared.value, record, env);
      if env.fault.AtCommit? { return Err(DatabaseError); }
      tables := tx;
      return Ok(status);
    }

    /** A run that finishes has counted every row under its outcome, has recorded its status,
        and has moved the view through all rows; one that stops has moved it through a prefix. */
    method ApplyImport(runId: string, records: seq<ImportRecord>, envs: seq<RowEnv>,
                       createFails: bool, markFails: bool, finishFails: bool)
      returns (r: Result<ApplyResult, ImportError>)
      requires Valid() && |records| == |envs|
      modifies this
      ensures Valid()
      ensures r.Ok? ==>
                && r.value.runId == runId && r.value.totalRows == |records|
                && r.value.appliedRows + r.value.duplicateRows + r.value.skippedRows + r.value.failedRows == |records|
                && RanRows(ViewOf(old(tables)), ViewOf(tables), RowsOf(records, envs), |records|, r.value)
                && runs == old(runs)[runId := ImportRun(ImportRunStatus(r.value), r.value)]
                && (runs[runId].status == CompletedWithErrors
                    <==> Failed in Outcomes(ViewOf(old(tables)), RowsOf(records, envs)))
      ensures runs - {runId} == old(runs) - {runId}
      ensures r.Err? ==>
                exists k: nat :: k <= |records| && StoppedAt(ViewOf(old(tables)), ViewOf(tables), RowsOf(records, envs), k)
      ensures (r.Err? && !createFails && !markFails && !finishFails && runId !in old(runs))
          ==> runId in runs && runs[runId].status == RunFailed
      ensures (NoFaults(envs) && FreshIds(old(tables).records, envs) && !createFails && !finishFails
               && runId !in old(runs)) ==> r.Ok?
    {
      ghost var before, rows := ViewOf(tables), RowsOf(records, envs);
      StoppedAtStart(before, rows);
      if createFails || runId in runs { return Err(DatabaseError); }
      runs := runs[runId := ImportRun(Running, ApplyResult(runId, |records|, 0, 0, 0, 0))];
      var outcome, done := ApplyRows(runId, records, envs);
      assert StoppedAt(before, ViewOf(tables), rows, done);
      if done < |records| {
        if !markFails { runs := runs[runId := runs[runId].(status := RunFailed)]; }
        return Err(DatabaseError);
      }
      if finishFails { return Err(DatabaseError); }
      RanAllRows(before, ViewOf(tables), rows, outcome);
      runs := runs[runId := ImportRun(ImportRunStatus(outcome), outcome)];
      return Ok(outcome);
    }

    // The loop of ApplyImport: how many rows were committed, and their counters.
    method ApplyRows(runId: string, records: seq<ImportRecord>, envs: seq<RowEnv>)
      returns (outcome: ApplyResult, done: nat)
      requires Valid() && |records| == |envs|
      modifies this`tables
      ensures Valid()
      ensures done <= |records| && outcome.runId == runId && outcome.totalRows == |records|
      ensures RanRows(ViewOf(old(tables)), ViewOf(tables), RowsOf(records, envs), done, outcome)
      ensures NoFaults(envs) && FreshIds(old(tables).records, envs) ==> done == |records|
    {
      ghost var before := ViewOf(tables);
      ghost var rows := RowsOf(records, envs);
      assert RunView(before, rows[..0]) == before;
      outcome := ApplyResult(runId, |records|, 0, 0, 0, 0);
      for i := 0 to |records|
        invariant Valid()
        invariant RanRows(before, ViewOf(tables), rows, i, outcome)
        invariant outcome.runId == runId && outcome.totalRows == |records|
        invariant IdsAfter(old(tables).records, envs, i, tables.records)
      {
        var row := ApplyImportRecord(runId, i + 1, records[i], envs[i]);
        if row.Err? { return outcome, i; }
        NextRow(outcome, before, rows, i);
        outcome := CountImportOutcome(outcome, row.value);
      }
      return outcome, |records|;
    }
  }
}

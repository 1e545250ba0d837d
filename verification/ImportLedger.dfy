/** What an import run does to the status of every external record and to the event journal,
    row by row, and what holds over any series of runs. */
module ImportLedger {
  import opened Prelude

  // Statuses of stored rows; Skipped occurs only as the outcome of a row, never in the table.
  datatype Status = Pending | Applied | Duplicate | Failed | Skipped

  datatype RecordKey = RecordKey(projectId: string, sourceSystem: string, externalId: string)

  datatype EventKey = EventKey(projectId: string, eventId: string)

  // An import record, as far as the ledger looks at it; its event always creates an issue.
  datatype ImportRecord = ImportRecord(key: RecordKey, event: EventKey)

  // A row of a command, and whether the quota gate turns its event away when asked.
  datatype Row = Row(record: ImportRecord, rejected: bool)

  datatype View = View(statuses: map<RecordKey, Status>, journal: set<EventKey>)

  predicate Has(v: View, key: RecordKey, status: Status) {
    key in v.statuses && v.statuses[key] == status
  }

  predicate NothingPending(v: View) {
    forall key :: key in v.statuses ==> !v.statuses[key].Pending? && !v.statuses[key].Skipped?
  }

  // ---- one row ----

  function RowOutcome(v: View, row: Row): Status {
    if row.record.key in v.statuses && v.statuses[row.record.key] != Failed then Skipped
    else if row.record.event in v.journal then Duplicate
    else if row.rejected then Failed
    else Applied
  }

  function RowStep(v: View, row: Row): View {
    var outcome := RowOutcome(v, row);
    if outcome == Skipped then v
    else View(v.statuses[row.record.key := outcome],
              if outcome == Applied then v.journal + {row.record.event} else v.journal)
  }

  // ---- a series of rows; rows that ended in an error changed nothing and are left out ----

  function RunView(v: View, rows: seq<Row>): View {
    if rows == [] then v else RowStep(RunView(v, rows[..|rows| - 1]), rows[|rows| - 1])
  }

  function Outcomes(v: View, rows: seq<Row>): (os: seq<Status>)
    ensures |os| == |rows|
  {
    if rows == [] then []
    else Outcomes(v, rows[..|rows| - 1]) + [RowOutcome(RunView(v, rows[..|rows| - 1]), rows[|rows| - 1])]
  }

  lemma {:induction false} RunConcat(v: View, a: seq<Row>, b: seq<Row>)
    ensures RunView(v, a + b) == RunView(RunView(v, a), b)
  {
    if b == [] {
      assert a + b == a;
    } else {
      RunConcat(v, a, b[..|b| - 1]);
      assert (a + b)[..|a + b| - 1] == a + b[..|b| - 1];
    }
  }

  /** Applied and duplicate are final, no key disappears, nothing committed is pending, a
      status moves only if its key was among the rows, and no accepted event is dropped. */
  lemma {:induction false} StatusesSettle(v: View, rows: seq<Row>)
    ensures forall key :: Has(v, key, Applied) ==> Has(RunView(v, rows), key, Applied)
    ensures forall key :: Has(v, key, Duplicate) ==> Has(RunView(v, rows), key, Duplicate)
    ensures v.statuses.Keys <= RunView(v, rows).statuses.Keys
    ensures NothingPending(v) ==> NothingPending(RunView(v, rows))
    ensures v.journal <= RunView(v, rows).journal
    ensures forall key :: (forall i :: 0 <= i < |rows| ==> rows[i].record.key != key)
              ==> (key in RunView(v, rows).statuses <==> key in v.statuses)
                  && (key in v.statuses ==> RunView(v, rows).statuses[key] == v.statuses[key])
  {
    if rows != [] { StatusesSettle(v, rows[..|rows| - 1]); }
  }

  /** A failed row changes only when the same key comes up again. */
  lemma {:induction false} FailedIsLeftByRetryOnly(v: View, rows: seq<Row>, key: RecordKey)
    requires Has(v, key, Failed) && !Has(RunView(v, rows), key, Failed)
    ensures exists i :: 0 <= i < |rows| && rows[i].record.key == key
  {
    StatusesSettle(v, rows);
  }

  // ---- at most one accepting ingest ----

  function Accepts(v: View, rows: seq<Row>, key: RecordKey): nat {
    if rows == [] then 0
    else
      var before, last := rows[..|rows| - 1], rows[|rows| - 1];
      Accepts(v, before, key)
      + if last.record.key == key && RowOutcome(RunView(v, before), last) == Applied then 1 else 0
  }

  function EventAccepts(v: View, rows: seq<Row>, event: EventKey): nat {
    if rows == [] then 0
    else
      var before, last := rows[..|rows| - 1], rows[|rows| - 1];
      EventAccepts(v, before, event)
      + if last.record.event == event && RowOutcome(RunView(v, before), last) == Applied then 1 else 0
  }

  /** Over any series of runs a key has exactly as many accepting ingests as it has moves to
      applied: one if it ended applied without starting so, none otherwise. */
  lemma {:induction false} AtMostOneAcceptPerKey(v: View, rows: seq<Row>, key: RecordKey)
    ensures Accepts(v, rows, key) == if Has(RunView(v, rows), key, Applied) && !Has(v, key, Applied) then 1 else 0
  {
    if rows != [] {
      var before := rows[..|rows| - 1];
      AtMostOneAcceptPerKey(v, before, key);
      StatusesSettle(v, before);
    }
  }

  /** And an event enters the journal exactly once, through whichever key brings it first. */
  lemma {:induction false} AtMostOneAcceptPerEvent(v: View, rows: seq<Row>, event: EventKey)
    ensures EventAccepts(v, rows, event)
         == if event in RunView(v, rows).journal && event !in v.journal then 1 else 0
  {
    if rows != [] {
      AtMostOneAcceptPerEvent(v, rows[..|rows| - 1], event);
      StatusesSettle(v, rows[..|rows| - 1]);
    }
  }

  // ---- counting ----

  function CountOf(outcomes: seq<Status>, status: Status): nat {
    if outcomes == [] then 0
    else CountOf(outcomes[..|outcomes| - 1], status) + if outcomes[|outcomes| - 1] == status then 1 else 0
  }

  lemma {:induction false} CountOfPositive(outcomes: seq<Status>, status: Status)
    ensures CountOf(outcomes, status) > 0 <==> status in outcomes
  {
    if outcomes != [] { CountOfPositive(outcomes[..|outcomes| - 1], status); }
  }

  /** The events a run accepts and the rows it counts as applied are equal in number. */
  lemma {:induction false} AppliedRowsAreNewEvents(v: View, rows: seq<Row>)
    ensures |RunView(v, rows).journal| == |v.journal| + CountOf(Outcomes(v, rows), Applied)
  {
    if rows != [] { AppliedRowsAreNewEvents(v, rows[..|rows| - 1]); }
  }
}

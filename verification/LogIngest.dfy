/** The log writer: one transaction per batch, checked and appended record by record. */
module LogIngest {
  import opened Prelude
  import opened QuotaRules
  import opened UsageAccounting

  datatype IngestError = RecordsRequired | ScopeRequired | ScopeMismatch | DatabaseError

  datatype IngestReceipt = AcceptedLogRecords(count: nat) | QuotaRejected(reason: Reason)

  // Where the transaction fails, if it does: at begin, at the quota query, at one of the
  // records, or at commit.
  datatype Fault = NoFault | AtBegin | AtQuota | AtRecord(index: nat) | AtCommit

  predicate Ingestible(records: seq<LogRecord>) {
    OneScope(records) && records[0].organizationId != "" && records[0].projectId != ""
  }

  method NormalizeIngestCommand(records: seq<LogRecord>) returns (r: Result<(), IngestError>)
    ensures r.Ok? <==> Ingestible(records)
    ensures records == [] ==> r == Err(RecordsRequired)
    ensures r == Err(ScopeRequired) <==> records != [] && (records[0].organizationId == "" || records[0].projectId == "")
  {
    if records == [] { return Err(RecordsRequired); }
    if records[0].organizationId == "" || records[0].projectId == "" { return Err(ScopeRequired); }
    for i := 0 to |records|
      invariant forall j :: 0 <= j < i ==>
                  records[j].organizationId == records[0].organizationId && records[j].projectId == records[0].projectId
    {
      if records[i].organizationId != records[0].organizationId { return Err(ScopeMismatch); }
      if records[i].projectId != records[0].projectId { return Err(ScopeMismatch); }
    }
    return Ok(());
  }

  // The tables inside one transaction; dropped unless it commits.
  class Transaction {
    var usage: Usage
    const policies: Policies
    const fault: Fault

    constructor (usage: Usage, policies: Policies, fault: Fault)
      ensures this.usage == usage && this.policies == policies && this.fault == fault
    {
      this.usage, this.policies, this.fault := usage, policies, fault;
    }

    method CheckLogQuota(record: LogRecord, count: nat) returns (r: Result<Decision, IngestError>)
      ensures r.Ok? <==> !fault.AtQuota?
      ensures r.Ok? ==> r.value == LogQuotaDecision(
                SnapshotForScope(usage, policies, record.organizationId, record.projectId, record.receivedAt), count)
    {
      if fault.AtQuota? { return Err(DatabaseError); }
      var snapshot := SnapshotForScope(usage, policies, record.organizationId, record.projectId, record.receivedAt);
      return Ok(LogQuotaDecision(snapshot, count));
    }

    method AppendLogRecord(record: LogRecord)
      modifies this`usage
      ensures usage.logRows == old(usage).logRows + [record]
      ensures usage.buckets == Upsert(old(usage).buckets, LogIncrement(record))
    {
      usage := usage.(logRows := usage.logRows + [record]);
      usage := usage.(buckets := Upsert(usage.buckets, LogIncrement(record)));
    }

    method AppendLogRecords(records: seq<LogRecord>) returns (r: Result<nat, IngestError>)
      modifies this`usage
      ensures r.Ok? <==> !(fault.AtRecord? && fault.index < |records|)
      ensures r.Ok? ==> r.value == |records| && usage == AppendAll(old(usage), records)
    {
      for i := 0 to |records|
        invariant usage == AppendAll(old(usage), records[..i])
        invariant !(fault.AtRecord? && fault.index < i)
      {
        if fault == AtRecord(i) { return Err(DatabaseError); }
        assert records[..i + 1][..i] == records[..i];
        AppendLogRecord(records[i]);
      }
      assert records[..|records|] == records;
      return Ok(|records|);
    }
  }

  class LogStore {
    var usage: Usage
    var policies: Policies

    constructor (policies: Policies)
      ensures this.policies == policies && usage == Usage([], [])
    {
      this.policies := policies;
      usage := Usage([], []);
    }

    /** A batch is checked as a whole and then stored as a whole, or the store is unchanged:
        refused by quota, refused for its scopes, or rolled back. */
    method Ingest(records: seq<LogRecord>, fault: Fault) returns (r: Result<IngestReceipt, IngestError>)
      modifies this`usage
      ensures r.Err? ==> usage == old(usage)
      ensures r.Ok? ==> Ingestible(records) && usage == IngestBatch(old(usage), policies, records)
      ensures r.Ok? && BatchDecision(old(usage), policies, records).Allowed? ==>
                r.value == AcceptedLogRecords(|records|) && usage.logRows == old(usage).logRows + records
      ensures r.Ok? && BatchDecision(old(usage), policies, records).Rejected? ==>
                r.value == QuotaRejected(BatchDecision(old(usage), policies, records).reason) && usage == old(usage)
      ensures Ingestible(records) && fault.NoFault? ==> r.Ok?
    {
      var normalized := NormalizeIngestCommand(records);
      if normalized.Err? { return Err(normalized.error); }
      if fault.AtBegin? { return Err(DatabaseError); }
      var tx := new Transaction(usage, policies, fault);
      var quota := tx.CheckLogQuota(records[0], |records|);
      if quota.Err? { return Err(quota.error); }
      var receipt: IngestReceipt;
      if quota.value.Rejected? {
        receipt := QuotaRejected(quota.value.reason);
      } else {
        var appended := tx.AppendLogRecords(records);
        if appended.Err? { return Err(appended.error); }
        AppendAllKeepsRows(usage, records);
        receipt := AcceptedLogRecords(appended.value);
      }
      if fault.AtCommit? { return Err(DatabaseError); }
      usage := tx.usage;
      return Ok(receipt);
    }
  }

  lemma {:induction false} AppendAllKeepsRows(u: Usage, batch: seq<LogRecord>)
    ensures AppendAll(u, batch).logRows == u.logRows + batch
  {
    if batch != [] {
      AppendAllKeepsRows(u, batch[..|batch| - 1]);
      assert batch == batch[..|batch| - 1] + [batch[|batch| - 1]];
    }
  }
}

/** Hourly usage buckets, the daily sums quotas read, log batches and event ingests, and why
    no enabled limit is ever passed. Times are seconds in UTC. */
module UsageAccounting {
  import opened Prelude
  import opened QuotaRules

  const HOUR: int := 3600
  const DAY: int := 86400

  // date_trunc('hour', t), and the number of the day date_trunc('day', t) starts.
  function HourStart(t: int): int {
    t - t % HOUR
  }

  function DayOf(t: int): int {
    t / DAY
  }

  function DayStart(day: int): int {
    day * DAY
  }

  /** An hour bucket falls in a day's window exactly when the day is that of the record. */
  lemma HourIsInItsDay(t: int, day: int)
    ensures DayStart(day) <= HourStart(t) < DayStart(day) + DAY <==> day == DayOf(t)
  {
    var q, r := t / DAY, t % DAY;
    var h, m := r / HOUR, r % HOUR;
    assert t == DAY * q + r && r == HOUR * h + m;
    assert t == HOUR * (24 * q + h) + m;
    RemainderOf(t, 24 * q + h, m);
    HourOffset(q, h, day);
  }

  lemma RemainderOf(t: int, k: int, m: int)
    requires t == HOUR * k + m && 0 <= m < HOUR
    ensures t % HOUR == m
  {
  }

  lemma HourOffset(q: int, h: int, day: int)
    requires 0 <= h < 24
    ensures DAY * day <= DAY * q + HOUR * h < DAY * day + DAY <==> day == q
  {
    if day < q { assert DAY * day + DAY <= DAY * q; }
    if day > q { assert DAY * q + DAY <= DAY * day; }
  }

  /** The hour of an instant starts on a whole hour at most an hour before it, and its day on a
      whole day at most a day before it. */
  lemma HourAndDayOf(t: int)
    ensures HourStart(t) % 3600 == 0 && HourStart(t) <= t < HourStart(t) + 3600
    ensures DayStart(DayOf(t)) % 86400 == 0 && DayStart(DayOf(t)) <= t < DayStart(DayOf(t)) + 86400
  {
    var k := t / HOUR;
    assert HourStart(t) == HOUR * k;
    RemainderOf(HOUR * k, k, 0);
    var q := t / DAY;
    assert t == DAY * q + t % DAY;
  }

  // project_hourly_stats, one row per project and hour; a row also serves as the increment.
  datatype Bucket = Bucket(
    organizationId: string, projectId: string, hour: int,
    events: nat, issueEvents: nat, transactionEvents: nat, logs: nat)

  datatype LogRecord = LogRecord(organizationId: string, projectId: string, receivedAt: int, body: string)

  datatype Usage = Usage(buckets: seq<Bucket>, logRows: seq<LogRecord>)

  function LogIncrement(r: LogRecord): Bucket {
    Bucket(r.organizationId, r.projectId, HourStart(r.receivedAt), 1, 0, 0, 1)
  }

  function Merged(b: Bucket, add: Bucket): Bucket {
    b.(events := b.events + add.events,
       issueEvents := b.issueEvents + add.issueEvents,
       transactionEvents := b.transactionEvents + add.transactionEvents,
       logs := b.logs + add.logs)
  }

  // insert ... on conflict (project_id, bucket_at) do update: the organization stays.
  function Upsert(buckets: seq<Bucket>, add: Bucket): seq<Bucket> {
    if buckets == [] then [add]
    else
      var b := buckets[0];
      if b.projectId == add.projectId && b.hour == add.hour then
        [Merged(b, add)] + buckets[1..]
      else [b] + Upsert(buckets[1..], add)
  }

  // ---- sums ----

  datatype Selector =
    | OrganizationDay(organizationId: string, day: int)
    | ProjectDay(organizationId: string, projectId: string, day: int)
    | ProjectHour(projectId: string, hour: int)

  datatype Counter = EventCount | IssueEventCount | TransactionEventCount | LogEventCount

  predicate InDay(hour: int, day: int) {
    DayStart(day) <= hour < DayStart(day) + DAY
  }

  // The join of the usage query: day start <= bucket_at < day start + 1 day.
  predicate Selects(sel: Selector, b: Bucket) {
    match sel
    case OrganizationDay(org, day) => b.organizationId == org && InDay(b.hour, day)
    case ProjectDay(org, project, day) => b.organizationId == org && b.projectId == project && InDay(b.hour, day)
    case ProjectHour(project, hour) => b.projectId == project && b.hour == hour
  }

  function CounterOf(b: Bucket, c: Counter): nat {
    match c
    case EventCount => b.events
    case IssueEventCount => b.issueEvents
    case TransactionEventCount => b.transactionEvents
    case LogEventCount => b.logs
  }

  function Selected(b: Bucket, sel: Selector, c: Counter): nat {
    if Selects(sel, b) then CounterOf(b, c) else 0
  }

  function Total(buckets: seq<Bucket>, sel: Selector, c: Counter): nat {
    if buckets == [] then 0 else Selected(buckets[0], sel, c) + Total(buckets[1..], sel, c)
  }

  // A project belongs to one organization.
  predicate Consistent(buckets: seq<Bucket>, orgOf: string -> string) {
    forall i :: 0 <= i < |buckets| ==> buckets[i].organizationId == orgOf(buckets[i].projectId)
  }

  /** An upsert adds exactly its increment to every sum that selects it, and nothing to others. */
  lemma {:induction false} UpsertAdds(buckets: seq<Bucket>, add: Bucket, orgOf: string -> string, sel: Selector, c: Counter)
    requires Consistent(buckets, orgOf) && add.organizationId == orgOf(add.projectId)
    ensures Total(Upsert(buckets, add), sel, c) == Total(buckets, sel, c) + Selected(add, sel, c)
    ensures Consistent(Upsert(buckets, add), orgOf)
  {
    if buckets != [] {
      var b, rest := buckets[0], buckets[1..];
      assert b.organizationId == orgOf(b.projectId);
      assert Consistent(rest, orgOf);
      if b.projectId == add.projectId && b.hour == add.hour {
        MergedIsSelected(b, add, sel, c);
        TotalOfCons(Merged(b, add), rest, sel, c);
      } else {
        UpsertAdds(rest, add, orgOf, sel, c);
        TotalOfCons(b, Upsert(rest, add), sel, c);
      }
    }
  }

  lemma TotalOfCons(b: Bucket, rest: seq<Bucket>, sel: Selector, c: Counter)
    ensures Total([b] + rest, sel, c) == Selected(b, sel, c) + Total(rest, sel, c)
  {
    assert ([b] + rest)[1..] == rest;
  }

  lemma MergedIsSelected(b: Bucket, add: Bucket, sel: Selector, c: Counter)
    requires b.projectId == add.projectId && b.hour == add.hour && b.organizationId == add.organizationId
    ensures Selected(Merged(b, add), sel, c) == Selected(b, sel, c) + Selected(add, sel, c)
  {
  }

  // ---- policies and the snapshot ----

  datatype Policy = Policy(enabled: bool, dailyLimit: int)

  // Project policies carry the organization they were stored with.
  datatype Policies = Policies(organizations: map<string, Policy>, projects: map<string, (string, Policy)>)

  const NO_POLICY := Policy(false, 0)

  function OrganizationPolicy(p: Policies, org: string): Policy {
    if org in p.organizations then p.organizations[org] else NO_POLICY
  }

  function ProjectPolicy(p: Policies, org: string, project: string): Policy {
    if project in p.projects && p.projects[project].0 == org then p.projects[project].1 else NO_POLICY
  }

  function SnapshotForScope(u: Usage, p: Policies, org: string, project: string, receivedAt: int): QuotaSnapshot {
    var day := DayOf(receivedAt);
    var pp, op := ProjectPolicy(p, org, project), OrganizationPolicy(p, org);
    QuotaSnapshot(
      pp.enabled, pp.dailyLimit, Total(u.buckets, ProjectDay(org, project, day), EventCount),
      op.enabled, op.dailyLimit, Total(u.buckets, OrganizationDay(org, day), EventCount))
  }

  // No enabled policy that is stored is exceeded on any day.
  ghost predicate WithinLimits(u: Usage, p: Policies) {
    && (forall org, day :: org in p.organizations && p.organizations[org].enabled ==>
          Total(u.buckets, OrganizationDay(org, day), EventCount) <= p.organizations[org].dailyLimit)
    && (forall project, day :: project in p.projects && p.projects[project].1.enabled ==>
          Total(u.buckets, ProjectDay(p.projects[project].0, project, day), EventCount)
          <= p.projects[project].1.dailyLimit)
  }

  // Limits are not negative and n more than the limit still fits an int64.
  predicate LimitFits(policy: Policy, n: nat) {
    policy.enabled ==> 0 <= policy.dailyLimit && policy.dailyLimit + n <= INT64_MAX
  }

  ghost predicate Representable(p: Policies, n: nat) {
    && (forall org :: org in p.organizations ==> LimitFits(p.organizations[org], n))
    && (forall project :: project in p.projects ==> LimitFits(p.projects[project].1, n))
  }

  // n more events of this day stay under the policy stored for the organization.
  predicate OrganizationHasRoom(u: Usage, p: Policies, org: string, day: int, n: nat) {
    org in p.organizations && p.organizations[org].enabled ==>
      Total(u.buckets, OrganizationDay(org, day), EventCount) + n <= p.organizations[org].dailyLimit
  }

  // And under the one stored for this project of this organization.
  predicate ProjectHasRoom(u: Usage, p: Policies, org: string, project: string, day: int, n: nat) {
    project in p.projects && p.projects[project].0 == org && p.projects[project].1.enabled ==>
      Total(u.buckets, ProjectDay(org, project, day), EventCount) + n <= p.projects[project].1.dailyLimit
  }

  predicate HasRoom(u: Usage, p: Policies, org: string, project: string, day: int, n: nat) {
    OrganizationHasRoom(u, p, org, day, n) && ProjectHasRoom(u, p, org, project, day, n)
  }

  // ---- log batches ----

  // What normalizeIngestCommand lets through: a non-empty batch of one scope.
  predicate OneScope(batch: seq<LogRecord>) {
    batch != [] && forall i :: 0 <= i < |batch| ==>
      batch[i].organizationId == batch[0].organizationId && batch[i].projectId == batch[0].projectId
  }

  predicate OneDay(batch: seq<LogRecord>) {
    forall i :: 0 <= i < |batch| ==> DayOf(batch[i].receivedAt) == DayOf(batch[0].receivedAt)
  }

  function AppendAll(u: Usage, batch: seq<LogRecord>): Usage {
    if batch == [] then u
    else
      var before, last := AppendAll(u, batch[..|batch| - 1]), batch[|batch| - 1];
      Usage(Upsert(before.buckets, LogIncrement(last)), before.logRows + [last])
  }

  function BatchDecision(u: Usage, p: Policies, batch: seq<LogRecord>): Decision
    requires batch != []
  {
    LogQuotaDecision(
      SnapshotForScope(u, p, batch[0].organizationId, batch[0].projectId, batch[0].receivedAt), |batch|)
  }

  function IngestBatch(u: Usage, p: Policies, batch: seq<LogRecord>): Usage
    requires batch != []
  {
    if BatchDecision(u, p, batch).Allowed? then AppendAll(u, batch) else u
  }

  function SelectedIn(batch: seq<LogRecord>, sel: Selector, c: Counter): nat {
    if batch == [] then 0
    else SelectedIn(batch[..|batch| - 1], sel, c) + Selected(LogIncrement(batch[|batch| - 1]), sel, c)
  }

  predicate BatchConsistent(batch: seq<LogRecord>, orgOf: string -> string) {
    forall i :: 0 <= i < |batch| ==> batch[i].organizationId == orgOf(batch[i].projectId)
  }

  lemma {:induction false} AppendAllAdds(u: Usage, batch: seq<LogRecord>, orgOf: string -> string, sel: Selector, c: Counter)
    requires Consistent(u.buckets, orgOf) && BatchConsistent(batch, orgOf)
    ensures Total(AppendAll(u, batch).buckets, sel, c) == Total(u.buckets, sel, c) + SelectedIn(batch, sel, c)
    ensures Consistent(AppendAll(u, batch).buckets, orgOf)
    ensures AppendAll(u, batch).logRows == u.logRows + batch
  {
    if batch != [] {
      var front := batch[..|batch| - 1];
      AppendAllAdds(u, front, orgOf, sel, c);
      UpsertAdds(AppendAll(u, front).buckets, LogIncrement(batch[|batch| - 1]), orgOf, sel, c);
      assert batch == front + [batch[|batch| - 1]];
    }
  }

  // No selector counts more than the batch, and of another scope or day it counts nothing.
  lemma {:induction false} SelectedInBatch(batch: seq<LogRecord>, sel: Selector)
    ensures SelectedIn(batch, sel, EventCount) <= |batch|
    ensures SelectedIn(batch, sel, EventCount) > 0
        ==> exists i :: 0 <= i < |batch| && Selects(sel, LogIncrement(batch[i]))
  {
    if batch != [] {
      var front := batch[..|batch| - 1];
      SelectedInBatch(front, sel);
      if SelectedIn(front, sel, EventCount) > 0 {
        var i :| 0 <= i < |front| && Selects(sel, LogIncrement(front[i]));
        assert Selects(sel, LogIncrement(batch[i]));
      }
    }
  }

  // ---- an accepted batch of one day stays within every limit ----

  lemma BatchAddsToItsOwnDay(batch: seq<LogRecord>, sel: Selector)
    requires OneScope(batch) && OneDay(batch)
    requires sel.OrganizationDay? || sel.ProjectDay?
    ensures SelectedIn(batch, sel, EventCount) > 0 ==>
              sel.organizationId == batch[0].organizationId && sel.day == DayOf(batch[0].receivedAt)
              && (sel.ProjectDay? ==> sel.projectId == batch[0].projectId)
  {
    SelectedInBatch(batch, sel);
    if SelectedIn(batch, sel, EventCount) > 0 {
      var i :| 0 <= i < |batch| && Selects(sel, LogIncrement(batch[i]));
      HourIsInItsDay(batch[i].receivedAt, sel.day);
    }
  }

  /** A batch is allowed exactly when the whole of it still fits under every enabled limit of its
      scope on the day of its first record, and a refusal names the organization if it is full. */
  lemma AllowedExactlyWithRoom(u: Usage, p: Policies, batch: seq<LogRecord>)
    requires batch != [] && WithinLimits(u, p) && Representable(p, |batch|)
    ensures
      var org, project, day := batch[0].organizationId, batch[0].projectId, DayOf(batch[0].receivedAt);
      && (BatchDecision(u, p, batch) == Allowed <==> HasRoom(u, p, org, project, day, |batch|))
      && (BatchDecision(u, p, batch) == Rejected(OrganizationQuotaExceeded)
          <==> !OrganizationHasRoom(u, p, org, day, |batch|))
  {
    var org, project, day := batch[0].organizationId, batch[0].projectId, DayOf(batch[0].receivedAt);
    RoomInNumbers(u, p, org, project, batch[0].receivedAt, |batch|);
  }

  // What the two stored policies and the day's sums make of the snapshot.
  lemma RoomInNumbers(u: Usage, p: Policies, org: string, project: string, receivedAt: int, n: nat)
    requires WithinLimits(u, p) && Representable(p, n)
    ensures
      var s := SnapshotForScope(u, p, org, project, receivedAt);
      && (s.organizationEnabled ==> 0 <= s.organizationUsed <= s.organizationLimit && s.organizationLimit + n <= INT64_MAX)
      && (s.projectEnabled ==> 0 <= s.projectDailyUsed <= s.projectDailyLimit && s.projectDailyLimit + n <= INT64_MAX)
      && (OrganizationHasRoom(u, p, org, DayOf(receivedAt), n)
          <==> (s.organizationEnabled ==> s.organizationUsed + n <= s.organizationLimit))
      && (ProjectHasRoom(u, p, org, project, DayOf(receivedAt), n)
          <==> (s.projectEnabled ==> s.projectDailyUsed + n <= s.projectDailyLimit))
  {
    if org in p.organizations { assert LimitFits(p.organizations[org], n); }
    if project in p.projects { assert LimitFits(p.projects[project].1, n); }
  }

  lemma OneDayBatchIsSafe(u: Usage, p: Policies, batch: seq<LogRecord>, orgOf: string -> string)
    requires OneScope(batch) && OneDay(batch) && BatchConsistent(batch, orgOf) && Consistent(u.buckets, orgOf)
    requires Representable(p, |batch|) && WithinLimits(u, p)
    ensures WithinLimits(IngestBatch(u, p, batch), p)
  {
    if BatchDecision(u, p, batch).Allowed? {
      AllowedExactlyWithRoom(u, p, batch);
      var after := AppendAll(u, batch);
      forall org, day | org in p.organizations && p.organizations[org].enabled
        ensures Total(after.buckets, OrganizationDay(org, day), EventCount) <= p.organizations[org].dailyLimit
      {
        var sel := OrganizationDay(org, day);
        AppendAllAdds(u, batch, orgOf, sel, EventCount);
        SelectedInBatch(batch, sel);
        BatchAddsToItsOwnDay(batch, sel);
      }
      forall project, day | project in p.projects && p.projects[project].1.enabled
        ensures Total(after.buckets, ProjectDay(p.projects[project].0, project, day), EventCount)
             <= p.projects[project].1.dailyLimit
      {
        var org := p.projects[project].0;
        var sel := ProjectDay(org, project, day);
        AppendAllAdds(u, batch, orgOf, sel, EventCount);
        SelectedInBatch(batch, sel);
        BatchAddsToItsOwnDay(batch, sel);
      }
    }
  }

  // A batch that keeps every usage and every policies it may meet within the limits.
  ghost predicate AlwaysSafe(batch: seq<LogRecord>, orgOf: string -> string)
    requires batch != []
  {
    forall u: Usage, p: Policies :: Consistent(u.buckets, orgOf) && Representable(p, |batch|) && WithinLimits(u, p)
      ==> WithinLimits(IngestBatch(u, p, batch), p)
  }

  // The quota is checked for the first record's day only: fill the day of another record.
  lemma StrayRecordBreaksLimit(batch: seq<LogRecord>, orgOf: string -> string, k: nat)
    requires OneScope(batch) && BatchConsistent(batch, orgOf) && |batch| < INT64_MAX / 2
    requires k < |batch| && DayOf(batch[k].receivedAt) != DayOf(batch[0].receivedAt)
    ensures !AlwaysSafe(batch, orgOf)
  {
    var n := |batch|;
    var org, project := batch[0].organizationId, batch[0].projectId;
    var first, stray := DayOf(batch[0].receivedAt), DayOf(batch[k].receivedAt);
    var full := Bucket(org, project, HourStart(batch[k].receivedAt), n, 0, 0, 0);
    var u := Usage([full], []);
    var p := Policies(map[], map[project := (org, Policy(true, n))]);
    HourIsInItsDay(batch[k].receivedAt, first);
    HourIsInItsDay(batch[k].receivedAt, stray);
    FullBucketUsage(full, org, project, first, stray);
    assert WithinLimits(u, p);
    assert BatchDecision(u, p, batch).Allowed?;
    var sel := ProjectDay(org, project, stray);
    AppendAllAdds(u, batch, orgOf, sel, EventCount);
    StrayIsSelected(batch, sel, k);
    assert p.projects[project] == (org, Policy(true, n));
    assert Total(IngestBatch(u, p, batch).buckets, sel, EventCount) > n;
  }

  lemma FullBucketUsage(full: Bucket, org: string, project: string, first: int, stray: int)
    requires full.organizationId == org && full.projectId == project
    requires InDay(full.hour, stray) && !InDay(full.hour, first)
    ensures forall sel :: Total([full], sel, EventCount) <= full.events
    ensures Total([full], ProjectDay(org, project, first), EventCount) == 0
    ensures Total([full], OrganizationDay(org, first), EventCount) == 0
    ensures Total([full], ProjectDay(org, project, stray), EventCount) == full.events
  {
  }

  lemma {:induction false} StrayIsSelected(batch: seq<LogRecord>, sel: Selector, k: nat)
    requires k < |batch| && Selects(sel, LogIncrement(batch[k]))
    ensures SelectedIn(batch, sel, EventCount) > 0
  {
    if k < |batch| - 1 { StrayIsSelected(batch[..|batch| - 1], sel, k); }
  }

  /** The limits hold after every accepted batch, whatever the usage and the policies, exactly
      when all records of the batch were received on the day of the first. */
  lemma BatchIsSafeExactlyWithinOneDay(batch: seq<LogRecord>, orgOf: string -> string)
    requires OneScope(batch) && BatchConsistent(batch, orgOf) && |batch| < INT64_MAX / 2
    ensures AlwaysSafe(batch, orgOf) <==> OneDay(batch)
  {
    if OneDay(batch) {
      forall u: Usage, p: Policies | Consistent(u.buckets, orgOf) && Representable(p, |batch|) && WithinLimits(u, p)
        ensures WithinLimits(IngestBatch(u, p, batch), p)
      {
        OneDayBatchIsSafe(u, p, batch, orgOf);
      }
    } else {
      var k :| 0 <= k < |batch| && DayOf(batch[k].receivedAt) != DayOf(batch[0].receivedAt);
      StrayRecordBreaksLimit(batch, orgOf, k);
    }
  }

  // ---- serial runs of log batches and event ingests ----

  // An event of the other ingest path: issue or transaction, possibly already in the journal.
  datatype Event = Event(
    organizationId: string, projectId: string, receivedAt: int, known: bool, createsIssue: bool, isTransaction: bool)

  datatype Action = Logs(batch: seq<LogRecord>) | Ingest(event: Event)

  function BoolInt(b: bool): nat {
    if b then 1 else 0
  }

  function EventIncrement(e: Event): Bucket {
    Bucket(e.organizationId, e.projectId, HourStart(e.receivedAt), 1, BoolInt(e.createsIssue), BoolInt(e.isTransaction), 0)
  }

  // Exists, then CheckQuota, then Append with its bucket.
  function IngestEvent(u: Usage, p: Policies, e: Event): Usage {
    if e.known then u
    else if QuotaDecision(SnapshotForScope(u, p, e.organizationId, e.projectId, e.receivedAt)).Rejected? then u
    else u.(buckets := Upsert(u.buckets, EventIncrement(e)))
  }

  // The scopes of an action belong together, as the source's scopes do.
  predicate Scoped(a: Action, orgOf: string -> string) {
    match a
    case Logs(batch) => OneScope(batch) && BatchConsistent(batch, orgOf)
    case Ingest(e) => e.organizationId == orgOf(e.projectId)
  }

  predicate Admissible(a: Action, orgOf: string -> string) {
    Scoped(a, orgOf) && (a.Logs? ==> OneDay(a.batch))
  }

  function Perform(u: Usage, p: Policies, a: Action): Usage {
    match a
    case Logs(batch) => if batch == [] then u else IngestBatch(u, p, batch)
    case Ingest(e) => IngestEvent(u, p, e)
  }

  function PerformAll(u: Usage, p: Policies, run: seq<Action>): Usage {
    if run == [] then u else Perform(PerformAll(u, p, run[..|run| - 1]), p, run[|run| - 1])
  }

  lemma EventIsSafe(u: Usage, p: Policies, e: Event, orgOf: string -> string)
    requires e.organizationId == orgOf(e.projectId) && Consistent(u.buckets, orgOf)
    requires Representable(p, 1) && WithinLimits(u, p)
    ensures WithinLimits(IngestEvent(u, p, e), p)
  {
    var after := IngestEvent(u, p, e);
    if after != u {
      forall org, day | org in p.organizations && p.organizations[org].enabled
        ensures Total(after.buckets, OrganizationDay(org, day), EventCount) <= p.organizations[org].dailyLimit
      {
        UpsertAdds(u.buckets, EventIncrement(e), orgOf, OrganizationDay(org, day), EventCount);
        HourIsInItsDay(e.receivedAt, day);
      }
      forall project, day | project in p.projects && p.projects[project].1.enabled
        ensures Total(after.buckets, ProjectDay(p.projects[project].0, project, day), EventCount)
             <= p.projects[project].1.dailyLimit
      {
        var org := p.projects[project].0;
        UpsertAdds(u.buckets, EventIncrement(e), orgOf, ProjectDay(org, project, day), EventCount);
        HourIsInItsDay(e.receivedAt, day);
      }
    }
  }

  lemma PerformKeepsConsistent(u: Usage, p: Policies, a: Action, orgOf: string -> string)
    requires Scoped(a, orgOf) && Consistent(u.buckets, orgOf)
    ensures Consistent(Perform(u, p, a).buckets, orgOf)
  {
    match a
    case Logs(batch) => AppendAllAdds(u, batch, orgOf, ProjectHour("", 0), EventCount);
    case Ingest(e) => UpsertAdds(u.buckets, EventIncrement(e), orgOf, ProjectHour("", 0), EventCount);
  }

  /** Quota safety. Over any serial run of log batches and event ingests that starts within
      the limits, no enabled project or organization limit is ever exceeded on any day. */
  lemma {:induction false} QuotaIsNeverExceeded(u: Usage, p: Policies, run: seq<Action>, orgOf: string -> string, most: nat)
    requires Consistent(u.buckets, orgOf) && WithinLimits(u, p) && Representable(p, most) && most >= 1
    requires forall i :: 0 <= i < |run| ==> Admissible(run[i], orgOf) && (run[i].Logs? ==> |run[i].batch| <= most)
    ensures WithinLimits(PerformAll(u, p, run), p)
    ensures Consistent(PerformAll(u, p, run).buckets, orgOf)
  {
    if run != [] {
      var front, a := run[..|run| - 1], run[|run| - 1];
      QuotaIsNeverExceeded(u, p, front, orgOf, most);
      var before := PerformAll(u, p, front);
      PerformKeepsConsistent(before, p, a, orgOf);
      match a
      case Logs(batch) => OneDayBatchIsSafe(before, p, batch, orgOf);
      case Ingest(e) => EventIsSafe(before, p, e, orgOf);
    }
  }

  // ---- buckets count rows ----

  function LogRowsIn(rows: seq<LogRecord>, project: string, hour: int): nat {
    if rows == [] then 0
    else
      var last := rows[|rows| - 1];
      LogRowsIn(rows[..|rows| - 1], project, hour)
      + if last.projectId == project && HourStart(last.receivedAt) == hour then 1 else 0
  }

  lemma {:induction false} LogRowsConcat(a: seq<LogRecord>, b: seq<LogRecord>, project: string, hour: int)
    ensures LogRowsIn(a + b, project, hour) == LogRowsIn(a, project, hour) + LogRowsIn(b, project, hour)
  {
    if b == [] {
      assert a + b == a;
    } else {
      LogRowsConcat(a, b[..|b| - 1], project, hour);
      assert (a + b)[..|a + b| - 1] == a + b[..|b| - 1];
    }
  }

  lemma {:induction false} SelectedRows(batch: seq<LogRecord>, project: string, hour: int)
    ensures SelectedIn(batch, ProjectHour(project, hour), LogEventCount) == LogRowsIn(batch, project, hour)
  {
    if batch != [] { SelectedRows(batch[..|batch| - 1], project, hour); }
  }

  /** Conservation: in every project and hour the log counter and the stored log rows grow by
      the same amount over any run, refused batches and event ingests included. */
  lemma {:induction false} LogCounterCountsRows(u: Usage, p: Policies, run: seq<Action>, orgOf: string -> string,
                                                project: string, hour: int)
    requires Consistent(u.buckets, orgOf)
    requires forall i :: 0 <= i < |run| ==> Scoped(run[i], orgOf)
    ensures
      var after := PerformAll(u, p, run);
      && Consistent(after.buckets, orgOf)
      && Total(after.buckets, ProjectHour(project, hour), LogEventCount) + LogRowsIn(u.logRows, project, hour)
         == Total(u.buckets, ProjectHour(project, hour), LogEventCount) + LogRowsIn(after.logRows, project, hour)
  {
    if run != [] {
      var front, a := run[..|run| - 1], run[|run| - 1];
      LogCounterCountsRows(u, p, front, orgOf, project, hour);
      var before := PerformAll(u, p, front);
      PerformKeepsConsistent(before, p, a, orgOf);
      match a
      case Logs(batch) =>
        AppendAllAdds(before, batch, orgOf, ProjectHour(project, hour), LogEventCount);
        SelectedRows(batch, project, hour);
        LogRowsConcat(before.logRows, batch, project, hour);
      case Ingest(e) =>
        UpsertAdds(before.buckets, EventIncrement(e), orgOf, ProjectHour(project, hour), LogEventCount);
    }
  }
}

/** What is admitted is counted: the growth of every counter, in numbers, for events and for log
    batches, and how many new events a day has places for. */
module UsageCounting {
  import opened Prelude
  import opened QuotaRules
  import opened UsageAccounting

  function If(condition: bool, n: nat): nat {
    if condition then n else 0
  }

  // ---- one row per project and hour ----

  predicate OneRowEach(buckets: seq<Bucket>) {
    forall i, j :: 0 <= i < j < |buckets| ==>
      buckets[i].projectId != buckets[j].projectId || buckets[i].hour != buckets[j].hour
  }

  function RowAt(buckets: seq<Bucket>, project: string, hour: int): Option<Bucket> {
    if buckets == [] then None
    else if buckets[0].projectId == project && buckets[0].hour == hour then Some(buckets[0])
    else RowAt(buckets[1..], project, hour)
  }

  lemma {:induction false} RowAtIsThere(buckets: seq<Bucket>, project: string, hour: int)
    ensures RowAt(buckets, project, hour) == None
        <==> forall i :: 0 <= i < |buckets| ==> buckets[i].projectId != project || buckets[i].hour != hour
  {
    if buckets != [] {
      RowAtIsThere(buckets[1..], project, hour);
      assert forall i :: 1 <= i < |buckets| ==> buckets[i] == buckets[1..][i - 1];
    }
  }

  /** An upsert inserts the row of its project and hour or adds to it, all four counters, and
      leaves every other row; there is never a second row for one project and hour. */
  lemma {:induction false} UpsertIsOneRow(buckets: seq<Bucket>, add: Bucket, project: string, hour: int)
    requires OneRowEach(buckets)
    ensures OneRowEach(Upsert(buckets, add))
    ensures project != add.projectId || hour != add.hour ==>
              RowAt(Upsert(buckets, add), project, hour) == RowAt(buckets, project, hour)
    ensures RowAt(buckets, add.projectId, add.hour) == None ==> RowAt(Upsert(buckets, add), add.projectId, add.hour) == Some(add)
    ensures RowAt(buckets, add.projectId, add.hour).Some? ==>
              && var was := RowAt(buckets, add.projectId, add.hour).value;
                 RowAt(Upsert(buckets, add), add.projectId, add.hour)
                 == Some(Bucket(was.organizationId, add.projectId, add.hour, was.events + add.events,
                                was.issueEvents + add.issueEvents, was.transactionEvents + add.transactionEvents,
                                was.logs + add.logs))
  {
    if buckets != [] && !(buckets[0].projectId == add.projectId && buckets[0].hour == add.hour) {
      var rest := Upsert(buckets[1..], add);
      UpsertIsOneRow(buckets[1..], add, project, hour);
      UpsertIsOneRow(buckets[1..], add, buckets[0].projectId, buckets[0].hour);
      RowAtIsThere(buckets[1..], buckets[0].projectId, buckets[0].hour);
      RowAtIsThere(rest, buckets[0].projectId, buckets[0].hour);
      assert ([buckets[0]] + rest)[1..] == rest;
    } else if buckets != [] {
      var after := Upsert(buckets, add);
      assert after[1..] == buckets[1..];
    }
  }

  // ---- one event ----

  predicate OfDay(e: Event, org: string, day: int) {
    e.organizationId == org && DayOf(e.receivedAt) == day
  }

  predicate OfProjectDay(e: Event, org: string, project: string, day: int) {
    OfDay(e, org, day) && e.projectId == project
  }

  lemma HourOfInstant(t: int, hour: int)
    ensures HourStart(t) == hour <==> hour % 3600 == 0 && hour <= t < hour + 3600
  {
    HourAndDayOf(t);
  }

  predicate OfHour(e: Event, project: string, hour: int) {
    e.projectId == project && hour % 3600 == 0 && hour <= e.receivedAt < hour + 3600
  }

  // The four counters of one sum after the event; `own` when the sum is over its scope and day.
  predicate CountedIn(u: Usage, after: Usage, sel: Selector, own: bool, e: Event) {
    && Total(after.buckets, sel, EventCount) == Total(u.buckets, sel, EventCount) + If(own, 1)
    && Total(after.buckets, sel, IssueEventCount)
       == Total(u.buckets, sel, IssueEventCount) + If(own && e.createsIssue, 1)
    && Total(after.buckets, sel, TransactionEventCount)
       == Total(u.buckets, sel, TransactionEventCount) + If(own && e.isTransaction, 1)
    && Total(after.buckets, sel, LogEventCount) == Total(u.buckets, sel, LogEventCount)
  }

  // After it every day's and hour's sums are those before it and one more event of its own scope.
  ghost predicate CountedOnce(u: Usage, e: Event, after: Usage) {
    && after.logRows == u.logRows
    && (forall org, day ::
          CountedIn(u, after, OrganizationDay(org, day), OfDay(e, org, day), e))
    && (forall org, project, day ::
          CountedIn(u, after, ProjectDay(org, project, day), OfProjectDay(e, org, project, day), e))
    && (forall project, hour :: CountedIn(u, after, ProjectHour(project, hour), OfHour(e, project, hour), e))
  }

  lemma UpsertCountsIn(u: Usage, e: Event, orgOf: string -> string, sel: Selector, own: bool)
    requires e.organizationId == orgOf(e.projectId) && Consistent(u.buckets, orgOf)
    requires Selects(sel, EventIncrement(e)) <==> own
    ensures CountedIn(u, u.(buckets := Upsert(u.buckets, EventIncrement(e))), sel, own, e)
  {
    UpsertAdds(u.buckets, EventIncrement(e), orgOf, sel, EventCount);
    UpsertAdds(u.buckets, EventIncrement(e), orgOf, sel, IssueEventCount);
    UpsertAdds(u.buckets, EventIncrement(e), orgOf, sel, TransactionEventCount);
    UpsertAdds(u.buckets, EventIncrement(e), orgOf, sel, LogEventCount);
  }

  lemma UpsertedEventIsCounted(u: Usage, e: Event, orgOf: string -> string)
    requires e.organizationId == orgOf(e.projectId) && Consistent(u.buckets, orgOf)
    ensures CountedOnce(u, e, u.(buckets := Upsert(u.buckets, EventIncrement(e))))
  {
    var after := u.(buckets := Upsert(u.buckets, EventIncrement(e)));
    forall org, day
      ensures CountedIn(u, after, OrganizationDay(org, day), OfDay(e, org, day), e)
    {
      HourIsInItsDay(e.receivedAt, day);
      UpsertCountsIn(u, e, orgOf, OrganizationDay(org, day), OfDay(e, org, day));
    }
    forall org, project, day
      ensures CountedIn(u, after, ProjectDay(org, project, day), OfProjectDay(e, org, project, day), e)
    {
      HourIsInItsDay(e.receivedAt, day);
      UpsertCountsIn(u, e, orgOf, ProjectDay(org, project, day), OfProjectDay(e, org, project, day));
    }
    forall project, hour
      ensures CountedIn(u, after, ProjectHour(project, hour), OfHour(e, project, hour), e)
    {
      HourOfInstant(e.receivedAt, hour);
      UpsertCountsIn(u, e, orgOf, ProjectHour(project, hour), OfHour(e, project, hour));
    }
  }

  /** A new event is admitted exactly when its day has room for one more, and is then counted once
      in its own organization and project on that day and nowhere else; an event that is known
      or refused changes nothing. */
  lemma AdmittedEventIsCounted(u: Usage, p: Policies, e: Event, orgOf: string -> string)
    requires e.organizationId == orgOf(e.projectId) && Consistent(u.buckets, orgOf)
    requires WithinLimits(u, p) && Representable(p, 1)
    ensures
      var room := HasRoom(u, p, e.organizationId, e.projectId, DayOf(e.receivedAt), 1);
      && (!e.known && room ==> CountedOnce(u, e, IngestEvent(u, p, e)))
      && (e.known || !room ==> IngestEvent(u, p, e) == u)
  {
    RoomInNumbers(u, p, e.organizationId, e.projectId, e.receivedAt, 1);
    UpsertedEventIsCounted(u, e, orgOf);
  }

  // ---- as many as there are places ----

  // New events of one scope and day.
  predicate NewOfDay(events: seq<Event>, org: string, project: string, day: int) {
    forall i :: 0 <= i < |events| ==>
      && events[i].organizationId == org && events[i].projectId == project
      && DayOf(events[i].receivedAt) == day && !events[i].known
  }

  function Ingests(events: seq<Event>): (run: seq<Action>)
    ensures |run| == |events| && forall i :: 0 <= i < |run| ==> run[i] == Ingest(events[i])
  {
    seq(|events|, i requires 0 <= i < |events| => Ingest(events[i]))
  }

  predicate HasPlaces(u: Usage, p: Policies, org: string, project: string, day: int, k: nat) {
    HasRoom(u, p, org, project, day, k) && !HasRoom(u, p, org, project, day, k + 1)
  }

  // m new events of this scope and day have been counted.
  predicate Grown(u: Usage, after: Usage, org: string, project: string, day: int, m: nat) {
    && Total(after.buckets, OrganizationDay(org, day), EventCount)
       == Total(u.buckets, OrganizationDay(org, day), EventCount) + m
    && Total(after.buckets, ProjectDay(org, project, day), EventCount)
       == Total(u.buckets, ProjectDay(org, project, day), EventCount) + m
  }

  lemma RoomAfterGrowth(u: Usage, after: Usage, p: Policies, org: string, project: string, day: int, m: nat, n: nat)
    requires Grown(u, after, org, project, day, m)
    ensures HasRoom(after, p, org, project, day, n) <==> HasRoom(u, p, org, project, day, m + n)
  {
  }

  lemma {:induction false} PlacesFill(u: Usage, p: Policies, events: seq<Event>, orgOf: string -> string,
                                      org: string, project: string, day: int, m: nat)
    requires Consistent(u.buckets, orgOf) && WithinLimits(u, p) && Representable(p, 1)
    requires org == orgOf(project) && NewOfDay(events, org, project, day)
    requires m <= |events| && HasRoom(u, p, org, project, day, m)
    requires m < |events| ==> !HasRoom(u, p, org, project, day, m + 1)
    ensures Grown(u, PerformAll(u, p, Ingests(events)), org, project, day, m)
  {
    if events != [] {
      var front, e := events[..|events| - 1], events[|events| - 1];
      var before := PerformAll(u, p, Ingests(front));
      assert Ingests(events)[..|events| - 1] == Ingests(front);
      assert forall i :: 0 <= i < |front| ==> front[i] == events[i];
      QuotaIsNeverExceeded(u, p, Ingests(front), orgOf, 1);
      var grown := if m == |events| then m - 1 else m;
      PlacesFill(u, p, front, orgOf, org, project, day, grown);
      RoomAfterGrowth(u, before, p, org, project, day, grown, 1);
      AdmittedEventIsCounted(before, p, e, orgOf);
    }
  }

  /** Of any number of new events of one scope and day exactly as many get in as the day has places
      left, and all of them while it has room. */
  lemma DayTakesExactlyItsPlaces(u: Usage, p: Policies, events: seq<Event>, orgOf: string -> string,
                                 org: string, project: string, day: int, k: nat)
    requires Consistent(u.buckets, orgOf) && WithinLimits(u, p) && Representable(p, 1)
    requires org == orgOf(project) && NewOfDay(events, org, project, day)
    ensures HasPlaces(u, p, org, project, day, k) ==>
              Grown(u, PerformAll(u, p, Ingests(events)), org, project, day, if |events| < k then |events| else k)
    ensures HasRoom(u, p, org, project, day, |events|) ==>
              Grown(u, PerformAll(u, p, Ingests(events)), org, project, day, |events|)
  {
    if HasRoom(u, p, org, project, day, |events|) {
      PlacesFill(u, p, events, orgOf, org, project, day, |events|);
    }
    if HasPlaces(u, p, org, project, day, k) {
      PlacesFill(u, p, events, orgOf, org, project, day, if |events| < k then |events| else k);
    }
  }

  // ---- log batches ----

  function CountOnDay(batch: seq<LogRecord>, day: int): nat {
    if batch == [] then 0
    else CountOnDay(batch[..|batch| - 1], day) + If(DayOf(batch[|batch| - 1].receivedAt) == day, 1)
  }

  function CountInHour(batch: seq<LogRecord>, hour: int): nat {
    if batch == [] then 0
    else CountInHour(batch[..|batch| - 1], hour)
         + If(hour % 3600 == 0 && hour <= batch[|batch| - 1].receivedAt < hour + 3600, 1)
  }

  predicate AllOf(batch: seq<LogRecord>, org: string, project: string) {
    forall i :: 0 <= i < |batch| ==> batch[i].organizationId == org && batch[i].projectId == project
  }

  function LogCounter(c: Counter, n: nat): nat {
    match c
    case EventCount => n
    case LogEventCount => n
    case IssueEventCount => 0
    case TransactionEventCount => 0
  }

  lemma {:induction false} DaysOfBatch(batch: seq<LogRecord>, org: string, project: string, sel: Selector, c: Counter)
    requires AllOf(batch, org, project) && !sel.ProjectHour?
    ensures SelectedIn(batch, sel, c)
         == If(sel.organizationId == org && (sel.ProjectDay? ==> sel.projectId == project),
               LogCounter(c, CountOnDay(batch, sel.day)))
  {
    if batch != [] {
      DaysOfBatch(batch[..|batch| - 1], org, project, sel, c);
      HourIsInItsDay(batch[|batch| - 1].receivedAt, sel.day);
    }
  }

  lemma {:induction false} HoursOfBatch(batch: seq<LogRecord>, org: string, project: string, other: string, hour: int, c: Counter)
    requires AllOf(batch, org, project)
    ensures SelectedIn(batch, ProjectHour(other, hour), c) == If(other == project, LogCounter(c, CountInHour(batch, hour)))
  {
    if batch != [] {
      HoursOfBatch(batch[..|batch| - 1], org, project, other, hour, c);
      HourOfInstant(batch[|batch| - 1].receivedAt, hour);
    }
  }

  // By how much a counter of a sum grows when the batch is stored.
  function LogGrowth(batch: seq<LogRecord>, sel: Selector, c: Counter): nat
    requires batch != []
  {
    match sel
    case OrganizationDay(org, day) =>
      If(org == batch[0].organizationId, LogCounter(c, CountOnDay(batch, day)))
    case ProjectDay(org, project, day) =>
      If(org == batch[0].organizationId && project == batch[0].projectId, LogCounter(c, CountOnDay(batch, day)))
    case ProjectHour(project, hour) =>
      If(project == batch[0].projectId, LogCounter(c, CountInHour(batch, hour)))
  }

  /** An allowed batch is counted record by record: on each day and in each hour the event and log
      counters of its scope grow by the records received then, the others and all other scopes
      stay; a refused batch changes nothing. */
  lemma AllowedBatchIsCounted(u: Usage, p: Policies, batch: seq<LogRecord>, orgOf: string -> string, sel: Selector, c: Counter)
    requires OneScope(batch) && BatchConsistent(batch, orgOf) && Consistent(u.buckets, orgOf)
    ensures BatchDecision(u, p, batch).Rejected? ==> IngestBatch(u, p, batch) == u
    ensures BatchDecision(u, p, batch).Allowed? ==> IngestBatch(u, p, batch).logRows == u.logRows + batch
    ensures BatchDecision(u, p, batch).Allowed? ==>
              Total(IngestBatch(u, p, batch).buckets, sel, c) == Total(u.buckets, sel, c) + LogGrowth(batch, sel, c)
  {
    var org, project := batch[0].organizationId, batch[0].projectId;
    AppendAllAdds(u, batch, orgOf, sel, c);
    if sel.ProjectHour? {
      HoursOfBatch(batch, org, project, sel.projectId, sel.hour, c);
    } else {
      DaysOfBatch(batch, org, project, sel, c);
    }
  }

  // ---- unique rows over runs ----

  lemma {:induction false} AppendKeepsOneRow(u: Usage, batch: seq<LogRecord>)
    requires OneRowEach(u.buckets)
    ensures OneRowEach(AppendAll(u, batch).buckets)
  {
    if batch != [] {
      AppendKeepsOneRow(u, batch[..|batch| - 1]);
      UpsertIsOneRow(AppendAll(u, batch[..|batch| - 1]).buckets, LogIncrement(batch[|batch| - 1]), "", 0);
    }
  }

  /** Over any run there is at most one bucket for a project and hour. */
  lemma {:induction false} OneRowAlways(u: Usage, p: Policies, run: seq<Action>)
    requires OneRowEach(u.buckets)
    ensures OneRowEach(PerformAll(u, p, run).buckets)
  {
    if run != [] {
      var front, a := run[..|run| - 1], run[|run| - 1];
      OneRowAlways(u, p, front);
      var before := PerformAll(u, p, front);
      match a
      case Logs(batch) => AppendKeepsOneRow(before, batch);
      case Ingest(e) => UpsertIsOneRow(before.buckets, EventIncrement(e), "", 0);
    }
  }
}

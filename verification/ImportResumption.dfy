/** Resuming an import: attempts that stop with an error, then the same command again. When the
    result is that of one uninterrupted run, read off the rows of the command alone. */
module ImportResumption {
  import opened Prelude
  import opened ImportLedger

  predicate Settled(v: View, key: RecordKey) {
    key in v.statuses && v.statuses[key] != Failed
  }

  predicate SameEvent(rows: seq<Row>, i: nat, j: nat)
    requires i < |rows| && j < |rows|
  {
    rows[i].record.event == rows[j].record.event
  }

  predicate SameKey(rows: seq<Row>, i: nat, j: nat)
    requires i < |rows| && j < |rows|
  {
    rows[i].record.key == rows[j].record.key
  }

  // No row before n gets this key past the quota gate.
  predicate RejectedBefore(rows: seq<Row>, n: nat, key: RecordKey) {
    forall m :: 0 <= m < n && m < |rows| && rows[m].record.key == key ==> rows[m].rejected
  }

  // After row j the key brings this event again before any of its rows is admitted, so the
  // key ends as a duplicate in any case.
  predicate BringsAgain(rows: seq<Row>, j: nat, key: RecordKey, event: EventKey) {
    exists m :: j < m < |rows| && rows[m].record.key == key && rows[m].record.event == event
                && forall l :: j < l < m && rows[l].record.key == key ==> rows[l].rejected
  }

  // Row i is rejected and row j then brings its event under another key: an attempt that stops
  // in between leaves i's key failed, and the next one finds its event there.
  predicate Trap(rows: seq<Row>, i: nat, j: nat) {
    && i < j < |rows| && SameEvent(rows, i, j) && !SameKey(rows, i, j)
    && rows[i].rejected && !rows[j].rejected
    && RejectedBefore(rows, j, rows[i].record.key) && RejectedBefore(rows, j, rows[j].record.key)
    && !BringsAgain(rows, j, rows[i].record.key, rows[i].record.event)
  }

  predicate Breaks(rows: seq<Row>) {
    exists i, j :: 0 <= i < |rows| && 0 <= j < |rows| && Trap(rows, i, j)
  }

  ghost predicate AlwaysResumes(rows: seq<Row>) {
    forall v: View, k: nat :: k <= |rows| ==> RunView(RunView(v, rows[..k]), rows) == RunView(v, rows)
  }

  // ---- what one run did to a key ----

  lemma NextView(v: View, rows: seq<Row>, n: nat)
    requires n < |rows|
    ensures RunView(v, rows[..n + 1]) == RowStep(RunView(v, rows[..n]), rows[n])
  {
    var next := rows[..n + 1];
    assert next[..|next| - 1] == rows[..n];
  }

  lemma {:induction false} LaterView(v: View, rows: seq<Row>, m: nat, n: nat)
    requires m <= n <= |rows|
    ensures RunView(v, rows[..m]).journal <= RunView(v, rows[..n]).journal
    ensures RunView(v, rows[..m]).statuses.Keys <= RunView(v, rows[..n]).statuses.Keys
    ensures forall key :: Settled(RunView(v, rows[..m]), key) ==>
              Settled(RunView(v, rows[..n]), key)
              && RunView(v, rows[..n]).statuses[key] == RunView(v, rows[..m]).statuses[key]
  {
    if m < n {
      LaterView(v, rows, m, n - 1);
      NextView(v, rows, n - 1);
    }
  }

  // Rows of a key that is still unsettled were turned away, and their events were new then.
  lemma UnsettledRowFailed(v: View, rows: seq<Row>, n: nat, m: nat)
    requires m < n <= |rows| && !Settled(RunView(v, rows[..n]), rows[m].record.key)
    ensures rows[m].rejected && rows[m].record.event !in RunView(v, rows[..m]).journal
    ensures rows[m].record.key in RunView(v, rows[..n]).statuses
  {
    NextView(v, rows, m);
    LaterView(v, rows, m, n);
    LaterView(v, rows, m + 1, n);
  }

  lemma {:induction false} EventWasApplied(v: View, rows: seq<Row>, m: nat, n: nat, event: EventKey) returns (y: nat)
    requires m <= n <= |rows|
    requires event !in RunView(v, rows[..m]).journal && event in RunView(v, rows[..n]).journal
    ensures m <= y < n && rows[y].record.event == event
    ensures RowOutcome(RunView(v, rows[..y]), rows[y]) == Applied
  {
    NextView(v, rows, n - 1);
    if event in RunView(v, rows[..n - 1]).journal {
      y := EventWasApplied(v, rows, m, n - 1, event);
    } else {
      y := n - 1;
    }
  }

  // ---- a rerun that differs has met a trap ----

  // The key failed before the stop, and the stopped attempt also accepted one of its events.
  predicate Exposed(v: View, rows: seq<Row>, k: nat, x: nat, key: RecordKey) {
    && x < k <= |rows| && rows[x].record.key == key
    && rows[x].record.event in RunView(v, rows[..k]).journal
  }

  lemma ExposedIsTrap(v: View, rows: seq<Row>, k: nat, x: nat, n: nat)
    requires k <= n <= |rows| && x < k && Exposed(v, rows, k, x, rows[x].record.key)
    requires !Settled(RunView(v, rows[..n]), rows[x].record.key)
    requires n < |rows| ==> SameKey(rows, n, x) && RowOutcome(RunView(v, rows[..n]), rows[n]) == Applied
    ensures Breaks(rows)
  {
    var key, event := rows[x].record.key, rows[x].record.event;
    UnsettledRowFailed(v, rows, n, x);
    var y := EventWasApplied(v, rows, x, k, event);
    NextView(v, rows, y);
    LaterView(v, rows, y + 1, n);
    assert rows[y].record.key != key;
    forall m | 0 <= m < y && rows[m].record.key == key
      ensures rows[m].rejected
    {
      UnsettledRowFailed(v, rows, n, m);
    }
    forall m | 0 <= m < y && rows[m].record.key == rows[y].record.key
      ensures rows[m].rejected
    {
      UnsettledRowFailed(v, rows, y, m);
    }
    NotBroughtAgain(v, rows, x, y, n);
    assert Trap(rows, x, y);
  }

  lemma NotBroughtAgain(v: View, rows: seq<Row>, x: nat, y: nat, n: nat)
    requires x < |rows| && y < n <= |rows|
    requires rows[x].record.event in RunView(v, rows[..y + 1]).journal
    requires !Settled(RunView(v, rows[..n]), rows[x].record.key)
    requires n < |rows| ==> SameKey(rows, n, x) && RowOutcome(RunView(v, rows[..n]), rows[n]) == Applied
    ensures !BringsAgain(rows, y, rows[x].record.key, rows[x].record.event)
  {
    var key, event := rows[x].record.key, rows[x].record.event;
    forall m | y < m < |rows| && rows[m].record.key == key && rows[m].record.event == event
      ensures exists l :: y < l < m && rows[l].record.key == key && !rows[l].rejected
    {
      if m < n {
        UnsettledRowFailed(v, rows, n, m);
        LaterView(v, rows, y + 1, m);
        assert false;
      } else {
        LaterView(v, rows, y + 1, n);
        assert m != n && rows[n].record.key == key && !rows[n].rejected;
      }
    }
  }

  // ---- the rerun, row by row ----

  // The rerun has the same journal and statuses as the run it repeats, but that keys the
  // latter left failed may be duplicates already.
  ghost predicate Ahead(v: View, rows: seq<Row>, k: nat, u: View, r: View) {
    && u.journal == r.journal && u.statuses.Keys == r.statuses.Keys
    && forall key :: key in u.statuses ==> u.statuses[key] == r.statuses[key] || Lagging(v, rows, k, u, r, key)
  }

  ghost predicate Lagging(v: View, rows: seq<Row>, k: nat, u: View, r: View, key: RecordKey) {
    && key in u.statuses && key in r.statuses
    && u.statuses[key] == Failed && r.statuses[key] == Duplicate
    && exists x: nat :: Exposed(v, rows, k, x, key)
  }

  lemma {:induction false} SeenKeys(v: View, rows: seq<Row>, n: nat, m: nat)
    requires m < n <= |rows|
    ensures rows[m].record.key in RunView(v, rows[..n]).statuses
  {
    NextView(v, rows, m);
    LaterView(v, rows, m + 1, n);
  }

  // Repeating the rows before the stop.
  lemma {:induction false} RepeatedRows(v: View, rows: seq<Row>, k: nat, n: nat)
    requires n <= k <= |rows|
    ensures Ahead(v, rows, k, RunView(v, rows[..k]), RunView(RunView(v, rows[..k]), rows[..n]))
  {
    var stopped := RunView(v, rows[..k]);
    if n > 0 {
      RepeatedRows(v, rows, k, n - 1);
      NextView(stopped, rows, n - 1);
      SeenKeys(v, rows, k, n - 1);
      if !Settled(stopped, rows[n - 1].record.key) { UnsettledRowFailed(v, rows, k, n - 1); }
      RepeatedRow(v, rows, k, n - 1, RunView(stopped, rows[..n - 1]));
    }
  }

  lemma RepeatedRow(v: View, rows: seq<Row>, k: nat, n: nat, r: View)
    requires n < k <= |rows| && Ahead(v, rows, k, RunView(v, rows[..k]), r)
    requires rows[n].record.key in RunView(v, rows[..k]).statuses
    requires Settled(RunView(v, rows[..k]), rows[n].record.key) || rows[n].rejected
    ensures Ahead(v, rows, k, RunView(v, rows[..k]), RowStep(r, rows[n]))
  {
    var key := rows[n].record.key;
    if rows[n].record.event in r.journal { assert Exposed(v, rows, k, n, key); }
  }

  lemma LaggingIsNotApplied(v: View, rows: seq<Row>, k: nat, n: nat, r: View)
    requires k <= n < |rows| && !Breaks(rows)
    ensures Lagging(v, rows, k, RunView(v, rows[..n]), r, rows[n].record.key)
        ==> RowOutcome(RunView(v, rows[..n]), rows[n]) != Applied
  {
    var u, key := RunView(v, rows[..n]), rows[n].record.key;
    if Lagging(v, rows, k, u, r, key) && RowOutcome(u, rows[n]) == Applied {
      var x: nat :| Exposed(v, rows, k, x, key);
      ExposedIsTrap(v, rows, k, x, n);
    }
  }

  // The rows after the stop.
  lemma {:induction false} RemainingRows(v: View, rows: seq<Row>, k: nat, n: nat)
    requires k <= n <= |rows| && !Breaks(rows)
    ensures Ahead(v, rows, k, RunView(v, rows[..n]), RunView(RunView(v, rows[..k]), rows[..n]))
  {
    if n == k {
      RepeatedRows(v, rows, k, n);
    } else {
      RemainingRows(v, rows, k, n - 1);
      RemainingStep(v, rows, k, n - 1);
    }
  }

  lemma RemainingStep(v: View, rows: seq<Row>, k: nat, n: nat)
    requires k <= n < |rows| && !Breaks(rows)
    requires Ahead(v, rows, k, RunView(v, rows[..n]), RunView(RunView(v, rows[..k]), rows[..n]))
    ensures Ahead(v, rows, k, RunView(v, rows[..n + 1]), RunView(RunView(v, rows[..k]), rows[..n + 1]))
  {
    var u, r := RunView(v, rows[..n]), RunView(RunView(v, rows[..k]), rows[..n]);
    LaggingIsNotApplied(v, rows, k, n, r);
    RemainingRow(v, rows, k, n, u, r);
    NextView(v, rows, n);
    NextView(RunView(v, rows[..k]), rows, n);
  }

  lemma RemainingRow(v: View, rows: seq<Row>, k: nat, n: nat, u: View, r: View)
    requires n < |rows| && Ahead(v, rows, k, u, r)
    requires Lagging(v, rows, k, u, r, rows[n].record.key) ==> RowOutcome(u, rows[n]) != Applied
    ensures Ahead(v, rows, k, RowStep(u, rows[n]), RowStep(r, rows[n]))
  {
  }

  /** Without a trap among its rows, stopping at any row and running the whole command again
      ends where one run would have. */
  lemma RerunAfterPrefix(v: View, rows: seq<Row>, k: nat)
    requires k <= |rows| && !Breaks(rows)
    ensures RunView(RunView(v, rows[..k]), rows) == RunView(v, rows)
  {
    RemainingRows(v, rows, k, |rows|);
    assert rows[..|rows|] == rows;
    var u, r := RunView(v, rows), RunView(RunView(v, rows[..k]), rows);
    forall key | key in u.statuses
      ensures u.statuses[key] == r.statuses[key]
    {
      if Lagging(v, rows, k, u, r, key) {
        var x: nat :| Exposed(v, rows, k, x, key);
        ExposedIsTrap(v, rows, k, x, |rows|);
      }
    }
    assert u.statuses == r.statuses;
  }

  // ---- a trap makes some rerun differ ----

  function KeysOf(rows: seq<Row>): set<RecordKey> {
    set i | 0 <= i < |rows| :: rows[i].record.key
  }

  // Nothing accepted yet, and every key but these two long applied.
  function OthersApplied(rows: seq<Row>, a: RecordKey, b: RecordKey): View {
    View(map key | key in KeysOf(rows) && key != a && key != b :: Applied, {})
  }

  predicate OthersSettled(v: View, rows: seq<Row>, a: RecordKey, b: RecordKey) {
    forall m :: 0 <= m < |rows| && rows[m].record.key != a && rows[m].record.key != b ==> Settled(v, rows[m].record.key)
  }

  // Where the uninterrupted run is, n rows in and not beyond the trap.
  predicate Untouched(rows: seq<Row>, i: nat, j: nat, u: View, n: nat)
    requires i < |rows| && j < |rows|
  {
    var a, b := rows[i].record.key, rows[j].record.key;
    && u.journal == {} && OthersSettled(u, rows, a, b)
    && !Settled(u, a) && !Settled(u, b) && (i < n ==> a in u.statuses)
  }

  lemma OthersAppliedIsUntouched(rows: seq<Row>, i: nat, j: nat)
    requires i < |rows| && j < |rows|
    ensures Untouched(rows, i, j, OthersApplied(rows, rows[i].record.key, rows[j].record.key), 0)
  {
    var a, b := rows[i].record.key, rows[j].record.key;
    forall m | 0 <= m < |rows| && rows[m].record.key != a && rows[m].record.key != b
      ensures Settled(OthersApplied(rows, a, b), rows[m].record.key)
    {
      assert rows[m].record.key in KeysOf(rows);
    }
  }

  lemma UntouchedRow(rows: seq<Row>, i: nat, j: nat, u: View, n: nat)
    requires Trap(rows, i, j) && n < j && Untouched(rows, i, j, u, n)
    ensures Untouched(rows, i, j, RowStep(u, rows[n]), n + 1)
  {
  }

  lemma {:induction false} BeforeTrap(rows: seq<Row>, i: nat, j: nat, v: View, n: nat)
    requires Trap(rows, i, j) && n <= j && Untouched(rows, i, j, v, 0)
    ensures Untouched(rows, i, j, RunView(v, rows[..n]), n)
  {
    if n > 0 {
      BeforeTrap(rows, i, j, v, n - 1);
      NextView(v, rows, n - 1);
      UntouchedRow(rows, i, j, RunView(v, rows[..n - 1]), n - 1);
    }
  }

  // All keys but one are settled.
  predicate OnlyOpen(v: View, rows: seq<Row>, a: RecordKey) {
    forall m :: 0 <= m < |rows| && rows[m].record.key != a ==> Settled(v, rows[m].record.key)
  }

  // Only the first key is open, failed, and its event is the one accepted.
  predicate Sprung(rows: seq<Row>, i: nat, u: View)
    requires i < |rows|
  {
    && u.journal == {rows[i].record.event} && OnlyOpen(u, rows, rows[i].record.key)
    && Has(u, rows[i].record.key, Failed)
  }

  lemma AtTrap(rows: seq<Row>, i: nat, j: nat, v: View)
    requires Trap(rows, i, j) && Untouched(rows, i, j, v, 0)
    ensures Sprung(rows, i, RunView(v, rows[..j + 1]))
  {
    BeforeTrap(rows, i, j, v, j);
    NextView(v, rows, j);
  }

  // Where the uninterrupted run may be, n rows in: never with the first key a duplicate.
  predicate StillOpen(rows: seq<Row>, i: nat, j: nat, u: View, n: nat)
    requires i < |rows| && n <= |rows|
  {
    && Sprung(rows, i, u)
    && forall l :: j < l < n && rows[l].record.key == rows[i].record.key ==> rows[l].rejected
  }

  lemma GoingOnRow(rows: seq<Row>, i: nat, j: nat, u: View, n: nat)
    requires Trap(rows, i, j) && j < n < |rows| && StillOpen(rows, i, j, u, n)
    ensures StillOpen(rows, i, j, RowStep(u, rows[n]), n + 1)
            || Has(RowStep(u, rows[n]), rows[i].record.key, Applied)
  {
    if rows[n].record.key == rows[i].record.key {
      assert rows[n].record.event != rows[i].record.event;
    }
  }

  lemma AppliedStays(u: View, row: Row, key: RecordKey)
    requires Has(u, key, Applied)
    ensures Has(RowStep(u, row), key, Applied)
  {
  }

  lemma {:induction false} GoingOn(rows: seq<Row>, i: nat, j: nat, v: View, n: nat)
    requires Trap(rows, i, j) && j < n <= |rows| && Sprung(rows, i, RunView(v, rows[..j + 1]))
    ensures Has(RunView(v, rows[..n]), rows[i].record.key, Applied) || StillOpen(rows, i, j, RunView(v, rows[..n]), n)
  {
    if n > j + 1 {
      GoingOn(rows, i, j, v, n - 1);
      NextView(v, rows, n - 1);
      var u := RunView(v, rows[..n - 1]);
      if Has(u, rows[i].record.key, Applied) {
        AppliedStays(u, rows[n - 1], rows[i].record.key);
      } else {
        GoingOnRow(rows, i, j, u, n - 1);
      }
    }
  }

  // The rerun calls it one as soon as it comes to the first row again.
  lemma {:induction false} StartingOver(rows: seq<Row>, i: nat, j: nat, w: View, n: nat)
    requires Trap(rows, i, j) && n <= i + 1 && Sprung(rows, i, w)
    ensures
      var a, r := rows[i].record.key, RunView(w, rows[..n]);
      && OnlyOpen(r, rows, a) && r.journal == w.journal
      && (Has(r, a, Duplicate) || (n <= i && Has(r, a, Failed)))
  {
    if n > 0 {
      StartingOver(rows, i, j, w, n - 1);
      NextView(w, rows, n - 1);
      LaterView(w, rows, n - 1, n);
    } else {
      assert rows[..0] == [];
    }
  }

  lemma TrapBreaks(rows: seq<Row>, i: nat, j: nat)
    requires Trap(rows, i, j)
    ensures !AlwaysResumes(rows)
  {
    var a := rows[i].record.key;
    var v := OthersApplied(rows, a, rows[j].record.key);
    var w := RunView(v, rows[..j + 1]);
    OthersAppliedIsUntouched(rows, i, j);
    AtTrap(rows, i, j, v);
    assert rows[..|rows|] == rows;
    GoingOn(rows, i, j, v, |rows|);
    StartingOver(rows, i, j, w, i + 1);
    LaterView(w, rows, i + 1, |rows|);
    assert !Has(RunView(v, rows), a, Duplicate) && Has(RunView(w, rows), a, Duplicate);
  }

  /** Resuming at any row, from any earlier state, equals one uninterrupted run exactly when no
      two of the rows form a trap. */
  lemma ResumesExactly(rows: seq<Row>)
    ensures AlwaysResumes(rows) <==> !Breaks(rows)
  {
    if Breaks(rows) {
      var i, j :| 0 <= i < |rows| && 0 <= j < |rows| && Trap(rows, i, j);
      TrapBreaks(rows, i, j);
    } else {
      forall v: View, k: nat | k <= |rows|
        ensures RunView(RunView(v, rows[..k]), rows) == RunView(v, rows)
      {
        RerunAfterPrefix(v, rows, k);
      }
    }
  }

  // ---- any number of attempts ----

  // Attempts that each stop with an error at some row.
  function Interrupted(v: View, rows: seq<Row>, stops: seq<nat>): View
    requires forall i :: 0 <= i < |stops| ==> stops[i] <= |rows|
  {
    if stops == [] then v
    else
      var n := |stops| - 1;
      RunView(Interrupted(v, rows, stops[..n]), rows[..stops[n]])
  }

  /** Import resumption: however many attempts stop, and wherever, the attempt that gets through
      leaves the statuses and accepted events of one uninterrupted run. */
  lemma {:induction false} ResumedImportEqualsUninterrupted(v: View, rows: seq<Row>, stops: seq<nat>)
    requires !Breaks(rows)
    requires forall i :: 0 <= i < |stops| ==> stops[i] <= |rows|
    ensures RunView(Interrupted(v, rows, stops), rows) == RunView(v, rows)
  {
    if stops != [] {
      var n := |stops| - 1;
      ResumedImportEqualsUninterrupted(v, rows, stops[..n]);
      RerunAfterPrefix(Interrupted(v, rows, stops[..n]), rows, stops[n]);
    }
  }

  /** In particular without quota rejections, and when no event comes under two keys. */
  lemma UsualImportsResume(rows: seq<Row>)
    requires (forall i :: 0 <= i < |rows| ==> !rows[i].rejected)
          || (forall i, j :: 0 <= i < |rows| && 0 <= j < |rows| && SameEvent(rows, i, j) ==> SameKey(rows, i, j))
    ensures !Breaks(rows)
  {
  }

  /** The smallest trap: a rejected row, and its event again under another key. */
  lemma RejectionBreaksResumption(a: RecordKey, b: RecordKey, event: EventKey)
    requires a != b
    ensures Breaks([Row(ImportRecord(a, event), true), Row(ImportRecord(b, event), false)])
    ensures !AlwaysResumes([Row(ImportRecord(a, event), true), Row(ImportRecord(b, event), false)])
  {
    var rows := [Row(ImportRecord(a, event), true), Row(ImportRecord(b, event), false)];
    assert Trap(rows, 0, 1);
    TrapBreaks(rows, 0, 1);
  }
}

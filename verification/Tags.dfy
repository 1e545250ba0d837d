/** Tag normalisation: a loop over a map in whatever order the runtime picks, and when that
    order cannot be seen in the result. */
module Tags {
  import opened Text

  type TagMap = map<string, string>

  // A key and its value, both trimmed.
  datatype Entry = Entry(name: string, value: string)

  predicate Kept(e: Entry) {
    e.name != "" && e.value != ""
  }

  function EntryOf(tags: TagMap, key: string): Entry
    requires key in tags
  {
    Entry(TrimSpace(key), TrimSpace(tags[key]))
  }

  predicate KeysOf(tags: TagMap, order: seq<string>) {
    forall i :: 0 <= i < |order| ==> order[i] in tags
  }

  // An iteration order visits every key once.
  predicate IsOrder(tags: TagMap, order: seq<string>) {
    && KeysOf(tags, order)
    && (forall k {:trigger k in order} :: k in tags ==> k in order)
    && (forall i, j :: 0 <= i < j < |order| ==> order[i] != order[j])
  }

  function Entries(tags: TagMap, order: seq<string>): (es: seq<Entry>)
    requires KeysOf(tags, order)
    ensures |es| == |order| && forall i :: 0 <= i < |es| ==> es[i] == EntryOf(tags, order[i])
  {
    seq(|order|, i requires 0 <= i < |order| => EntryOf(tags, order[i]))
  }

  // Later entries overwrite earlier ones of the same name.
  function Merge(es: seq<Entry>): TagMap {
    if es == [] then map[]
    else
      var before, e := Merge(es[..|es| - 1]), es[|es| - 1];
      if Kept(e) then before[e.name := e.value] else before
  }

  function NormalizedTags(tags: TagMap, order: seq<string>): TagMap
    requires KeysOf(tags, order)
  {
    Merge(Entries(tags, order))
  }

  method NormalizeTags(tags: TagMap, order: seq<string>) returns (result: TagMap)
    requires IsOrder(tags, order)
    ensures result == NormalizedTags(tags, order)
  {
    result := map[];
    ghost var es := Entries(tags, order);
    for i := 0 to |order|
      invariant result == Merge(es[..i])
    {
      MergeStep(es, i);
      var key, value := order[i], tags[order[i]];
      var normalizedKey, normalizedValue := TrimSpace(key), TrimSpace(value);
      assert es[i] == Entry(normalizedKey, normalizedValue);
      if normalizedKey == "" || normalizedValue == "" { continue; }
      result := result[normalizedKey := normalizedValue];
    }
    assert es[..|order|] == es;
  }

  lemma MergeStep(es: seq<Entry>, i: nat)
    requires i < |es|
    ensures Merge(es[..i + 1]) ==
            if Kept(es[i]) then Merge(es[..i])[es[i].name := es[i].value] else Merge(es[..i])
  {
    assert es[..i + 1][..i] == es[..i];
  }

  // ---- merged entries ----

  ghost predicate Names(es: seq<Entry>, n: string) {
    exists i :: 0 <= i < |es| && Kept(es[i]) && es[i].name == n
  }

  lemma NamesLast(es: seq<Entry>, n: string)
    requires es != []
    ensures Names(es, n) <==> Names(es[..|es| - 1], n) || (Kept(es[|es| - 1]) && es[|es| - 1].name == n)
  {
  }

  lemma {:induction false} MergeNames(es: seq<Entry>, n: string)
    ensures n in Merge(es) <==> Names(es, n)
  {
    if es != [] {
      MergeNames(es[..|es| - 1], n);
      NamesLast(es, n);
    }
  }

  lemma {:induction false} MergeValues(es: seq<Entry>, n: string) returns (i: nat)
    requires n in Merge(es)
    ensures i < |es| && Kept(es[i]) && es[i] == Entry(n, Merge(es)[n])
  {
    var e := es[|es| - 1];
    if Kept(e) && e.name == n {
      i := |es| - 1;
    } else {
      i := MergeValues(es[..|es| - 1], n);
    }
  }

  predicate Clash(a: Entry, b: Entry) {
    Kept(a) && Kept(b) && a.name == b.name && a.value != b.value
  }

  predicate Covers(p: seq<Entry>, q: seq<Entry>) {
    forall i :: 0 <= i < |p| ==> p[i] in q
  }

  lemma CoveredNames(p: seq<Entry>, q: seq<Entry>, n: string)
    requires Covers(p, q) && n in Merge(p)
    ensures n in Merge(q)
  {
    var i := MergeValues(p, n);
    var j :| 0 <= j < |q| && q[j] == p[i];
    MergeNames(q, n);
  }

  lemma MergesAgree(p: seq<Entry>, q: seq<Entry>)
    requires Covers(p, q) && Covers(q, p)
    requires forall i, j :: 0 <= i < |p| && 0 <= j < |q| ==> !Clash(p[i], q[j])
    ensures Merge(p) == Merge(q)
  {
    forall n
      ensures n in Merge(p) <==> n in Merge(q)
    {
      if n in Merge(p) { CoveredNames(p, q, n); }
      if n in Merge(q) { CoveredNames(q, p, n); }
    }
    forall n | n in Merge(p)
      ensures Merge(p)[n] == Merge(q)[n]
    {
      var i := MergeValues(p, n);
      var j := MergeValues(q, n);
      assert !Clash(p[i], q[j]);
    }
  }

  // ---- the names ----

  // n is a trimmed key; neither it nor its trimmed value is blank.
  ghost predicate IsName(tags: TagMap, n: string) {
    exists k :: k in tags && Kept(EntryOf(tags, k)) && EntryOf(tags, k).name == n
  }

  /** Whatever the order, the names are the trimmed keys whose key and value are not blank. */
  lemma NamesIgnoreOrder(tags: TagMap, order: seq<string>, n: string)
    requires IsOrder(tags, order)
    ensures n in NormalizedTags(tags, order) <==> IsName(tags, n)
  {
    var es := Entries(tags, order);
    MergeNames(es, n);
    if Names(es, n) {
      var i :| 0 <= i < |es| && Kept(es[i]) && es[i].name == n;
      assert es[i] == EntryOf(tags, order[i]);
    }
    if IsName(tags, n) {
      var k :| k in tags && Kept(EntryOf(tags, k)) && EntryOf(tags, k).name == n;
      assert k in order;
      var i :| 0 <= i < |order| && order[i] == k;
      assert es[i] == EntryOf(tags, k);
    }
  }

  /** The value under a name is the trimmed value of the last visited key that trims to the name
      and carries one that is not blank. */
  lemma ValueIsFromLastKey(tags: TagMap, order: seq<string>, n: string) returns (i: nat)
    requires KeysOf(tags, order) && n in NormalizedTags(tags, order)
    ensures i < |order| && TrimSpace(order[i]) == n != ""
    ensures NormalizedTags(tags, order)[n] == TrimSpace(tags[order[i]]) != ""
    ensures forall j :: i < j < |order| ==> TrimSpace(order[j]) != n || TrimSpace(tags[order[j]]) == ""
  {
    var es := Entries(tags, order);
    i := MergeLastValue(es, n);
    assert es[i] == EntryOf(tags, order[i]);
    forall j | i < j < |order|
      ensures TrimSpace(order[j]) != n || TrimSpace(tags[order[j]]) == ""
    {
      assert es[j] == EntryOf(tags, order[j]);
    }
  }

  lemma {:induction false} MergeLastValue(es: seq<Entry>, n: string) returns (i: nat)
    requires n in Merge(es)
    ensures i < |es| && Kept(es[i]) && es[i] == Entry(n, Merge(es)[n])
    ensures forall j :: i < j < |es| ==> !(Kept(es[j]) && es[j].name == n)
  {
    var e := es[|es| - 1];
    if Kept(e) && e.name == n {
      i := |es| - 1;
    } else {
      i := MergeLastValue(es[..|es| - 1], n);
      assert forall j :: i < j < |es| - 1 ==> es[..|es| - 1][j] == es[j];
    }
  }

  // ---- the values ----

  // Two keys that trim alike carry different values, neither blank.
  ghost predicate Clashing(tags: TagMap) {
    exists a, b :: a in tags && b in tags && Clash(EntryOf(tags, a), EntryOf(tags, b))
  }

  ghost predicate OrderIsInvisible(tags: TagMap) {
    forall p, q :: IsOrder(tags, p) && IsOrder(tags, q) ==> NormalizedTags(tags, p) == NormalizedTags(tags, q)
  }

  lemma OrdersCover(tags: TagMap, p: seq<string>, q: seq<string>)
    requires IsOrder(tags, p) && IsOrder(tags, q)
    ensures Covers(Entries(tags, p), Entries(tags, q))
  {
    var es, fs := Entries(tags, p), Entries(tags, q);
    forall i | 0 <= i < |es|
      ensures es[i] in fs
    {
      assert p[i] in q;
      var j :| 0 <= j < |q| && q[j] == p[i];
      assert fs[j] == es[i];
    }
  }

  lemma SameWithoutClash(tags: TagMap, p: seq<string>, q: seq<string>)
    requires IsOrder(tags, p) && IsOrder(tags, q) && !Clashing(tags)
    ensures NormalizedTags(tags, p) == NormalizedTags(tags, q)
  {
    OrdersCover(tags, p, q);
    OrdersCover(tags, q, p);
    var es, fs := Entries(tags, p), Entries(tags, q);
    forall i, j | 0 <= i < |es| && 0 <= j < |fs|
      ensures !Clash(es[i], fs[j])
    {
      assert es[i] == EntryOf(tags, p[i]) && fs[j] == EntryOf(tags, q[j]);
    }
    MergesAgree(es, fs);
  }

  // Some order of these keys.
  lemma {:induction false} SomeOrder(keys: set<string>) returns (order: seq<string>)
    ensures forall i :: 0 <= i < |order| ==> order[i] in keys
    ensures forall k :: k in keys ==> k in order
    ensures forall i, j :: 0 <= i < j < |order| ==> order[i] != order[j]
  {
    if keys == {} {
      order := [];
    } else {
      var k :| k in keys;
      var rest := SomeOrder(keys - {k});
      order := rest + [k];
    }
  }

  lemma OrderEndingIn(tags: TagMap, last: string) returns (order: seq<string>)
    requires last in tags
    ensures IsOrder(tags, order) && order != [] && order[|order| - 1] == last
  {
    var rest := SomeOrder(tags.Keys - {last});
    order := rest + [last];
  }

  lemma ClashingLastsDiffer(p: seq<Entry>, q: seq<Entry>)
    requires p != [] && q != [] && Clash(p[|p| - 1], q[|q| - 1])
    ensures Merge(p) != Merge(q)
  {
    var n := p[|p| - 1].name;
    assert Merge(p)[n] == p[|p| - 1].value && Merge(q)[n] == q[|q| - 1].value;
  }

  lemma OrdersDiffer(tags: TagMap, p: seq<string>, q: seq<string>, es: seq<Entry>, fs: seq<Entry>)
    requires IsOrder(tags, p) && IsOrder(tags, q) && es == Entries(tags, p) && fs == Entries(tags, q)
    requires Merge(es) != Merge(fs)
    ensures !OrderIsInvisible(tags)
  {
    assert NormalizedTags(tags, p) != NormalizedTags(tags, q);
  }

  lemma OrderWithLastEntry(tags: TagMap, k: string) returns (order: seq<string>, es: seq<Entry>)
    requires k in tags
    ensures IsOrder(tags, order) && es == Entries(tags, order)
    ensures es != [] && es[|es| - 1] == EntryOf(tags, k)
  {
    order := OrderEndingIn(tags, k);
    es := Entries(tags, order);
    var n := |order| - 1;
    assert es[n] == EntryOf(tags, order[n]);
  }

  lemma ClashIsVisible(tags: TagMap, a: string, b: string)
    requires a in tags && b in tags && Clash(EntryOf(tags, a), EntryOf(tags, b))
    ensures !OrderIsInvisible(tags)
  {
    var p, es := OrderWithLastEntry(tags, a);
    var q, fs := OrderWithLastEntry(tags, b);
    ClashingLastsDiffer(es, fs);
    OrdersDiffer(tags, p, q, es, fs);
  }

  /** The iteration order cannot be seen in the result exactly when no two keys that trim alike
      carry different values that are not blank. */
  lemma OrderIsInvisibleExactly(tags: TagMap)
    ensures OrderIsInvisible(tags) <==> !Clashing(tags)
  {
    if Clashing(tags) {
      var a, b :| a in tags && b in tags && Clash(EntryOf(tags, a), EntryOf(tags, b));
      ClashIsVisible(tags, a, b);
    } else {
      forall p, q | IsOrder(tags, p) && IsOrder(tags, q)
        ensures NormalizedTags(tags, p) == NormalizedTags(tags, q)
      {
        SameWithoutClash(tags, p, q);
      }
    }
  }

  // ---- normal tags ----

  predicate Normal(tags: TagMap) {
    forall k :: k in tags ==> NormalText(k) && NormalText(tags[k])
  }

  predicate NormalText(s: string) {
    s != "" && Trimmed(s)
  }

  lemma {:induction false} MergeIsNormal(es: seq<Entry>)
    requires forall i :: 0 <= i < |es| ==> Trimmed(es[i].name) && Trimmed(es[i].value)
    ensures Normal(Merge(es))
  {
    if es != [] { MergeIsNormal(es[..|es| - 1]); }
  }

  lemma NormalizedIsNormal(tags: TagMap, order: seq<string>)
    requires KeysOf(tags, order)
    ensures Normal(NormalizedTags(tags, order))
  {
    var es := Entries(tags, order);
    forall i | 0 <= i < |es|
      ensures Trimmed(es[i].name) && Trimmed(es[i].value)
    {
      assert es[i] == EntryOf(tags, order[i]);
    }
    MergeIsNormal(es);
  }

  lemma NormalEntry(tags: TagMap, k: string)
    requires Normal(tags) && k in tags
    ensures EntryOf(tags, k) == Entry(k, tags[k]) && Kept(EntryOf(tags, k))
  {
  }

  lemma MergeOfOwnEntries(tags: TagMap, es: seq<Entry>)
    requires forall i :: 0 <= i < |es| ==> Kept(es[i]) && es[i].name in tags && es[i].value == tags[es[i].name]
    requires forall k :: k in tags ==> Entry(k, tags[k]) in es
    ensures Merge(es) == tags
  {
    forall n
      ensures n in Merge(es) <==> n in tags
    {
      MergeNames(es, n);
      if n in tags { assert Entry(n, tags[n]) in es; }
    }
    forall n | n in Merge(es)
      ensures Merge(es)[n] == tags[n]
    {
      var i := MergeValues(es, n);
    }
  }

  /** Normalising normal tags changes nothing, in any order. */
  lemma NormalTagsStay(tags: TagMap, order: seq<string>)
    requires Normal(tags) && IsOrder(tags, order)
    ensures NormalizedTags(tags, order) == tags
  {
    var es := Entries(tags, order);
    forall i | 0 <= i < |es|
      ensures es[i] == Entry(order[i], tags[order[i]]) && Kept(es[i])
    {
      NormalEntry(tags, order[i]);
    }
    forall k | k in tags
      ensures Entry(k, tags[k]) in es
    {
      assert k in order;
      var i :| 0 <= i < |order| && order[i] == k;
      assert es[i] == Entry(k, tags[k]);
    }
    MergeOfOwnEntries(tags, es);
  }
}

/** The map a vault directory stands for, and the listings that show it. */
module VaultContents {
  import opened Prelude
  import opened Text
  import opened ArtifactKeys
  import opened Paths
  import opened FileTree
  import opened VaultPaths

  datatype StoredArtifact = StoredArtifact(key: ArtifactKey, size: nat)

  ghost predicate IsLocation(root: Path, p: Path) {
    exists k :: ValidKey(k) && Location(root, k) == p
  }

  ghost function KeyAt(root: Path, p: Path): (k: ArtifactKey)
    requires IsLocation(root, p)
    ensures ValidKey(k) && Location(root, k) == p
  {
    var k :| ValidKey(k) && Location(root, k) == p;
    k
  }

  ghost function StoredKeys(root: Path, t: Tree): set<ArtifactKey> {
    set p | p in t.names && IsLocation(root, p) :: KeyAt(root, p)
  }

  lemma StoredKeysAre(root: Path, t: Tree)
    ensures forall k :: k in StoredKeys(root, t) <==> ValidKey(k) && Location(root, k) in t.names
  {
    forall k | ValidKey(k) && Location(root, k) in t.names
      ensures k in StoredKeys(root, t)
    {
      var p := Location(root, k);
      assert IsLocation(root, p);
      LocationInjective(root, k, KeyAt(root, p));
    }
  }

  ghost function Contents(root: Path, t: Tree): map<ArtifactKey, Bytes>
    requires WellFormed(t)
  {
    map k | k in StoredKeys(root, t) && ValidKey(k) && Location(root, k) in t.names
      :: t.data[t.names[Location(root, k)]]
  }

  lemma ContentsAt(root: Path, t: Tree, k: ArtifactKey)
    requires WellFormed(t)
    ensures k in Contents(root, t) <==> ValidKey(k) && Location(root, k) in t.names
    ensures k in Contents(root, t) ==> ReadFile(t, Location(root, k)) == Some(Contents(root, t)[k])
  {
    StoredKeysAre(root, t);
  }

  // Two trees whose valid keys read alike, but for one, hold the same contents but for that one.
  lemma ContentsApart(root: Path, t: Tree, t': Tree, key: ArtifactKey)
    requires WellFormed(t) && WellFormed(t')
    requires forall k :: ValidKey(k) && k != key ==> ReadFile(t', Location(root, k)) == ReadFile(t, Location(root, k))
    ensures Contents(root, t') - {key} == Contents(root, t) - {key}
  {
    var c, c' := Contents(root, t), Contents(root, t');
    forall k: ArtifactKey | k != key
      ensures (k in c' <==> k in c) && (k in c' ==> c'[k] == c[k])
    {
      ContentsAlike(root, t, t', k);
    }
    ApartFrom(c, c', key);
  }

  lemma ContentsAlike(root: Path, t: Tree, t': Tree, k: ArtifactKey)
    requires WellFormed(t) && WellFormed(t')
    requires ValidKey(k) ==> ReadFile(t', Location(root, k)) == ReadFile(t, Location(root, k))
    ensures k in Contents(root, t') <==> k in Contents(root, t)
    ensures k in Contents(root, t') ==> Contents(root, t')[k] == Contents(root, t)[k]
  {
  }

  lemma ApartFrom<K, V>(m: map<K, V>, m': map<K, V>, key: K)
    requires forall k :: k != key ==> (k in m' <==> k in m) && (k in m' ==> m'[k] == m[k])
    ensures m' - {key} == m - {key}
  {
  }

  lemma SameContents(root: Path, t: Tree, t': Tree)
    requires WellFormed(t) && WellFormed(t')
    requires forall k :: ValidKey(k) ==> ReadFile(t', Location(root, k)) == ReadFile(t, Location(root, k))
    ensures Contents(root, t') == Contents(root, t)
  {
  }

  lemma UpdatedAt<K, V>(m: map<K, V>, m': map<K, V>, key: K, value: V)
    requires m' - {key} == m - {key} && key in m' && m'[key] == value
    ensures m' == m[key := value]
  {
    forall k | k != key
      ensures k in m' <==> k in m
      ensures k in m' ==> m'[k] == m[k]
    {
      assert k in m' <==> k in m' - {key};
      assert k in m <==> k in m - {key};
    }
  }

  lemma RemovedAt<K, V>(m: map<K, V>, m': map<K, V>, key: K)
    requires m' - {key} == m - {key} && key !in m'
    ensures m' == m - {key}
  {
  }

  lemma ContentsAfterWrite(root: Path, t: Tree, t': Tree, key: ArtifactKey, bytes: Bytes)
    requires WellFormed(t) && WellFormed(t') && ValidKey(key)
    requires ReadFile(t', Location(root, key)) == Some(bytes)
    requires forall k :: ValidKey(k) && k != key ==> ReadFile(t', Location(root, k)) == ReadFile(t, Location(root, k))
    ensures Contents(root, t') == Contents(root, t)[key := bytes]
  {
    ContentsApart(root, t, t', key);
    ContentsAt(root, t', key);
    UpdatedAt(Contents(root, t), Contents(root, t'), key, bytes);
  }

  lemma ContentsAfterRemoval(root: Path, t: Tree, t': Tree, key: ArtifactKey)
    requires WellFormed(t) && WellFormed(t') && ValidKey(key)
    requires ReadFile(t', Location(root, key)) == None
    requires forall k :: ValidKey(k) && k != key ==> ReadFile(t', Location(root, k)) == ReadFile(t, Location(root, k))
    ensures Contents(root, t') == Contents(root, t) - {key}
  {
    ContentsApart(root, t, t', key);
    ContentsAt(root, t', key);
    RemovedAt(Contents(root, t), Contents(root, t'), key);
  }

  // ---- listings ----

  predicate SortedStrictly(list: seq<StoredArtifact>) {
    forall i, j :: 0 <= i < j < |list| ==> Less(list[i].key.name, list[j].key.name)
  }

  predicate Lists(list: seq<StoredArtifact>, key: ArtifactKey) {
    exists i :: 0 <= i < |list| && list[i].key == key
  }

  // The stored keys of one scope with their sizes, in name order and each once, but for
  // the files that vanished between reading the directory and asking for their sizes.
  ghost predicate IsListing(contents: map<ArtifactKey, Bytes>, scope: Scope, vanished: set<string>,
                            list: seq<StoredArtifact>)
  {
    && SortedStrictly(list)
    && (forall k :: Lists(list, k) <==> k in contents && ScopeOf(k) == scope && k.name !in vanished)
    && (forall i :: 0 <= i < |list| && list[i].key in contents ==> list[i].size == |contents[list[i].key]|)
  }

  lemma ListingMembers(contents: map<ArtifactKey, Bytes>, scope: Scope, vanished: set<string>,
                       a: seq<StoredArtifact>, b: seq<StoredArtifact>, i: nat) returns (j: nat)
    requires IsListing(contents, scope, vanished, a) && IsListing(contents, scope, vanished, b)
    requires i < |a|
    ensures j < |b| && a[i] == b[j]
  {
    assert Lists(a, a[i].key);
    assert Lists(b, a[i].key);
    j :| 0 <= j < |b| && b[j].key == a[i].key;
  }

  /** The directory order plays no part: a scope has exactly one listing. */
  lemma {:induction false} ListingIsUnique(contents: map<ArtifactKey, Bytes>, scope: Scope, vanished: set<string>,
                                           a: seq<StoredArtifact>, b: seq<StoredArtifact>, n: nat)
    requires IsListing(contents, scope, vanished, a) && IsListing(contents, scope, vanished, b)
    requires n <= |a| && n <= |b|
    ensures a[..n] == b[..n]
    ensures n == |a| || n == |b| ==> a == b
  {
    if n > 0 {
      ListingIsUnique(contents, scope, vanished, a, b, n - 1);
      var j := ListingMembers(contents, scope, vanished, a, b, n - 1);
      var i := ListingMembers(contents, scope, vanished, b, a, n - 1);
      NoEarlierTwin(a, b, n - 1, j);
      NoEarlierTwin(b, a, n - 1, i);
      LessTotal(a[n - 1].key.name, b[n - 1].key.name);
    }
    if n == |a| && n < |b| {
      var j := ListingMembers(contents, scope, vanished, b, a, n);
      NoEarlierTwin(b, a, n, j);
    }
    if n == |b| && n < |a| {
      var j := ListingMembers(contents, scope, vanished, a, b, n);
      NoEarlierTwin(a, b, n, j);
    }
  }

  lemma NoEarlierTwin(a: seq<StoredArtifact>, b: seq<StoredArtifact>, n: nat, j: nat)
    requires SortedStrictly(a)
    requires n < |a| && n <= |b| && j < |b| && a[..n] == b[..n] && a[n] == b[j]
    ensures j >= n
  {
    if j < n {
      assert a[j] == a[..n][j] == b[..n][j] == b[j];
      LessTotal(a[n].key.name, a[n].key.name);
    }
  }

  // ---- sorting by name ----

  function InsertByName(x: StoredArtifact, list: seq<StoredArtifact>): seq<StoredArtifact> {
    if list == [] || Less(x.key.name, list[0].key.name) then [x] + list
    else [list[0]] + InsertByName(x, list[1..])
  }

  function SortByName(list: seq<StoredArtifact>): seq<StoredArtifact> {
    if list == [] then [] else InsertByName(list[0], SortByName(list[1..]))
  }

  predicate DistinctNames(list: seq<StoredArtifact>) {
    forall i, j :: 0 <= i < j < |list| ==> list[i].key.name != list[j].key.name
  }

  lemma {:induction false} InsertByNameSorts(x: StoredArtifact, list: seq<StoredArtifact>)
    requires SortedStrictly(list)
    requires forall y :: y in list ==> y.key.name != x.key.name
    ensures SortedStrictly(InsertByName(x, list))
    ensures forall y :: y in InsertByName(x, list) <==> y == x || y in list
  {
    if list == [] {
    } else if Less(x.key.name, list[0].key.name) {
      forall j | 0 <= j < |list|
        ensures Less(x.key.name, list[j].key.name)
      {
        if j > 0 { LessTransitive(x.key.name, list[0].key.name, list[j].key.name); }
      }
    } else {
      assert list[0] in list;
      LessTotal(x.key.name, list[0].key.name);
      InsertByNameSorts(x, list[1..]);
      var rest := InsertByName(x, list[1..]);
      assert forall y :: y in rest ==> y == x || y in list[1..];
      forall j | 0 <= j < |rest|
        ensures Less(list[0].key.name, rest[j].key.name)
      {
        assert rest[j] in rest;
      }
    }
  }

  lemma {:induction false} SortByNameSorts(list: seq<StoredArtifact>)
    requires DistinctNames(list)
    ensures SortedStrictly(SortByName(list))
    ensures forall y :: y in SortByName(list) <==> y in list
  {
    if list != [] {
      SortByNameSorts(list[1..]);
      assert forall y :: y in list[1..] ==> y.key.name != list[0].key.name;
      InsertByNameSorts(list[0], SortByName(list[1..]));
    }
  }
}

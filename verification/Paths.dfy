/** Lexical path processing: Clean, Join and Rel of Go's `path/filepath` (and `path`) on
    slash-separated text, and the component lists that clean rooted paths stand for. */
module Paths {
  import opened Prelude
  import opened Text

  // The components of a rooted clean path; the root directory is the empty list.
  type Path = seq<string>

  predicate Component(c: string) {
    c != "" && c != "." && c != ".." && '/' !in c
  }

  predicate CleanPath(p: Path) {
    forall i :: 0 <= i < |p| ==> Component(p[i])
  }

  function Render(p: Path): string {
    "/" + JoinWith('/', p)
  }

  /** Appends components one by one: empty and `.` vanish, `..` removes its predecessor. */
  function CleanOnto(rooted: bool, acc: seq<string>, parts: seq<string>): seq<string>
    decreases |parts|
  {
    if parts == [] then acc
    else if parts[0] == "" || parts[0] == "." then CleanOnto(rooted, acc, parts[1..])
    else if parts[0] == ".." then
      if acc != [] && acc[|acc| - 1] != ".." then CleanOnto(rooted, acc[..|acc| - 1], parts[1..])
      else if rooted then CleanOnto(rooted, acc, parts[1..])
      else CleanOnto(rooted, acc + [".."], parts[1..])
    else CleanOnto(rooted, acc + [parts[0]], parts[1..])
  }

  function Clean(s: string): string {
    if s == "" then "."
    else
      var rooted := s[0] == '/';
      var parts := CleanOnto(rooted, [], SplitOn('/', s));
      if rooted then Render(parts)
      else if parts == [] then "."
      else JoinWith('/', parts)
  }

  // Leading empty elements are ignored; if all are empty the result is empty.
  function Join(elems: seq<string>): string {
    if elems == [] then ""
    else if elems[0] == "" then Join(elems[1..])
    else Clean(JoinWith('/', elems))
  }

  function Resolve(s: string): Path {
    CleanOnto(true, [], SplitOn('/', s))
  }

  function CommonPrefix(a: Path, b: Path): (n: nat)
    ensures n <= |a| && n <= |b|
  {
    if a == [] || b == [] || a[0] != b[0] then 0 else 1 + CommonPrefix(a[1..], b[1..])
  }

  // filepath.Rel for two rooted paths, which always succeeds.
  function Rel(base: string, target: string): string {
    var b, t := Resolve(base), Resolve(target);
    var n := CommonPrefix(b, t);
    var parts := seq(|b| - n, _ => "..") + t[n..];
    if parts == [] then "." else JoinWith('/', parts)
  }

  // ---- cleaning ----

  lemma {:induction false} CleanOntoComponents(rooted: bool, acc: seq<string>, parts: seq<string>)
    requires CleanPath(parts)
    ensures CleanOnto(rooted, acc, parts) == acc + parts
    decreases |parts|
  {
    if parts != [] {
      assert Component(parts[0]);
      CleanOntoComponents(rooted, acc + [parts[0]], parts[1..]);
      assert acc + [parts[0]] + parts[1..] == acc + parts;
    }
  }

  lemma {:induction false} CleanOntoConcat(rooted: bool, acc: seq<string>, a: seq<string>, b: seq<string>)
    ensures CleanOnto(rooted, acc, a + b) == CleanOnto(rooted, CleanOnto(rooted, acc, a), b)
    decreases |a|
  {
    if a == [] {
      assert a + b == b;
    } else {
      assert (a + b)[0] == a[0] && (a + b)[1..] == a[1..] + b;
      var popped := if acc == [] then [] else acc[..|acc| - 1];
      CleanOntoConcat(rooted, acc, a[1..], b);
      CleanOntoConcat(rooted, popped, a[1..], b);
      CleanOntoConcat(rooted, acc + [".."], a[1..], b);
      CleanOntoConcat(rooted, acc + [a[0]], a[1..], b);
    }
  }

  /** Cleaning a rooted path never leaves a component that could move elsewhere. */
  lemma {:induction false} CleanOntoIsClean(acc: Path, parts: seq<string>)
    requires CleanPath(acc)
    requires forall i :: 0 <= i < |parts| ==> '/' !in parts[i]
    ensures CleanPath(CleanOnto(true, acc, parts))
    decreases |parts|
  {
    if parts != [] {
      var rest := parts[1..];
      if parts[0] == "" || parts[0] == "." {
        CleanOntoIsClean(acc, rest);
      } else if parts[0] == ".." {
        CleanOntoIsClean(acc, rest);
        if acc != [] { CleanOntoIsClean(acc[..|acc| - 1], rest); }
      } else {
        CleanOntoIsClean(acc + [parts[0]], rest);
      }
    }
  }

  lemma ResolveIsClean(s: string)
    ensures CleanPath(Resolve(s))
  {
    SplitOnParts('/', s);
    CleanOntoIsClean([], SplitOn('/', s));
  }

  lemma SplitOfRender(p: Path)
    requires CleanPath(p)
    ensures SplitOn('/', Render(p)) == [""] + (if p == [] then [""] else p)
  {
    assert Render(p)[1..] == JoinWith('/', p);
    if p != [] {
      assert forall q :: q in p ==> '/' !in q;
      SplitOfJoin('/', p);
    }
  }

  /** A clean rooted path is the text of exactly one component list. */
  lemma ResolveOfRender(p: Path)
    requires CleanPath(p)
    ensures Resolve(Render(p)) == p
    ensures Clean(Render(p)) == Render(p)
  {
    SplitOfRender(p);
    var parts := if p == [] then [""] else p;
    assert ([""] + parts)[1..] == parts;
    CleanOntoComponents(true, [], p);
    assert CleanOnto(true, [], [""] + parts) == CleanOnto(true, [], parts);
    assert [] + p == p;
  }

  /** Joining plain components below a clean rooted path appends them and nothing else. */
  lemma JoinBelow(p: Path, elems: seq<string>)
    requires CleanPath(p) && CleanPath(elems) && elems != []
    ensures Join([Render(p)] + elems) == Render(p + elems)
  {
    var below := JoinWith('/', elems);
    JoinCons('/', Render(p), elems);
    var text := Render(p) + ['/'] + below;
    assert ([Render(p)] + elems)[0] == Render(p);
    assert Join([Render(p)] + elems) == Clean(text);
    SplitOnConcat('/', Render(p), below);
    assert forall q :: q in elems ==> '/' !in q;
    SplitOfJoin('/', elems);
    CleanOntoConcat(true, [], SplitOn('/', Render(p)), elems);
    ResolveOfRender(p);
    CleanOntoComponents(true, p, elems);
    assert text[0] == '/';
  }

  // ---- relative paths ----

  lemma {:induction false} CommonPrefixOfExtension(p: Path, below: Path)
    ensures CommonPrefix(p, p + below) == |p|
  {
    if p != [] {
      assert (p + below)[1..] == p[1..] + below;
      CommonPrefixOfExtension(p[1..], below);
    }
  }

  lemma RelBelow(p: Path, below: Path)
    requires CleanPath(p) && CleanPath(below) && below != []
    ensures Rel(Render(p), Render(p + below)) == JoinWith('/', below)
  {
    ResolveOfRender(p);
    ResolveOfRender(p + below);
    CommonPrefixOfExtension(p, below);
    assert (p + below)[|p|..] == below;
    assert seq(|p| - |p|, _ => "..") + below == below;
  }

  lemma JoinStartsWithFirst(parts: seq<string>)
    requires |parts| >= 1
    ensures parts[0] <= JoinWith('/', parts)
  {
  }

  /** A slash-joined list climbs nowhere if only its last component may end in a dot. */
  lemma {:induction false} NoClimbInJoin(parts: seq<string>)
    requires |parts| >= 1 && CleanPath(parts)
    requires forall i :: 0 <= i < |parts| - 1 ==> parts[i][|parts[i]| - 1] != '.'
    ensures !Contains(JoinWith('/', parts), "../")
  {
    var text := JoinWith('/', parts);
    assert Component(parts[0]);
    var n := |parts[0]|;
    if |parts| > 1 { NoClimbInJoin(parts[1..]); }
    forall i | 0 <= i <= |text|
      ensures !("../" <= text[i..])
    {
      if i + 3 <= |text| {
        NoClimbAt(parts, i);
        assert text[i..][0] == text[i] && text[i..][1] == text[i + 1] && text[i..][2] == text[i + 2];
      }
    }
  }

  lemma NoClimbAt(parts: seq<string>, i: nat)
    requires |parts| >= 1 && CleanPath(parts)
    requires |parts| > 1 ==> parts[0][|parts[0]| - 1] != '.'
    requires |parts| > 1 ==> !Contains(JoinWith('/', parts[1..]), "../")
    requires i + 3 <= |JoinWith('/', parts)|
    ensures !(JoinWith('/', parts)[i] == '.' && JoinWith('/', parts)[i + 1] == '.' && JoinWith('/', parts)[i + 2] == '/')
  {
    var text := JoinWith('/', parts);
    var head := parts[0];
    assert Component(head);
    if i + 2 < |head| {
      assert text[i + 2] == head[i + 2];
    } else if i > |head| {
      var rest := JoinWith('/', parts[1..]);
      var k := i - |head| - 1;
      assert !("../" <= rest[k..]);
      assert rest[k] == text[i] && rest[k + 1] == text[i + 1] && rest[k + 2] == text[i + 2];
    }
  }
}

/** The DSN that bootstrap prints for a project and the envelope parser reads back. URL text is
    printed and parsed inversely, so a DSN is the URL value that its text parses to. */
module Dsn {
  import opened Prelude
  import opened Text
  import opened Identifiers
  import opened Paths

  // The parts of a URL with a host that the two sides touch.
  datatype Url = Url(user: string, path: string)

  // Printing puts a slash between the host and a path that lacks one.
  function Reparsed(u: Url): Url {
    if u.path != "" && u.path[0] != '/' then u.(path := "/" + u.path) else u
  }

  function BuildDsn(publicPath: string, projectRef: string, publicKey: string): Url {
    Reparsed(Url(Without('-', publicKey), Join([publicPath, projectRef])))
  }

  function TrimRightSlashes(s: string): string {
    if s == "" || s[|s| - 1] != '/' then s else TrimRightSlashes(s[..|s| - 1])
  }

  function AfterLastSlash(s: string): (r: string)
    ensures '/' !in r
  {
    if s == "" || s[|s| - 1] == '/' then "" else AfterLastSlash(s[..|s| - 1]) + [s[|s| - 1]]
  }

  // path.Base
  function Base(s: string): string {
    if s == "" then "."
    else
      var base := AfterLastSlash(TrimRightSlashes(s));
      if base == "" then "/" else base
  }

  function ParsedRef(u: Url): string {
    var base := Base(TrimRightSlashes(u.path));
    TrimSpace(if base == "." || base == "/" then "" else base)
  }

  function ParsedKey(u: Url): string {
    TrimSpace(u.user)
  }

  // ---- the project ref ----

  lemma {:induction false} JoinSnoc(sep: char, front: seq<string>, last: string)
    ensures JoinWith(sep, front + [last]) == if front == [] then last else JoinWith(sep, front) + [sep] + last
  {
    if front == [] {
      assert front + [last] == [last];
    } else {
      var rest := front[1..];
      JoinSnoc(sep, rest, last);
      assert front + [last] == [front[0]] + (rest + [last]) && front == [front[0]] + rest;
      JoinCons(sep, front[0], rest + [last]);
      if rest == [] {
        assert JoinWith(sep, front) == front[0];
      } else {
        JoinCons(sep, front[0], rest);
      }
    }
  }

  lemma {:induction false} AfterLastSlashOf(before: string, base: string)
    requires '/' !in base
    ensures AfterLastSlash(before + "/" + base) == base
  {
    var s := before + "/" + base;
    if base != "" {
      var front := base[..|base| - 1];
      assert s[..|s| - 1] == before + "/" + front && s[|s| - 1] == base[|base| - 1];
      AfterLastSlashOf(before, front);
    }
  }

  // What a joined component list holds before its last component.
  predicate EndsPrefix(before: string) {
    before == "" || before[|before| - 1] == '/'
  }

  lemma JoinedEndsIn(above: seq<string>, ref: string) returns (before: string)
    ensures JoinWith('/', above + [ref]) == before + ref && EndsPrefix(before)
  {
    JoinSnoc('/', above, ref);
    before := if above == [] then "" else JoinWith('/', above) + ['/'];
  }

  lemma CleanedParts(rooted: bool, front: string, ref: string) returns (above: seq<string>)
    requires Component(ref)
    ensures CleanOnto(rooted, [], SplitOn('/', front + ['/'] + ref)) == above + [ref]
  {
    SplitOnConcat('/', front, ref);
    SplitOnFirst('/', ref, "");
    CleanOntoConcat(rooted, [], SplitOn('/', front), [ref]);
    above := CleanOnto(rooted, [], SplitOn('/', front));
  }

  lemma CleanOfParts(text: string, parts: seq<string>)
    requires text != "" && parts != [] && CleanOnto(text[0] == '/', [], SplitOn('/', text)) == parts
    ensures Clean(text) == (if text[0] == '/' then "/" else "") + JoinWith('/', parts)
  {
  }

  // A cleaned path ends in its last component, whatever comes before.
  lemma CleanEndsIn(front: string, ref: string) returns (before: string)
    requires Component(ref)
    ensures Clean(front + ['/'] + ref) == before + ref && EndsPrefix(before)
  {
    var text := front + ['/'] + ref;
    var above := CleanedParts(text[0] == '/', front, ref);
    CleanOfParts(text, above + [ref]);
    var below := JoinedEndsIn(above, ref);
    var root := if text[0] == '/' then "/" else "";
    before := root + below;
    Regroup(Clean(text), root, below, ref, JoinWith('/', above + [ref]));
  }

  lemma JoinedPathEndsInRef(publicPath: string, ref: string) returns (before: string)
    requires Component(ref)
    ensures Join([publicPath, ref]) == before + ref && EndsPrefix(before)
  {
    assert [publicPath, ref][1..] == [ref];
    if publicPath == "" {
      SplitOnFirst('/', ref, "");
      CleanOntoComponents(false, [], [ref]);
      assert [] + [ref] == [ref];
      before := "";
    } else {
      assert JoinWith('/', [publicPath, ref]) == publicPath + ['/'] + ref;
      before := CleanEndsIn(publicPath, ref);
    }
  }

  lemma RefOfPath(u: Url, before: string, ref: string)
    requires u.path == before + "/" + ref && Component(ref)
    ensures ParsedRef(u) == TrimSpace(ref)
  {
    assert u.path[|u.path| - 1] == ref[|ref| - 1];
    AfterLastSlashOf(before, ref);
  }

  /** Whatever the public URL's path, a plain ref comes back trimmed. */
  lemma RefComesBackTrimmed(publicPath: string, ref: string, key: string)
    requires Component(ref)
    ensures ParsedRef(BuildDsn(publicPath, ref, key)) == TrimSpace(ref)
  {
    var before := JoinedPathEndsInRef(publicPath, ref);
    var joined := Join([publicPath, ref]);
    var dsn := BuildDsn(publicPath, ref, key);
    if before == "" {
      assert dsn.path == "" + "/" + ref;
      RefOfPath(dsn, "", ref);
    } else {
      var slashed := if joined[0] == '/' then before else "/" + before;
      assert dsn.path == slashed + ref;
      assert slashed == slashed[..|slashed| - 1] + "/";
      RefOfPath(dsn, slashed[..|slashed| - 1], ref);
    }
  }

  /** The DSN keeps the public URL's path and puts the ref below it, and its user is the key
      without dashes. */
  lemma DsnParts(publicPath: string, ref: string, key: string)
    requires Component(ref) && (publicPath == "" || publicPath[0] == '/')
    ensures Resolve(BuildDsn(publicPath, ref, key).path) == Resolve(publicPath) + [ref]
    ensures BuildDsn(publicPath, ref, key).user == Without('-', key)
  {
    ResolveIsClean(publicPath);
    if publicPath == "" {
      JoinedBelowNothing(ref);
    } else {
      JoinedBelowPath(publicPath, ref);
    }
    RenderedPath(Resolve(publicPath) + [ref]);
  }

  lemma RenderedPath(p: Path)
    requires CleanPath(p)
    ensures Resolve(Render(p)) == p && Reparsed(Url("", Render(p))).path == Render(p)
  {
    ResolveOfRender(p);
  }

  lemma JoinedBelowNothing(ref: string)
    requires Component(ref)
    ensures "/" + Join(["", ref]) == Render(Resolve("") + [ref]) && Join(["", ref]) == ref
  {
    assert ["", ref][1..] == [ref];
    SplitOnFirst('/', ref, "");
    CleanOntoComponents(false, [], [ref]);
    assert [] + [ref] == [ref];
    assert Resolve("") == [];
  }

  lemma JoinedBelowPath(publicPath: string, ref: string)
    requires Component(ref) && publicPath != "" && publicPath[0] == '/'
    ensures Join([publicPath, ref]) == Render(Resolve(publicPath) + [ref])
  {
    var text := publicPath + ['/'] + ref;
    assert [publicPath, ref][1..] == [ref];
    assert JoinWith('/', [publicPath, ref]) == text;
    SplitOnConcat('/', publicPath, ref);
    SplitOnFirst('/', ref, "");
    CleanOntoConcat(true, [], SplitOn('/', publicPath), [ref]);
    assert CleanOnto(true, Resolve(publicPath), [ref]) == Resolve(publicPath) + [ref];
  }

  ghost predicate RefAlwaysReturns(ref: string) {
    forall publicPath: string, key: string :: ParsedRef(BuildDsn(publicPath, ref, key)) == ref
  }

  lemma ParsedRefHasNoSlash(u: Url)
    ensures '/' !in ParsedRef(u)
  {
    var base := Base(TrimRightSlashes(u.path));
    var kept := if base == "." || base == "/" then "" else base;
    TrimSpaceKeepsCharacters(kept);
  }

  // The refs that path cleaning swallows.
  lemma EmptyRefJoins()
    ensures Join(["/a", ""]) == "/a"
  {
    assert ["/a", ""][1..] == [""];
    SplitOnFirst('/', "a", "");
    SplitOnFirst('/', "", "a/");
    assert "/a/" == "" + ['/'] + "a/" && "a/" == "a" + ['/'] + "";
    assert SplitOn('/', "/a/") == ["", "a", ""];
    CleanedEmpty();
    CleanOfParts("/a/", ["a"]);
  }

  lemma CleanedEmpty()
    ensures CleanOnto(true, [], ["", "a", ""]) == ["a"]
  {
  }

  lemma DotRefJoins()
    ensures Join(["", "."]) == "."
  {
  }

  lemma DotsRefJoins()
    ensures Join(["/a", ".."]) == "/"
  {
  }

  lemma EmptyRefIsLost(key: string)
    ensures ParsedRef(BuildDsn("/a", "", key)) == "a"
  {
    EmptyRefJoins();
    var dsn := Url(Without('-', key), "/a");
    assert BuildDsn("/a", "", key) == dsn;
    PathOfA(dsn);
  }

  lemma PathOfA(u: Url)
    requires u.path == "/a"
    ensures ParsedRef(u) == "a"
  {
    assert "/a" == "" + "/" + "a";
    RefOfPath(u, "", "a");
  }

  lemma BaseOfDot()
    ensures Base(TrimRightSlashes("/.")) == "."
  {
  }

  lemma DotRefIsLost(key: string)
    ensures ParsedRef(BuildDsn("", ".", key)) == ""
  {
    DotRefJoins();
    assert "/" + "." == "/.";
    assert BuildDsn("", ".", key) == Url(Without('-', key), "/.");
    BaseOfDot();
  }

  lemma DotsRefIsLost(key: string)
    ensures ParsedRef(BuildDsn("/a", "..", key)) == ""
  {
    DotsRefJoins();
    assert BuildDsn("/a", "..", key).path == "/";
    assert TrimRightSlashes("/") == "";
  }

  lemma OtherRefsAreLost(ref: string)
    requires !Component(ref) || TrimSpace(ref) != ref
    ensures !RefAlwaysReturns(ref)
  {
    if RefAlwaysReturns(ref) {
      ParsedRefHasNoSlash(BuildDsn("", ref, ""));
      assert ParsedRef(BuildDsn("", ref, "")) == ref;
      assert ParsedRef(BuildDsn("/a", ref, "")) == ref;
      if ref == "" { EmptyRefIsLost(""); }
      if ref == "." { DotRefIsLost(""); }
      if ref == ".." { DotsRefIsLost(""); }
      if Component(ref) { RefComesBackTrimmed("", ref, ""); }
      assert false;
    }
  }

  /** The refs that every public URL brings back are the slash-free ones that are not empty, not
      a dot name and not padded with blanks. */
  lemma RefReturnsExactly(ref: string)
    ensures RefAlwaysReturns(ref) <==> Component(ref) && TrimSpace(ref) == ref
  {
    if Component(ref) && TrimSpace(ref) == ref {
      forall publicPath: string, key: string
        ensures ParsedRef(BuildDsn(publicPath, ref, key)) == ref
      {
        RefComesBackTrimmed(publicPath, ref, key);
      }
    } else {
      OtherRefsAreLost(ref);
    }
  }

  // ---- the key ----

  lemma DashFreeBlanks(s: string)
    requires AllBlank(s)
    ensures Without('-', s) == s
  {
  }

  lemma HexWhenLoweredIsTrimmed(s: string, n: nat)
    requires n > 0 && IsHex(ToLower(s), n)
    ensures Trimmed(s) && s != ""
  {
  }

  lemma UndashedKeyIsTrimmed(publicKey: string, value: string)
    requires NormalizeUuid(publicKey) == Ok(value)
    ensures TrimSpace(Without('-', publicKey)) == Without('-', TrimSpace(publicKey))
    ensures '-' !in Without('-', publicKey)
  {
    var left, right := TrimSpaceSplits(publicKey);
    var core := TrimSpace(publicKey);
    WithoutLowered(core);
    HexWhenLoweredIsTrimmed(Without('-', core), 32);
    WithoutConcat('-', left + core, right);
    WithoutConcat('-', left, core);
    DashFreeBlanks(left);
    DashFreeBlanks(right);
    TrimSpaceOfPadded(left, Without('-', core), right);
  }

  /** A valid public key, dashed or not, is read back from the DSN as the same key. */
  lemma KeyComesBack(publicPath: string, ref: string, publicKey: string, value: string)
    requires NormalizeUuid(publicKey) == Ok(value)
    ensures NormalizeUuid(ParsedKey(BuildDsn(publicPath, ref, publicKey))) == Ok(value)
  {
    UndashedKeyIsTrimmed(publicKey, value);
    var key := ParsedKey(BuildDsn(publicPath, ref, publicKey));
    var core := TrimSpace(publicKey);
    assert key == Without('-', core) && TrimSpace(key) == key;
    WithoutLowered(core);
    WithoutLowered(key);
  }
}

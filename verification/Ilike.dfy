/** PostgreSQL's ILIKE on the pattern the issue search builds, `%` + text + `%`, and when that
    is the substring search a reader of the search box would expect. */
module Ilike {
  import opened Text

  /** `%` stands for any run, `_` for any character, `\` makes the next one literal, and letters
      match in either case. */
  predicate ILike(p: string, s: string)
    decreases |p| + |s|
  {
    if p == "" then s == ""
    else if p[0] == '%' then ILike(p[1..], s) || (s != "" && ILike(p, s[1..]))
    else if p[0] == '_' then s != "" && ILike(p[1..], s[1..])
    else if p[0] == '\\' then |p| >= 2 && s != "" && LowerChar(s[0]) == LowerChar(p[1]) && ILike(p[2..], s[1..])
    else s != "" && LowerChar(s[0]) == LowerChar(p[0]) && ILike(p[1..], s[1..])
  }

  function TextPattern(text: string): string {
    "%" + text + "%"
  }

  predicate StartsWithFold(s: string, text: string) {
    |text| <= |s| && forall j :: 0 <= j < |text| ==> LowerChar(s[j]) == LowerChar(text[j])
  }

  predicate ContainsFold(s: string, text: string) {
    exists i :: 0 <= i <= |s| && StartsWithFold(s[i..], text)
  }

  predicate Wildcard(c: char) {
    c == '%' || c == '_' || c == '\\'
  }

  predicate Plain(text: string) {
    forall i :: 0 <= i < |text| ==> !Wildcard(text[i])
  }

  // ---- plain text ----

  lemma {:induction false} PercentMatchesAll(s: string)
    ensures ILike("%", s)
  {
    assert "%"[1..] == "";
    if s != "" { PercentMatchesAll(s[1..]); }
  }

  lemma {:induction false} PlainPrefix(text: string, s: string)
    requires Plain(text)
    ensures ILike(text + "%", s) <==> StartsWithFold(s, text)
  {
    if text == "" {
      assert text + "%" == "%";
      PercentMatchesAll(s);
    } else {
      var p := text + "%";
      assert p[1..] == text[1..] + "%" && p[0] == text[0] && !Wildcard(text[0]);
      if s != "" {
        PlainPrefix(text[1..], s[1..]);
        StartsWithFoldStep(s, text);
      }
    }
  }

  lemma StartsWithFoldStep(s: string, text: string)
    requires s != "" && text != ""
    ensures StartsWithFold(s, text) <==> LowerChar(s[0]) == LowerChar(text[0]) && StartsWithFold(s[1..], text[1..])
  {
  }

  lemma {:induction false} PlainContains(text: string, s: string)
    requires Plain(text)
    ensures ILike(TextPattern(text), s) <==> ContainsFold(s, text)
  {
    var p := TextPattern(text);
    assert p[0] == '%' && p[1..] == text + "%";
    PlainPrefix(text, s);
    assert s[0..] == s;
    if s != "" {
      PlainContains(text, s[1..]);
      if ContainsFold(s[1..], text) {
        var i :| 0 <= i <= |s[1..]| && StartsWithFold(s[1..][i..], text);
        assert s[1..][i..] == s[i + 1..];
      }
      if ContainsFold(s, text) && !StartsWithFold(s, text) {
        var i :| 0 <= i <= |s| && StartsWithFold(s[i..], text);
        assert s[1..][i - 1..] == s[i..];
      }
    }
  }

  // ---- text with wildcards ----

  // A shortest title the pattern accepts.
  function Shortest(p: string): string {
    if p == "" then ""
    else if p[0] == '%' then Shortest(p[1..])
    else if p[0] == '_' then "x" + Shortest(p[1..])
    else if p[0] == '\\' then (if |p| >= 2 then [p[1]] + Shortest(p[2..]) else "")
    else [p[0]] + Shortest(p[1..])
  }

  lemma {:induction false} ShortestMatches(text: string)
    ensures ILike(text + "%", Shortest(text + "%"))
    decreases |text|
  {
    var p := text + "%";
    if text == "" {
      assert p == "%" && p[1..] == "";
    } else if text[0] == '\\' && |text| == 1 {
      assert p[2..] == "" && p[1] == '%';
    } else if text[0] == '\\' {
      assert p[2..] == text[2..] + "%";
      ShortestMatches(text[2..]);
    } else {
      assert p[1..] == text[1..] + "%";
      ShortestMatches(text[1..]);
    }
  }

  lemma {:induction false} ShortestIsNoLonger(text: string)
    ensures |Shortest(text + "%")| <= |text|
    decreases |text|
  {
    var p := text + "%";
    if text == "" {
      assert p == "%" && p[1..] == "";
    } else if text[0] == '\\' && |text| == 1 {
      assert p[2..] == "" && p[1] == '%';
    } else if text[0] == '\\' {
      assert p[2..] == text[2..] + "%";
      ShortestIsNoLonger(text[2..]);
    } else {
      assert p[1..] == text[1..] + "%";
      ShortestIsNoLonger(text[1..]);
    }
  }

  lemma {:induction false} ShortestLacksText(text: string)
    requires !Plain(text)
    ensures !StartsWithFold(Shortest(text + "%"), text)
    decreases |text|
  {
    var p := text + "%";
    var s := Shortest(p);
    if text[0] == '%' {
      assert p[1..] == text[1..] + "%";
      ShortestIsNoLonger(text[1..]);
    } else if text[0] == '\\' && |text| == 1 {
      assert p[2..] == "" && p[1] == '%' && s == "%";
    } else if text[0] == '\\' {
      assert p[2..] == text[2..] + "%";
      ShortestIsNoLonger(text[2..]);
    } else {
      assert p[1..] == text[1..] + "%";
      if text[0] == '_' {
        assert s[0] == 'x';
      } else {
        var i :| 0 <= i < |text| && Wildcard(text[i]);
        assert text[1..][i - 1] == text[i];
        ShortestLacksText(text[1..]);
        assert s[1..] == Shortest(text[1..] + "%");
        StartsWithFoldStep(s, text);
      }
    }
  }

  ghost predicate SearchesForSubstring(text: string) {
    forall title :: ILike(TextPattern(text), title) <==> ContainsFold(title, text)
  }

  /** The text filter is a case-insensitive substring search on every title exactly when the
      text holds no `%`, `_` or `\`. */
  lemma TextSearchIsSubstringExactly(text: string)
    ensures SearchesForSubstring(text) <==> Plain(text)
  {
    if Plain(text) {
      forall title
        ensures ILike(TextPattern(text), title) <==> ContainsFold(title, text)
      {
        PlainContains(text, title);
      }
    } else {
      var title := Shortest(text + "%");
      assert TextPattern(text)[1..] == text + "%";
      ShortestMatches(text);
      ShortestIsNoLonger(text);
      ShortestLacksText(text);
      assert ILike(TextPattern(text), title);
      forall i | 0 <= i <= |title|
        ensures !StartsWithFold(title[i..], text)
      {
        assert i == 0 ==> title[i..] == title;
      }
      assert !ContainsFold(title, text);
    }
  }
}

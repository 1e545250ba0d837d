/** The part of Go's `strings`, `unicode` and `unicode/utf8` packages that the domain
    constructors rely on. A text is a sequence of Unicode scalar values, so a text is
    always valid UTF-8; `ByteLen` is the length Go's `len` reports for its encoding. */
module Text {

  // unicode.IsSpace, in full.
  predicate IsSpace(c: char) {
    if c < '\U{0080}' then c == ' ' || '\U{0009}' <= c <= '\U{000D}' else InRanges(c, WIDE_SPACES)
  }

  const WIDE_SPACES := [
    ('\U{0085}', '\U{0085}'), ('\U{00A0}', '\U{00A0}'), ('\U{1680}', '\U{1680}'), ('\U{2000}', '\U{200A}'),
    ('\U{2028}', '\U{2029}'), ('\U{202F}', '\U{202F}'), ('\U{205F}', '\U{205F}'), ('\U{3000}', '\U{3000}')]

  predicate InRanges(c: char, ranges: seq<(char, char)>) {
    ranges != [] && (ranges[0].0 <= c <= ranges[0].1 || InRanges(c, ranges[1..]))
  }

  predicate Trimmed(s: string) {
    s == "" || (!IsSpace(s[0]) && !IsSpace(s[|s| - 1]))
  }

  function TrimLeft(s: string): (r: string)
    ensures |r| <= |s|
    ensures r == "" || !IsSpace(r[0])
    ensures s != "" && !IsSpace(s[0]) ==> r == s
  {
    if s == "" || !IsSpace(s[0]) then s else TrimLeft(s[1..])
  }

  function TrimRight(s: string): (r: string)
    ensures |r| <= |s| && (r != "" ==> r[0] == s[0])
    ensures r == "" || !IsSpace(r[|r| - 1])
    ensures s != "" && !IsSpace(s[|s| - 1]) ==> r == s
  {
    if s == "" || !IsSpace(s[|s| - 1]) then s else TrimRight(s[..|s| - 1])
  }

  function TrimSpace(s: string): (r: string)
    ensures Trimmed(r)
    ensures Trimmed(s) ==> r == s
    ensures |r| <= |s|
  {
    TrimRight(TrimLeft(s))
  }

  lemma {:induction false} TrimLeftIsSuffix(s: string)
    ensures TrimLeft(s) == s[|s| - |TrimLeft(s)|..]
  {
    if s != "" && IsSpace(s[0]) { TrimLeftIsSuffix(s[1..]); }
  }

  lemma {:induction false} TrimRightIsPrefix(s: string)
    ensures TrimRight(s) == s[..|TrimRight(s)|]
  {
    if s != "" && IsSpace(s[|s| - 1]) { TrimRightIsPrefix(s[..|s| - 1]); }
  }

  lemma TrimSpaceKeepsCharacters(s: string)
    ensures forall i :: 0 <= i < |TrimSpace(s)| ==> TrimSpace(s)[i] in s
  {
    var left := TrimLeft(s);
    TrimLeftIsSuffix(s);
    TrimRightIsPrefix(left);
    forall i | 0 <= i < |TrimSpace(s)|
      ensures TrimSpace(s)[i] in s
    {
      assert TrimSpace(s)[i] == left[i] == s[|s| - |left| + i];
    }
  }

  predicate AllBlank(s: string) {
    forall i :: 0 <= i < |s| ==> IsSpace(s[i])
  }

  lemma Regroup(s: string, left: string, core: string, right: string, rest: string)
    requires s == left + rest && rest == core + right
    ensures s == left + core + right
  {
  }

  lemma {:induction false} TrimLeftSplits(s: string) returns (left: string)
    ensures s == left + TrimLeft(s) && AllBlank(left)
  {
    if s != "" && IsSpace(s[0]) {
      var rest := TrimLeftSplits(s[1..]);
      left := [s[0]] + rest;
      Regroup(s, [s[0]], rest, TrimLeft(s[1..]), s[1..]);
    } else {
      left := "";
    }
  }

  lemma {:induction false} TrimRightSplits(s: string) returns (right: string)
    ensures s == TrimRight(s) + right && AllBlank(right)
  {
    if s != "" && IsSpace(s[|s| - 1]) {
      var rest := TrimRightSplits(s[..|s| - 1]);
      right := rest + [s[|s| - 1]];
      assert s == s[..|s| - 1] + [s[|s| - 1]];
    } else {
      right := "";
    }
  }

  lemma TrimSpaceSplits(s: string) returns (left: string, right: string)
    ensures s == left + TrimSpace(s) + right && AllBlank(left) && AllBlank(right)
  {
    left := TrimLeftSplits(s);
    right := TrimRightSplits(TrimLeft(s));
    Regroup(s, left, TrimSpace(s), right, TrimLeft(s));
  }

  /** Trimming leaves nothing exactly of a text of blanks. */
  lemma TrimSpaceOfBlanks(s: string)
    ensures TrimSpace(s) == "" <==> AllBlank(s)
  {
    var left, right := TrimSpaceSplits(s);
    if TrimSpace(s) != "" { assert s[|left|] == TrimSpace(s)[0]; }
  }

  /** Blank padding is exactly what trimming takes away. */
  lemma {:induction false} TrimSpaceOfPadded(left: string, s: string, right: string)
    requires Trimmed(s) && s != ""
    requires forall i :: 0 <= i < |left| ==> IsSpace(left[i])
    requires forall i :: 0 <= i < |right| ==> IsSpace(right[i])
    ensures TrimSpace(left + s + right) == s
    decreases |left| + |right|
  {
    if left != "" {
      assert (left + s + right)[1..] == left[1..] + s + right;
      TrimSpaceOfPadded(left[1..], s, right);
    } else if right != "" {
      TrimRightOfPadded(s, right);
      assert left + s + right == s + right;
    } else {
      assert left + s + right == s;
    }
  }

  lemma {:induction false} TrimRightOfPadded(s: string, right: string)
    requires Trimmed(s) && s != ""
    requires forall i :: 0 <= i < |right| ==> IsSpace(right[i])
    ensures TrimRight(s + right) == s
  {
    if right != "" {
      assert (s + right)[..|s + right| - 1] == s + right[..|right| - 1];
      TrimRightOfPadded(s, right[..|right| - 1]);
    } else {
      assert s + right == s;
    }
  }

  // unicode.ToLower as far as the result is ASCII: the ASCII letters, and the dotted capital I
  // and the Kelvin sign, the only other letters whose lower case is.
  function LowerChar(c: char): char {
    if 'A' <= c <= 'Z' then (c as int + 32) as char
    else if c == '\U{0130}' then 'i'
    else if c == '\U{212A}' then 'k'
    else c
  }

  function ToLower(s: string): (r: string)
    ensures |r| == |s|
    ensures forall i :: 0 <= i < |s| ==> r[i] == LowerChar(s[i])
  {
    seq(|s|, i requires 0 <= i < |s| => LowerChar(s[i]))
  }

  // strings.ReplaceAll(s, c, "") for a one-character pattern.
  function Without(c: char, s: string): (r: string)
    ensures c !in r
    ensures c !in s ==> r == s
    ensures |r| <= |s|
  {
    if s == "" then ""
    else if s[0] == c then Without(c, s[1..])
    else [s[0]] + Without(c, s[1..])
  }

  lemma {:induction false} WithoutConcat(c: char, a: string, b: string)
    ensures Without(c, a + b) == Without(c, a) + Without(c, b)
  {
    if a == "" {
      assert a + b == b;
    } else {
      var head, rest := [a[0]], a[1..];
      assert a == head + rest;
      WithHead(head, rest, b);
      WithoutConcat(c, rest, b);
      WithoutCons(c, a[0], rest + b);
      WithoutCons(c, a[0], rest);
      WithHead(if a[0] == c then "" else head, Without(c, rest), Without(c, b));
    }
  }

  lemma WithoutCons(c: char, head: char, rest: string)
    ensures Without(c, [head] + rest) == (if head == c then "" else [head]) + Without(c, rest)
  {
    assert ([head] + rest)[1..] == rest;
  }

  lemma WithHead(head: string, a: string, b: string)
    ensures head + (a + b) == (head + a) + b
  {
  }

  function RuneLen(c: char): nat {
    if c < '\U{0080}' then 1
    else if c < '\U{0800}' then 2
    else if c < '\U{10000}' then 3
    else 4
  }

  function ByteLen(s: string): (n: nat)
    ensures n >= |s|
  {
    if s == "" then 0 else RuneLen(s[0]) + ByteLen(s[1..])
  }

  lemma {:induction false} ByteLenAscii(s: string)
    requires forall i :: 0 <= i < |s| ==> s[i] < '\U{0080}'
    ensures ByteLen(s) == |s|
  {
    if s != "" { ByteLenAscii(s[1..]); }
  }

  predicate IsControl(c: char) {
    c < ' ' || c == '\U{007F}'
  }

  // visibleString of the domain package.
  predicate Visible(s: string) {
    forall i :: 0 <= i < |s| ==> !IsControl(s[i])
  }

  predicate HasPrefix(s: string, prefix: string) {
    prefix <= s
  }

  predicate Contains(s: string, sub: string) {
    exists i :: 0 <= i <= |s| && sub <= s[i..]
  }

  predicate IsHexDigit(c: char) {
    '0' <= c <= '9' || 'a' <= c <= 'f'
  }

  predicate IsHex(s: string, n: nat) {
    |s| == n && forall i :: 0 <= i < n ==> IsHexDigit(s[i])
  }

  // Byte order of Go strings; on valid UTF-8 it is the order of the code points.
  predicate Less(a: string, b: string) {
    if b == "" then false
    else if a == "" then true
    else a[0] < b[0] || (a[0] == b[0] && Less(a[1..], b[1..]))
  }

  lemma {:induction false} LessTransitive(a: string, b: string, c: string)
    requires Less(a, b) && Less(b, c)
    ensures Less(a, c)
  {
    if a != "" && a[0] == b[0] && b[0] == c[0] {
      LessTransitive(a[1..], b[1..], c[1..]);
    }
  }

  lemma {:induction false} LessTotal(a: string, b: string)
    ensures Less(a, b) || a == b || Less(b, a)
    ensures !(Less(a, b) && Less(b, a)) && !Less(a, a)
  {
    if a != "" { LessTotal(a[1..], a[1..]); }
    if a != "" && b != "" && a[0] == b[0] {
      LessTotal(a[1..], b[1..]);
      assert a == [a[0]] + a[1..] && b == [b[0]] + b[1..];
    }
  }

  /** Less compares the first place where two texts differ, and a proper prefix is less. */
  lemma {:induction false} LessExactly(a: string, b: string)
    ensures Less(a, b) <==>
            exists k :: 0 <= k <= |a| && k < |b| && a[..k] == b[..k] && (k == |a| || a[k] < b[k])
  {
    if a != "" && b != "" && a[0] == b[0] {
      LessExactly(a[1..], b[1..]);
      if k :| 0 <= k <= |a[1..]| && k < |b[1..]| && a[1..][..k] == b[1..][..k] && (k == |a[1..]| || a[1..][k] < b[1..][k]) {
        assert a[..k + 1] == [a[0]] + a[1..][..k] && b[..k + 1] == [b[0]] + b[1..][..k];
      }
      if k :| 0 <= k <= |a| && k < |b| && a[..k] == b[..k] && (k == |a| || a[k] < b[k]) {
        assert a[1..][..k - 1] == a[..k][1..] && b[1..][..k - 1] == b[..k][1..];
      }
    } else if b != "" {
      assert a[..0] == b[..0];
      if k :| 0 <= k <= |a| && k < |b| && a[..k] == b[..k] && (k == |a| || a[k] < b[k]) {
        assert k > 0 ==> a[..k][0] == b[..k][0];
      }
    }
  }

  // ---- strings.Join and strings.Split with a one-character separator ----

  function JoinWith(sep: char, parts: seq<string>): string {
    if |parts| == 0 then ""
    else if |parts| == 1 then parts[0]
    else parts[0] + [sep] + JoinWith(sep, parts[1..])
  }

  lemma JoinCons(sep: char, head: string, rest: seq<string>)
    requires |rest| >= 1
    ensures JoinWith(sep, [head] + rest) == head + [sep] + JoinWith(sep, rest)
  {
  }

  function ConsHead(c: char, parts: seq<string>): (r: seq<string>)
    requires |parts| >= 1
    ensures |r| == |parts|
  {
    [[c] + parts[0]] + parts[1..]
  }

  lemma ConsHeadConcat(c: char, x: seq<string>, y: seq<string>)
    requires |x| >= 1
    ensures ConsHead(c, x + y) == ConsHead(c, x) + y
  {
  }

  function SplitOn(sep: char, s: string): (parts: seq<string>)
    ensures |parts| >= 1
  {
    if s == "" then [""]
    else
      var rest := SplitOn(sep, s[1..]);
      if s[0] == sep then [""] + rest else ConsHead(s[0], rest)
  }

  lemma {:induction false} SplitOnFirst(sep: char, field: string, rest: string)
    requires sep !in field
    ensures SplitOn(sep, field) == [field]
    ensures SplitOn(sep, field + [sep] + rest) == [field] + SplitOn(sep, rest)
  {
    if field == "" {
      assert field + [sep] + rest == [sep] + rest;
    } else {
      SplitOnFirst(sep, field[1..], rest);
      assert (field + [sep] + rest)[1..] == field[1..] + [sep] + rest;
      assert [field[0]] + field[1..] == field;
    }
  }

  /** Splitting recovers the joined fields, provided no field holds the separator. */
  lemma {:induction false} SplitOfJoin(sep: char, parts: seq<string>)
    requires |parts| >= 1
    requires forall p :: p in parts ==> sep !in p
    ensures SplitOn(sep, JoinWith(sep, parts)) == parts
  {
    SplitOnFirst(sep, parts[0], JoinWith(sep, parts[1..]));
    if |parts| > 1 {
      SplitOfJoin(sep, parts[1..]);
      assert parts == [parts[0]] + parts[1..];
    }
  }

  lemma {:induction false} SplitOnConcat(sep: char, a: string, b: string)
    ensures SplitOn(sep, a + [sep] + b) == SplitOn(sep, a) + SplitOn(sep, b)
  {
    if a == "" {
      assert a + [sep] + b == [sep] + b;
    } else {
      SplitOnConcat(sep, a[1..], b);
      var rest, others := SplitOn(sep, a[1..]), SplitOn(sep, b);
      assert (a + [sep] + b)[1..] == a[1..] + [sep] + b;
      if a[0] == sep {
        assert [""] + (rest + others) == ([""] + rest) + others;
      } else {
        ConsHeadConcat(a[0], rest, others);
      }
    }
  }

  lemma {:induction false} SplitOnParts(sep: char, s: string)
    ensures forall i :: 0 <= i < |SplitOn(sep, s)| ==> sep !in SplitOn(sep, s)[i]
  {
    if s != "" { SplitOnParts(sep, s[1..]); }
  }
}

/** Textual UUIDs (the 8-4-4-4-12 form of section 4 of RFC 9562) and their stored 32-digit form. */
module Identifiers {
  import opened Prelude
  import opened Text

  datatype IdError = InvalidUuid

  function NormalizeUuid(input: string): (r: Result<string, IdError>)
    ensures r.Ok? ==> IsHex(r.value, 32)
  {
    var value := Without('-', ToLower(TrimSpace(input)));
    if IsHex(value, 32) then Ok(value) else Err(InvalidUuid)
  }

  predicate StoredUuid(value: string) {
    value == "" || IsHex(value, 32)
  }

  function Groups(value: string): (parts: seq<string>)
    requires IsHex(value, 32)
  {
    [value[..8], value[8..12], value[12..16], value[16..20], value[20..]]
  }

  function DashedUuid(value: string): string
    requires StoredUuid(value)
  {
    if value == "" then "" else JoinWith('-', Groups(value))
  }

  lemma HexHasNoDash(value: string, n: nat)
    requires IsHex(value, n)
    ensures '-' !in value && '/' !in value && '.' !in value && '\U{001F}' !in value
    ensures Trimmed(value) && ToLower(value) == value
  {
  }

  lemma DashedUuidLayout(value: string)
    requires IsHex(value, 32)
    ensures DashedUuid(value) ==
            value[..8] + ['-'] + (value[8..12] + ['-'] + (value[12..16] + ['-'] + (value[16..20] + ['-'] + value[20..])))
  {
    var g := Groups(value);
    var rest := [g[3], g[4]];
    assert rest[1..] == [g[4]];
    JoinCons('-', g[2], rest);
    JoinCons('-', g[1], [g[2]] + rest);
    JoinCons('-', g[0], [g[1]] + ([g[2]] + rest));
    assert g == [g[0]] + ([g[1]] + ([g[2]] + rest));
  }

  lemma DashedUuidShape(value: string)
    requires IsHex(value, 32)
    ensures |DashedUuid(value)| == 36
    ensures forall i :: 0 <= i < 36 ==> IsHexDigit(DashedUuid(value)[i]) || DashedUuid(value)[i] == '-'
    ensures forall i :: 0 <= i < 36 ==> (DashedUuid(value)[i] == '-' <==> i == 8 || i == 13 || i == 18 || i == 23)
    ensures IsHexDigit(DashedUuid(value)[0]) && IsHexDigit(DashedUuid(value)[35])
  {
    DashedUuidLayout(value);
  }

  lemma WithoutDashes(value: string)
    requires IsHex(value, 32)
    ensures Without('-', DashedUuid(value)) == value
  {
    HexHasNoDash(value, 32);
    DashedUuidLayout(value);
    WithoutInGroups(value[..8], value[8..12], value[12..16], value[16..20], value[20..]);
    GroupsJoin(value);
  }

  lemma GroupsJoin(value: string)
    requires |value| == 32
    ensures value[..8] + (value[8..12] + (value[12..16] + (value[16..20] + value[20..]))) == value
  {
  }

  lemma WithoutInGroups(a: string, b: string, c: string, d: string, e: string)
    requires '-' !in a && '-' !in b && '-' !in c && '-' !in d && '-' !in e
    ensures Without('-', a + ['-'] + (b + ['-'] + (c + ['-'] + (d + ['-'] + e)))) == a + (b + (c + (d + e)))
  {
    DropDash(d, e);
    DropDash(c, d + ['-'] + e);
    DropDash(b, c + ['-'] + (d + ['-'] + e));
    DropDash(a, b + ['-'] + (c + ['-'] + (d + ['-'] + e)));
  }

  lemma DropDash(group: string, rest: string)
    requires '-' !in group
    ensures Without('-', group + ['-'] + rest) == group + Without('-', rest)
  {
    assert group + ['-'] + rest == group + (['-'] + rest);
    WithoutConcat('-', group, ['-'] + rest);
    assert (['-'] + rest)[1..] == rest;
  }

  predicate IsHexDigitAnyCase(c: char) {
    IsHexDigit(c) || 'A' <= c <= 'F'
  }

  predicate IsHexAnyCase(s: string, n: nat) {
    |s| == n && forall i :: 0 <= i < n ==> IsHexDigitAnyCase(s[i])
  }

  lemma {:induction false} WithoutLowered(s: string)
    ensures Without('-', ToLower(s)) == ToLower(Without('-', s))
  {
    if s != "" {
      var rest := s[1..];
      assert ToLower(s)[1..] == ToLower(rest);
      WithoutLowered(rest);
      if s[0] != '-' {
        assert LowerChar(s[0]) != '-';
        assert ToLower([s[0]] + Without('-', rest)) == [LowerChar(s[0])] + ToLower(Without('-', rest));
      }
    }
  }

  lemma LoweredHex(s: string, n: nat)
    ensures IsHex(ToLower(s), n) <==> IsHexAnyCase(s, n)
  {
    if IsHex(ToLower(s), n) {
      forall i | 0 <= i < n
        ensures IsHexDigitAnyCase(s[i])
      {
        assert IsHexDigit(ToLower(s)[i]);
      }
    }
  }

  /** A text is an identifier exactly when its trimmed form has, wherever its dashes are, 32 hex
      digits of either case; the value is those digits in lower case. */
  lemma NormalizeUuidExactly(input: string)
    ensures NormalizeUuid(input).Ok? <==> IsHexAnyCase(Without('-', TrimSpace(input)), 32)
    ensures NormalizeUuid(input).Ok? ==> NormalizeUuid(input).value == ToLower(Without('-', TrimSpace(input)))
  {
    WithoutLowered(TrimSpace(input));
    LoweredHex(Without('-', TrimSpace(input)), 32);
  }

  // Text of hex digits and dashes that neither starts nor ends in a dash.
  predicate HexAndDashes(s: string) {
    && s != "" && IsHexDigit(s[0]) && IsHexDigit(s[|s| - 1])
    && forall i :: 0 <= i < |s| ==> IsHexDigit(s[i]) || s[i] == '-'
  }

  lemma NormalizedByDroppingDashes(s: string)
    requires HexAndDashes(s) && IsHex(Without('-', s), 32)
    ensures NormalizeUuid(s) == Ok(Without('-', s))
  {
    assert forall i :: 0 <= i < |s| ==> LowerChar(s[i]) == s[i];
    assert ToLower(s) == s;
    assert Trimmed(s);
  }

  lemma DashedUuidIsHexAndDashes(value: string)
    requires IsHex(value, 32)
    ensures HexAndDashes(DashedUuid(value))
  {
    DashedUuidShape(value);
  }

  /** Printing a stored identifier and reading it back gives the identifier. */
  lemma UuidRoundTrip(value: string)
    requires IsHex(value, 32)
    ensures NormalizeUuid(DashedUuid(value)) == Ok(value)
    ensures NormalizeUuid(value) == Ok(value)
  {
    HexHasNoDash(value, 32);
    NormalizedByDroppingDashes(value);
    DashedUuidIsHexAndDashes(value);
    WithoutDashes(value);
    NormalizedByDroppingDashes(DashedUuid(value));
  }

  lemma DashedUuidInjective(a: string, b: string)
    requires StoredUuid(a) && StoredUuid(b) && DashedUuid(a) == DashedUuid(b)
    ensures a == b
  {
    if a != "" { UuidRoundTrip(a); DashedUuidShape(a); }
    if b != "" { UuidRoundTrip(b); DashedUuidShape(b); }
  }
}

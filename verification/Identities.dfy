/** Source map, debug file and minidump identities: validated fields, the 0x1f-separated
    text that is hashed, and the artifact name made from the digest. The hash is a parameter. */
module Identities {
  import opened Prelude
  import opened Text
  import opened Identifiers
  import opened ArtifactKeys

  const RELEASE_MAX_BYTES := 200
  const DIST_MAX_BYTES := 64
  const FILE_NAME_MAX_BYTES := 512
  const DEBUG_ID_MIN_HEX := 32
  const DEBUG_ID_MAX_HEX := 40

  const FIELD_SEPARATOR := '\U{001F}'

  datatype FieldError =
    | FieldRequired
    | FieldTooLong
    | FieldTooShort
    | FieldHasControl
    | FieldHasBackslash
    | FieldTraverses
    | FieldNotRelative
    | FieldNotHex
    | KindUnknown

  // ---- fields ----

  function NewReleaseName(input: string): Result<string, FieldError> {
    var value := TrimSpace(input);
    if value == "" then Err(FieldRequired)
    else if ByteLen(value) > RELEASE_MAX_BYTES then Err(FieldTooLong)
    else if !Visible(value) then Err(FieldHasControl)
    else Ok(value)
  }

  function NewOptionalDistName(input: string): Result<string, FieldError> {
    var value := TrimSpace(input);
    if value == "" then Ok("")
    else if ByteLen(value) > DIST_MAX_BYTES then Err(FieldTooLong)
    else if !Visible(value) then Err(FieldHasControl)
    else Ok(value)
  }

  // NewSourceMapFileName, NewDebugFileName and NewMinidumpAttachmentName make the same checks
  // with the same limit; only their messages differ.
  function NewFileName(input: string): Result<string, FieldError> {
    var value := TrimSpace(input);
    if value == "" then Err(FieldRequired)
    else if ByteLen(value) > FILE_NAME_MAX_BYTES then Err(FieldTooLong)
    else if !Visible(value) then Err(FieldHasControl)
    else if HasAny(value, "\\\0") then Err(FieldHasBackslash)
    else if Contains(value, "..") then Err(FieldTraverses)
    else if HasPrefix(value, "/") then Err(FieldNotRelative)
    else Ok(value)
  }

  function NewDebugIdentifier(input: string): Result<string, FieldError> {
    var value := TrimSpace(input);
    if value == "" then Err(FieldRequired)
    else
      var normalized := ToLower(Without('-', value));
      if ByteLen(normalized) < DEBUG_ID_MIN_HEX then Err(FieldTooShort)
      else if ByteLen(normalized) > DEBUG_ID_MAX_HEX then Err(FieldTooLong)
      else if !IsHex(normalized, |normalized|) then Err(FieldNotHex)
      else Ok(normalized)
  }

  // ---- which texts the constructors accept ----

  /** A release name is a text that is not blank, of at most 200 bytes once trimmed and without
      control characters; a distribution is the same with 64 bytes, or blank. */
  lemma NameTextsExactly(input: string, value: string)
    ensures NewReleaseName(input) == Ok(value)
        <==> value == TrimSpace(input) != "" && ByteLen(value) <= 200 && Visible(value)
    ensures NewOptionalDistName(input) == Ok(value)
        <==> value == TrimSpace(input) && (value != "" ==> ByteLen(value) <= 64 && Visible(value))
  {
  }

  lemma DoubleDot(value: string)
    ensures Contains(value, "..") <==> exists i :: 0 <= i < |value| - 1 && value[i] == '.' && value[i + 1] == '.'
  {
    if Contains(value, "..") {
      var i :| 0 <= i <= |value| && ".." <= value[i..];
      assert value[i..][0] == value[i] == '.' && value[i..][1] == value[i + 1] == '.';
    }
    if i :| 0 <= i < |value| - 1 && value[i] == '.' && value[i + 1] == '.' {
      assert ".." <= value[i..];
    }
  }

  /** A file name is a text that is not blank, of at most 512 bytes once trimmed, without control
      characters and backslashes, without two dots in a row and not starting with a slash. */
  lemma NewFileNameExactly(input: string, value: string)
    ensures NewFileName(input) == Ok(value)
        <==> && value == TrimSpace(input) != "" && ByteLen(value) <= 512 && Visible(value)
             && '\\' !in value && value[0] != '/'
             && forall i :: 0 <= i < |value| - 1 ==> value[i] != '.' || value[i + 1] != '.'
  {
    var text := TrimSpace(input);
    DoubleDot(text);
    BackslashOrZero(text);
    assert Visible(text) ==> '\0' !in text;
  }

  lemma BackslashOrZero(value: string)
    ensures HasAny(value, "\\\0") <==> '\\' in value || '\0' in value
  {
    assert "\\\0"[0] == '\\' && "\\\0"[1] == '\0';
  }

  /** A debug identifier is 32 to 40 hex digits of either case, wherever its dashes are; the value
      is those digits in lower case. */
  lemma NewDebugIdentifierExactly(input: string, value: string)
    ensures
      var digits := Without('-', TrimSpace(input));
      NewDebugIdentifier(input) == Ok(value)
      <==> 32 <= |digits| <= 40 && IsHexAnyCase(digits, |digits|) && value == ToLower(digits)
  {
    var digits := Without('-', TrimSpace(input));
    LoweredHex(digits, |digits|);
    if IsHex(ToLower(digits), |digits|) { ByteLenAscii(ToLower(digits)); }
  }

  predicate DebugFileKind(kind: string) {
    kind == "breakpad" || kind == "elf" || kind == "macho" || kind == "pdb"
  }

  // ---- identities ----

  datatype Identity =
    | SourceMap(release: string, dist: string, fileName: string)
    | DebugFile(debugId: string, kind: string, fileName: string)
    | Minidump(eventId: string, attachmentName: string)

  // Values that came out of their constructors.
  ghost predicate ReleaseName(value: string) {
    exists input :: NewReleaseName(input) == Ok(value)
  }

  ghost predicate DistName(value: string) {
    exists input :: NewOptionalDistName(input) == Ok(value)
  }

  ghost predicate FileName(value: string) {
    exists input :: NewFileName(input) == Ok(value)
  }

  ghost predicate DebugIdentifier(value: string) {
    exists input :: NewDebugIdentifier(input) == Ok(value)
  }

  ghost predicate Constructed(id: Identity) {
    match id
    case SourceMap(release, dist, fileName) => ReleaseName(release) && DistName(dist) && FileName(fileName)
    case DebugFile(debugId, kind, fileName) => DebugIdentifier(debugId) && DebugFileKind(kind) && FileName(fileName)
    case Minidump(eventId, attachmentName) => IsHex(eventId, 32) && FileName(attachmentName)
  }

  function Fields(id: Identity): seq<string> {
    match id
    case SourceMap(release, dist, fileName) => [release, dist, fileName]
    case DebugFile(debugId, kind, fileName) => [debugId, kind, fileName]
    case Minidump(eventId, attachmentName) => [eventId, attachmentName]
  }

  // The bytes written to the hasher, one Write after another.
  function Hashed(id: Identity): string {
    match id
    case SourceMap(release, dist, fileName) =>
      release + [FIELD_SEPARATOR] + dist + [FIELD_SEPARATOR] + fileName
    case DebugFile(debugId, kind, fileName) =>
      debugId + [FIELD_SEPARATOR] + kind + [FIELD_SEPARATOR] + fileName
    case Minidump(eventId, attachmentName) =>
      eventId + [FIELD_SEPARATOR] + attachmentName
  }

  function Suffix(id: Identity): string {
    match id
    case SourceMap(_, _, _) => ".map"
    case DebugFile(_, _, _) => ".dif"
    case Minidump(_, _) => ".mdmp"
  }

  // hex(sha256(...)): 64 lower-case digits for every input.
  ghost predicate IsHexDigest(digest: string -> string, length: nat) {
    forall text :: IsHex(digest(text), length)
  }

  function ArtifactName(id: Identity, sha256: string -> string): string {
    sha256(Hashed(id)) + Suffix(id)
  }

  // ---- the encoding determines the fields ----

  lemma ReleaseNameIsClean(value: string)
    requires ReleaseName(value)
    ensures FIELD_SEPARATOR !in value
  {
  }

  lemma DistNameIsClean(value: string)
    requires DistName(value)
    ensures FIELD_SEPARATOR !in value
  {
  }

  lemma FileNameIsClean(value: string)
    requires FileName(value)
    ensures FIELD_SEPARATOR !in value
  {
  }

  lemma DebugIdentifierIsClean(value: string)
    requires DebugIdentifier(value)
    ensures FIELD_SEPARATOR !in value
  {
  }

  lemma DebugFileKindIsClean(value: string)
    requires DebugFileKind(value)
    ensures FIELD_SEPARATOR !in value
  {
  }

  lemma ConstructedFieldsAreClean(id: Identity)
    requires Constructed(id)
    ensures forall i :: 0 <= i < |Fields(id)| ==> FIELD_SEPARATOR !in Fields(id)[i]
  {
    match id {
      case SourceMap(release, dist, fileName) =>
        ReleaseNameIsClean(release);
        DistNameIsClean(dist);
        FileNameIsClean(fileName);
      case DebugFile(debugId, kind, fileName) =>
        DebugIdentifierIsClean(debugId);
        DebugFileKindIsClean(kind);
        FileNameIsClean(fileName);
      case Minidump(eventId, attachmentName) =>
        HexHasNoDash(eventId, 32);
        FileNameIsClean(attachmentName);
    }
  }

  lemma HashedIsJoin(id: Identity)
    ensures Hashed(id) == JoinWith(FIELD_SEPARATOR, Fields(id))
  {
    var f := Fields(id);
    if |f| == 3 {
      assert f[1..] == [f[1], f[2]];
      assert f[1..][1..] == [f[2]];
      JoinCons(FIELD_SEPARATOR, f[1], [f[2]]);
      JoinCons(FIELD_SEPARATOR, f[0], [f[1], f[2]]);
      assert [f[1]] + [f[2]] == [f[1], f[2]];
      assert [f[0]] + [f[1], f[2]] == f;
      var s := [FIELD_SEPARATOR];
      assert f[0] + s + f[1] + s + f[2] == f[0] + s + (f[1] + s + f[2]);
    } else {
      JoinCons(FIELD_SEPARATOR, f[0], [f[1]]);
      assert [f[0]] + [f[1]] == f;
    }
  }

  // The decoder: cut at every separator.
  function Decode(text: string): seq<string> {
    SplitOn(FIELD_SEPARATOR, text)
  }

  lemma DecodesToFields(id: Identity)
    requires Constructed(id)
    ensures Decode(Hashed(id)) == Fields(id)
  {
    ConstructedFieldsAreClean(id);
    HashedIsJoin(id);
    assert forall p :: p in Fields(id) ==> FIELD_SEPARATOR !in p;
    SplitOfJoin(FIELD_SEPARATOR, Fields(id));
  }

  /** Decoding the hashed text of a constructed identity gives back its fields in this order, an
      empty distribution included. */
  lemma DecodeRecoversFields(id: Identity)
    requires Constructed(id)
    ensures id.SourceMap? ==> Decode(Hashed(id)) == [id.release, id.dist, id.fileName]
    ensures id.DebugFile? ==> Decode(Hashed(id)) == [id.debugId, id.kind, id.fileName]
    ensures id.Minidump? ==> Decode(Hashed(id)) == [id.eventId, id.attachmentName]
  {
    DecodesToFields(id);
  }

  // A debug file identity and a source map identity may hash the same text; the suffix tells them apart.
  lemma SameHashedSameIdentity(a: Identity, b: Identity)
    requires Constructed(a) && Constructed(b)
    requires Hashed(a) == Hashed(b) && Suffix(a) == Suffix(b)
    ensures a == b
  {
    DecodeRecoversFields(a);
    DecodeRecoversFields(b);
    var f, g := Fields(a), Fields(b);
    assert f == g;
    assert f[0] == g[0] && f[1] == g[1] && f[|f| - 1] == g[|g| - 1];
  }

  // ---- the names ----

  lemma HexIsAscii(s: string)
    requires IsHex(s, |s|)
    ensures forall i :: 0 <= i < |s| ==> s[i] < '\U{0080}' && !IsControl(s[i])
    ensures '/' !in s && '\\' !in s
    ensures forall i :: 0 <= i < |s| ==> s[i] != '.' && s[i] != '-' && s[i] != 'h'
  {
  }

  lemma {:induction false} ByteLenConcat(a: string, b: string)
    ensures ByteLen(a + b) == ByteLen(a) + ByteLen(b)
  {
    if a == "" {
      assert a + b == b;
    } else {
      ByteLenConcat(a[1..], b);
      assert (a + b)[1..] == a[1..] + b;
    }
  }

  // An ASCII word that may follow a run of hex digits in a file name.
  predicate PlainTail(s: string) {
    && s != "" && !IsSpace(s[|s| - 1])
    && (forall i :: 0 <= i < |s| ==> s[i] < '\U{0080}' && !IsControl(s[i]) && s[i] != '/' && s[i] != '\\')
  }

  lemma SuffixIsPlain(id: Identity)
    ensures PlainTail(Suffix(id)) && |Suffix(id)| <= 5
    ensures Suffix(id)[0] == '.'
  {
  }

  /** The name is the 64 digits of the digest of the hashed text and the ending of its family. */
  lemma ArtifactNameParts(id: Identity, sha256: string -> string)
    requires IsHexDigest(sha256, 64)
    ensures ArtifactName(id, sha256)[..64] == sha256(Hashed(id))
    ensures id.SourceMap? ==> ArtifactName(id, sha256)[64..] == ".map"
    ensures id.DebugFile? ==> ArtifactName(id, sha256)[64..] == ".dif"
    ensures id.Minidump? ==> ArtifactName(id, sha256)[64..] == ".mdmp"
  {
    assert |sha256(Hashed(id))| == 64;
  }

  /** The unchecked name an identity builds would have passed NewArtifactName unchanged. */
  lemma ArtifactNameIsValid(id: Identity, sha256: string -> string)
    requires IsHexDigest(sha256, 64)
    ensures ValidName(ArtifactName(id, sha256))
    ensures NewArtifactName(ArtifactName(id, sha256)) == Ok(ArtifactName(id, sha256))
  {
    var digest, suffix := sha256(Hashed(id)), Suffix(id);
    HexIsAscii(digest);
    SuffixIsPlain(id);
    var name := ArtifactName(id, sha256);
    ByteLenConcat(digest, suffix);
    ByteLenAscii(digest);
    ByteLenAscii(suffix);
    assert name[0] == digest[0] && name[|name| - 1] == suffix[|suffix| - 1];
    assert IsHexDigit(digest[0]);
    NewArtifactNameAccepts(name);
  }

  /** Under a collision-free digest two constructed identities share a name only if they are
      one identity; across families no assumption on the digest is needed. */
  lemma ArtifactNamesAreDistinct(a: Identity, b: Identity, sha256: string -> string)
    requires Constructed(a) && Constructed(b) && IsHexDigest(sha256, 64)
    requires sha256(Hashed(a)) == sha256(Hashed(b)) ==> Hashed(a) == Hashed(b)
    ensures ArtifactName(a, sha256) == ArtifactName(b, sha256) <==> a == b
    ensures Suffix(a) != Suffix(b) ==> ArtifactName(a, sha256) != ArtifactName(b, sha256)
  {
    var p, q := ArtifactName(a, sha256), ArtifactName(b, sha256);
    if p == q {
      assert p[..64] == sha256(Hashed(a)) && q[..64] == sha256(Hashed(b));
      assert p[64..] == Suffix(a) && q[64..] == Suffix(b);
      SameHashedSameIdentity(a, b);
    }
  }

  /** No identity's name is the name of an upload chunk. */
  lemma ArtifactNamesAreNotChunks(id: Identity, sha256: string -> string, name: string)
    requires IsHexDigest(sha256, 64) && HasPrefix(name, "chunk-")
    ensures ArtifactName(id, sha256) != name
  {
    assert IsHexDigit(sha256(Hashed(id))[1]);
    assert name[1] == "chunk-"[1];
    assert ArtifactName(id, sha256)[1] == sha256(Hashed(id))[1];
  }
}

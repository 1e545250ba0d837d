/** Artifact kinds, names and keys. A stored name is one path component that can be
    neither hidden nor a temporary file of the vault. */
module ArtifactKeys {
  import opened Prelude
  import opened Text
  import opened Identifiers

  const ARTIFACT_NAME_MAX_BYTES := 255

  const KIND_SOURCE_MAP := "source_map"
  const KIND_DEBUG_FILE := "debug_file"
  const KIND_MINIDUMP := "minidump"
  const KIND_ATTACHMENT := "attachment"
  const KIND_UPLOAD_CHUNK := "upload_chunk"

  datatype KeyError =
    | NameRequired
    | NameTooLong
    | NameStartsWithDot
    | NameHasSeparator
    | NameTraverses
    | NameHasControl
    | KindInvalid
    | OrganizationRequired
    | ProjectRequired
    | KindRequired

  // A zero-valued field is the empty string, as in the source.
  datatype ArtifactKey = ArtifactKey(organizationId: string, projectId: string, kind: string, name: string)

  predicate ValidKind(kind: string) {
    || kind == KIND_SOURCE_MAP
    || kind == KIND_DEBUG_FILE
    || kind == KIND_MINIDUMP
    || kind == KIND_ATTACHMENT
    || kind == KIND_UPLOAD_CHUNK
  }

  function ParseArtifactKind(input: string): (r: Result<string, KeyError>)
    ensures r.Ok? ==> ValidKind(r.value)
  {
    var value := TrimSpace(ToLower(input));
    if ValidKind(value) then Ok(value) else Err(KindInvalid)
  }

  lemma BlankWhenLowered(c: char)
    ensures IsSpace(LowerChar(c)) <==> IsSpace(c)
  {
  }

  lemma {:induction false} TrimLeftOfLowered(s: string)
    ensures TrimLeft(ToLower(s)) == ToLower(TrimLeft(s))
  {
    if s != "" {
      BlankWhenLowered(s[0]);
      assert ToLower(s)[1..] == ToLower(s[1..]);
      if IsSpace(s[0]) { TrimLeftOfLowered(s[1..]); }
    }
  }

  lemma {:induction false} TrimRightOfLowered(s: string)
    ensures TrimRight(ToLower(s)) == ToLower(TrimRight(s))
  {
    if s != "" {
      BlankWhenLowered(s[|s| - 1]);
      assert ToLower(s)[..|s| - 1] == ToLower(s[..|s| - 1]);
      if IsSpace(s[|s| - 1]) { TrimRightOfLowered(s[..|s| - 1]); }
    }
  }

  lemma KindIsPlain(kind: string)
    requires ValidKind(kind)
    ensures ToLower(kind) == kind && TrimSpace(kind) == kind
  {
    assert Trimmed(kind);
    assert forall i :: 0 <= i < |kind| ==> LowerChar(kind[i]) == kind[i];
  }

  /** A text is read as a kind exactly when, padding apart and in some mix of cases, it spells
      that kind; every kind is read as itself. */
  lemma ParseArtifactKindExactly(input: string, kind: string)
    ensures ParseArtifactKind(input) == Ok(kind) <==> ValidKind(kind) && ToLower(TrimSpace(input)) == kind
    ensures ValidKind(kind) ==> ParseArtifactKind(kind) == Ok(kind)
    ensures ValidKind(kind)
        <==> kind in {"source_map", "debug_file", "minidump", "attachment", "upload_chunk"}
  {
    TrimLeftOfLowered(input);
    TrimRightOfLowered(TrimLeft(input));
    if ValidKind(kind) { KindIsPlain(kind); }
  }

  predicate HasAny(value: string, chars: string) {
    exists i :: 0 <= i < |value| && value[i] in chars
  }

  function NewArtifactName(input: string): (r: Result<string, KeyError>) {
    var value := TrimSpace(input);
    if value == "" then Err(NameRequired)
    else if ByteLen(value) > ARTIFACT_NAME_MAX_BYTES then Err(NameTooLong)
    else if HasPrefix(value, ".") then Err(NameStartsWithDot)
    else if HasAny(value, "/\\\0") then Err(NameHasSeparator)
    else if value == "." || value == ".." || Contains(value, "/..") || Contains(value, "../") then Err(NameTraverses)
    else if !Visible(value) then Err(NameHasControl)
    else Ok(value)
  }

  // What an accepted name is, said without the order of the checks.
  predicate ValidName(name: string) {
    && name != ""
    && Trimmed(name)
    && ByteLen(name) <= 255
    && name[0] != '.'
    && '/' !in name && '\\' !in name
    && Visible(name)
  }

  /** Acceptance is decided by the trimmed text alone, a stored name is accepted again
      unchanged, and the traversal branch is never the one that refuses. */
  lemma NewArtifactNameAccepts(input: string)
    ensures NewArtifactName(input).Ok? <==> ValidName(TrimSpace(input))
    ensures NewArtifactName(input).Ok? ==> NewArtifactName(input).value == TrimSpace(input)
    ensures ValidName(input) ==> NewArtifactName(input) == Ok(input)
    ensures NewArtifactName(input) != Err(NameTraverses)
  {
    var value := TrimSpace(input);
    assert value != "" ==> (HasPrefix(value, ".") <==> value[0] == '.');
    if HasAny(value, "/\\\0") {
      var i :| 0 <= i < |value| && value[i] in "/\\\0";
      assert value[i] == '/' || value[i] == '\\' || value[i] == '\0';
    } else {
      NoSeparatorNoTraversal(value);
    }
  }

  lemma NoSeparatorNoTraversal(value: string)
    requires !HasAny(value, "/\\\0")
    ensures '/' !in value && '\\' !in value
    ensures !Contains(value, "/..") && !Contains(value, "../")
  {
    assert "/\\\0"[0] == '/' && "/\\\0"[1] == '\\';
    assert "/.."[0] == '/' && "../"[2] == '/';
    ContainsCharacter(value, "/..", 0);
    ContainsCharacter(value, "../", 2);
  }

  lemma ContainsCharacter(value: string, sub: string, k: nat)
    requires k < |sub|
    ensures Contains(value, sub) ==> sub[k] in value
  {
  }

  function NewArtifactKey(organizationId: string, projectId: string, kind: string, name: string):
    (r: Result<ArtifactKey, KeyError>)
  {
    if organizationId == "" then Err(OrganizationRequired)
    else if projectId == "" then Err(ProjectRequired)
    else if kind == "" then Err(KindRequired)
    else if name == "" then Err(NameRequired)
    else Ok(ArtifactKey(organizationId, projectId, kind, name))
  }

  // The keys NewArtifactKey builds from identifiers, kinds and names that passed their own constructors.
  predicate ValidKey(key: ArtifactKey) {
    && IsHex(key.organizationId, 32)
    && IsHex(key.projectId, 32)
    && ValidKind(key.kind)
    && ValidName(key.name)
  }

  lemma NewArtifactKeyOfValidParts(organization: string, project: string, kind: string, name: string)
    requires NormalizeUuid(organization).Ok? && NormalizeUuid(project).Ok?
    requires ParseArtifactKind(kind).Ok? && NewArtifactName(name).Ok?
    ensures NewArtifactKey(NormalizeUuid(organization).value, NormalizeUuid(project).value,
                           ParseArtifactKind(kind).value, NewArtifactName(name).value).Ok?
    ensures ValidKey(NewArtifactKey(NormalizeUuid(organization).value, NormalizeUuid(project).value,
                                    ParseArtifactKind(kind).value, NewArtifactName(name).value).value)
  {
    NewArtifactNameAccepts(name);
    var o, p := NormalizeUuid(organization).value, NormalizeUuid(project).value;
    ValidPartsMakeKey(o, p, ParseArtifactKind(kind).value, NewArtifactName(name).value);
  }

  lemma ValidPartsMakeKey(organizationId: string, projectId: string, kind: string, name: string)
    requires IsHex(organizationId, 32) && IsHex(projectId, 32) && ValidKind(kind) && ValidName(name)
    ensures NewArtifactKey(organizationId, projectId, kind, name)
         == Ok(ArtifactKey(organizationId, projectId, kind, name))
  {
  }
}

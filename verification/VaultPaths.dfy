/** Where the artifact vault keeps a key: keyPath, scopePath and the containment check. */
module VaultPaths {
  import opened Prelude
  import opened Text
  import opened Identifiers
  import opened ArtifactKeys
  import opened Paths

  datatype VaultError =
    | RootRequired
    | RootNotAbsolute
    | KeyIncomplete
    | ScopeIncomplete
    | PathEscapesRoot
    | Cancelled
    | ContentsRequired
    | ArtifactNotFound
    | Io

  const TEMP_FILE_PREFIX := ".artifact-"

  // artifacts.ArtifactScope
  datatype Scope = Scope(organizationId: string, projectId: string, kind: string)

  predicate ValidScope(scope: Scope) {
    IsHex(scope.organizationId, 32) && IsHex(scope.projectId, 32) && ValidKind(scope.kind)
  }

  function ScopeOf(key: ArtifactKey): Scope {
    Scope(key.organizationId, key.projectId, key.kind)
  }

  // The checks of NewVault before it touches the disk.
  function ResolveRoot(root: string): Result<string, VaultError> {
    var cleaned := TrimSpace(root);
    if cleaned == "" then Err(RootRequired)
    else if cleaned[0] != '/' then Err(RootNotAbsolute)
    else Ok(Clean(cleaned))
  }

  function PathInside(root: string, candidate: string): bool {
    var relative := Rel(root, candidate);
    if relative == "." then true
    else if HasPrefix(relative, "..") then false
    else !Contains(relative, "../")
  }

  function ScopeDirFromKey(root: string, key: ArtifactKey): Result<string, VaultError>
    requires StoredUuid(key.organizationId) && StoredUuid(key.projectId)
  {
    var cleaned := Clean(Join([root, DashedUuid(key.organizationId), DashedUuid(key.projectId), key.kind]));
    if !PathInside(root, cleaned) then Err(PathEscapesRoot) else Ok(cleaned)
  }

  function KeyPath(root: string, key: ArtifactKey): Result<string, VaultError>
    requires StoredUuid(key.organizationId) && StoredUuid(key.projectId)
  {
    if key.name == "" || key.kind == "" then Err(KeyIncomplete)
    else
      var scopeDir := ScopeDirFromKey(root, key);
      if scopeDir.Err? then scopeDir
      else
        var cleaned := Clean(Join([scopeDir.value, key.name]));
        if !PathInside(root, cleaned) then Err(PathEscapesRoot) else Ok(cleaned)
  }

  function ScopePath(root: string, scope: Scope): Result<string, VaultError>
    requires StoredUuid(scope.organizationId) && StoredUuid(scope.projectId)
  {
    if scope.kind == "" then Err(ScopeIncomplete)
    else ScopeDirFromKey(root, ArtifactKey(scope.organizationId, scope.projectId, scope.kind, ""))
  }

  // ---- the places themselves ----

  function ScopeParts(scope: Scope): seq<string>
    requires ValidScope(scope)
  {
    [DashedUuid(scope.organizationId), DashedUuid(scope.projectId), scope.kind]
  }

  function ScopeDir(root: Path, scope: Scope): Path
    requires ValidScope(scope)
  {
    root + ScopeParts(scope)
  }

  function Location(root: Path, key: ArtifactKey): Path
    requires ValidKey(key)
  {
    ScopeDir(root, ScopeOf(key)) + [key.name]
  }

  /** The root a vault keeps is always the text of a clean component list. */
  lemma ResolvedRootIsClean(root: string)
    requires ResolveRoot(root).Ok?
    ensures CleanPath(Resolve(ResolveRoot(root).value))
    ensures Render(Resolve(ResolveRoot(root).value)) == ResolveRoot(root).value
  {
    var cleaned := TrimSpace(root);
    ResolveIsClean(cleaned);
    ResolveOfRender(Resolve(cleaned));
  }

  /** A root is accepted exactly when it is an absolute path once trimmed; it is kept cleaned, and a
      clean one is kept as it is. */
  lemma ResolveRootExactly(input: string)
    ensures ResolveRoot(input).Ok? <==> TrimSpace(input) != "" && TrimSpace(input)[0] == '/'
    ensures ResolveRoot(input).Ok? ==> Resolve(ResolveRoot(input).value) == Resolve(TrimSpace(input))
    ensures forall p: Path :: CleanPath(p) && TrimSpace(input) == Render(p) ==> ResolveRoot(input) == Ok(Render(p))
  {
    ResolveIsClean(TrimSpace(input));
    ResolveOfRender(Resolve(TrimSpace(input)));
    forall p: Path | CleanPath(p) && TrimSpace(input) == Render(p)
      ensures ResolveRoot(input) == Ok(Render(p))
    {
      ResolveOfRender(p);
    }
  }

  lemma DashedUuidIsComponent(value: string)
    requires IsHex(value, 32)
    ensures Component(DashedUuid(value))
    ensures DashedUuid(value)[|DashedUuid(value)| - 1] != '.' && DashedUuid(value)[0] != '.'
  {
    DashedUuidShape(value);
    var dashed := DashedUuid(value);
    assert forall i :: 0 <= i < 36 ==> dashed[i] != '/';
  }

  lemma KindIsComponent(kind: string)
    requires ValidKind(kind)
    ensures Component(kind) && kind[|kind| - 1] != '.'
  {
  }

  lemma ScopePartsAreComponents(scope: Scope)
    requires ValidScope(scope)
    ensures CleanPath(ScopeParts(scope))
    ensures forall i :: 0 <= i < 3 ==> ScopeParts(scope)[i][|ScopeParts(scope)[i]| - 1] != '.'
    ensures ScopeParts(scope)[0][0] != '.'
  {
    DashedUuidIsComponent(scope.organizationId);
    DashedUuidIsComponent(scope.projectId);
    KindIsComponent(scope.kind);
  }

  lemma LocationIsClean(root: Path, key: ArtifactKey)
    requires CleanPath(root) && ValidKey(key)
    ensures CleanPath(ScopeDir(root, ScopeOf(key)))
    ensures CleanPath(Location(root, key))
    ensures |Location(root, key)| == |root| + 4
  {
    ScopePartsAreComponents(ScopeOf(key));
  }

  lemma BelowIsInside(root: Path, below: Path)
    requires CleanPath(root) && CleanPath(below) && below != []
    requires below[0][0] != '.'
    requires forall i :: 0 <= i < |below| - 1 ==> below[i][|below[i]| - 1] != '.'
    ensures PathInside(Render(root), Render(root + below))
  {
    RelBelow(root, below);
    NoClimbInJoin(below);
    JoinStartsWithFirst(below);
    var relative := Rel(Render(root), Render(root + below));
    assert below[0] <= relative;
    assert relative[0] == below[0][0];
    assert ".."[0] == '.';
  }

  lemma ScopePathOf(root: Path, scope: Scope)
    requires CleanPath(root) && ValidScope(scope)
    ensures ScopePath(Render(root), scope) == Ok(Render(ScopeDir(root, scope)))
    ensures ScopeDir(root, scope) == root + [DashedUuid(scope.organizationId), DashedUuid(scope.projectId), scope.kind]
  {
    ScopePartsAreComponents(scope);
    var parts := ScopeParts(scope);
    JoinBelow(root, parts);
    assert [Render(root)] + parts == [Render(root), parts[0], parts[1], parts[2]];
    ResolveOfRender(root + parts);
    BelowIsInside(root, parts);
    KindIsComponent(scope.kind);
  }

  /** keyPath never fails on a valid key; the file lies at its four components below the root. */
  lemma KeyPathOf(root: Path, key: ArtifactKey)
    requires CleanPath(root) && ValidKey(key)
    ensures KeyPath(Render(root), key) == Ok(Render(Location(root, key)))
    ensures Resolve(KeyPath(Render(root), key).value) == Location(root, key)
    ensures Location(root, key) == root + [DashedUuid(key.organizationId), DashedUuid(key.projectId), key.kind, key.name]
  {
    var scope := ScopeOf(key);
    ScopePathOf(root, scope);
    ScopePartsAreComponents(scope);
    LocationIsClean(root, key);
    var dir := ScopeDir(root, scope);
    JoinBelow(dir, [key.name]);
    assert [Render(dir)] + [key.name] == [Render(dir), key.name];
    ResolveOfRender(Location(root, key));
    assert Location(root, key) == root + (ScopeParts(scope) + [key.name]);
    BelowIsInside(root, ScopeParts(scope) + [key.name]);
  }

  /** Distinct keys never share a file. */
  lemma LocationInjective(root: Path, a: ArtifactKey, b: ArtifactKey)
    requires ValidKey(a) && ValidKey(b)
    requires Location(root, a) == Location(root, b)
    ensures a == b
  {
    var p := Location(root, a);
    var n := |root|;
    assert p[n] == DashedUuid(a.organizationId) == DashedUuid(b.organizationId);
    assert p[n + 1] == DashedUuid(a.projectId) == DashedUuid(b.projectId);
    assert p[n + 2] == a.kind == b.kind;
    assert p[n + 3] == a.name == b.name;
    DashedUuidInjective(a.organizationId, b.organizationId);
    DashedUuidInjective(a.projectId, b.projectId);
  }

  /** keyPath as a whole: total on valid keys, strictly inside the root, injective, and no
      key's file is a directory on the way to another key's file. */
  lemma KeyPathsAreSeparate(root: Path, a: ArtifactKey, b: ArtifactKey)
    requires CleanPath(root) && ValidKey(a) && ValidKey(b)
    ensures KeyPath(Render(root), a).Ok?
    ensures root < Resolve(KeyPath(Render(root), a).value)
    ensures KeyPath(Render(root), a) == KeyPath(Render(root), b) <==> a == b
    ensures forall n :: 0 <= n < |Location(root, b)| ==> Location(root, b)[..n] != Location(root, a)
  {
    KeyPathOf(root, a);
    KeyPathOf(root, b);
    LocationIsClean(root, a);
    LocationIsClean(root, b);
    if KeyPath(Render(root), a) == KeyPath(Render(root), b) { LocationInjective(root, a, b); }
  }

  lemma {:induction false} CommonPrefixAgrees(a: Path, b: Path)
    ensures a[..CommonPrefix(a, b)] == b[..CommonPrefix(a, b)]
  {
    if a != [] && b != [] && a[0] == b[0] {
      CommonPrefixAgrees(a[1..], b[1..]);
      var n := CommonPrefix(a[1..], b[1..]);
      assert a[..n + 1] == [a[0]] + a[1..][..n];
      assert b[..n + 1] == [b[0]] + b[1..][..n];
    }
  }

  /** The containment check is sound for any path at all: what it lets through is the root
      or below it. So whatever name an unvalidated key carries, keyPath stays inside. */
  lemma PathInsideIsSound(root: string, candidate: string)
    requires PathInside(root, candidate)
    ensures Resolve(root) <= Resolve(candidate)
  {
    var b, t := Resolve(root), Resolve(candidate);
    var n := CommonPrefix(b, t);
    CommonPrefixAgrees(b, t);
    var ups := seq(|b| - n, _ => "..");
    if n < |b| {
      assert (ups + t[n..])[0] == "..";
      JoinStartsWithFirst(ups + t[n..]);
    } else {
      assert b[..n] == b && t[..n] <= t;
    }
  }

  lemma KeyPathNeverEscapes(root: string, key: ArtifactKey)
    requires StoredUuid(key.organizationId) && StoredUuid(key.projectId)
    requires KeyPath(root, key).Ok?
    ensures Resolve(root) <= Resolve(KeyPath(root, key).value)
  {
    PathInsideIsSound(root, KeyPath(root, key).value);
  }

  // ---- temporary names ----

  function TempName(suffix: string): string {
    TEMP_FILE_PREFIX + suffix
  }

  /** A temporary file name is never an artifact name, so it is never a key's file. */
  lemma TempNameIsNoArtifact(suffix: string)
    ensures !ValidName(TempName(suffix))
    ensures NewArtifactName(TempName(suffix)).Err?
  {
  }

  lemma TempIsNoLocation(root: Path, key: ArtifactKey, dir: Path, suffix: string)
    requires ValidKey(key)
    ensures Location(root, key) != dir + [TempName(suffix)]
  {
    TempNameIsNoArtifact(suffix);
    var p, q := Location(root, key), dir + [TempName(suffix)];
    assert p[|p| - 1] == key.name && q[|q| - 1] == TempName(suffix);
  }
}

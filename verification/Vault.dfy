/** The filesystem vault, one call at a time: Put, Get, Delete and List over the directory
    tree, with every system call free to fail. */
module ArtifactVault {
  import opened Prelude
  import opened Text
  import opened Identifiers
  import opened ArtifactKeys
  import opened Paths
  import opened FileTree
  import opened VaultPaths
  import opened VaultContents

  // How the operating system answers the calls of one Put: which of them fail, after how
  // many bytes copying stops, and the temporary name and inode it hands out.
  datatype PutFaults = PutFaults(
    cancelled: bool, mkdir: bool, create: bool, copyStopsAt: Option<nat>, close: bool,
    chmod: bool, rename: bool, cleanup: bool, suffix: string, inode: Inode)

  // A value of type ArtifactKey in the source: a constructed key, or the zero value.
  predicate KeyValue(key: ArtifactKey) {
    ValidKey(key) || key == ArtifactKey("", "", "", "")
  }

  predicate IsTemp(root: Path, p: Path) {
    |p| == |root| + 4 && HasPrefix(p[|p| - 1], TEMP_FILE_PREFIX)
  }

  // What only the vault itself has ever written below the root.
  ghost predicate VaultTree(root: Path, t: Tree) {
    && WellFormed(t)
    && root in t.dirs
    && (forall n :: 0 <= n <= |root| ==> root[..n] !in t.names)
    && (forall p :: p in t.names && root <= p ==> IsLocation(root, p) || IsTemp(root, p))
    && (forall p :: p in t.names && root < p ==> Parent(p) in t.dirs)
    && (forall d :: d in t.dirs && root <= d ==> |d| <= |root| + 3)
  }

  // Nothing outside the vault prevents this Put.
  ghost predicate Undisturbed(root: Path, t: Tree, key: ArtifactKey, os: PutFaults)
    requires ValidKey(key)
  {
    var dir := ScopeDir(root, ScopeOf(key));
    && !os.cancelled && !os.mkdir && !os.create && os.copyStopsAt.None?
    && !os.close && !os.chmod && !os.rename
    && dir + [TempName(os.suffix)] !in t.names && os.inode !in t.data
  }

  lemma NothingInTheWay(root: Path, t: Tree, key: ArtifactKey)
    requires CleanPath(root) && VaultTree(root, t) && ValidKey(key)
    ensures CanMkdirAll(t, ScopeDir(root, ScopeOf(key)))
    ensures VaultTree(root, MkdirAll(t, ScopeDir(root, ScopeOf(key))))
    ensures Location(root, key) !in t.dirs
  {
    var dir := ScopeDir(root, ScopeOf(key));
    assert dir[..|root|] == root;
    forall n | 0 <= n <= |dir|
      ensures dir[..n] !in t.names
    {
      if n <= |root| {
        assert dir[..n] == root[..n];
      } else {
        assert root <= dir[..n];
      }
    }
    MkdirAllKeeps(t, dir);
    forall n | 0 <= n <= |root|
      ensures root[..n] !in MkdirAll(t, dir).names
    {
    }
  }

  lemma TempBelongs(root: Path, key: ArtifactKey, suffix: string)
    requires ValidKey(key)
    ensures IsTemp(root, ScopeDir(root, ScopeOf(key)) + [TempName(suffix)])
    ensures root <= ScopeDir(root, ScopeOf(key)) + [TempName(suffix)]
  {
  }

  // ---- the trees one Put goes through ----

  function TempPath(root: Path, key: ArtifactKey, os: PutFaults): Path
    requires ValidKey(key)
  {
    ScopeDir(root, ScopeOf(key)) + [TempName(os.suffix)]
  }

  // Directories made, temporary file created and bytes copied into it.
  function CopiedTree(root: Path, t: Tree, key: ArtifactKey, os: PutFaults, bytes: Bytes): Tree
    requires ValidKey(key)
  {
    var made := MkdirAll(t, ScopeDir(root, ScopeOf(key)));
    Append(Create(made, TempPath(root, key, os), os.inode), os.inode, bytes)
  }

  lemma CopiedTreeKeeps(root: Path, t: Tree, key: ArtifactKey, os: PutFaults, bytes: Bytes)
    requires CleanPath(root) && VaultTree(root, t) && ValidKey(key)
    requires TempPath(root, key, os) !in t.names && os.inode !in t.data
    ensures CanCreate(MkdirAll(t, ScopeDir(root, ScopeOf(key))), TempPath(root, key, os), os.inode)
    ensures VaultTree(root, CopiedTree(root, t, key, os, bytes))
    ensures ReadFile(CopiedTree(root, t, key, os, bytes), TempPath(root, key, os)) == Some(bytes)
    ensures forall q :: q != TempPath(root, key, os)
              ==> ReadFile(CopiedTree(root, t, key, os, bytes), q) == ReadFile(t, q)
  {
    NothingInTheWay(root, t, key);
    TempBelongs(root, key, os.suffix);
    var dir, temp := ScopeDir(root, ScopeOf(key)), TempPath(root, key, os);
    assert dir[..|dir|] == dir;
    var made := MkdirAll(t, dir);
    var created := Create(made, temp, os.inode);
    CreateKeeps(made, temp, os.inode);
    AppendKeeps(created, temp, bytes);
    assert [] + bytes == bytes;
  }

  /** A failed Put leaves every key as it was, whether or not its temporary file stays. */
  lemma AbandonedPut(root: Path, t: Tree, key: ArtifactKey, os: PutFaults, bytes: Bytes)
    requires CleanPath(root) && VaultTree(root, t) && ValidKey(key)
    requires TempPath(root, key, os) !in t.names && os.inode !in t.data
    ensures
      var left := CopiedTree(root, t, key, os, bytes);
      && VaultTree(root, left) && Contents(root, left) == Contents(root, t)
      && VaultTree(root, Unlink(left, TempPath(root, key, os)))
      && Contents(root, Unlink(left, TempPath(root, key, os))) == Contents(root, t)
  {
    var left, temp := CopiedTree(root, t, key, os, bytes), TempPath(root, key, os);
    CopiedTreeKeeps(root, t, key, os, bytes);
    UnlinkKeeps(left, temp);
    forall k | ValidKey(k)
      ensures Location(root, k) != temp
    {
      TempIsNoLocation(root, k, ScopeDir(root, ScopeOf(key)), os.suffix);
    }
    SameContents(root, t, left);
    SameContents(root, t, Unlink(left, temp));
  }

  /** The rename publishes the copied bytes under the key and touches no other key. */
  lemma PublishedPut(root: Path, t: Tree, key: ArtifactKey, os: PutFaults, bytes: Bytes)
    requires CleanPath(root) && VaultTree(root, t) && ValidKey(key)
    requires TempPath(root, key, os) !in t.names && os.inode !in t.data
    ensures
      var temp, final := TempPath(root, key, os), Location(root, key);
      var copied := CopiedTree(root, t, key, os, bytes);
      && CanRename(copied, temp, final)
      && VaultTree(root, Rename(copied, temp, final))
      && Contents(root, Rename(copied, temp, final)) == Contents(root, t)[key := bytes]
  {
    var temp, final := TempPath(root, key, os), Location(root, key);
    var copied := CopiedTree(root, t, key, os, bytes);
    CopiedTreeKeeps(root, t, key, os, bytes);
    LocationIsClean(root, key);
    var dir := ScopeDir(root, ScopeOf(key));
    assert Parent(final) == dir && dir[..|dir|] == dir;
    assert root <= final;
    TempIsNoLocation(root, key, dir, os.suffix);
    RenameKeeps(copied, temp, final);
    RenamedVaultTree(root, copied, temp, key);
    forall k | ValidKey(k) && k != key
      ensures Location(root, k) != temp && Location(root, k) != final
    {
      TempIsNoLocation(root, k, dir, os.suffix);
      if Location(root, k) == final { LocationInjective(root, k, key); }
    }
    ContentsAfterWrite(root, t, Rename(copied, temp, final), key, bytes);
  }

  lemma RenamedVaultTree(root: Path, t: Tree, temp: Path, key: ArtifactKey)
    requires VaultTree(root, t) && ValidKey(key)
    requires CanRename(t, temp, Location(root, key)) && temp != Location(root, key)
    ensures VaultTree(root, Rename(t, temp, Location(root, key)))
  {
    var final := Location(root, key);
    RenameKeeps(t, temp, final);
    assert IsLocation(root, final);
    assert |final| == |root| + 4;
    forall n | 0 <= n <= |root|
      ensures root[..n] !in Rename(t, temp, final).names
    {
    }
  }

  lemma CreatedVaultTree(root: Path, t: Tree, temp: Path, inode: Inode)
    requires VaultTree(root, t) && CanCreate(t, temp, inode) && IsTemp(root, temp) && root <= temp
    ensures VaultTree(root, Create(t, temp, inode))
  {
  }

  lemma RemovedVaultTree(root: Path, t: Tree, key: ArtifactKey)
    requires VaultTree(root, t) && ValidKey(key)
    ensures VaultTree(root, Unlink(t, Location(root, key)))
    ensures Contents(root, Unlink(t, Location(root, key))) == Contents(root, t) - {key}
  {
    var p := Location(root, key);
    UnlinkKeeps(t, p);
    forall k | ValidKey(k) && k != key
      ensures Location(root, k) != p
    {
      if Location(root, k) == p { LocationInjective(root, k, key); }
    }
    ContentsAfterRemoval(root, t, Unlink(t, p), key);
  }

  // ---- listing ----

  lemma EntriesBelow(t: Tree, dir: Path)
    ensures forall n :: n in (set p | p in t.names.Keys + t.dirs && p != [] && Parent(p) == dir :: p[|p| - 1])
              <==> dir + [n] in t.names || dir + [n] in t.dirs
  {
    var below := set p | p in t.names.Keys + t.dirs && p != [] && Parent(p) == dir :: p[|p| - 1];
    forall n
      ensures n in below <==> dir + [n] in t.names || dir + [n] in t.dirs
    {
      var q := dir + [n];
      assert q != [] && Parent(q) == dir && q[|q| - 1] == n;
      if n in below {
        var p :| p in t.names.Keys + t.dirs && p != [] && Parent(p) == dir && p[|p| - 1] == n;
        assert p == q;
      }
    }
  }

  lemma ScopeDirResolves(root: Path, scope: Scope)
    requires CleanPath(root) && ValidScope(scope)
    ensures ScopePath(Render(root), scope) == Ok(Render(ScopeDir(root, scope)))
    ensures Resolve(Render(ScopeDir(root, scope))) == ScopeDir(root, scope)
  {
    ScopePathOf(root, scope);
    ScopePartsAreComponents(scope);
    ResolveOfRender(ScopeDir(root, scope));
  }

  function KeyIn(scope: Scope, name: string): ArtifactKey {
    ArtifactKey(scope.organizationId, scope.projectId, scope.kind, name)
  }

  predicate Listed(root: Path, t: Tree, scope: Scope, vanished: set<string>, name: string)
    requires ValidScope(scope)
  {
    ValidName(name) && ScopeDir(root, scope) + [name] in t.names && name !in vanished
  }

  ghost function StoredEntry(root: Path, t: Tree, scope: Scope, name: string): StoredArtifact
    requires WellFormed(t) && ValidScope(scope) && ScopeDir(root, scope) + [name] in t.names
  {
    StoredArtifact(KeyIn(scope, name), |t.data[t.names[ScopeDir(root, scope) + [name]]]|)
  }

  ghost predicate ListedAs(root: Path, t: Tree, scope: Scope, vanished: set<string>, y: StoredArtifact)
    requires WellFormed(t) && ValidScope(scope)
  {
    Listed(root, t, scope, vanished, y.key.name) && y == StoredEntry(root, t, scope, y.key.name)
  }

  lemma EntryIsKeyOrTemp(root: Path, t: Tree, scope: Scope, name: string)
    requires VaultTree(root, t) && ValidScope(scope)
    requires ScopeDir(root, scope) + [name] in t.names
    ensures ValidName(name) || HasPrefix(name, TEMP_FILE_PREFIX)
    ensures ValidName(name) ==> !HasPrefix(name, TEMP_FILE_PREFIX)
  {
  }

  ghost function Collected(root: Path, t: Tree, scope: Scope, vanished: set<string>, entries: seq<string>):
    seq<StoredArtifact>
    requires WellFormed(t) && ValidScope(scope)
  {
    if entries == [] then []
    else
      var last := entries[|entries| - 1];
      var before := Collected(root, t, scope, vanished, entries[..|entries| - 1]);
      if Listed(root, t, scope, vanished, last) then before + [StoredEntry(root, t, scope, last)] else before
  }

  lemma {:induction false} CollectedAre(root: Path, t: Tree, scope: Scope, vanished: set<string>, entries: seq<string>)
    requires WellFormed(t) && ValidScope(scope)
    requires forall i, j :: 0 <= i < j < |entries| ==> entries[i] != entries[j]
    ensures
      var list := Collected(root, t, scope, vanished, entries);
      && DistinctNames(list)
      && (forall y :: y in list ==> ListedAs(root, t, scope, vanished, y) && y.key.name in entries)
      && (forall n :: n in entries && Listed(root, t, scope, vanished, n) ==> StoredEntry(root, t, scope, n) in list)
  {
    if entries != [] {
      var last, front := entries[|entries| - 1], entries[..|entries| - 1];
      CollectedAre(root, t, scope, vanished, front);
      assert entries == front + [last];
      assert last !in front;
    }
  }

  lemma ListedKeys(root: Path, t: Tree, scope: Scope, vanished: set<string>, k: ArtifactKey)
    requires VaultTree(root, t) && ValidScope(scope)
    ensures k in Contents(root, t) && ScopeOf(k) == scope && k.name !in vanished
        <==> k == KeyIn(scope, k.name) && Listed(root, t, scope, vanished, k.name)
    ensures k == KeyIn(scope, k.name) && Listed(root, t, scope, vanished, k.name)
        ==> |Contents(root, t)[k]| == StoredEntry(root, t, scope, k.name).size
  {
    ContentsAt(root, t, k);
    if k == KeyIn(scope, k.name) && ValidName(k.name) {
      assert Location(root, k) == ScopeDir(root, scope) + [k.name];
    }
  }

  lemma ScannedIsListing(root: Path, t: Tree, scope: Scope, vanished: set<string>, list: seq<StoredArtifact>)
    requires VaultTree(root, t) && ValidScope(scope) && SortedStrictly(list)
    requires forall y :: y in list ==> ListedAs(root, t, scope, vanished, y)
    requires forall n :: Listed(root, t, scope, vanished, n) ==> StoredEntry(root, t, scope, n) in list
    ensures IsListing(Contents(root, t), scope, vanished, list)
  {
    var contents := Contents(root, t);
    forall k
      ensures Lists(list, k) <==> k in contents && ScopeOf(k) == scope && k.name !in vanished
    {
      ListedKeys(root, t, scope, vanished, k);
      if Lists(list, k) {
        var i :| 0 <= i < |list| && list[i].key == k;
        assert list[i] in list;
      }
      if k in contents && ScopeOf(k) == scope && k.name !in vanished {
        var i :| 0 <= i < |list| && list[i] == StoredEntry(root, t, scope, k.name);
      }
    }
    forall i | 0 <= i < |list| && list[i].key in contents
      ensures list[i].size == |contents[list[i].key]|
    {
      assert list[i] in list;
      ListedKeys(root, t, scope, vanished, list[i].key);
    }
  }

  lemma FreshVault(disk: Tree, path: Path)
    requires WellFormed(disk) && CleanPath(path)
    requires forall p :: p in disk.names ==> !(path <= p) && !(p <= path)
    requires forall d :: d in disk.dirs ==> !(path < d)
    ensures VaultTree(path, MkdirAll(disk, path)) && Contents(path, MkdirAll(disk, path)) == map[]
  {
    var t := MkdirAll(disk, path);
    assert path[..|path|] == path;
    assert forall n :: 0 <= n <= |path| ==> path[..n] <= path;
    MkdirAllKeeps(disk, path);
    forall k
      ensures k !in Contents(path, t)
    {
      ContentsAt(path, t, k);
      assert ValidKey(k) ==> path <= Location(path, k);
    }
  }

  // A temporary name that is renamed or removed leaves nothing behind.
  lemma NamesAfterTemp(names: map<Path, Inode>, temp: Path, inode: Inode, finalPath: Path)
    requires temp !in names
    ensures names[temp := inode] - {temp} == names
    ensures (names[temp := inode] - {temp})[finalPath := inode] == names[finalPath := inode]
  {
    assert names[temp := inode] - {temp} == names;
  }

  class Vault {
    const root: string
    var tree: Tree

    ghost predicate Valid()
      reads this
    {
      root == Render(Resolve(root)) && CleanPath(Resolve(root)) && VaultTree(Resolve(root), tree)
    }

    ghost function Stored(): map<ArtifactKey, Bytes>
      requires Valid()
      reads this
    {
      Contents(Resolve(root), tree)
    }

    // NewVault, its root accepted, on a disk that holds nothing at, above or below the root
    // but the directories leading to it.
    constructor (input: string, disk: Tree)
      requires ResolveRoot(input).Ok?
      requires WellFormed(disk)
      requires forall p :: p in disk.names ==> !(Resolve(ResolveRoot(input).value) <= p)
      requires forall p :: p in disk.names ==> !(p <= Resolve(ResolveRoot(input).value))
      requires forall d :: d in disk.dirs ==> !(Resolve(ResolveRoot(input).value) < d)
      ensures root == ResolveRoot(input).value && Valid() && Stored() == map[]
    {
      ResolvedRootIsClean(input);
      var path := Resolve(ResolveRoot(input).value);
      root := ResolveRoot(input).value;
      tree := MkdirAll(disk, path);
      new;
      FreshVault(disk, path);
    }

    /** Put replaces exactly one entry, or, failing anywhere, none. */
    method PutArtifact(key: ArtifactKey, contents: Option<Bytes>, os: PutFaults)
      returns (r: Result<StoredArtifact, VaultError>)
      requires Valid() && KeyValue(key)
      modifies this`tree
      ensures Valid()
      ensures r.Ok? ==> contents.Some? && r.value == StoredArtifact(key, |contents.value|)
      ensures r.Ok? ==> Stored() == old(Stored())[key := contents.value]
      ensures r.Err? ==> Stored() == old(Stored())
      ensures r.Ok? <==> contents.Some? && ValidKey(key) && Undisturbed(Resolve(root), old(tree), key, os)
      ensures !os.cleanup ==> tree.names.Keys <= old(tree).names.Keys + (if r.Ok? then {Location(Resolve(root), key)} else {})
      ensures contents.None? ==> r == Err(ContentsRequired)
      ensures contents.Some? && os.cancelled ==> r == Err(Cancelled)
      ensures contents.Some? && !os.cancelled && !ValidKey(key) ==> r == Err(KeyIncomplete)
    {
      if contents.None? { return Err(ContentsRequired); }
      if os.cancelled { return Err(Cancelled); }
      ghost var base := Resolve(root);
      if ValidKey(key) { KeyPathOf(base, key); }
      var path := KeyPath(root, key);
      if path.Err? { return Err(path.error); }
      var stored := WriteFile(key, contents.value, os, Resolve(path.value));
      if !stored { return Err(Io); }
      return Ok(StoredArtifact(key, |contents.value|));
    }

    // The part of a Put that touches the disk.
    method WriteFile(key: ArtifactKey, contents: Bytes, os: PutFaults, finalPath: Path) returns (stored: bool)
      requires Valid() && ValidKey(key) && finalPath == Location(Resolve(root), key) && !os.cancelled
      modifies this`tree
      ensures Valid()
      ensures stored <==> Undisturbed(Resolve(root), old(tree), key, os)
      ensures Stored() == if stored then old(Stored())[key := contents] else old(Stored())
      ensures stored ==> tree.names == old(tree).names[finalPath := os.inode]
      ensures !stored && !os.cleanup ==> tree.names == old(tree).names
    {
      ghost var base := Resolve(root);
      var parentDir := Parent(finalPath);
      assert parentDir == ScopeDir(base, ScopeOf(key));
      NothingInTheWay(base, tree, key);
      if os.mkdir || !CanMkdirAll(tree, parentDir) { return false; }
      SameContents(base, tree, MkdirAll(tree, parentDir));
      tree := MkdirAll(tree, parentDir);
      var temp := parentDir + [TempName(os.suffix)];
      if os.create || !CanCreate(tree, temp, os.inode) {
        if temp !in tree.names && os.inode !in tree.data {
          CopiedTreeKeeps(base, old(tree), key, os, []);
        }
        return false;
      }
      tree := Create(tree, temp, os.inode);
      var copied := if os.copyStopsAt.Some? then Take(contents, os.copyStopsAt.value) else contents;
      tree := Append(tree, os.inode, copied);
      assert tree == CopiedTree(base, old(tree), key, os, copied);
      stored := Publish(key, copied, os, temp, finalPath, old(tree));
    }

    // The rest of a Put, once its bytes are in the temporary file.
    method Publish(key: ArtifactKey, copied: Bytes, os: PutFaults, temp: Path, finalPath: Path, ghost before: Tree)
      returns (published: bool)
      requires root == Render(Resolve(root)) && CleanPath(Resolve(root)) && VaultTree(Resolve(root), before)
      requires ValidKey(key) && finalPath == Location(Resolve(root), key) && temp == TempPath(Resolve(root), key, os)
      requires temp !in before.names && os.inode !in before.data
      requires tree == CopiedTree(Resolve(root), before, key, os, copied)
      modifies this`tree
      ensures Valid()
      ensures published <==> os.copyStopsAt.None? && !os.close && !os.chmod && !os.rename
      ensures Stored() == if published then Contents(Resolve(root), before)[key := copied] else Contents(Resolve(root), before)
      ensures published ==> tree.names == before.names[finalPath := os.inode]
      ensures !published && !os.cleanup ==> tree.names == before.names
    {
      NamesAfterTemp(before.names, temp, os.inode, finalPath);
      AbandonedPut(Resolve(root), before, key, os, copied);
      PublishedPut(Resolve(root), before, key, os, copied);
      if os.copyStopsAt.Some? || os.close || os.chmod || os.rename || !CanRename(tree, temp, finalPath) {
        if !os.cleanup { tree := Unlink(tree, temp); }
        return false;
      }
      tree := Rename(tree, temp, finalPath);
      return true;
    }

    method GetArtifact(key: ArtifactKey, cancelled: bool, openFails: bool)
      returns (r: Result<Bytes, VaultError>)
      requires Valid() && KeyValue(key)
      ensures r.Ok? <==> ValidKey(key) && key in Stored() && !cancelled && !openFails
      ensures r.Ok? ==> r.value == Stored()[key]
      ensures r == Err(ArtifactNotFound) <==> ValidKey(key) && key !in Stored() && !cancelled && !openFails
    {
      if cancelled { return Err(Cancelled); }
      if ValidKey(key) { KeyPathOf(Resolve(root), key); }
      var path := KeyPath(root, key);
      if path.Err? { return Err(path.error); }
      ContentsAt(Resolve(root), tree, key);
      if openFails { return Err(Io); }
      var file := ReadFile(tree, Resolve(path.value));
      if file.None? { return Err(ArtifactNotFound); }
      return Ok(file.value);
    }

    /** Delete removes exactly one entry, and removing an absent one succeeds. */
    method DeleteArtifact(key: ArtifactKey, cancelled: bool, removeFails: bool)
      returns (r: Result<(), VaultError>)
      requires Valid() && KeyValue(key)
      modifies this`tree
      ensures Valid()
      ensures r.Ok? <==> ValidKey(key) && !cancelled && !removeFails
      ensures Stored() == if r.Ok? then old(Stored()) - {key} else old(Stored())
    {
      if cancelled { return Err(Cancelled); }
      if ValidKey(key) { KeyPathOf(Resolve(root), key); }
      var path := KeyPath(root, key);
      if path.Err? { return Err(path.error); }
      if removeFails { return Err(Io); }
      RemovedVaultTree(Resolve(root), tree, key);
      tree := Unlink(tree, Resolve(path.value));
      return Ok(());
    }

    // os.ReadDir: every entry of the directory once, in some order.
    method ReadDir(dir: Path) returns (entries: seq<string>)
      ensures forall n :: n in entries <==> dir + [n] in tree.names || dir + [n] in tree.dirs
      ensures forall i, j :: 0 <= i < j < |entries| ==> entries[i] != entries[j]
    {
      var below := set p | p in tree.names.Keys + tree.dirs && p != [] && Parent(p) == dir :: p[|p| - 1];
      EntriesBelow(tree, dir);
      entries := [];
      var left := below;
      while left != {}
        invariant left <= below
        invariant forall n :: n in entries <==> n in below - left
        invariant forall i, j :: 0 <= i < j < |entries| ==> entries[i] != entries[j]
        decreases left
      {
        var n :| n in left;
        assert n !in entries;
        left := left - {n};
        entries := entries + [n];
      }
    }

    /** List shows the stored keys of the scope and nothing else: leftover temporary files
        cannot be names, and every stored name passes NewArtifactName unchanged. */
    method ListArtifacts(scope: Scope, cancelled: bool, readFails: bool, vanished: set<string>)
      returns (r: Result<seq<StoredArtifact>, VaultError>)
      requires Valid() && (ValidScope(scope) || scope == Scope("", "", ""))
      ensures r.Ok? <==> ValidScope(scope) && !cancelled
                         && (!readFails || ScopeDir(Resolve(root), scope) !in tree.dirs)
      ensures r.Ok? ==> IsListing(Stored(), scope, vanished, r.value)
    {
      if cancelled { return Err(Cancelled); }
      ghost var base := Resolve(root);
      if ValidScope(scope) { ScopeDirResolves(base, scope); }
      var scopePath := ScopePath(root, scope);
      if scopePath.Err? { return Err(scopePath.error); }
      var dir := Resolve(scopePath.value);
      if dir !in tree.dirs {
        forall n
          ensures !Listed(base, tree, scope, vanished, n)
        {
          assert base < dir + [n] && Parent(dir + [n]) == dir;
        }
        ScannedIsListing(base, tree, scope, vanished, []);
        return Ok([]);
      }
      if readFails { return Err(Io); }
      var entries := ReadDir(dir);
      var stored := CollectStored(scope, dir, entries, vanished);
      CollectedAre(base, tree, scope, vanished, entries);
      SortByNameSorts(stored);
      ScannedIsListing(base, tree, scope, vanished, SortByName(stored));
      return Ok(SortByName(stored));
    }

    // The loop of ListArtifacts over the directory's entries.
    method CollectStored(scope: Scope, dir: Path, entries: seq<string>, vanished: set<string>)
      returns (stored: seq<StoredArtifact>)
      requires Valid() && ValidScope(scope) && dir == ScopeDir(Resolve(root), scope)
      ensures stored == Collected(Resolve(root), tree, scope, vanished, entries)
    {
      stored := [];
      for i := 0 to |entries|
        invariant stored == Collected(Resolve(root), tree, scope, vanished, entries[..i])
      {
        assert entries[..i + 1][..i] == entries[..i];
        var kept := KeepEntry(scope, dir, entries[i], vanished);
        if kept.Some? { stored := stored + [kept.value]; }
      }
      assert entries[..|entries|] == entries;
    }

    method KeepEntry(scope: Scope, dir: Path, name: string, vanished: set<string>) returns (kept: Option<StoredArtifact>)
      requires Valid() && ValidScope(scope) && dir == ScopeDir(Resolve(root), scope)
      ensures kept.Some? <==> Listed(Resolve(root), tree, scope, vanished, name)
      ensures kept.Some? ==> kept.value == StoredEntry(Resolve(root), tree, scope, name)
    {
      if dir + [name] !in tree.names { return None; }
      EntryIsKeyOrTemp(Resolve(root), tree, scope, name);
      if HasPrefix(name, TEMP_FILE_PREFIX) { return None; }
      NewArtifactNameAccepts(name);
      var artifactName := NewArtifactName(name);
      if artifactName.Err? { return None; }
      var key := NewArtifactKey(scope.organizationId, scope.projectId, scope.kind, artifactName.value);
      if key.Err? || name in vanished { return None; }
      return Some(StoredArtifact(key.value, |tree.data[tree.names[dir + [name]]]|));
    }
  }
}

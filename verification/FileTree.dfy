/** A directory tree as the vault's system calls see it: directory entries name inodes, and
    an inode keeps its bytes while a name or an open handle refers to it. `Rename` is the one
    atomic step that gives existing contents another name. */
module FileTree {
  import opened Prelude
  import opened Paths

  type Inode = nat

  datatype Tree = Tree(dirs: set<Path>, names: map<Path, Inode>, data: map<Inode, Bytes>)

  ghost predicate WellFormed(t: Tree) {
    && (forall p :: p in t.names ==> t.names[p] in t.data && p !in t.dirs)
    && (forall p, q :: p in t.names && q in t.names && t.names[p] == t.names[q] ==> p == q)
  }

  function Parent(p: Path): Path
    requires p != []
  {
    p[..|p| - 1]
  }

  function ReadFile(t: Tree, p: Path): Option<Bytes>
    requires p in t.names ==> t.names[p] in t.data
  {
    if p in t.names then Some(t.data[t.names[p]]) else None
  }

  // os.MkdirAll fails when some ancestor, or the path itself, is a file.
  predicate CanMkdirAll(t: Tree, p: Path) {
    forall n :: 0 <= n <= |p| ==> p[..n] !in t.names
  }

  function MkdirAll(t: Tree, p: Path): Tree {
    t.(dirs := t.dirs + set n | 0 <= n <= |p| :: p[..n])
  }

  // Exclusive creation: neither the name nor the inode is in use.
  predicate CanCreate(t: Tree, p: Path, ino: Inode) {
    p != [] && Parent(p) in t.dirs && p !in t.names && p !in t.dirs && ino !in t.data
  }

  function Create(t: Tree, p: Path, ino: Inode): Tree {
    t.(names := t.names[p := ino], data := t.data[ino := []])
  }

  function Append(t: Tree, ino: Inode, bytes: Bytes): Tree
    requires ino in t.data
  {
    t.(data := t.data[ino := t.data[ino] + bytes])
  }

  predicate CanRename(t: Tree, from: Path, to: Path) {
    from in t.names && to !in t.dirs && to != [] && Parent(to) in t.dirs
  }

  function Rename(t: Tree, from: Path, to: Path): Tree
    requires from in t.names
  {
    t.(names := (t.names - {from})[to := t.names[from]])
  }

  function Unlink(t: Tree, p: Path): Tree {
    t.(names := t.names - {p})
  }

  // ---- what each call keeps ----

  lemma MkdirAllKeeps(t: Tree, p: Path)
    requires WellFormed(t) && CanMkdirAll(t, p)
    ensures WellFormed(MkdirAll(t, p))
  {
  }

  lemma CreateKeeps(t: Tree, p: Path, ino: Inode)
    requires WellFormed(t) && CanCreate(t, p, ino)
    ensures WellFormed(Create(t, p, ino))
    ensures forall q :: q != p ==> ReadFile(Create(t, p, ino), q) == ReadFile(t, q)
  {
  }

  lemma AppendKeeps(t: Tree, p: Path, bytes: Bytes)
    requires WellFormed(t) && p in t.names
    ensures WellFormed(Append(t, t.names[p], bytes))
    ensures ReadFile(Append(t, t.names[p], bytes), p) == Some(t.data[t.names[p]] + bytes)
    ensures forall q :: q != p ==> ReadFile(Append(t, t.names[p], bytes), q) == ReadFile(t, q)
  {
  }

  lemma RenameKeeps(t: Tree, from: Path, to: Path)
    requires WellFormed(t) && CanRename(t, from, to) && from != to
    ensures WellFormed(Rename(t, from, to))
    ensures ReadFile(Rename(t, from, to), to) == ReadFile(t, from)
    ensures ReadFile(Rename(t, from, to), from) == None
    ensures forall q :: q != from && q != to ==> ReadFile(Rename(t, from, to), q) == ReadFile(t, q)
  {
  }

  lemma UnlinkKeeps(t: Tree, p: Path)
    requires WellFormed(t)
    ensures WellFormed(Unlink(t, p))
    ensures ReadFile(Unlink(t, p), p) == None
    ensures forall q :: q != p ==> ReadFile(Unlink(t, p), q) == ReadFile(t, q)
  {
  }
}

/** Any number of Puts, each cut into its system calls, interleaved with deletes, readers and
    crashes. A run is a list of actions; what it should have published is read off that list
    alone, without looking at the disk. */
module VaultInterleaving {
  import opened Prelude
  import opened Text
  import opened ArtifactKeys
  import opened Paths
  import opened FileTree
  import opened VaultPaths
  import opened VaultContents
  import opened ArtifactVault

  datatype Phase = Copying | Closed | Readable

  datatype Writer = Writer(key: ArtifactKey, contents: Bytes, temp: Path, inode: Inode, sent: nat, phase: Phase)

  // An open handle and the bytes it has delivered.
  datatype Reader = Reader(key: ArtifactKey, inode: Inode, received: Bytes)

  datatype System = System(tree: Tree, writers: map<nat, Writer>, readers: map<nat, Reader>)

  datatype Action =
    | MakeDirs(key: ArtifactKey)
    | Begin(pid: nat, key: ArtifactKey, contents: Bytes, suffix: string, inode: Inode)
    | Send(pid: nat, count: nat)
    | Close(pid: nat)
    | Chmod(pid: nat)
    | Publish(pid: nat)
    | Abort(pid: nat, cleaned: bool)
    | Delete(key: ArtifactKey)
    | Open(rid: nat, key: ArtifactKey)
    | Read(rid: nat, count: nat)
    | Crash

  function TempOf(root: Path, key: ArtifactKey, suffix: string): Path
    requires ValidKey(key)
  {
    ScopeDir(root, ScopeOf(key)) + [TempName(suffix)]
  }

  predicate Enabled(root: Path, s: System, a: Action) {
    match a
    case MakeDirs(key) => ValidKey(key) && CanMkdirAll(s.tree, ScopeDir(root, ScopeOf(key)))
    case Begin(pid, key, contents, suffix, inode) =>
      pid !in s.writers && ValidKey(key) && CanCreate(s.tree, TempOf(root, key, suffix), inode)
    case Send(pid, count) =>
      && pid in s.writers && s.writers[pid].phase.Copying?
      && s.writers[pid].sent + count <= |s.writers[pid].contents|
      && s.writers[pid].inode in s.tree.data
    case Close(pid) =>
      && pid in s.writers && s.writers[pid].phase.Copying?
      && s.writers[pid].sent == |s.writers[pid].contents|
    case Chmod(pid) => pid in s.writers && s.writers[pid].phase.Closed?
    case Publish(pid) =>
      && pid in s.writers && s.writers[pid].phase.Readable? && ValidKey(s.writers[pid].key)
      && CanRename(s.tree, s.writers[pid].temp, Location(root, s.writers[pid].key))
    case Abort(pid, cleaned) => pid in s.writers
    case Delete(key) => ValidKey(key)
    case Open(rid, key) => rid !in s.readers && ValidKey(key) && Location(root, key) in s.tree.names
    case Read(rid, count) =>
      && rid in s.readers && s.readers[rid].inode in s.tree.data
      && |s.readers[rid].received| <= |s.tree.data[s.readers[rid].inode]|
    case Crash => true
  }

  function Apply(root: Path, s: System, a: Action): System
    requires Enabled(root, s, a)
  {
    match a
    case MakeDirs(key) => s.(tree := MkdirAll(s.tree, ScopeDir(root, ScopeOf(key))))
    case Begin(pid, key, contents, suffix, inode) =>
      var temp := TempOf(root, key, suffix);
      s.(tree := Create(s.tree, temp, inode),
         writers := s.writers[pid := Writer(key, contents, temp, inode, 0, Copying)])
    case Send(pid, count) =>
      var w := s.writers[pid];
      s.(tree := Append(s.tree, w.inode, w.contents[w.sent..w.sent + count]),
         writers := s.writers[pid := w.(sent := w.sent + count)])
    case Close(pid) => s.(writers := s.writers[pid := s.writers[pid].(phase := Closed)])
    case Chmod(pid) => s.(writers := s.writers[pid := s.writers[pid].(phase := Readable)])
    case Publish(pid) =>
      var w := s.writers[pid];
      s.(tree := Rename(s.tree, w.temp, Location(root, w.key)), writers := s.writers - {pid})
    case Abort(pid, cleaned) =>
      s.(tree := if cleaned then Unlink(s.tree, s.writers[pid].temp) else s.tree, writers := s.writers - {pid})
    case Delete(key) => s.(tree := Unlink(s.tree, Location(root, key)))
    case Open(rid, key) =>
      s.(readers := s.readers[rid := Reader(key, s.tree.names[Location(root, key)], [])])
    case Read(rid, count) =>
      var r := s.readers[rid];
      var body := s.tree.data[r.inode];
      s.(readers := s.readers[rid := r.(received := r.received + Take(body[|r.received|..], count))])
    case Crash => s.(writers := map[], readers := map[])
  }

  // ---- runs ----

  ghost predicate ValidRun(root: Path, init: Tree, run: seq<Action>)
    decreases |run|, 1
  {
    || run == []
    || (&& ValidRun(root, init, run[..|run| - 1])
        && Enabled(root, After(root, init, run[..|run| - 1]), run[|run| - 1]))
  }

  ghost function After(root: Path, init: Tree, run: seq<Action>): System
    requires ValidRun(root, init, run)
    decreases |run|, 2
  {
    if run == [] then System(init, map[], map[])
    else Apply(root, After(root, init, run[..|run| - 1]), run[|run| - 1])
  }

  // The Put a process is busy with: its latest Begin.
  function PutOf(run: seq<Action>, pid: nat): Option<Action> {
    if run == [] then None
    else if run[|run| - 1].Begin? && run[|run| - 1].pid == pid then Some(run[|run| - 1])
    else PutOf(run[..|run| - 1], pid)
  }

  predicate Publishes(run: seq<Action>, a: Action, key: ArtifactKey) {
    a.Publish? && PutOf(run, a.pid).Some? && PutOf(run, a.pid).value.Begin? && PutOf(run, a.pid).value.key == key
  }

  /** The contents of the Put that renamed last, if no Delete of the key came later. */
  function Published(root: Path, init: Tree, run: seq<Action>, key: ArtifactKey): Option<Bytes>
    requires ValidKey(key)
    requires Location(root, key) in init.names ==> init.names[Location(root, key)] in init.data
  {
    if run == [] then ReadFile(init, Location(root, key))
    else
      var before, last := run[..|run| - 1], run[|run| - 1];
      if Publishes(before, last, key) then Some(PutOf(before, last.pid).value.contents)
      else if last == Delete(key) then None
      else Published(root, init, before, key)
  }

  // What the key held when this handle was opened.
  function Opened(root: Path, init: Tree, run: seq<Action>, rid: nat): Option<Bytes>
    requires WellFormed(init)
  {
    if run == [] then None
    else
      var before, last := run[..|run| - 1], run[|run| - 1];
      if last.Open? && last.rid == rid && ValidKey(last.key) then Published(root, init, before, last.key)
      else Opened(root, init, before, rid)
  }

  // ---- what every step keeps ----

  ghost predicate WriterOk(root: Path, t: Tree, w: Writer) {
    && ValidKey(w.key)
    && IsTemp(root, w.temp) && root <= w.temp
    && w.temp in t.names && t.names[w.temp] == w.inode && w.inode in t.data
    && w.sent <= |w.contents| && t.data[w.inode] == w.contents[..w.sent]
    && (!w.phase.Copying? ==> w.sent == |w.contents|)
  }

  ghost predicate WritersOk(root: Path, t: Tree, ws: map<nat, Writer>) {
    && (forall pid :: pid in ws ==> WriterOk(root, t, ws[pid]))
    && (forall p, q :: p in ws && q in ws && ws[p].inode == ws[q].inode ==> p == q)
  }

  // An inode is sealed when no writer holds it.
  predicate Sealed(ws: map<nat, Writer>, inode: Inode) {
    forall pid :: pid in ws ==> ws[pid].inode != inode
  }

  ghost predicate ReadersOk(t: Tree, ws: map<nat, Writer>, rs: map<nat, Reader>) {
    forall rid :: rid in rs ==>
      rs[rid].inode in t.data && rs[rid].received <= t.data[rs[rid].inode] && Sealed(ws, rs[rid].inode)
  }

  ghost predicate Inv(root: Path, s: System) {
    && CleanPath(root) && VaultTree(root, s.tree)
    && WritersOk(root, s.tree, s.writers)
    && ReadersOk(s.tree, s.writers, s.readers)
  }

  // Steps write into temporary files only, and never unseal an inode in use.
  ghost predicate SealedKept(t: Tree, ws: map<nat, Writer>, t': Tree, ws': map<nat, Writer>) {
    forall i :: i in t.data && Sealed(ws, i) ==> i in t'.data && t'.data[i] == t.data[i] && Sealed(ws', i)
  }

  ghost function Effect(root: Path, s: System, a: Action, key: ArtifactKey): Option<Bytes>
    requires Enabled(root, s, a) && ValidKey(key) && WellFormed(s.tree)
  {
    if a.Publish? && s.writers[a.pid].key == key then Some(s.writers[a.pid].contents)
    else if a == Delete(key) then None
    else ReadFile(s.tree, Location(root, key))
  }

  ghost predicate HasEffect(root: Path, s: System, a: Action)
    requires Enabled(root, s, a) && WellFormed(s.tree)
  {
    && WellFormed(Apply(root, s, a).tree)
    && forall k :: ValidKey(k) ==> ReadFile(Apply(root, s, a).tree, Location(root, k)) == Effect(root, s, a, k)
  }

  ghost predicate StepKeeps(root: Path, s: System, a: Action)
    requires Enabled(root, s, a) && WellFormed(s.tree)
  {
    var s' := Apply(root, s, a);
    && Inv(root, s')
    && SealedKept(s.tree, s.writers, s'.tree, s'.writers)
    && HasEffect(root, s, a)
  }

  lemma TempIsNotAKey(root: Path, p: Path, key: ArtifactKey)
    requires IsTemp(root, p) && ValidKey(key)
    ensures p != Location(root, key)
  {
  }

  lemma KeysAreSealed(root: Path, t: Tree, ws: map<nat, Writer>, key: ArtifactKey)
    requires WellFormed(t) && WritersOk(root, t, ws) && ValidKey(key) && Location(root, key) in t.names
    ensures Sealed(ws, t.names[Location(root, key)])
  {
  }

  // Writers whose own files a step does not touch stay in order.
  lemma WritersFrame(root: Path, t: Tree, t': Tree, ws: map<nat, Writer>, ws': map<nat, Writer>)
    requires WritersOk(root, t, ws) && ws'.Keys <= ws.Keys
    requires forall pid :: pid in ws' ==> ws'[pid] == ws[pid]
    requires forall pid :: pid in ws' ==> ws[pid].temp in t'.names && t'.names[ws[pid].temp] == ws[pid].inode
    requires forall pid :: pid in ws' ==> ws[pid].inode in t'.data && t'.data[ws[pid].inode] == t.data[ws[pid].inode]
    ensures WritersOk(root, t', ws')
  {
  }

  // Every key reads alike on both trees.
  ghost predicate ReadsAlike(root: Path, t: Tree, t': Tree)
    requires WellFormed(t) && WellFormed(t')
  {
    forall k :: ValidKey(k) ==> ReadFile(t', Location(root, k)) == ReadFile(t, Location(root, k))
  }

  lemma QuietStep(root: Path, s: System, a: Action, t': Tree)
    requires Enabled(root, s, a) && !a.Publish? && !a.Delete? && WellFormed(s.tree)
    requires t' == Apply(root, s, a).tree && WellFormed(t') && ReadsAlike(root, s.tree, t')
    ensures HasEffect(root, s, a)
  {
  }

  // Only a temporary file differs.
  lemma TempReadsAlike(root: Path, t: Tree, t': Tree, temp: Path)
    requires WellFormed(t) && WellFormed(t') && IsTemp(root, temp)
    requires forall q :: q != temp ==> ReadFile(t', q) == ReadFile(t, q)
    ensures ReadsAlike(root, t, t')
  {
    forall k | ValidKey(k)
      ensures ReadFile(t', Location(root, k)) == ReadFile(t, Location(root, k))
    {
      TempIsNotAKey(root, temp, k);
    }
  }

  // A step keeps everything once its tree, its writers and its effect are in order.
  lemma StepInOrder(root: Path, s: System, a: Action)
    requires Inv(root, s) && Enabled(root, s, a) && Apply(root, s, a).readers == s.readers
    requires VaultTree(root, Apply(root, s, a).tree) && HasEffect(root, s, a)
    requires WritersOk(root, Apply(root, s, a).tree, Apply(root, s, a).writers)
    requires SealedKept(s.tree, s.writers, Apply(root, s, a).tree, Apply(root, s, a).writers)
    ensures StepKeeps(root, s, a)
  {
  }

  lemma MakeDirsTree(root: Path, s: System, a: Action)
    requires CleanPath(root) && VaultTree(root, s.tree) && a.MakeDirs? && Enabled(root, s, a)
    ensures VaultTree(root, Apply(root, s, a).tree) && HasEffect(root, s, a)
  {
    NothingInTheWay(root, s.tree, a.key);
    QuietStep(root, s, a, MkdirAll(s.tree, ScopeDir(root, ScopeOf(a.key))));
  }

  lemma MakeDirsWriters(root: Path, s: System, a: Action)
    requires WritersOk(root, s.tree, s.writers) && a.MakeDirs? && Enabled(root, s, a)
    ensures WritersOk(root, Apply(root, s, a).tree, s.writers)
  {
  }

  lemma MakeDirsKeeps(root: Path, s: System, a: Action)
    requires Inv(root, s) && a.MakeDirs? && Enabled(root, s, a)
    ensures StepKeeps(root, s, a)
  {
    MakeDirsTree(root, s, a);
    MakeDirsWriters(root, s, a);
  }

  lemma BeginTree(root: Path, s: System, a: Action)
    requires CleanPath(root) && VaultTree(root, s.tree) && a.Begin? && Enabled(root, s, a)
    ensures VaultTree(root, Apply(root, s, a).tree) && HasEffect(root, s, a)
  {
    var temp := TempOf(root, a.key, a.suffix);
    TempBelongs(root, a.key, a.suffix);
    CreateKeeps(s.tree, temp, a.inode);
    CreatedVaultTree(root, s.tree, temp, a.inode);
    TempReadsAlike(root, s.tree, Create(s.tree, temp, a.inode), temp);
    QuietStep(root, s, a, Create(s.tree, temp, a.inode));
  }

  lemma OtherWriterOk(root: Path, t: Tree, temp: Path, inode: Inode, w: Writer)
    requires WriterOk(root, t, w) && CanCreate(t, temp, inode)
    ensures WriterOk(root, Create(t, temp, inode), w) && w.inode != inode
  {
  }

  lemma BegunWriters(root: Path, t: Tree, ws: map<nat, Writer>, pid: nat, w: Writer)
    requires WellFormed(t) && WritersOk(root, t, ws) && pid !in ws
    requires CanCreate(t, w.temp, w.inode) && ValidKey(w.key) && IsTemp(root, w.temp) && root <= w.temp
    requires w.sent == 0 && w.phase.Copying?
    ensures WritersOk(root, Create(t, w.temp, w.inode), ws[pid := w])
    ensures SealedKept(t, ws, Create(t, w.temp, w.inode), ws[pid := w])
  {
    var t' := Create(t, w.temp, w.inode);
    forall q | q in ws
      ensures WriterOk(root, t', ws[q]) && ws[q].inode != w.inode
    {
      OtherWriterOk(root, t, w.temp, w.inode, ws[q]);
    }
    OneMoreWriter(root, t', ws, pid, w);
    OneMoreSealed(t, ws, t', pid, w);
  }

  lemma OneMoreWriter(root: Path, t: Tree, ws: map<nat, Writer>, pid: nat, w: Writer)
    requires forall q :: q in ws ==> WriterOk(root, t, ws[q]) && ws[q].inode != w.inode
    requires forall p, q :: p in ws && q in ws && ws[p].inode == ws[q].inode ==> p == q
    requires WriterOk(root, t, w)
    ensures WritersOk(root, t, ws[pid := w])
  {
  }

  lemma OneMoreSealed(t: Tree, ws: map<nat, Writer>, t': Tree, pid: nat, w: Writer)
    requires pid !in ws && w.inode !in t.data
    requires forall i :: i in t.data ==> i in t'.data && t'.data[i] == t.data[i]
    ensures SealedKept(t, ws, t', ws[pid := w])
  {
  }

  lemma BeginWriters(root: Path, s: System, a: Action)
    requires WellFormed(s.tree) && WritersOk(root, s.tree, s.writers) && a.Begin? && Enabled(root, s, a)
    ensures WritersOk(root, Apply(root, s, a).tree, Apply(root, s, a).writers)
    ensures SealedKept(s.tree, s.writers, Apply(root, s, a).tree, Apply(root, s, a).writers)
  {
    TempBelongs(root, a.key, a.suffix);
    var temp := TempOf(root, a.key, a.suffix);
    BegunWriters(root, s.tree, s.writers, a.pid, Writer(a.key, a.contents, temp, a.inode, 0, Copying));
  }

  lemma BeginKeeps(root: Path, s: System, a: Action)
    requires Inv(root, s) && a.Begin? && Enabled(root, s, a)
    ensures StepKeeps(root, s, a)
  {
    BeginTree(root, s, a);
    BeginWriters(root, s, a);
    StepInOrder(root, s, a);
  }

  lemma SentTree(root: Path, t: Tree, w: Writer, bytes: Bytes)
    requires VaultTree(root, t) && WriterOk(root, t, w)
    ensures VaultTree(root, Append(t, w.inode, bytes)) && ReadsAlike(root, t, Append(t, w.inode, bytes))
  {
    AppendKeeps(t, w.temp, bytes);
    TempReadsAlike(root, t, Append(t, w.inode, bytes), w.temp);
  }

  lemma SendIsAppend(root: Path, s: System, a: Action)
    requires a.Send? && Enabled(root, s, a)
    ensures
      var w := s.writers[a.pid];
      Apply(root, s, a).tree == Append(s.tree, w.inode, w.contents[w.sent..w.sent + a.count])
  {
  }

  lemma SendTree(root: Path, s: System, a: Action)
    requires VaultTree(root, s.tree) && a.Send? && Enabled(root, s, a) && WriterOk(root, s.tree, s.writers[a.pid])
    ensures VaultTree(root, Apply(root, s, a).tree) && HasEffect(root, s, a)
  {
    var w := s.writers[a.pid];
    SendIsAppend(root, s, a);
    SentTree(root, s.tree, w, w.contents[w.sent..w.sent + a.count]);
    QuietStep(root, s, a, Apply(root, s, a).tree);
  }

  // Only this writer's file and progress change.
  lemma SentWriters(root: Path, t: Tree, ws: map<nat, Writer>, pid: nat, count: nat)
    requires WritersOk(root, t, ws) && pid in ws && ws[pid].phase.Copying? && ws[pid].sent + count <= |ws[pid].contents|
    requires ws[pid].inode in t.data
    ensures
      var w := ws[pid];
      var t', ws' := Append(t, w.inode, w.contents[w.sent..w.sent + count]), ws[pid := w.(sent := w.sent + count)];
      WritersOk(root, t', ws') && SealedKept(t, ws, t', ws')
  {
    var w := ws[pid];
    var t', ws' := Append(t, w.inode, w.contents[w.sent..w.sent + count]), ws[pid := w.(sent := w.sent + count)];
    assert WriterOk(root, t, w);
    SendOwnWriter(root, t, w, count);
    forall q | q in ws && q != pid
      ensures WriterOk(root, t', ws[q])
    {
      assert WriterOk(root, t, ws[q]) && ws[q].inode != w.inode;
    }
    assert forall q :: q in ws ==> ws'[q].inode == ws[q].inode;
  }

  lemma SendWriters(root: Path, s: System, a: Action)
    requires WritersOk(root, s.tree, s.writers) && a.Send? && Enabled(root, s, a)
    ensures WritersOk(root, Apply(root, s, a).tree, Apply(root, s, a).writers)
    ensures SealedKept(s.tree, s.writers, Apply(root, s, a).tree, Apply(root, s, a).writers)
  {
    SentWriters(root, s.tree, s.writers, a.pid, a.count);
  }

  lemma SendOwnWriter(root: Path, t: Tree, w: Writer, count: nat)
    requires WriterOk(root, t, w) && w.phase.Copying? && w.sent + count <= |w.contents|
    ensures WriterOk(root, Append(t, w.inode, w.contents[w.sent..w.sent + count]), w.(sent := w.sent + count))
  {
  }

  lemma SendKeeps(root: Path, s: System, a: Action)
    requires Inv(root, s) && a.Send? && Enabled(root, s, a)
    ensures StepKeeps(root, s, a)
  {
    assert WriterOk(root, s.tree, s.writers[a.pid]);
    SendTree(root, s, a);
    SendWriters(root, s, a);
    StepInOrder(root, s, a);
  }

  lemma PhaseWriters(root: Path, t: Tree, ws: map<nat, Writer>, pid: nat, phase: Phase)
    requires WritersOk(root, t, ws) && pid in ws && ws[pid].sent == |ws[pid].contents|
    ensures WritersOk(root, t, ws[pid := ws[pid].(phase := phase)])
    ensures SealedKept(t, ws, t, ws[pid := ws[pid].(phase := phase)])
  {
  }

  lemma PhaseStepWriters(root: Path, s: System, a: Action)
    requires WritersOk(root, s.tree, s.writers) && (a.Close? || a.Chmod?) && Enabled(root, s, a)
    ensures Apply(root, s, a).tree == s.tree && Apply(root, s, a).readers == s.readers
    ensures WritersOk(root, s.tree, Apply(root, s, a).writers)
    ensures SealedKept(s.tree, s.writers, s.tree, Apply(root, s, a).writers)
  {
    assert WriterOk(root, s.tree, s.writers[a.pid]);
    PhaseWriters(root, s.tree, s.writers, a.pid, if a.Close? then Closed else Readable);
  }

  lemma PhaseEffect(root: Path, s: System, a: Action)
    requires WellFormed(s.tree) && (a.Close? || a.Chmod?) && Enabled(root, s, a)
    ensures HasEffect(root, s, a)
  {
  }

  lemma PhaseKeeps(root: Path, s: System, a: Action)
    requires Inv(root, s) && (a.Close? || a.Chmod?) && Enabled(root, s, a)
    ensures StepKeeps(root, s, a)
  {
    PhaseEffect(root, s, a);
    PhaseStepWriters(root, s, a);
    StepInOrder(root, s, a);
  }

  lemma PublishedTree(root: Path, t: Tree, w: Writer)
    requires CleanPath(root) && VaultTree(root, t) && WriterOk(root, t, w) && w.phase.Readable?
    requires CanRename(t, w.temp, Location(root, w.key))
    ensures VaultTree(root, Rename(t, w.temp, Location(root, w.key)))
    ensures ReadFile(Rename(t, w.temp, Location(root, w.key)), Location(root, w.key)) == Some(w.contents)
    ensures forall k :: ValidKey(k) && k != w.key ==>
              ReadFile(Rename(t, w.temp, Location(root, w.key)), Location(root, k)) == ReadFile(t, Location(root, k))
  {
    var final := Location(root, w.key);
    TempIsNotAKey(root, w.temp, w.key);
    RenameKeeps(t, w.temp, final);
    RenamedVaultTree(root, t, w.temp, w.key);
    assert w.contents[..w.sent] == w.contents;
    forall k | ValidKey(k) && k != w.key
      ensures Location(root, k) != w.temp && Location(root, k) != final
    {
      TempIsNotAKey(root, w.temp, k);
      if Location(root, k) == final { LocationInjective(root, k, w.key); }
    }
  }

  lemma PublishTree(root: Path, s: System, a: Action)
    requires CleanPath(root) && VaultTree(root, s.tree) && WritersOk(root, s.tree, s.writers)
    requires a.Publish? && Enabled(root, s, a)
    ensures VaultTree(root, Apply(root, s, a).tree) && HasEffect(root, s, a)
  {
    assert WriterOk(root, s.tree, s.writers[a.pid]);
    PublishedTree(root, s.tree, s.writers[a.pid]);
  }

  lemma DroppedSealed(t: Tree, ws: map<nat, Writer>, t': Tree, pids: set<nat>)
    requires t'.data == t.data
    ensures SealedKept(t, ws, t', ws - pids)
  {
  }

  lemma PublishWriters(root: Path, s: System, a: Action)
    requires WellFormed(s.tree) && WritersOk(root, s.tree, s.writers) && a.Publish? && Enabled(root, s, a)
    ensures WritersOk(root, Apply(root, s, a).tree, Apply(root, s, a).writers)
    ensures SealedKept(s.tree, s.writers, Apply(root, s, a).tree, Apply(root, s, a).writers)
  {
    var w := s.writers[a.pid];
    assert WriterOk(root, s.tree, w);
    var s' := Apply(root, s, a);
    forall pid | pid in s'.writers
      ensures s.writers[pid].temp in s'.tree.names && s'.tree.names[s.writers[pid].temp] == s.writers[pid].inode
    {
      assert WriterOk(root, s.tree, s.writers[pid]);
      TempIsNotAKey(root, s.writers[pid].temp, w.key);
    }
    WritersFrame(root, s.tree, s'.tree, s.writers, s'.writers);
    DroppedSealed(s.tree, s.writers, s'.tree, {a.pid});
  }

  lemma PublishKeeps(root: Path, s: System, a: Action)
    requires Inv(root, s) && a.Publish? && Enabled(root, s, a)
    ensures StepKeeps(root, s, a)
  {
    PublishTree(root, s, a);
    PublishWriters(root, s, a);
    StepInOrder(root, s, a);
  }

  lemma AbortTree(root: Path, s: System, a: Action)
    requires VaultTree(root, s.tree) && WritersOk(root, s.tree, s.writers) && a.Abort? && Enabled(root, s, a)
    ensures VaultTree(root, Apply(root, s, a).tree) && HasEffect(root, s, a)
  {
    var temp := s.writers[a.pid].temp;
    assert WriterOk(root, s.tree, s.writers[a.pid]);
    UnlinkKeeps(s.tree, temp);
    TempReadsAlike(root, s.tree, Unlink(s.tree, temp), temp);
    QuietStep(root, s, a, if a.cleaned then Unlink(s.tree, temp) else s.tree);
  }

  lemma AbortWriters(root: Path, s: System, a: Action)
    requires WellFormed(s.tree) && WritersOk(root, s.tree, s.writers) && a.Abort? && Enabled(root, s, a)
    ensures WritersOk(root, Apply(root, s, a).tree, Apply(root, s, a).writers)
    ensures SealedKept(s.tree, s.writers, Apply(root, s, a).tree, Apply(root, s, a).writers)
  {
    var w := s.writers[a.pid];
    assert WriterOk(root, s.tree, w);
    var s' := Apply(root, s, a);
    forall pid | pid in s'.writers
      ensures s.writers[pid].temp in s'.tree.names && s'.tree.names[s.writers[pid].temp] == s.writers[pid].inode
    {
      assert WriterOk(root, s.tree, s.writers[pid]);
    }
    WritersFrame(root, s.tree, s'.tree, s.writers, s'.writers);
    DroppedSealed(s.tree, s.writers, s'.tree, {a.pid});
  }

  lemma AbortKeeps(root: Path, s: System, a: Action)
    requires Inv(root, s) && a.Abort? && Enabled(root, s, a)
    ensures StepKeeps(root, s, a)
  {
    AbortTree(root, s, a);
    AbortWriters(root, s, a);
    StepInOrder(root, s, a);
  }

  lemma DeleteTree(root: Path, s: System, a: Action)
    requires VaultTree(root, s.tree) && a.Delete? && Enabled(root, s, a)
    ensures VaultTree(root, Apply(root, s, a).tree) && HasEffect(root, s, a)
  {
    var p := Location(root, a.key);
    UnlinkKeeps(s.tree, p);
    RemovedVaultTree(root, s.tree, a.key);
    var s' := Apply(root, s, a);
    forall k | ValidKey(k)
      ensures ReadFile(s'.tree, Location(root, k)) == Effect(root, s, a, k)
    {
      if Location(root, k) == p { LocationInjective(root, k, a.key); }
    }
  }

  lemma DeleteWriters(root: Path, s: System, a: Action)
    requires WellFormed(s.tree) && WritersOk(root, s.tree, s.writers) && a.Delete? && Enabled(root, s, a)
    ensures WritersOk(root, Apply(root, s, a).tree, s.writers)
    ensures SealedKept(s.tree, s.writers, Apply(root, s, a).tree, s.writers)
  {
  }

  lemma DeleteKeeps(root: Path, s: System, a: Action)
    requires Inv(root, s) && a.Delete? && Enabled(root, s, a)
    ensures StepKeeps(root, s, a)
  {
    DeleteTree(root, s, a);
    DeleteWriters(root, s, a);
    StepInOrder(root, s, a);
  }

  lemma OpenedReaders(t: Tree, ws: map<nat, Writer>, rs: map<nat, Reader>, rid: nat, r: Reader)
    requires ReadersOk(t, ws, rs) && r.inode in t.data && r.received <= t.data[r.inode] && Sealed(ws, r.inode)
    ensures ReadersOk(t, ws, rs[rid := r])
  {
  }

  lemma ReaderStepReaders(root: Path, s: System, a: Action)
    requires Inv(root, s) && (a.Open? || a.Read?) && Enabled(root, s, a)
    ensures ReadersOk(s.tree, s.writers, Apply(root, s, a).readers)
  {
    if a.Open? {
      KeysAreSealed(root, s.tree, s.writers, a.key);
      OpenedReaders(s.tree, s.writers, s.readers, a.rid, Reader(a.key, s.tree.names[Location(root, a.key)], []));
    } else {
      var r := s.readers[a.rid];
      var body := s.tree.data[r.inode];
      assert r.received + body[|r.received|..] == body;
      var next := r.(received := r.received + Take(body[|r.received|..], a.count));
      OpenedReaders(s.tree, s.writers, s.readers, a.rid, next);
    }
  }

  lemma ReaderStepKeeps(root: Path, s: System, a: Action)
    requires Inv(root, s) && (a.Open? || a.Read?) && Enabled(root, s, a)
    ensures StepKeeps(root, s, a)
  {
    ReaderStepReaders(root, s, a);
    QuietStep(root, s, a, s.tree);
  }

  lemma NobodyLeft(root: Path, t: Tree, ws: map<nat, Writer>)
    ensures WritersOk(root, t, map[]) && ReadersOk(t, map[], map[]) && SealedKept(t, ws, t, map[])
  {
  }

  lemma CrashKeeps(root: Path, s: System, a: Action)
    requires Inv(root, s) && a.Crash?
    ensures StepKeeps(root, s, a)
  {
    NobodyLeft(root, s.tree, s.writers);
    QuietStep(root, s, a, s.tree);
  }

  lemma WriterStepKeeps(root: Path, s: System, a: Action)
    requires Inv(root, s) && Enabled(root, s, a)
    requires a.Begin? || a.Send? || a.Close? || a.Chmod? || a.Publish? || a.Abort?
    ensures StepKeeps(root, s, a)
  {
    match a
    case Begin(_, _, _, _, _) => BeginKeeps(root, s, a);
    case Send(_, _) => SendKeeps(root, s, a);
    case Close(_) => PhaseKeeps(root, s, a);
    case Chmod(_) => PhaseKeeps(root, s, a);
    case Publish(_) => PublishKeeps(root, s, a);
    case Abort(_, _) => AbortKeeps(root, s, a);
  }

  lemma EveryStepKeeps(root: Path, s: System, a: Action)
    requires Inv(root, s) && Enabled(root, s, a)
    ensures StepKeeps(root, s, a)
  {
    if a.MakeDirs? {
      MakeDirsKeeps(root, s, a);
    } else if a.Delete? {
      DeleteKeeps(root, s, a);
    } else if a.Open? || a.Read? {
      ReaderStepKeeps(root, s, a);
    } else if a.Crash? {
      CrashKeeps(root, s, a);
    } else {
      WriterStepKeeps(root, s, a);
    }
  }

  // ---- whole runs ----

  ghost predicate KeysExplained(root: Path, init: Tree, run: seq<Action>)
    requires WellFormed(init) && ValidRun(root, init, run) && WellFormed(After(root, init, run).tree)
  {
    forall k :: ValidKey(k) ==>
      ReadFile(After(root, init, run).tree, Location(root, k)) == Published(root, init, run, k)
  }

  ghost predicate WritersExplained(run: seq<Action>, ws: map<nat, Writer>) {
    forall pid :: pid in ws ==>
      && PutOf(run, pid).Some? && PutOf(run, pid).value.Begin?
      && PutOf(run, pid).value.key == ws[pid].key
      && PutOf(run, pid).value.contents == ws[pid].contents
  }

  ghost predicate ReadersExplained(root: Path, init: Tree, run: seq<Action>, t: Tree, rs: map<nat, Reader>)
    requires WellFormed(init)
  {
    forall rid :: rid in rs ==>
      rs[rid].inode in t.data && Opened(root, init, run, rid) == Some(t.data[rs[rid].inode])
  }

  ghost predicate Explained(root: Path, init: Tree, run: seq<Action>)
    requires WellFormed(init) && ValidRun(root, init, run)
  {
    var s := After(root, init, run);
    && Inv(root, s)
    && KeysExplained(root, init, run)
    && WritersExplained(run, s.writers)
    && ReadersExplained(root, init, run, s.tree, s.readers)
  }

  lemma {:induction false} RunsAreExplained(root: Path, init: Tree, run: seq<Action>)
    requires CleanPath(root) && VaultTree(root, init) && ValidRun(root, init, run)
    ensures Explained(root, init, run)
  {
    if run != [] {
      var before, a := run[..|run| - 1], run[|run| - 1];
      RunsAreExplained(root, init, before);
      EveryStepKeeps(root, After(root, init, before), a);
      StepExplainsKeys(root, init, run);
      StepExplainsWriters(root, After(root, init, before), run);
      StepExplainsReaders(root, init, run);
    }
  }

  lemma StepExplainsKeys(root: Path, init: Tree, run: seq<Action>)
    requires WellFormed(init) && run != [] && ValidRun(root, init, run)
    requires WellFormed(After(root, init, run[..|run| - 1]).tree) && WellFormed(After(root, init, run).tree)
    requires KeysExplained(root, init, run[..|run| - 1])
    requires WritersExplained(run[..|run| - 1], After(root, init, run[..|run| - 1]).writers)
    requires HasEffect(root, After(root, init, run[..|run| - 1]), run[|run| - 1])
    ensures KeysExplained(root, init, run)
  {
  }

  lemma StepExplainsWriters(root: Path, s: System, run: seq<Action>)
    requires run != [] && Enabled(root, s, run[|run| - 1])
    requires WritersExplained(run[..|run| - 1], s.writers)
    ensures WritersExplained(run, Apply(root, s, run[|run| - 1]).writers)
  {
  }

  lemma StepExplainsReaders(root: Path, init: Tree, run: seq<Action>)
    requires WellFormed(init) && run != [] && ValidRun(root, init, run)
    requires WellFormed(After(root, init, run[..|run| - 1]).tree)
    requires KeysExplained(root, init, run[..|run| - 1])
    requires
      var s, s' := After(root, init, run[..|run| - 1]), After(root, init, run);
      && ReadersOk(s.tree, s.writers, s.readers)
      && ReadersExplained(root, init, run[..|run| - 1], s.tree, s.readers)
      && SealedKept(s.tree, s.writers, s'.tree, s'.writers)
    ensures ReadersExplained(root, init, run, After(root, init, run).tree, After(root, init, run).readers)
  {
    var before, a := run[..|run| - 1], run[|run| - 1];
    var s, s' := After(root, init, before), After(root, init, run);
    forall rid | rid in s'.readers
      ensures s'.readers[rid].inode in s'.tree.data
      ensures Opened(root, init, run, rid) == Some(s'.tree.data[s'.readers[rid].inode])
    {
      if a.Open? && a.rid == rid {
        OpenedNow(root, init, run);
      } else {
        OlderReader(root, s, a, rid);
      }
    }
  }

  lemma OpenedNow(root: Path, init: Tree, run: seq<Action>)
    requires WellFormed(init) && run != [] && ValidRun(root, init, run) && run[|run| - 1].Open?
    requires WellFormed(After(root, init, run[..|run| - 1]).tree)
    requires KeysExplained(root, init, run[..|run| - 1])
    ensures
      var a, s := run[|run| - 1], After(root, init, run[..|run| - 1]);
      Opened(root, init, run, a.rid) == Some(s.tree.data[s.tree.names[Location(root, a.key)]])
  {
    var a, s := run[|run| - 1], After(root, init, run[..|run| - 1]);
    assert ReadFile(s.tree, Location(root, a.key)) == Published(root, init, run[..|run| - 1], a.key);
  }

  lemma OlderReader(root: Path, s: System, a: Action, rid: nat)
    requires Enabled(root, s, a) && rid in Apply(root, s, a).readers && !(a.Open? && a.rid == rid)
    ensures rid in s.readers && Apply(root, s, a).readers[rid].inode == s.readers[rid].inode
  {
  }

  /** Atomic publication. At every point of every interleaving, also after crashes, a key's
      file is absent or holds the complete contents of one Put, the one that renamed last with
      no later delete; and the disk keeps the shape the sequential operations rely on. */
  lemma AtomicPublication(root: Path, init: Tree, run: seq<Action>, key: ArtifactKey)
    requires CleanPath(root) && VaultTree(root, init) && ValidRun(root, init, run) && ValidKey(key)
    ensures VaultTree(root, After(root, init, run).tree)
    ensures ReadFile(After(root, init, run).tree, Location(root, key)) == Published(root, init, run, key)
  {
    RunsAreExplained(root, init, run);
  }

  /** What is published is never a mixture: it was there at the start, or it is, whole, what
      some Begin of that key announced, renamed at `at` and neither replaced nor deleted since. */
  lemma {:induction false} PublishedIsOnePut(root: Path, init: Tree, run: seq<Action>, key: ArtifactKey)
    returns (at: int)
    requires WellFormed(init) && ValidKey(key)
    requires Published(root, init, run, key).Some?
    ensures -1 <= at < |run|
    ensures at == -1 ==> Published(root, init, run, key) == ReadFile(init, Location(root, key))
    ensures at >= 0 ==> Publishes(run[..at], run[at], key)
                        && Published(root, init, run, key).value == PutOf(run[..at], run[at].pid).value.contents
    ensures forall j :: at < j < |run| ==> !Publishes(run[..j], run[j], key) && run[j] != Delete(key)
  {
    if run == [] { return -1; }
    var before, last := run[..|run| - 1], run[|run| - 1];
    if Publishes(before, last, key) { return |run| - 1; }
    at := PublishedIsOnePut(root, init, before, key);
    assert at >= 0 ==> before[..at] == run[..at];
    forall j | at < j < |run|
      ensures !Publishes(run[..j], run[j], key) && run[j] != Delete(key)
    {
      assert j < |before| ==> before[..j] == run[..j] && before[j] == run[j];
    }
  }

  // Some read of this handle with room for a byte delivers nothing.
  ghost predicate AtEof(root: Path, s: System, rid: nat)
    requires rid in s.readers
  {
    exists count: nat ::
      count > 0 && Enabled(root, s, Read(rid, count))
      && Apply(root, s, Read(rid, count)).readers[rid].received == s.readers[rid].received
  }

  /** A reader delivers a prefix of what its key held when it was opened, and all of it once
      a read comes back empty, whatever is put, deleted or renamed over it meanwhile. */
  lemma ReadersSeeOnePut(root: Path, init: Tree, run: seq<Action>, rid: nat)
    requires CleanPath(root) && VaultTree(root, init) && ValidRun(root, init, run)
    requires rid in After(root, init, run).readers
    ensures Opened(root, init, run, rid).Some?
    ensures After(root, init, run).readers[rid].received <= Opened(root, init, run, rid).value
    ensures AtEof(root, After(root, init, run), rid)
        ==> After(root, init, run).readers[rid].received == Opened(root, init, run, rid).value
  {
    RunsAreExplained(root, init, run);
    EofMeansAll(root, After(root, init, run), rid);
  }

  lemma EofMeansAll(root: Path, s: System, rid: nat)
    requires rid in s.readers && ReadersOk(s.tree, s.writers, s.readers)
    ensures AtEof(root, s, rid) ==> s.readers[rid].received == s.tree.data[s.readers[rid].inode]
  {
  }

  /** Everything else on the disk is a temporary file, which no listing shows. */
  lemma LeftoversAreNeverNames(root: Path, init: Tree, run: seq<Action>, p: Path)
    requires CleanPath(root) && VaultTree(root, init) && ValidRun(root, init, run)
    requires p in After(root, init, run).tree.names && root <= p
    ensures IsLocation(root, p) || (p != [] && HasPrefix(p[|p| - 1], TEMP_FILE_PREFIX) && !ValidName(p[|p| - 1]))
  {
    RunsAreExplained(root, init, run);
    if !IsLocation(root, p) {
      assert IsTemp(root, p);
      assert p[|p| - 1][0] == TEMP_FILE_PREFIX[0];
    }
  }
}

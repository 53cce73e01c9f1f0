/** The layers put together: what the calls of the file system client do through the extent caches,
    the inode manager and the disk is what they do to the directories in the table of files. */
module FileSystem {
  import opened Bytes
  import opened Options
  import opened Blocks
  import opened Inodes
  import opened InodeFiles
  import opened InodeRuns
  import opened Extents
  import Directory
  import D = DirectoryOps
  import T = FileTree
  import F = FileForest

  function Table(w: World): Files { FilesOf(w.fs.disk) }

  /** What the server has cached for an inode is its text. */
  lemma CachedText(w: World, id: nat, attrs: set<nat>)
    requires CoherentBut(w, {}, attrs) && id < INODE_NUM
    ensures Data(w.cache, id) == Table(w)[id].bytes
  {
    hide ReadFile, Inv, FilesOf;
    assert DataAgrees(w, id);
    ReadInRange(w.fs, id);
  }

  /** The table entry of an inode has its type. */
  lemma KindIs(d: Disk, id: nat)
    requires id < INODE_NUM
    ensures FilesOf(d)[id].kind == GetInode(d, id).kind
  {
    hide GetInode, ReadFrom;
  }

  /** A store writes the table and nothing else. */
  lemma StoreTable(w: World, id: nat, buf: Text, env: Env)
    requires Inv(w.fs) && id < INODE_NUM && WriteFits(w.fs, id, buf) && Store(w, id, buf, env).Some?
    ensures Table(Store(w, id, buf, env).value) == Table(w)[id := File(Table(w)[id].kind, buf)]
  {
    hide Inv, FilesOf, WriteFile, GetInode, ReadFile;
    WriteFileRefines(w.fs, id, buf, env.junk, env.now);
    KindIs(w.fs.disk, id);
  }

  lemma PublishTable(w: World, c: Cid, parent: nat, name: Text, id: nat, env: Env)
    requires Inv(w.fs) && parent < INODE_NUM && Publish(w, c, parent, name, id, env).Some?
    requires WriteFits(w.fs, parent, D.Append(Data(w.cache, parent), name, id))
    ensures var buf := D.Append(Data(w.cache, parent), name, id);
            Table(Publish(w, c, parent, name, id, env).value) == Table(w)[parent := File(Table(w)[parent].kind, buf)]
  {
    hide Inv, FilesOf, Store, WriteFits, ReadFile, D.Append;
    StoreTable(w, parent, D.Append(Data(w.cache, parent), name, id), env);
  }

  /** create and mkdir, after the lookup that did not find the name. */
  lemma CreateIsMake(w: World, c: Cid, kind: Word, parent: nat, name: Text, env: Env, attrs: set<nat>)
    requires CoherentBut(w, {}, attrs) && CallFits(w, Call.Create(kind, parent, name, env)) && parent < INODE_NUM
    requires !D.Named(T.Entries(Table(w), parent), name) && DoCreate(w, c, kind, parent, name, env).Some?
    requires Table(w)[parent].kind != 0
    ensures Table(DoCreate(w, c, kind, parent, name, env).value) == T.Apply(Table(w), T.Make(parent, name, kind, []))
  {
    hide Inv, FilesOf, Publish, WriteFits, AllocInode, D.Append, D.Named, T.Entries, Data, CoherentBut, FreeInum;
    InvOf(w, {}, attrs);
    AllocInodeRefines(w.fs, kind);
    var r := AllocInode(w.fs, kind).value;
    FreeEntryIs(w.fs.disk, 1);
    T.FreeIsFree(Table(w), 1);
    CachedText(w, parent, attrs);
    PublishTable(w.(fs := r.0), c, parent, name, r.1, env);
  }

  lemma SymLinkIsMake(w: World, c: Cid, parent: nat, name: Text, link: Text, env: Env, env2: Env, attrs: set<nat>)
    requires CoherentBut(w, {}, attrs) && CallFits(w, SymLink(parent, name, link, env, env2)) && parent < INODE_NUM
    requires !D.Named(T.Entries(Table(w), parent), name) && DoSymLink(w, c, parent, name, link, env, env2).Some?
    requires Table(w)[parent].kind != 0
    ensures Table(DoSymLink(w, c, parent, name, link, env, env2).value) == T.Apply(Table(w), T.Make(parent, name, T_SYMLINK, link))
  {
    hide Inv, FilesOf, Publish, WriteFits, AllocInode, WriteFile, D.Append, D.Named, T.Entries, Data, CoherentBut, FreeInum;
    InvOf(w, {}, attrs);
    AllocInodeRefines(w.fs, T_SYMLINK);
    var r := AllocInode(w.fs, T_SYMLINK).value;
    FreeEntryIs(w.fs.disk, 1);
    T.FreeIsFree(Table(w), 1);
    WriteTable(r.0, r.1, link, env);
    var fs := WriteFile(r.0, r.1, link, env.junk, env.now).value;
    CachedText(w, parent, attrs);
    PublishTable(w.(fs := fs), c, parent, name, r.1, env2);
    var t, i := Table(w), r.1;
    assert t[i := File(T_SYMLINK, [])][i := File(T_SYMLINK, link)] == t[i := File(T_SYMLINK, link)];
  }

  lemma WriteTable(fs: Fs, id: nat, buf: Text, env: Env)
    requires Inv(fs) && id < INODE_NUM && WriteFits(fs, id, buf)
    ensures var r := WriteFile(fs, id, buf, env.junk, env.now);
            r.Some? && Inv(r.value) && FilesOf(r.value.disk) == FilesOf(fs.disk)[id := File(FilesOf(fs.disk)[id].kind, buf)]
  {
    hide Inv, FilesOf, WriteFile, GetInode;
    WriteFileRefines(fs, id, buf, env.junk, env.now);
    KindIs(fs.disk, id);
  }

  /** unlink of a name that was looked up. */
  lemma RemoveIsDrop(w: World, c: Cid, parent: nat, name: Text, id: nat, env: Env, attrs: set<nat>)
    requires CoherentBut(w, {}, attrs) && CallFits(w, Call.Remove(parent, name, id, env)) && parent < INODE_NUM
    requires var es := T.Entries(Table(w), parent);
             D.Index(es, name) < |es| && es[D.Index(es, name)].inum == Mask(id) && Mask(id) != parent
    requires DoRemove(w, c, parent, name, id, env).Some?
    ensures Table(DoRemove(w, c, parent, name, id, env).value) == T.Apply(Table(w), T.Drop(parent, name))
  {
    hide Inv, FilesOf, Store, WriteFits, RemoveFile, D.Erase, D.Index, T.Entries, Data, CoherentBut, ReadFile;
    InvOf(w, {}, attrs);
    RemoveFileRefines(w.fs, Mask(id));
    var fs := RemoveFile(w.fs, Mask(id)).value;
    CachedText(w, parent, attrs);
    StoreTable(w.(fs := fs), parent, D.Erase(Data(w.cache, parent), name).value, env);
  }

  lemma PutIsWrite(w: World, c: Cid, id: nat, buf: Text, env: Env, attrs: set<nat>)
    requires CoherentBut(w, {}, attrs) && CallFits(w, Put(id, buf, env)) && DoPut(w, c, id, buf, env).Some?
    ensures Table(DoPut(w, c, id, buf, env).value) == T.Apply(Table(w), T.Write(Mask(id), buf))
  {
    hide Inv, FilesOf, Store, CoherentBut, Room;
    InvOf(w, {}, attrs);
    if Mask(id) < INODE_NUM { StoreTable(w, Mask(id), buf, env); } else { StoreOutOfRange(w, Mask(id), buf, env); }
  }

  lemma StoreOutOfRange(w: World, id: nat, buf: Text, env: Env)
    requires id >= INODE_NUM && |buf| < MAXSIZE && Store(w, id, buf, env).Some?
    ensures Store(w, id, buf, env).value.fs == w.fs
  {
    hide ReadFile, WriteFile;
    WriteOutOfRange(w.fs, id, buf, env);
  }

  // ------------------------------------------------------------------------- whole runs

  /** The tree operation a call stands for. */
  function Meant(call: Call): T.Op
    requires !call.Get? && !call.GetAttr?
  {
    match call
    case Create(kind, parent, name, _) => T.Make(parent, name, kind, [])
    case SymLink(parent, name, link, _, _) => T.Make(parent, name, T_SYMLINK, link)
    case Put(id, buf, _) => T.Write(Mask(id), buf)
    case Remove(parent, name, id, _) => T.Drop(parent, name)
  }

  /** How the file system client calls: a create only after a lookup that failed, an unlink with the
      number the lookup found, and otherwise as the tree operation allows. */
  predicate WellCalled(w: World, call: Call) {
    call.Get? || call.GetAttr? || (
      && T.Allowed(Table(w), Meant(call))
      && (call.Create? || call.SymLink? ==> !D.Named(T.Entries(Table(w), call.parent), call.name))
      && (call.Remove? ==> var es := T.Entries(Table(w), call.parent); es[D.Index(es, call.name)].inum == Mask(call.id)))
  }

  /** The operations on the directories that a run of calls stands for. */
  function Ops(es: seq<Event>): seq<T.Op> {
    if es == [] then []
    else if es[0].call.Get? || es[0].call.GetAttr? then Ops(es[1..])
    else [Meant(es[0].call)] + Ops(es[1..])
  }

  /** A call through the caches does to the table what is meant, and a read does nothing. */
  lemma CallIsMeant(w: World, c: Cid, call: Call, attrs: set<nat>)
    requires CoherentBut(w, {}, attrs) && c in w.peers && CallFits(w, call) && T.Listing(Table(w)) && WellCalled(w, call)
    ensures Do(w, c, call).Some?
    ensures Table(Do(w, c, call).value) == if call.Get? || call.GetAttr? then Table(w) else T.Apply(Table(w), Meant(call))
  {
    hide CoherentBut, CallFits, FilesOf, T.Listing, T.Apply, T.Entries, D.Named, D.Index, DoCreate, DoSymLink, DoPut, DoRemove;
    CallKeeps(w, c, call, attrs);
    if call.Get? || call.GetAttr? { ReadsOnly(w, c, call); }
    else if call.Create? { CreateIsMake(w, c, call.kind, call.parent, call.name, call.env, attrs); }
    else if call.SymLink? { SymLinkIsMake(w, c, call.parent, call.name, call.link, call.env, call.env2, attrs); }
    else if call.Put? { PutIsWrite(w, c, call.id, call.buf, call.env, attrs); }
    else {
      NotItself(Table(w), call.parent, call.name);
      RemoveIsDrop(w, c, call.parent, call.name, call.id, call.env, attrs);
    }
  }

  lemma ReadsOnly(w: World, c: Cid, call: Call)
    requires c in w.peers && (call.Get? || call.GetAttr?)
    ensures Do(w, c, call).Some? && Do(w, c, call).value.fs == w.fs
  {}

  lemma NotItself(t: Files, parent: nat, name: Text)
    requires T.Listing(t) && T.Allowed(t, T.Drop(parent, name))
    ensures var es := T.Entries(t, parent); D.Index(es, name) < |es| && es[D.Index(es, name)].inum != parent
  {
    hide T.Entries;
    assert T.UsedAt(t, parent, D.Index(T.Entries(t, parent), name));
  }

  ghost predicate AllWellCalled(w: World, es: seq<Event>)
    decreases |es|
  {
    es == [] || (WellCalled(w, es[0].call) && (es[0].client in w.peers && Do(w, es[0].client, es[0].call).Some? ==>
      AllWellCalled(Do(w, es[0].client, es[0].call).value, es[1..])))
  }

  lemma Called(w: World, call: Call)
    requires WellCalled(w, call) && !call.Get? && !call.GetAttr?
    ensures T.Allowed(Table(w), Meant(call))
  {}

  /** What a run of calls of any clients does through all the caches is what the operations do. */
  lemma {:induction false} RunIsMeant(w: World, es: seq<Event>, attrs: set<nat>)
    requires CoherentBut(w, {}, attrs) && CallsFit(w, es) && T.Listing(Table(w)) && AllWellCalled(w, es)
    ensures RunCalls(w, es).Some? && T.RunAllowed(Table(w), Ops(es))
    ensures Table(RunCalls(w, es).value) == T.Run(Table(w), Ops(es))
    decreases |es|
  {
    hide CoherentBut, CallFits, Do, Mended, T.Listing, T.Allowed, T.Apply, WellCalled, Table, Meant;
    if es != [] {
      var c, call := es[0].client, es[0].call;
      CallKeeps(w, c, call, attrs);
      CallIsMeant(w, c, call, attrs);
      if !call.Get? && !call.GetAttr? {
        Called(w, call);
        T.StepKeeps(Table(w), Meant(call));
        assert Ops(es)[1..] == Ops(es[1..]);
      }
      RunIsMeant(Do(w, c, call).value, es[1..], attrs - Mended(call));
    }
  }

  lemma BootIsNew(superblock: Block, clients: set<Cid>)
    ensures Boot(superblock, clients).Some? && F.New(Table(Boot(superblock, clients).value))
  {
    hide Inv, FilesOf, GetInode, Format, AllocInode;
    FormatInv(superblock);
    FormatInodes(superblock, 1);
    FreeInumTurn(Format(superblock).disk, 1);
    AllocInodeRefines(Format(superblock), T_DIR);
  }

  /** From a new server, after every run of well-made calls of any clients, whatever is cached where,
      the directories on the disk form a forest: they list clean names, no name twice, only inodes in
      use, no inode twice in the whole file system, and never themselves through each other. It is
      one tree that holds everything in use if and only if no call removed or emptied a directory that had entries. */
  lemma FileSystemIsTree(superblock: Block, clients: set<Cid>, es: seq<Event>)
    requires Boot(superblock, clients).Some? && CallsFit(Boot(superblock, clients).value, es)
    requires AllWellCalled(Boot(superblock, clients).value, es)
    ensures var w := Boot(superblock, clients).value;
            var r := RunCalls(w, es);
            && r.Some? && F.Forest(Table(r.value))
            && (F.Connected(Table(r.value)) <==> !F.AnyLoss(Table(w), Ops(es)))
  {
    hide CoherentBut, RunCalls, Boot, CallsFit, AllWellCalled, Table, Ops, F.New, F.Connected, F.Forest, F.AnyLoss, T.Listing;
    var w := Boot(superblock, clients).value;
    BootCoherent(superblock, clients);
    BootIsNew(superblock, clients);
    F.NewIsTree(Table(w));
    F.ForestLists(Table(w));
    RunIsMeant(w, es, {ROOT});
    F.TreeExactly(Table(w), Ops(es));
  }
}

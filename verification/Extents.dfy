/** The extent caches: the server caches file text and attributes, every client caches what it got,
    and the server tells the clients registered for an extent when it changes. One client call
    with the server handler and the callbacks it causes is one step. */
module Extents {
  import opened Bytes
  import opened Options
  import opened Blocks
  import opened Inodes
  import opened Ownership
  import opened InodeFiles
  import opened InodeRuns
  import DirectoryOps

  type Cid = string
  type Text = seq<Byte>

  datatype Attr = Attr(kind: Word, atime: Word, mtime: Word, ctime: Word, size: Word)
  const NO_ATTR := Attr(0, 0, 0, 0, 0)
  const TWO31 := 0x8000_0000

  datatype Cache = Cache(data: map<nat, Text>, attr: map<nat, Attr>)

  /** The disk, the server's cache and registrations, and the caches of the clients. */
  datatype World = World(fs: Fs, cache: Cache, regs: map<Cid, set<nat>>, peers: map<Cid, Cache>)

  // -------------------------------------------------------------------------- lookups

  /** `operator[]` on a map: an absent entry reads as the empty value. */
  function Data(c: Cache, id: nat): Text { if id in c.data then c.data[id] else [] }
  function AttrIn(c: Cache, id: nat): Attr { if id in c.attr then c.attr[id] else NO_ATTR }
  function Reg(regs: map<Cid, set<nat>>, c: Cid): set<nat> { if c in regs then regs[c] else {} }

  function AttrOf(fs: Fs, id: nat): Attr {
    if id >= INODE_NUM then NO_ATTR
    else var ino := GetInode(fs.disk, id); Attr(ino.kind, ino.atime, ino.mtime, ino.ctime, ino.size)
  }

  function Mask(id: nat): nat { id % TWO31 }

  // -------------------------------------------------------------------- server internals

  function Register(w: World, c: Cid, id: nat): World { w.(regs := w.regs[c := Reg(w.regs, c) + {id}]) }

  function Told(p: Cache, id: nat, a: Attr, d: Text): Cache { Cache(p.data[id := d], p.attr[id := a]) }
  function Forgot(p: Cache, id: nat): Cache { Cache(p.data - {id}, p.attr - {id}) }

  function Broadcast(w: World, id: nat): World {
    w.(peers := map c | c in w.peers ::
      if id in Reg(w.regs, c) then Told(w.peers[c], id, AttrIn(w.cache, id), Data(w.cache, id)) else w.peers[c])
  }

  function BroadcastRemove(w: World, id: nat): World {
    w.(peers := map c | c in w.peers :: if id in Reg(w.regs, c) then Forgot(w.peers[c], id) else w.peers[c])
  }

  function UpdateCache(w: World, id: nat): Option<World> {
    match ReadFile(w.fs, Mask(id))
    case None => None
    case Some(d) => Some(Broadcast(w.(cache := Told(w.cache, Mask(id), AttrOf(w.fs, Mask(id)), d)), Mask(id)))
  }

  // --------------------------------------------------------------------------- the calls

  /** What the clock and the uninitialised end of a block buffer are during a write. */
  datatype Env = Env(junk: Block, now: Word)

  datatype Call =
    | Create(kind: Word, parent: nat, name: Text, env: Env)
    | SymLink(parent: nat, name: Text, link: Text, env: Env, env2: Env)
    | Put(id: nat, buf: Text, env: Env)
    | Get(id: nat)
    | GetAttr(id: nat)
    | Remove(parent: nat, name: Text, id: nat, env: Env)

  /** Write the text of an extent and then the caches of everyone. */
  function Store(w: World, id: nat, buf: Text, env: Env): Option<World> {
    match WriteFile(w.fs, id, buf, env.junk, env.now)
    case None => None
    case Some(fs) => UpdateCache(w.(fs := fs), id)
  }

  function DoPut(w: World, c: Cid, id: nat, buf: Text, env: Env): Option<World> {
    match Store(w, Mask(id), buf, env)
    case None => None
    case Some(w1) => Some(Register(w1, c, Mask(id)))
  }

  /** The new entry goes into the parent's text, then both extents are published. */
  function Publish(w: World, c: Cid, parent: nat, name: Text, id: nat, env: Env): Option<World> {
    match Store(w, parent, DirectoryOps.Append(Data(w.cache, parent), name, id), env)
    case None => None
    case Some(w1) =>
      match UpdateCache(w1, id)
      case None => None
      case Some(w2) => Some(Register(w2, c, id))
  }

  function DoCreate(w: World, c: Cid, kind: Word, parent: nat, name: Text, env: Env): Option<World> {
    match AllocInode(w.fs, kind)
    case None => None
    case Some(r) => Publish(w.(fs := r.0), c, parent, name, r.1, env)
  }

  function DoSymLink(w: World, c: Cid, parent: nat, name: Text, link: Text, env: Env, env2: Env): Option<World> {
    match AllocInode(w.fs, T_SYMLINK)
    case None => None
    case Some(r) =>
      match WriteFile(r.0, r.1, link, env.junk, env.now)
      case None => None
      case Some(fs) => Publish(w.(fs := fs), c, parent, name, r.1, env2)
  }

  function DoRemove(w: World, c: Cid, parent: nat, name: Text, id: nat, env: Env): Option<World> {
    match RemoveFile(w.fs, Mask(id))
    case None => None
    case Some(fs) =>
      match DirectoryOps.Erase(Data(w.cache, parent), name)
      case None => None
      case Some(text) =>
        match Store(w.(fs := fs), parent, text, env)
        case None => None
        case Some(w1) => Some(Register(BroadcastRemove(w1.(cache := Forgot(w1.cache, Mask(id))), Mask(id)), c, Mask(id)))
  }

  /** A get that misses asks the server, which registers the client; a hit stays local. */
  function DoGet(w: World, c: Cid, id: nat): World
    requires c in w.peers
  {
    if id in w.peers[c].data then w
    else
      var d := Data(w.cache, id);
      Register(w, c, id).(cache := w.cache.(data := w.cache.data[id := d]),
                          peers := w.peers[c := w.peers[c].(data := w.peers[c].data[id := d])])
  }

  function DoGetAttr(w: World, c: Cid, id: nat): World
    requires c in w.peers
  {
    if id in w.peers[c].attr then w
    else
      var a := AttrIn(w.cache, id);
      Register(w, c, id).(cache := w.cache.(attr := w.cache.attr[id := a]),
                          peers := w.peers[c := w.peers[c].(attr := w.peers[c].attr[id := a])])
  }

  function Do(w: World, c: Cid, call: Call): Option<World>
    requires c in w.peers
  {
    match call
    case Create(kind, parent, name, env) => DoCreate(w, c, kind, parent, name, env)
    case SymLink(parent, name, link, env, env2) => DoSymLink(w, c, parent, name, link, env, env2)
    case Put(id, buf, env) => DoPut(w, c, id, buf, env)
    case Get(id) => Some(DoGet(w, c, id))
    case GetAttr(id) => Some(DoGetAttr(w, c, id))
    case Remove(parent, name, id, env) => DoRemove(w, c, parent, name, id, env)
  }

  // -------------------------------------------------------------------------- coherence

  predicate DataAgrees(w: World, id: nat) { Some(Data(w.cache, id)) == ReadFile(w.fs, id) }
  predicate AttrAgrees(w: World, id: nat) { AttrIn(w.cache, id) == AttrOf(w.fs, id) }

  /** What client c has cached for id is registered and is what the server has cached. */
  predicate PeerAgrees(w: World, c: Cid, id: nat) {
    && (c in w.peers && id in w.peers[c].data ==> id in Reg(w.regs, c) && w.peers[c].data[id] == Data(w.cache, id))
    && (c in w.peers && id in w.peers[c].attr ==> id in Reg(w.regs, c) && w.peers[c].attr[id] == AttrIn(w.cache, id))
  }

  /** The caches agree, but for server text of the extents in `text` and attributes of those in `attrs`. */
  ghost predicate CoherentBut(w: World, text: set<nat>, attrs: set<nat>) {
    && Inv(w.fs)
    && (forall id: nat {:trigger DataAgrees(w, id)} :: id !in text ==> DataAgrees(w, id))
    && (forall id: nat {:trigger AttrAgrees(w, id)} :: id !in attrs ==> AttrAgrees(w, id))
    && (forall c: Cid, id: nat {:trigger PeerAgrees(w, c, id)} :: PeerAgrees(w, c, id))
  }

  lemma UpdateCacheFixes(w: World, id: nat, text: set<nat>, attrs: set<nat>)
    requires CoherentBut(w, text, attrs)
    ensures var r := UpdateCache(w, id);
            && r.Some? && r.value.fs == w.fs && r.value.peers.Keys == w.peers.Keys
            && CoherentBut(r.value, text - {Mask(id)}, attrs - {Mask(id)})
  {
    hide ReadFile, AttrOf, Inv, Mask;
    var m := Mask(id);
    ReadInRange(w.fs, m);
    var r := UpdateCache(w, id).value;
    forall i: nat | i !in text - {m} ensures DataAgrees(r, i) { assert i !in text ==> DataAgrees(w, i); }
    forall i: nat | i !in attrs - {m} ensures AttrAgrees(r, i) { assert i !in attrs ==> AttrAgrees(w, i); }
    forall c: Cid, i: nat ensures PeerAgrees(r, c, i) { assert PeerAgrees(w, c, i); }
  }

  lemma ReadInRange(fs: Fs, id: nat)
    requires Inv(fs)
    ensures ReadFile(fs, id).Some?
    ensures id < INODE_NUM ==> ReadFile(fs, id) == Some(FilesOf(fs.disk)[id].bytes)
  {
    if id < INODE_NUM { ReadFileReturns(fs, id); }
  }

  /** fs1 differs from fs only in the extents of `ids`. */
  ghost predicate Touches(fs: Fs, fs1: Fs, ids: set<nat>) {
    && (forall i: nat {:trigger ReadFile(fs1, i)} :: i !in ids ==> ReadFile(fs1, i) == ReadFile(fs, i))
    && (forall i: nat {:trigger AttrOf(fs1, i)} :: i !in ids ==> AttrOf(fs1, i) == AttrOf(fs, i))
  }

  lemma FsMoves(w: World, fs: Fs, ids: set<nat>, text: set<nat>, attrs: set<nat>)
    requires CoherentBut(w, text, attrs) && Inv(fs) && Touches(w.fs, fs, ids)
    ensures CoherentBut(w.(fs := fs), text + ids, attrs + ids)
  {
    hide ReadFile, AttrOf, Inv;
    var v := w.(fs := fs);
    forall i: nat | i !in text + ids ensures DataAgrees(v, i) { assert DataAgrees(w, i); }
    forall i: nat | i !in attrs + ids ensures AttrAgrees(v, i) { assert AttrAgrees(w, i); }
    forall c: Cid, i: nat ensures PeerAgrees(v, c, i) { assert PeerAgrees(w, c, i); }
  }

  // ------------------------------------------------------- what the disk operations touch

  lemma OneFileTouched(fs: Fs, fs1: Fs, id: nat, f: File)
    requires Inv(fs) && Inv(fs1) && id < INODE_NUM && FilesOf(fs1.disk) == FilesOf(fs.disk)[id := f]
    requires forall j: nat :: j < INODE_NUM && j != id ==> GetInode(fs1.disk, j) == GetInode(fs.disk, j)
    ensures Touches(fs, fs1, {id}) && ReadFile(fs1, id) == Some(f.bytes)
  {
    hide ReadFile, FilesOf, Inv, GetInode;
    ReadInRange(fs1, id);
    forall i: nat | i != id ensures ReadFile(fs1, i) == ReadFile(fs, i) {
      ReadInRange(fs, i); ReadInRange(fs1, i);
      if i >= INODE_NUM { ReadOutOfRange(fs, fs1, i); }
    }
  }

  lemma ReadOutOfRange(fs: Fs, fs1: Fs, id: nat)
    requires id >= INODE_NUM
    ensures ReadFile(fs, id) == ReadFile(fs1, id) == Some([])
  {}

  /** What a caller of write_file has to see to. */
  ghost predicate WriteFits(fs: Fs, id: nat, buf: Text) {
    |buf| < MAXSIZE && (id < INODE_NUM ==> (GetInode(fs.disk, id).kind != 0 || buf == []) && Room(fs, id, |buf|))
  }

  lemma WriteTouches(fs: Fs, id: nat, buf: Text, env: Env)
    requires Inv(fs) && WriteFits(fs, id, buf)
    ensures var r := WriteFile(fs, id, buf, env.junk, env.now);
            && r.Some? && Inv(r.value) && Touches(fs, r.value, {id})
            && ReadFile(r.value, id) == Some(if id < INODE_NUM then buf else [])
  {
    if id < INODE_NUM {
      hide GetInode, ReadFile, FilesOf, Inv, Written, WriteFile, BlocksKept, NodesOf, Own, ReadFrom, Room;
      WriteFileRefines(fs, id, buf, env.junk, env.now);
      var _, _ := WriteStages(fs, id, buf, env.junk, env.now);
      OneFileTouched(fs, WriteFile(fs, id, buf, env.junk, env.now).value, id, File(GetInode(fs.disk, id).kind, buf));
    }
  }

  lemma AllocTouches(fs: Fs, kind: Word)
    requires Inv(fs) && FreeInum(fs.disk, 1) < INODE_NUM
    ensures var r := AllocInode(fs, kind);
            r.Some? && Inv(r.value.0) && Touches(fs, r.value.0, {r.value.1}) && r.value.1 < INODE_NUM
  {
    hide ReadFile, FilesOf, Inv, PutInode, GetInode;
    AllocInodeRefines(fs, kind);
    var (fs1, id) := AllocInode(fs, kind).value;
    var ino := Inode(kind, 0, 0, 0, 0, GetInode(fs.disk, id).blocks);
    forall j: nat | j < INODE_NUM && j != id ensures GetInode(fs1.disk, j) == GetInode(fs.disk, j) {
      PutGet(fs.disk, id, ino, j);
    }
    OneFileTouched(fs, fs1, id, File(kind, []));
  }

  lemma RemoveTouches(fs: Fs, id: nat)
    requires Inv(fs) && id < INODE_NUM && GetInode(fs.disk, id).kind != 0 && BlockCount(GetInode(fs.disk, id).size) <= NDIRECT
    ensures var r := RemoveFile(fs, id);
            && r.Some? && Inv(r.value) && Touches(fs, r.value, {id})
            && ReadFile(r.value, id) == Some([]) && AttrOf(r.value, id) == NO_ATTR
  {
    hide ReadFile, FilesOf, Inv, PutInode, GetInode, Freed;
    RemoveFileRefines(fs, id);
    var fs1 := RemoveFile(fs, id).value;
    var ino := Inode(0, 0, 0, 0, 0, GetInode(fs.disk, id).blocks);
    forall j: nat | j < INODE_NUM
      ensures GetInode(fs1.disk, j) == if j == id then ino else GetInode(fs.disk, j)
    {
      PutGet(fs.disk, id, ino, j);
    }
    OneFileTouched(fs, fs1, id, File(0, []));
  }

  // ----------------------------------------------------------------- every call keeps it

  lemma RegisterKeeps(w: World, c: Cid, id: nat, text: set<nat>, attrs: set<nat>)
    requires CoherentBut(w, text, attrs)
    ensures CoherentBut(Register(w, c, id), text, attrs)
  {
    hide ReadFile, AttrOf, Inv;
    var v := Register(w, c, id);
    forall i: nat | i !in text ensures DataAgrees(v, i) { assert DataAgrees(w, i); }
    forall i: nat | i !in attrs ensures AttrAgrees(v, i) { assert AttrAgrees(w, i); }
    forall d: Cid, i: nat ensures PeerAgrees(v, d, i) { assert PeerAgrees(w, d, i); }
  }

  /** An id from 2^31 on is no inode, so nothing is written, but the masked extent is refreshed. */
  lemma StoreKeeps(w: World, id: nat, buf: Text, env: Env, text: set<nat>, attrs: set<nat>)
    requires CoherentBut(w, text, attrs) && WriteFits(w.fs, id, buf)
    ensures var r := Store(w, id, buf, env);
            && r.Some? && r.value.peers.Keys == w.peers.Keys && Some(r.value.fs) == WriteFile(w.fs, id, buf, env.junk, env.now)
            && CoherentBut(r.value, text - {Mask(id)}, attrs - {Mask(id)})
  {
    hide WriteFile, UpdateCache, Inv, CoherentBut;
    assert Inv(w.fs) by { InvOf(w, text, attrs); }
    WriteTouches(w.fs, id, buf, env);
    var fs := WriteFile(w.fs, id, buf, env.junk, env.now).value;
    if id < TWO31 {
      FsMoves(w, fs, {id}, text, attrs);
      UpdateCacheFixes(w.(fs := fs), id, text + {id}, attrs + {id});
      assert text + {id} - {id} == text - {id} && attrs + {id} - {id} == attrs - {id};
    } else {
      WriteOutOfRange(w.fs, id, buf, env);
      UpdateCacheFixes(w, id, text, attrs);
    }
  }

  lemma WriteOutOfRange(fs: Fs, id: nat, buf: Text, env: Env)
    requires id >= INODE_NUM && |buf| < MAXSIZE
    ensures WriteFile(fs, id, buf, env.junk, env.now) == Some(fs)
  {}

  lemma InvOf(w: World, text: set<nat>, attrs: set<nat>)
    requires CoherentBut(w, text, attrs)
    ensures Inv(w.fs)
  {}

  lemma Weaken(w: World, text: set<nat>, attrs: set<nat>, text1: set<nat>, attrs1: set<nat>)
    requires CoherentBut(w, text, attrs) && text <= text1 && attrs <= attrs1
    ensures CoherentBut(w, text1, attrs1)
  {
    hide DataAgrees, AttrAgrees, PeerAgrees, Inv;
  }

  /** Publishing entry id in its parent mends both, and everything else stays. */
  lemma PublishKeeps(w: World, c: Cid, parent: nat, name: Text, id: nat, env: Env, attrs: set<nat>)
    requires CoherentBut(w, {id}, attrs + {id}) && id < INODE_NUM
    requires WriteFits(w.fs, parent, DirectoryOps.Append(Data(w.cache, parent), name, id))
    ensures var r := Publish(w, c, parent, name, id, env);
            r.Some? && r.value.peers.Keys == w.peers.Keys && CoherentBut(r.value, {}, attrs - {Mask(parent)})
  {
    hide Store, UpdateCache, Register, Inv, CoherentBut, WriteFits, DirectoryOps.Append, Data;
    var buf := DirectoryOps.Append(Data(w.cache, parent), name, id);
    var p := Mask(parent);
    StoreKeeps(w, parent, buf, env, {id}, attrs + {id});
    var w1 := Store(w, parent, buf, env).value;
    assert Mask(id) == id;
    UpdateCacheFixes(w1, id, {id} - {p}, attrs + {id} - {p});
    var w2 := UpdateCache(w1, id).value;
    Weaken(w2, {id} - {p} - {id}, attrs + {id} - {p} - {id}, {}, attrs - {p});
    RegisterKeeps(w2, c, id, {}, attrs - {p});
    RegisterPeers(w2, c, id);
  }

  lemma RegisterPeers(w: World, c: Cid, id: nat)
    ensures Register(w, c, id).peers == w.peers
  {}

  /** What a caller has to see to: text goes into inodes in use and fits on the disk, a removed inode
      is in use, has direct blocks only, is not its own parent, and its name is in its parent's text. */
  ghost predicate CallFits(w: World, call: Call) {
    match call
    case Get(id) => true
    case GetAttr(id) => true
    case Put(id, buf, _) => WriteFits(w.fs, Mask(id), buf)
    case Create(kind, parent, name, _) =>
      && FreeInum(w.fs.disk, 1) < INODE_NUM
      && (var r := AllocInode(w.fs, kind);
          r.Some? ==> WriteFits(r.value.0, parent, DirectoryOps.Append(Data(w.cache, parent), name, r.value.1)))
    case SymLink(parent, name, link, env, _) =>
      && FreeInum(w.fs.disk, 1) < INODE_NUM
      && (var r := AllocInode(w.fs, T_SYMLINK);
          r.Some? ==>
            && WriteFits(r.value.0, r.value.1, link)
            && (var f := WriteFile(r.value.0, r.value.1, link, env.junk, env.now);
                f.Some? ==> WriteFits(f.value, parent, DirectoryOps.Append(Data(w.cache, parent), name, r.value.1))))
    case Remove(parent, name, id, _) =>
      && Mask(id) < INODE_NUM && parent != Mask(id)
      && GetInode(w.fs.disk, Mask(id)).kind != 0 && BlockCount(GetInode(w.fs.disk, Mask(id)).size) <= NDIRECT
      && (var t := DirectoryOps.Erase(Data(w.cache, parent), name);
          && t.Some?
          && (RemoveFile(w.fs, Mask(id)).Some? ==> WriteFits(RemoveFile(w.fs, Mask(id)).value, parent, t.value)))
  }

  lemma PutKeepsCoherent(w: World, c: Cid, id: nat, buf: Text, env: Env, attrs: set<nat>)
    requires CoherentBut(w, {}, attrs) && WriteFits(w.fs, Mask(id), buf)
    ensures var r := DoPut(w, c, id, buf, env);
            && r.Some? && r.value.peers.Keys == w.peers.Keys && CoherentBut(r.value, {}, attrs - {Mask(id)})
            && ReadFile(r.value.fs, Mask(id)) == Some(if Mask(id) < INODE_NUM then buf else [])
  {
    hide Store, Register, Inv, CoherentBut, WriteFits, ReadFile, WriteFile;
    var m := Mask(id);
    assert Mask(m) == m;
    StoreKeeps(w, m, buf, env, {}, attrs);
    var w1 := Store(w, m, buf, env).value;
    assert Inv(w.fs) by { InvOf(w, {}, attrs); }
    WriteTouches(w.fs, m, buf, env);
    Weaken(w1, {} - {m}, attrs - {m}, {}, attrs - {m});
    RegisterKeeps(w1, c, m, {}, attrs - {m});
    RegisterPeers(w1, c, m);
    RegisterFs(w1, c, m);
  }

  lemma RegisterFs(w: World, c: Cid, id: nat)
    ensures Register(w, c, id).fs == w.fs
  {}

  lemma CreateKeepsCoherent(w: World, c: Cid, kind: Word, parent: nat, name: Text, env: Env, attrs: set<nat>)
    requires CoherentBut(w, {}, attrs) && CallFits(w, Call.Create(kind, parent, name, env))
    ensures var r := DoCreate(w, c, kind, parent, name, env);
            r.Some? && r.value.peers.Keys == w.peers.Keys && CoherentBut(r.value, {}, attrs - {Mask(parent)})
  {
    hide Publish, AllocInode, Inv, CoherentBut, WriteFits, DirectoryOps.Append;
    assert Inv(w.fs) by { InvOf(w, {}, attrs); }
    AllocTouches(w.fs, kind);
    var (fs, id) := AllocInode(w.fs, kind).value;
    FsMoves(w, fs, {id}, {}, attrs);
    assert {} + {id} == {id};
    PublishKeeps(w.(fs := fs), c, parent, name, id, env, attrs);
  }

  lemma SymLinkKeepsCoherent(w: World, c: Cid, parent: nat, name: Text, link: Text, env: Env, env2: Env, attrs: set<nat>)
    requires CoherentBut(w, {}, attrs) && CallFits(w, SymLink(parent, name, link, env, env2))
    ensures var r := DoSymLink(w, c, parent, name, link, env, env2);
            r.Some? && r.value.peers.Keys == w.peers.Keys && CoherentBut(r.value, {}, attrs - {Mask(parent)})
  {
    hide Publish, AllocInode, WriteFile, Inv, CoherentBut, WriteFits, DirectoryOps.Append;
    assert Inv(w.fs) by { InvOf(w, {}, attrs); }
    AllocTouches(w.fs, T_SYMLINK);
    var (fs, id) := AllocInode(w.fs, T_SYMLINK).value;
    FsMoves(w, fs, {id}, {}, attrs);
    WriteTouches(fs, id, link, env);
    var fs1 := WriteFile(fs, id, link, env.junk, env.now).value;
    FsMoves(w.(fs := fs), fs1, {id}, {} + {id}, attrs + {id});
    assert {} + {id} + {id} == {id} && attrs + {id} + {id} == attrs + {id};
    PublishKeeps(w.(fs := fs1), c, parent, name, id, env2, attrs);
  }

  /** Dropping the cached entries of a removed extent mends it: a free inode reads as empty. */
  lemma ForgetFixes(w: World, id: nat, attrs: set<nat>)
    requires CoherentBut(w, {id}, attrs + {id}) && ReadFile(w.fs, id) == Some([]) && AttrOf(w.fs, id) == NO_ATTR
    ensures var v := BroadcastRemove(w.(cache := Forgot(w.cache, id)), id);
            v.peers.Keys == w.peers.Keys && CoherentBut(v, {}, attrs)
  {
    hide ReadFile, AttrOf, Inv;
    var v := BroadcastRemove(w.(cache := Forgot(w.cache, id)), id);
    forall i: nat ensures DataAgrees(v, i) { assert i != id ==> DataAgrees(w, i); }
    forall i: nat | i !in attrs ensures AttrAgrees(v, i) { assert i != id ==> AttrAgrees(w, i); }
    forall c: Cid, i: nat ensures PeerAgrees(v, c, i) { assert PeerAgrees(w, c, i); }
  }

  lemma RemoveKeepsCoherent(w: World, c: Cid, parent: nat, name: Text, id: nat, env: Env, attrs: set<nat>)
    requires CoherentBut(w, {}, attrs) && CallFits(w, Call.Remove(parent, name, id, env))
    ensures var r := DoRemove(w, c, parent, name, id, env);
            r.Some? && r.value.peers.Keys == w.peers.Keys && CoherentBut(r.value, {}, attrs - {Mask(parent), Mask(id)})
  {
    hide Store, Register, BroadcastRemove, Forgot, Inv, CoherentBut, WriteFits, DirectoryOps.Erase, Data, RemoveFile, WriteFile, ReadFile, AttrOf;
    var m, p := Mask(id), Mask(parent);
    var less := attrs - {p, m};
    assert Inv(w.fs) by { InvOf(w, {}, attrs); }
    RemoveTouches(w.fs, m);
    var fs := RemoveFile(w.fs, m).value;
    var buf := DirectoryOps.Erase(Data(w.cache, parent), name).value;
    FsMoves(w, fs, {m}, {}, attrs);
    var v := w.(fs := fs);
    StoreKeeps(v, parent, buf, env, {} + {m}, attrs + {m});
    WriteTouches(fs, parent, buf, env);
    var w1 := Store(v, parent, buf, env).value;
    Weaken(w1, {} + {m} - {p}, attrs + {m} - {p}, {m}, less + {m});
    ForgetFixes(w1, m, less);
    var w2 := BroadcastRemove(w1.(cache := Forgot(w1.cache, m)), m);
    RegisterKeeps(w2, c, m, {}, less);
    RegisterPeers(w2, c, m);
  }

  lemma GetKeepsCoherent(w: World, c: Cid, id: nat, attrs: set<nat>)
    requires CoherentBut(w, {}, attrs) && c in w.peers
    ensures DoGet(w, c, id).peers.Keys == w.peers.Keys && CoherentBut(DoGet(w, c, id), {}, attrs)
    ensures Some(DoGet(w, c, id).peers[c].data[id]) == ReadFile(w.fs, id)
  {
    hide ReadFile, AttrOf, Inv;
    var v := DoGet(w, c, id);
    assert PeerAgrees(w, c, id) && DataAgrees(w, id);
    forall i: nat ensures DataAgrees(v, i) { assert DataAgrees(w, i); }
    forall i: nat | i !in attrs ensures AttrAgrees(v, i) { assert AttrAgrees(w, i); }
    forall d: Cid, i: nat ensures PeerAgrees(v, d, i) { assert PeerAgrees(w, d, i); }
  }

  lemma GetAttrKeepsCoherent(w: World, c: Cid, id: nat, attrs: set<nat>)
    requires CoherentBut(w, {}, attrs) && c in w.peers
    ensures DoGetAttr(w, c, id).peers.Keys == w.peers.Keys && CoherentBut(DoGetAttr(w, c, id), {}, attrs)
    ensures id !in attrs ==> DoGetAttr(w, c, id).peers[c].attr[id] == AttrOf(w.fs, id)
  {
    hide ReadFile, AttrOf, Inv;
    var v := DoGetAttr(w, c, id);
    assert PeerAgrees(w, c, id) && (id !in attrs ==> AttrAgrees(w, id));
    forall i: nat ensures DataAgrees(v, i) { assert DataAgrees(w, i); }
    forall i: nat | i !in attrs ensures AttrAgrees(v, i) { assert AttrAgrees(w, i); }
    forall d: Cid, i: nat ensures PeerAgrees(v, d, i) { assert PeerAgrees(w, d, i); }
  }

  /** The extents whose cached attributes a call refreshes, the new one of a create apart. */
  function Mended(call: Call): set<nat> {
    match call
    case Get(_) => {}
    case GetAttr(_) => {}
    case Put(id, _, _) => {Mask(id)}
    case Create(_, parent, _, _) => {Mask(parent)}
    case SymLink(parent, _, _, _, _) => {Mask(parent)}
    case Remove(parent, _, id, _) => {Mask(parent), Mask(id)}
  }

  lemma CallKeeps(w: World, c: Cid, call: Call, attrs: set<nat>)
    requires CoherentBut(w, {}, attrs) && c in w.peers && CallFits(w, call)
    ensures Do(w, c, call).Some? && Do(w, c, call).value.peers.Keys == w.peers.Keys
    ensures CoherentBut(Do(w, c, call).value, {}, attrs - Mended(call))
  {
    hide CoherentBut, DoCreate, DoSymLink, DoPut, DoGet, DoGetAttr, DoRemove;
    assert attrs - {} == attrs;
    if call.Create? { CreateKeepsCoherent(w, c, call.kind, call.parent, call.name, call.env, attrs); }
    else if call.SymLink? { SymLinkKeepsCoherent(w, c, call.parent, call.name, call.link, call.env, call.env2, attrs); }
    else if call.Put? { PutKeepsCoherent(w, c, call.id, call.buf, call.env, attrs); }
    else if call.Get? { GetKeepsCoherent(w, c, call.id, attrs); }
    else if call.GetAttr? { GetAttrKeepsCoherent(w, c, call.id, attrs); }
    else { RemoveKeepsCoherent(w, c, call.parent, call.name, call.id, call.env, attrs); }
  }

  // -------------------------------------------------------------------------- whole runs

  /** A new server over a formatted disk with its root directory, and clients with empty caches. */
  function Boot(superblock: Block, clients: set<Cid>): Option<World> {
    match AllocInode(Format(superblock), T_DIR)
    case None => None
    case Some(r) => Some(World(r.0, Cache(map[], map[]), map[], map c | c in clients :: Cache(map[], map[])))
  }

  lemma BootCoherent(superblock: Block, clients: set<Cid>)
    ensures var r := Boot(superblock, clients);
            r.Some? && r.value.peers.Keys == clients && CoherentBut(r.value, {}, {ROOT})
  {
    hide ReadFile, Inv, FilesOf, GetInode, AllocInode, Format;
    var fs := Format(superblock);
    FormatInv(superblock);
    FormatInodes(superblock, 1);
    assert FreeInum(fs.disk, 1) == 1 by { FreeInumTurn(fs.disk, 1); }
    AllocInodeRefines(fs, T_DIR);
    AllocTouches(fs, T_DIR);
    var w := Boot(superblock, clients).value;
    forall id: nat ensures DataAgrees(w, id) && (id != ROOT ==> AttrAgrees(w, id)) {
      ReadInRange(w.fs, id);
      if id >= INODE_NUM { ReadOutOfRange(fs, w.fs, id); } else { FormatInodes(superblock, id); }
      assert id != ROOT ==> AttrOf(w.fs, id) == AttrOf(fs, id);
    }
    forall c: Cid, id: nat ensures PeerAgrees(w, c, id) {}
  }

  datatype Event = Event(client: Cid, call: Call)

  function RunCalls(w: World, es: seq<Event>): Option<World>
    decreases |es|
  {
    if es == [] then Some(w)
    else if es[0].client !in w.peers || Do(w, es[0].client, es[0].call).None? then None
    else RunCalls(Do(w, es[0].client, es[0].call).value, es[1..])
  }

  ghost predicate CallsFit(w: World, es: seq<Event>)
    decreases |es|
  {
    es == [] || (
      && es[0].client in w.peers && CallFits(w, es[0].call)
      && (Do(w, es[0].client, es[0].call).Some? ==> CallsFit(Do(w, es[0].client, es[0].call).value, es[1..])))
  }

  function MendedBy(es: seq<Event>): set<nat> {
    if es == [] then {} else Mended(es[0].call) + MendedBy(es[1..])
  }

  lemma {:induction false} RunKeeps(w: World, es: seq<Event>, attrs: set<nat>)
    requires CoherentBut(w, {}, attrs) && CallsFit(w, es)
    ensures var r := RunCalls(w, es);
            r.Some? && r.value.peers.Keys == w.peers.Keys && CoherentBut(r.value, {}, attrs - MendedBy(es))
    decreases |es|
  {
    hide CoherentBut, CallFits, Do, Mended;
    if es == [] {
      assert attrs - {} == attrs;
    } else {
      CallKeeps(w, es[0].client, es[0].call, attrs);
      RunKeeps(Do(w, es[0].client, es[0].call).value, es[1..], attrs - Mended(es[0].call));
      assert attrs - Mended(es[0].call) - MendedBy(es[1..]) == attrs - MendedBy(es);
    }
  }

  // ------------------------------------------------------------ the attributes of the root

  /** The root is in use but its attributes were never cached. */
  predicate Unrooted(w: World) { AttrIn(w.cache, ROOT) == NO_ATTR && AttrOf(w.fs, ROOT).kind != 0 }

  lemma UpdateUnrooted(w: World, id: nat)
    requires Unrooted(w) && Mask(id) != ROOT && UpdateCache(w, id).Some?
    ensures Unrooted(UpdateCache(w, id).value)
  {
    hide ReadFile;
  }

  lemma StoreUnrooted(w: World, id: nat, buf: Text, env: Env)
    requires Unrooted(w) && Mask(id) != ROOT && Inv(w.fs) && WriteFits(w.fs, id, buf) && Store(w, id, buf, env).Some?
    ensures Unrooted(Store(w, id, buf, env).value)
  {
    hide WriteFile, UpdateCache, Inv, WriteFits, AttrOf, ReadFile;
    WriteTouches(w.fs, id, buf, env);
    var fs := WriteFile(w.fs, id, buf, env.junk, env.now).value;
    assert id != ROOT;
    assert AttrOf(fs, ROOT) == AttrOf(w.fs, ROOT);
    UpdateUnrooted(w.(fs := fs), id);
  }

  lemma PublishUnrooted(w: World, c: Cid, parent: nat, name: Text, id: nat, env: Env)
    requires Unrooted(w) && Mask(parent) != ROOT && id != ROOT && id < INODE_NUM && Inv(w.fs)
    requires WriteFits(w.fs, parent, DirectoryOps.Append(Data(w.cache, parent), name, id))
    requires Publish(w, c, parent, name, id, env).Some?
    ensures Unrooted(Publish(w, c, parent, name, id, env).value)
  {
    hide Store, UpdateCache, Inv, WriteFits, DirectoryOps.Append, AttrOf;
    var buf := DirectoryOps.Append(Data(w.cache, parent), name, id);
    StoreUnrooted(w, parent, buf, env);
    UpdateUnrooted(Store(w, parent, buf, env).value, id);
  }

  /** A fresh inode is not the root while that is in use. */
  lemma AllocUnrooted(w: World, kind: Word)
    requires Unrooted(w) && Inv(w.fs) && FreeInum(w.fs.disk, 1) < INODE_NUM
    ensures AllocInode(w.fs, kind).Some? && AllocInode(w.fs, kind).value.1 != ROOT
    ensures Unrooted(w.(fs := AllocInode(w.fs, kind).value.0))
  {
    hide Inv, PutInode, ReadFile;
    AllocTouches(w.fs, kind);
    var r := AllocInode(w.fs, kind).value;
    assert r.1 != ROOT;
    assert AttrOf(r.0, ROOT) == AttrOf(w.fs, ROOT);
  }

  lemma RemoveUnrooted(w: World, c: Cid, parent: nat, name: Text, id: nat, env: Env)
    requires Unrooted(w) && Inv(w.fs) && Mask(parent) != ROOT && Mask(id) != ROOT
    requires CallFits(w, Call.Remove(parent, name, id, env)) && DoRemove(w, c, parent, name, id, env).Some?
    ensures Unrooted(DoRemove(w, c, parent, name, id, env).value)
  {
    hide Store, Inv, RemoveFile, WriteFits, DirectoryOps.Erase, AttrOf, ReadFile;
    RemoveTouches(w.fs, Mask(id));
    var fs := RemoveFile(w.fs, Mask(id)).value;
    assert AttrOf(fs, ROOT) == AttrOf(w.fs, ROOT);
    StoreUnrooted(w.(fs := fs), parent, DirectoryOps.Erase(Data(w.cache, parent), name).value, env);
  }

  lemma SymLinkUnrooted(w: World, c: Cid, parent: nat, name: Text, link: Text, env: Env, env2: Env)
    requires Unrooted(w) && Inv(w.fs) && Mask(parent) != ROOT
    requires CallFits(w, SymLink(parent, name, link, env, env2)) && DoSymLink(w, c, parent, name, link, env, env2).Some?
    ensures Unrooted(DoSymLink(w, c, parent, name, link, env, env2).value)
  {
    hide Publish, Inv, AllocInode, WriteFile, WriteFits, AttrOf, ReadFile, DirectoryOps.Append;
    AllocUnrooted(w, T_SYMLINK);
    AllocTouches(w.fs, T_SYMLINK);
    var r := AllocInode(w.fs, T_SYMLINK).value;
    WriteTouches(r.0, r.1, link, env);
    var fs := WriteFile(r.0, r.1, link, env.junk, env.now).value;
    assert AttrOf(fs, ROOT) == AttrOf(r.0, ROOT);
    PublishUnrooted(w.(fs := fs), c, parent, name, r.1, env2);
  }

  /** Only a call that refreshes the root's attributes gets them into the cache. */
  lemma CallUnrooted(w: World, c: Cid, call: Call)
    requires Unrooted(w) && Inv(w.fs) && c in w.peers && CallFits(w, call) && ROOT !in Mended(call) && Do(w, c, call).Some?
    ensures Unrooted(Do(w, c, call).value)
  {
    hide Store, Publish, Inv, AllocInode, WriteFits, AttrOf, DoRemove, DoSymLink;
    if call.Create? {
      AllocUnrooted(w, call.kind);
      AllocTouches(w.fs, call.kind);
      var r := AllocInode(w.fs, call.kind).value;
      PublishUnrooted(w.(fs := r.0), c, call.parent, call.name, r.1, call.env);
    } else if call.SymLink? {
      SymLinkUnrooted(w, c, call.parent, call.name, call.link, call.env, call.env2);
    } else if call.Put? {
      assert Mask(Mask(call.id)) == Mask(call.id);
      StoreUnrooted(w, Mask(call.id), call.buf, call.env);
    } else if call.Remove? {
      RemoveUnrooted(w, c, call.parent, call.name, call.id, call.env);
    }
  }

  lemma {:induction false} RunUnrooted(w: World, es: seq<Event>, attrs: set<nat>)
    requires CoherentBut(w, {}, attrs) && CallsFit(w, es) && Unrooted(w) && ROOT !in MendedBy(es)
    ensures RunCalls(w, es).Some? && Unrooted(RunCalls(w, es).value)
    decreases |es|
  {
    hide CoherentBut, CallFits, Do, Mended, Unrooted, Inv;
    if es != [] {
      InvOf(w, {}, attrs);
      CallKeeps(w, es[0].client, es[0].call, attrs);
      CallUnrooted(w, es[0].client, es[0].call);
      RunUnrooted(Do(w, es[0].client, es[0].call).value, es[1..], attrs - Mended(es[0].call));
    }
  }

  lemma BootUnrooted(superblock: Block, clients: set<Cid>)
    ensures Boot(superblock, clients).Some? && Unrooted(Boot(superblock, clients).value)
  {
    hide Inv, FilesOf, GetInode, Format, PutInode;
    FormatInv(superblock);
    FormatInodes(superblock, 1);
    var fs := Format(superblock);
    FreeInumTurn(fs.disk, 1);
    PutGet(fs.disk, 1, Inode(T_DIR, 0, 0, 0, 0, GetInode(fs.disk, 1).blocks), 1);
  }

  // ---------------------------------------- clients and server agree, whatever the disk does

  /** Every client-cached entry is registered at the server and equals the server's. */
  ghost predicate PeersAgree(w: World) { forall c: Cid, id: nat {:trigger PeerAgrees(w, c, id)} :: PeerAgrees(w, c, id) }

  lemma UpdatePeers(w: World, id: nat)
    requires PeersAgree(w) && UpdateCache(w, id).Some?
    ensures PeersAgree(UpdateCache(w, id).value) && UpdateCache(w, id).value.peers.Keys == w.peers.Keys
  {
    hide ReadFile, AttrOf, Mask;
    var r := UpdateCache(w, id).value;
    forall c: Cid, i: nat ensures PeerAgrees(r, c, i) { assert PeerAgrees(w, c, i); }
  }

  /** The disk is no part of the agreement. */
  lemma DiskPeers(w: World, fs: Fs)
    requires PeersAgree(w)
    ensures PeersAgree(w.(fs := fs))
  {
    forall c: Cid, i: nat ensures PeerAgrees(w.(fs := fs), c, i) { assert PeerAgrees(w, c, i); }
  }

  lemma RegisterPeersAgree(w: World, c: Cid, id: nat)
    requires PeersAgree(w)
    ensures PeersAgree(Register(w, c, id))
  {
    forall d: Cid, i: nat ensures PeerAgrees(Register(w, c, id), d, i) { assert PeerAgrees(w, d, i); }
  }

  lemma StorePeers(w: World, id: nat, buf: Text, env: Env)
    requires PeersAgree(w) && Store(w, id, buf, env).Some?
    ensures PeersAgree(Store(w, id, buf, env).value) && Store(w, id, buf, env).value.peers.Keys == w.peers.Keys
  {
    hide WriteFile, UpdateCache, PeersAgree;
    var fs := WriteFile(w.fs, id, buf, env.junk, env.now).value;
    DiskPeers(w, fs);
    UpdatePeers(w.(fs := fs), id);
  }

  lemma PublishPeers(w: World, c: Cid, parent: nat, name: Text, id: nat, env: Env)
    requires PeersAgree(w) && Publish(w, c, parent, name, id, env).Some?
    ensures PeersAgree(Publish(w, c, parent, name, id, env).value) && Publish(w, c, parent, name, id, env).value.peers.Keys == w.peers.Keys
  {
    hide Store, UpdateCache, PeersAgree, DirectoryOps.Append, Register;
    var buf := DirectoryOps.Append(Data(w.cache, parent), name, id);
    StorePeers(w, parent, buf, env);
    var w1 := Store(w, parent, buf, env).value;
    UpdatePeers(w1, id);
    RegisterPeersAgree(UpdateCache(w1, id).value, c, id);
    RegisterPeers(UpdateCache(w1, id).value, c, id);
  }

  lemma ForgetPeers(w: World, id: nat)
    requires PeersAgree(w)
    ensures var v := BroadcastRemove(w.(cache := Forgot(w.cache, id)), id); PeersAgree(v) && v.peers.Keys == w.peers.Keys
  {
    var v := BroadcastRemove(w.(cache := Forgot(w.cache, id)), id);
    forall c: Cid, i: nat ensures PeerAgrees(v, c, i) { assert PeerAgrees(w, c, i); }
  }

  lemma RemovePeers(w: World, c: Cid, parent: nat, name: Text, id: nat, env: Env)
    requires PeersAgree(w) && DoRemove(w, c, parent, name, id, env).Some?
    ensures PeersAgree(DoRemove(w, c, parent, name, id, env).value)
    ensures DoRemove(w, c, parent, name, id, env).value.peers.Keys == w.peers.Keys
  {
    hide Store, PeersAgree, RemoveFile, DirectoryOps.Erase, Register, BroadcastRemove, Forgot, Mask;
    var fs := RemoveFile(w.fs, Mask(id)).value;
    DiskPeers(w, fs);
    var text := DirectoryOps.Erase(Data(w.cache, parent), name).value;
    StorePeers(w.(fs := fs), parent, text, env);
    var w1 := Store(w.(fs := fs), parent, text, env).value;
    ForgetPeers(w1, Mask(id));
    var w2 := BroadcastRemove(w1.(cache := Forgot(w1.cache, Mask(id))), Mask(id));
    RegisterPeersAgree(w2, c, Mask(id));
    RegisterPeers(w2, c, Mask(id));
  }

  lemma ReadPeers(w: World, c: Cid, id: nat)
    requires PeersAgree(w) && c in w.peers
    ensures PeersAgree(DoGet(w, c, id)) && DoGet(w, c, id).peers.Keys == w.peers.Keys
    ensures PeersAgree(DoGetAttr(w, c, id)) && DoGetAttr(w, c, id).peers.Keys == w.peers.Keys
    ensures DoGet(w, c, id).peers[c].data[id] == Data(w.cache, id) && DoGetAttr(w, c, id).peers[c].attr[id] == AttrIn(w.cache, id)
  {
    assert PeerAgrees(w, c, id);
    forall d: Cid, i: nat ensures PeerAgrees(DoGet(w, c, id), d, i) && PeerAgrees(DoGetAttr(w, c, id), d, i) { assert PeerAgrees(w, d, i); }
  }

  /** Every call that survives keeps the clients and the server in agreement: on a full disk, after the
      removal of a large file, with any ids. */
  lemma CallPeers(w: World, c: Cid, call: Call)
    requires PeersAgree(w) && c in w.peers && Do(w, c, call).Some?
    ensures PeersAgree(Do(w, c, call).value) && Do(w, c, call).value.peers.Keys == w.peers.Keys
  {
    hide Store, Publish, PeersAgree, AllocInode, WriteFile, DoRemove, DoGet, DoGetAttr, Register;
    if call.Create? {
      var r := AllocInode(w.fs, call.kind).value;
      DiskPeers(w, r.0);
      PublishPeers(w.(fs := r.0), c, call.parent, call.name, r.1, call.env);
    } else if call.SymLink? {
      var r := AllocInode(w.fs, T_SYMLINK).value;
      var fs := WriteFile(r.0, r.1, call.link, call.env.junk, call.env.now).value;
      DiskPeers(w, fs);
      PublishPeers(w.(fs := fs), c, call.parent, call.name, r.1, call.env2);
    } else if call.Put? {
      StorePeers(w, Mask(call.id), call.buf, call.env);
      RegisterPeersAgree(Store(w, Mask(call.id), call.buf, call.env).value, c, Mask(call.id));
      RegisterPeers(Store(w, Mask(call.id), call.buf, call.env).value, c, Mask(call.id));
    } else if call.Remove? {
      RemovePeers(w, c, call.parent, call.name, call.id, call.env);
    } else {
      ReadPeers(w, c, call.id);
    }
  }

  lemma {:induction false} RunPeers(w: World, es: seq<Event>)
    requires PeersAgree(w) && RunCalls(w, es).Some?
    ensures PeersAgree(RunCalls(w, es).value) && RunCalls(w, es).value.peers.Keys == w.peers.Keys
    decreases |es|
  {
    hide PeersAgree, Do;
    if es != [] {
      CallPeers(w, es[0].client, es[0].call);
      RunPeers(Do(w, es[0].client, es[0].call).value, es[1..]);
    }
  }

  /** After every run that survives, with no condition on the calls, what a client has cached is
      registered and is the server's, so every client gets exactly what the server has cached. */
  lemma ClientsSeeTheServer(superblock: Block, clients: set<Cid>, es: seq<Event>, c: Cid, id: nat)
    requires Boot(superblock, clients).Some? && RunCalls(Boot(superblock, clients).value, es).Some? && c in clients
    ensures var r := RunCalls(Boot(superblock, clients).value, es).value;
            && c in r.peers && PeerAgrees(r, c, id)
            && DoGet(r, c, id).peers[c].data[id] == Data(r.cache, id)
            && DoGetAttr(r, c, id).peers[c].attr[id] == AttrIn(r.cache, id)
  {
    hide Boot, RunCalls, DoGet, DoGetAttr;
    BootCoherent(superblock, clients);
    var w := Boot(superblock, clients).value;
    forall d: Cid, i: nat ensures PeerAgrees(w, d, i) {}
    RunPeers(w, es);
    ReadPeers(RunCalls(w, es).value, c, id);
  }

  // ------------------------------------------------- when the server's text stays that of the disk

  /** The server has the bytes of every file. */
  ghost predicate TextRight(w: World) { forall id: nat {:trigger DataAgrees(w, id)} :: DataAgrees(w, id) }

  /** The extents whose text a call reads back from the disk. */
  function Refreshed(w: World, call: Call): set<nat> {
    match call
    case Get(_) => {}
    case GetAttr(_) => {}
    case Put(id, _, _) => {Mask(id)}
    case Create(_, parent, _, _) => {Mask(parent), FreeInum(w.fs.disk, 1)}
    case SymLink(parent, _, _, _, _) => {Mask(parent), FreeInum(w.fs.disk, 1)}
    case Remove(parent, _, id, _) => {Mask(parent)} - {Mask(id)}
  }

  lemma UpdateData(w: World, id: nat, i: nat)
    requires UpdateCache(w, id).Some?
    ensures var v := UpdateCache(w, id).value;
            && v.fs == w.fs && (i == Mask(id) ==> DataAgrees(v, i)) && (i != Mask(id) ==> Data(v.cache, i) == Data(w.cache, i))
  {
    hide ReadFile, AttrOf, Mask;
  }

  lemma StoreData(w: World, id: nat, buf: Text, env: Env, i: nat)
    requires Store(w, id, buf, env).Some?
    ensures var v := Store(w, id, buf, env).value;
            (i == Mask(id) ==> DataAgrees(v, i)) && (i != Mask(id) ==> Data(v.cache, i) == Data(w.cache, i))
  {
    hide WriteFile, UpdateCache, ReadFile;
    UpdateData(w.(fs := WriteFile(w.fs, id, buf, env.junk, env.now).value), id, i);
  }

  lemma PublishData(w: World, c: Cid, parent: nat, name: Text, id: nat, env: Env, i: nat)
    requires Publish(w, c, parent, name, id, env).Some? && id < INODE_NUM
    ensures var v := Publish(w, c, parent, name, id, env).value;
            && (i in {Mask(parent), id} ==> DataAgrees(v, i))
            && (i !in {Mask(parent), id} ==> Data(v.cache, i) == Data(w.cache, i))
  {
    hide Store, UpdateCache, ReadFile, DirectoryOps.Append;
    var buf := DirectoryOps.Append(Data(w.cache, parent), name, id);
    StoreData(w, parent, buf, env, i);
    assert Mask(id) == id;
    var w1 := Store(w, parent, buf, env).value;
    UpdateData(w1, id, i);
    var w2 := UpdateCache(w1, id).value;
    assert i == Mask(parent) && i != id ==> DataAgrees(w2, i);
  }

  lemma RemoveData(w: World, c: Cid, parent: nat, name: Text, id: nat, env: Env, i: nat)
    requires DoRemove(w, c, parent, name, id, env).Some?
    ensures var v := DoRemove(w, c, parent, name, id, env).value;
            && (i == Mask(parent) && i != Mask(id) ==> DataAgrees(v, i))
            && (i == Mask(id) ==> Data(v.cache, i) == [])
            && (i != Mask(parent) && i != Mask(id) ==> Data(v.cache, i) == Data(w.cache, i))
  {
    hide Store, RemoveFile, ReadFile, DirectoryOps.Erase;
    var fs := RemoveFile(w.fs, Mask(id)).value;
    StoreData(w.(fs := fs), parent, DirectoryOps.Erase(Data(w.cache, parent), name).value, env, i);
  }

  lemma CallData(w: World, c: Cid, call: Call, i: nat)
    requires c in w.peers && Do(w, c, call).Some?
    ensures var v := Do(w, c, call).value;
            && (i in Refreshed(w, call) ==> DataAgrees(v, i))
            && (i !in Refreshed(w, call) ==> Data(v.cache, i) == if call.Remove? && i == Mask(call.id) then [] else Data(w.cache, i))
  {
    hide Store, Publish, DoRemove, WriteFile, ReadFile, GetInode, PutInode, FreeInum;
    if call.Create? {
      var r := AllocInode(w.fs, call.kind).value;
      PublishData(w.(fs := r.0), c, call.parent, call.name, r.1, call.env, i);
    } else if call.SymLink? {
      var r := AllocInode(w.fs, T_SYMLINK).value;
      var fs := WriteFile(r.0, r.1, call.link, call.env.junk, call.env.now).value;
      PublishData(w.(fs := fs), c, call.parent, call.name, r.1, call.env2, i);
    } else if call.Put? {
      assert Mask(Mask(call.id)) == Mask(call.id);
      StoreData(w, Mask(call.id), call.buf, call.env, i);
    } else if call.Remove? {
      RemoveData(w, c, call.parent, call.name, call.id, call.env, i);
    }
  }

  /** The call changes no file it does not read back, a removed file being empty. */
  ghost predicate Tidy(w: World, c: Cid, call: Call)
    requires c in w.peers && Do(w, c, call).Some?
  {
    forall i: nat :: i !in Refreshed(w, call) ==>
      ReadFile(Do(w, c, call).value.fs, i) == if call.Remove? && i == Mask(call.id) then Some([]) else ReadFile(w.fs, i)
  }

  /** A call that survives keeps the server's text that of the disk if and only if it is tidy. */
  lemma TextStaysRightExactly(w: World, c: Cid, call: Call)
    requires TextRight(w) && c in w.peers && Do(w, c, call).Some?
    ensures TextRight(Do(w, c, call).value) <==> Tidy(w, c, call)
  {
    hide Do, ReadFile, Refreshed, Data;
    var v := Do(w, c, call).value;
    forall i: nat ensures DataAgrees(v, i) <==> (i !in Refreshed(w, call) ==>
      ReadFile(v.fs, i) == if call.Remove? && i == Mask(call.id) then Some([]) else ReadFile(w.fs, i))
    {
      CallData(w, c, call, i);
      assert DataAgrees(w, i);
    }
    if TextRight(v) {
      forall i: nat | i !in Refreshed(w, call)
        ensures ReadFile(v.fs, i) == if call.Remove? && i == Mask(call.id) then Some([]) else ReadFile(w.fs, i)
      {
        assert DataAgrees(v, i);
      }
    }
  }

  /** What a get of client c returns. */
  function Got(w: World, c: Cid, id: nat): Text
    requires c in w.peers
  {
    DoGet(w, c, id).peers[c].data[id]
  }

  /** A get of any client returns what is in the file. */
  ghost predicate GetsRight(w: World) {
    forall c: Cid, id: nat :: c in w.peers ==> Some(Got(w, c, id)) == ReadFile(w.fs, id)
  }

  lemma GetsAreText(w: World)
    requires PeersAgree(w) && w.peers.Keys != {}
    ensures GetsRight(w) <==> TextRight(w)
  {
    hide ReadFile, Data, Got;
    forall c: Cid, id: nat | c in w.peers ensures Got(w, c, id) == Data(w.cache, id) { GotIs(w, c, id); }
    if GetsRight(w) {
      var c :| c in w.peers.Keys;
      forall id: nat ensures DataAgrees(w, id) { assert Some(Got(w, c, id)) == ReadFile(w.fs, id); }
    }
    if TextRight(w) {
      forall c: Cid, id: nat | c in w.peers ensures Some(Got(w, c, id)) == ReadFile(w.fs, id) { assert DataAgrees(w, id); }
    }
  }

  lemma GotIs(w: World, c: Cid, id: nat)
    requires PeersAgree(w) && c in w.peers
    ensures Got(w, c, id) == Data(w.cache, id)
  {
    ReadPeers(w, c, id);
  }

  ghost predicate AlwaysRight(w: World, es: seq<Event>)
    requires RunCalls(w, es).Some?
    decreases |es|
  {
    GetsRight(w) && (es == [] || AlwaysRight(Do(w, es[0].client, es[0].call).value, es[1..]))
  }

  ghost predicate AllTidy(w: World, es: seq<Event>)
    requires RunCalls(w, es).Some?
    decreases |es|
  {
    es == [] || (Tidy(w, es[0].client, es[0].call) && AllTidy(Do(w, es[0].client, es[0].call).value, es[1..]))
  }

  lemma {:induction false} RunRightExactly(w: World, es: seq<Event>)
    requires RunCalls(w, es).Some? && PeersAgree(w) && w.peers.Keys != {} && TextRight(w)
    ensures AlwaysRight(w, es) <==> AllTidy(w, es)
    decreases |es|
  {
    hide Do, Tidy, GetsRight, TextRight, PeersAgree;
    GetsAreText(w);
    if es != [] {
      var v := Do(w, es[0].client, es[0].call).value;
      CallPeers(w, es[0].client, es[0].call);
      TextStaysRightExactly(w, es[0].client, es[0].call);
      if TextRight(v) { RunRightExactly(v, es[1..]); } else { GetsAreText(v); }
    }
  }

  /** For every run that survives: all along it every client's get returns what is in the file, if and
      only if no call of the run changed a file that it does not read back into the caches. */
  lemma GetsAreRightExactly(superblock: Block, clients: set<Cid>, es: seq<Event>)
    requires Boot(superblock, clients).Some? && RunCalls(Boot(superblock, clients).value, es).Some? && clients != {}
    ensures var w := Boot(superblock, clients).value; AlwaysRight(w, es) <==> AllTidy(w, es)
  {
    hide Boot, RunCalls, AlwaysRight, AllTidy, CoherentBut;
    BootCoherent(superblock, clients);
    var w := Boot(superblock, clients).value;
    forall id: nat ensures DataAgrees(w, id) { Agreed(w, {ROOT}, id); }
    Agreed(w, {ROOT}, 0);
    RunRightExactly(w, es);
  }

  // ------------------------------------------------------------------------ the results

  /** After every fitting run any client's get returns exactly what is in the file, whatever was cached
      where, and its getattr exactly the inode's attributes; for the root the latter holds if and
      only if some call of the run refreshed them: a put of the root, or a create, symlink or remove in it. */
  lemma CachesAreCoherent(superblock: Block, clients: set<Cid>, es: seq<Event>, c: Cid, id: nat)
    requires Boot(superblock, clients).Some? && CallsFit(Boot(superblock, clients).value, es) && c in clients
    ensures var r := RunCalls(Boot(superblock, clients).value, es);
            && r.Some? && c in r.value.peers
            && Some(DoGet(r.value, c, id).peers[c].data[id]) == ReadFile(r.value.fs, id)
            && (DoGetAttr(r.value, c, id).peers[c].attr[id] == AttrOf(r.value.fs, id) <==> id != ROOT || ROOT in MendedBy(es))
  {
    hide CoherentBut, ReadFile, AttrOf, RunCalls, Boot, CallsFit, MendedBy, Unrooted;
    BootCoherent(superblock, clients);
    var w := Boot(superblock, clients).value;
    RunKeeps(w, es, {ROOT});
    var r := RunCalls(w, es).value;
    GetKeepsCoherent(r, c, id, {ROOT} - MendedBy(es));
    GetAttrKeepsCoherent(r, c, id, {ROOT} - MendedBy(es));
    if ROOT !in MendedBy(es) {
      BootUnrooted(superblock, clients);
      RunUnrooted(w, es, {ROOT});
      StaleRoot(r, c, {ROOT} - MendedBy(es));
    }
  }

  lemma StaleRoot(w: World, c: Cid, attrs: set<nat>)
    requires CoherentBut(w, {}, attrs) && Unrooted(w) && c in w.peers
    ensures DoGetAttr(w, c, ROOT).peers[c].attr[ROOT] != AttrOf(w.fs, ROOT)
  {
    hide Inv;
    assert PeerAgrees(w, c, ROOT);
  }

  /** A new server has nothing cached for the root, which is a directory. */
  lemma RootAttrStale(superblock: Block, c: Cid)
    ensures var r := Boot(superblock, {c});
            r.Some? && c in r.value.peers && DoGetAttr(r.value, c, ROOT).peers[c].attr[ROOT] != AttrOf(r.value.fs, ROOT)
  {
    hide Boot, DoGetAttr, AttrOf;
    BootCoherent(superblock, {c});
    CachesAreCoherent(superblock, {c}, [], c, ROOT);
  }

  /** Text is read back from any inode, in use or not, when the blocks are owned. */
  lemma PutReads(fs: Fs, id: nat, buf: Text, env: Env)
    requires Inv(fs) && id < INODE_NUM && |buf| < MAXSIZE && Room(fs, id, |buf|)
    ensures var r := WriteFile(fs, id, buf, env.junk, env.now); r.Some? && ReadFile(r.value, id) == Some(buf)
  {
    hide Inv, WriteFile, GetInode, ReadFrom, NodesOf, Own, Room;
    WriteFileRefines(fs, id, buf, env.junk, env.now);
    OwnedReads(WriteFile(fs, id, buf, env.junk, env.now).value, id);
  }

  lemma OwnedReads(fs: Fs, id: nat)
    requires Own(fs.disk, fs.used, NodesOf(fs.disk)) && id < INODE_NUM
    ensures ReadFile(fs, id) == Some(FilesOf(fs.disk)[id].bytes)
  {
    assert SoundAt(NodesOf(fs.disk), id);
  }

  /** What one client puts every client gets, if and only if the id is that of an inode or nothing
      was put: from 2^31 on put masks the id and get does not. */
  lemma PutThenGet(w: World, c: Cid, d: Cid, id: nat, buf: Text, env: Env, attrs: set<nat>)
    requires CoherentBut(w, {}, attrs) && c in w.peers && d in w.peers
    requires |buf| < MAXSIZE && (Mask(id) < INODE_NUM ==> Room(w.fs, Mask(id), |buf|))
    ensures DoPut(w, c, id, buf, env).Some? && d in DoPut(w, c, id, buf, env).value.peers
    ensures DoGet(DoPut(w, c, id, buf, env).value, d, id).peers[d].data[id] == buf <==> id < INODE_NUM || buf == []
  {
    hide CoherentBut, ReadFile, WriteFile, DoGet, Inv, Room, Data;
    var m, call := Mask(id), Put(id, buf, env);
    InvOf(w, {}, attrs);
    if m < INODE_NUM { PutReads(w.fs, m, buf, env); } else { WriteOutOfRange(w.fs, m, buf, env); ReadOutOfRange(w.fs, w.fs, m); }
    assert Mask(m) == m;
    var w1 := DoPut(w, c, id, buf, env).value;
    Agreed(w, attrs, id);
    CallPeers(w, c, call);
    CallData(w, c, call, id);
    ReadPeers(w1, d, id);
    if id >= INODE_NUM { ReadOutOfRange(w1.fs, w.fs, id); }
  }

  lemma Agreed(w: World, attrs: set<nat>, id: nat)
    requires CoherentBut(w, {}, attrs)
    ensures PeersAgree(w) && DataAgrees(w, id)
  {
    hide Inv, ReadFile;
  }
}

/** What getattr tells: the type and the length of the file, and the clock of the call that wrote it
    last, in every fitting run and from every client's cache. */
module ExtentAttrs {
  import opened Bytes
  import opened Options
  import opened Blocks
  import opened Inodes
  import Ownership
  import opened InodeFiles
  import opened InodeRuns
  import opened Extents
  import DirectoryOps

  // ---------------------------------------------------------------- sizes are lengths

  lemma {:induction false} ReadLength(d: Disk, p: Ptrs, size: nat, i: nat)
    requires size <= MAXSIZE && i <= BlockCount(size)
    ensures |ReadFrom(d, p, size, i)| == if i == BlockCount(size) then 0 else size - i * BLOCK_SIZE
    decreases BlockCount(size) - i
  {
    hide Nth, ReadBlock;
    if i < BlockCount(size) && (i + 1) * BLOCK_SIZE <= size { ReadLength(d, p, size, i + 1); }
  }

  /** The size an inode has is the number of bytes its file reads as. */
  lemma SizeIsLength(fs: Fs, id: nat)
    requires Inv(fs) && id < INODE_NUM
    ensures var f := FilesOf(fs.disk)[id];
            GetInode(fs.disk, id).size == |f.bytes| && GetInode(fs.disk, id).kind == f.kind
  {
    hide GetInode, ReadFrom;
    var ino := GetInode(fs.disk, id);
    assert NodesOf(fs.disk)[id] == NodeOf(ino);
    assert Ownership.SoundAt(NodesOf(fs.disk), id);
    CountParts(ino.size);
    ReadLength(fs.disk, ino.blocks, ino.size, 0);
  }

  // -------------------------------------------------------------------------- clocks

  /** For every inode the clock of the last write to it, 0 for one not written since it was made. */
  type Stamps = s: seq<Word> | |s| == INODE_NUM witness Repeat(0, INODE_NUM)

  function At(st: Stamps, i: nat, now: Word): Stamps { if i < INODE_NUM then st[i := now] else st }

  /** What a call does to them: a put stamps its extent; a create, symlink or remove stamps the parent,
      after the inode that is new or removed. */
  function Stamped(w: World, st: Stamps, call: Call): Stamps {
    match call
    case Get(_) => st
    case GetAttr(_) => st
    case Put(id, _, env) => At(st, Mask(id), env.now)
    case Create(_, parent, _, env) => At(At(st, FreeInum(w.fs.disk, 1), 0), parent, env.now)
    case SymLink(parent, _, _, env, env2) => At(At(st, FreeInum(w.fs.disk, 1), env.now), parent, env2.now)
    case Remove(parent, _, id, env) => At(At(st, Mask(id), 0), parent, env.now)
  }

  predicate TimesAt(fs: Fs, st: Stamps, i: nat) {
    i < INODE_NUM ==> var ino := GetInode(fs.disk, i); ino.atime == ino.mtime == ino.ctime == st[i]
  }

  ghost predicate Times(fs: Fs, st: Stamps) { forall i: nat {:trigger TimesAt(fs, st, i)} :: TimesAt(fs, st, i) }

  lemma WriteTimes(fs: Fs, st: Stamps, id: nat, buf: Text, env: Env)
    requires Inv(fs) && Times(fs, st) && WriteFits(fs, id, buf)
    ensures var r := WriteFile(fs, id, buf, env.junk, env.now); r.Some? && Times(r.value, At(st, id, env.now))
  {
    hide GetInode, Inv, WriteFile, Written, NodesOf, Ownership.Own, ReadFrom, BlocksKept, Room;
    if id < INODE_NUM {
      var _, _ := WriteStages(fs, id, buf, env.junk, env.now);
      var e := WriteFile(fs, id, buf, env.junk, env.now).value;
      forall i: nat ensures TimesAt(e, At(st, id, env.now), i) { assert TimesAt(fs, st, i); }
    } else {
      WriteOutOfRange(fs, id, buf, env);
    }
  }

  lemma PutTimes(fs: Fs, fs1: Fs, st: Stamps, id: nat, ino: Inode)
    requires id < INODE_NUM && fs1.disk == PutInode(fs.disk, id, ino) && ino.atime == ino.mtime == ino.ctime == 0 && Times(fs, st)
    ensures Times(fs1, At(st, id, 0))
  {
    hide GetInode, PutInode;
    forall i: nat ensures TimesAt(fs1, At(st, id, 0), i) {
      assert TimesAt(fs, st, i);
      if i < INODE_NUM { PutGet(fs.disk, id, ino, i); }
    }
  }

  lemma AllocTimes(fs: Fs, st: Stamps, kind: Word)
    requires Times(fs, st) && FreeInum(fs.disk, 1) < INODE_NUM
    ensures Times(AllocInode(fs, kind).value.0, At(st, FreeInum(fs.disk, 1), 0))
  {
    hide GetInode, PutInode, FreeInum;
    var i := FreeInum(fs.disk, 1);
    PutTimes(fs, AllocInode(fs, kind).value.0, st, i, Inode(kind, 0, 0, 0, 0, GetInode(fs.disk, i).blocks));
  }

  lemma RemoveTimes(fs: Fs, st: Stamps, id: nat)
    requires Times(fs, st) && RemoveFile(fs, id).Some?
    ensures id < INODE_NUM && Times(RemoveFile(fs, id).value, At(st, id, 0))
  {
    hide GetInode, PutInode, Freed;
    PutTimes(fs, RemoveFile(fs, id).value, st, id, Inode(0, 0, 0, 0, 0, GetInode(fs.disk, id).blocks));
  }

  lemma StoreFs(w: World, id: nat, buf: Text, env: Env)
    requires Store(w, id, buf, env).Some?
    ensures Some(Store(w, id, buf, env).value.fs) == WriteFile(w.fs, id, buf, env.junk, env.now)
  {
    hide WriteFile, ReadFile;
  }

  lemma PublishFs(w: World, c: Cid, parent: nat, name: Text, id: nat, env: Env)
    requires Publish(w, c, parent, name, id, env).Some?
    ensures Some(Publish(w, c, parent, name, id, env).value.fs)
         == WriteFile(w.fs, parent, DirectoryOps.Append(Data(w.cache, parent), name, id), env.junk, env.now)
  {
    hide Store, WriteFile, ReadFile, DirectoryOps.Append;
    StoreFs(w, parent, DirectoryOps.Append(Data(w.cache, parent), name, id), env);
  }

  lemma CallStamps(w: World, c: Cid, call: Call, st: Stamps, attrs: set<nat>)
    requires CoherentBut(w, {}, attrs) && c in w.peers && CallFits(w, call) && Times(w.fs, st)
    ensures Do(w, c, call).Some? && Times(Do(w, c, call).value.fs, Stamped(w, st, call))
  {
    hide CoherentBut, Inv, Store, Publish, WriteFile, AllocInode, RemoveFile, FreeInum, WriteFits, Data, DirectoryOps.Append, DirectoryOps.Erase, Times, GetInode, At;
    InvOf(w, {}, attrs);
    CallKeeps(w, c, call, attrs);
    if call.Put? {
      WriteTimes(w.fs, st, Mask(call.id), call.buf, call.env);
      StoreFs(w, Mask(call.id), call.buf, call.env);
    } else if call.Create? {
      AllocTouches(w.fs, call.kind);
      AllocTimes(w.fs, st, call.kind);
      AllocNumber(w.fs, call.kind);
      var r := AllocInode(w.fs, call.kind).value;
      WriteTimes(r.0, At(st, r.1, 0), call.parent, DirectoryOps.Append(Data(w.cache, call.parent), call.name, r.1), call.env);
      PublishFs(w.(fs := r.0), c, call.parent, call.name, r.1, call.env);
    } else if call.SymLink? {
      SymLinkStamps(w, c, call, st);
    } else if call.Remove? {
      RemoveTimes(w.fs, st, Mask(call.id));
      RemoveTouches(w.fs, Mask(call.id));
      var fs, text := RemoveFile(w.fs, Mask(call.id)).value, DirectoryOps.Erase(Data(w.cache, call.parent), call.name).value;
      WriteTimes(fs, At(st, Mask(call.id), 0), call.parent, text, call.env);
      StoreFs(w.(fs := fs), call.parent, text, call.env);
    }
  }

  lemma AllocNumber(fs: Fs, kind: Word)
    requires AllocInode(fs, kind).Some?
    ensures AllocInode(fs, kind).value.1 == FreeInum(fs.disk, 1)
  {
    hide FreeInum, GetInode, PutInode;
  }

  lemma SymLinkStamps(w: World, c: Cid, call: Call, st: Stamps)
    requires Inv(w.fs) && c in w.peers && call.SymLink? && CallFits(w, call) && Times(w.fs, st) && Do(w, c, call).Some?
    ensures Times(Do(w, c, call).value.fs, Stamped(w, st, call))
  {
    hide Inv, Store, Publish, WriteFile, AllocInode, FreeInum, WriteFits, Data, DirectoryOps.Append, Times, GetInode;
    AllocTouches(w.fs, T_SYMLINK);
    AllocTimes(w.fs, st, T_SYMLINK);
    AllocNumber(w.fs, T_SYMLINK);
    var r := AllocInode(w.fs, T_SYMLINK).value;
    WriteTimes(r.0, At(st, r.1, 0), r.1, call.link, call.env);
    WriteTouches(r.0, r.1, call.link, call.env);
    assert At(At(st, r.1, 0), r.1, call.env.now) == At(st, r.1, call.env.now);
    var fs := WriteFile(r.0, r.1, call.link, call.env.junk, call.env.now).value;
    WriteTimes(fs, At(st, r.1, call.env.now), call.parent, DirectoryOps.Append(Data(w.cache, call.parent), call.name, r.1), call.env2);
    PublishFs(w.(fs := fs), c, call.parent, call.name, r.1, call.env2);
  }

  // ---------------------------------------------------------------------- what getattr tells

  /** What a getattr of client c returns. */
  function GotAttr(w: World, c: Cid, id: nat): Attr
    requires c in w.peers
  {
    DoGetAttr(w, c, id).peers[c].attr[id]
  }

  /** The attributes of a file f last written at now. */
  function Tells(f: File, now: Word): Attr
    requires |f.bytes| <= MAXSIZE
  {
    Attr(f.kind, now, now, now, |f.bytes|)
  }

  lemma AttrTells(w: World, c: Cid, id: nat, st: Stamps, attrs: set<nat>)
    requires CoherentBut(w, {}, attrs) && c in w.peers && Times(w.fs, st) && id !in attrs
    ensures id < INODE_NUM ==> |FilesOf(w.fs.disk)[id].bytes| <= MAXSIZE && GotAttr(w, c, id) == Tells(FilesOf(w.fs.disk)[id], st[id])
    ensures id >= INODE_NUM ==> GotAttr(w, c, id) == NO_ATTR
  {
    hide CoherentBut, Inv, GetInode, FilesOf, DoGetAttr;
    InvOf(w, {}, attrs);
    GetAttrKeepsCoherent(w, c, id, attrs);
    if id < INODE_NUM {
      SizeIsLength(w.fs, id);
      SizeBound(w.fs, id);
      assert TimesAt(w.fs, st, id);
    }
  }

  lemma SizeBound(fs: Fs, id: nat)
    requires Inv(fs) && id < INODE_NUM
    ensures GetInode(fs.disk, id).size <= MAXSIZE
  {
    hide GetInode;
    assert NodesOf(fs.disk)[id] == NodeOf(GetInode(fs.disk, id));
    assert Ownership.SoundAt(NodesOf(fs.disk), id);
    CountParts(GetInode(fs.disk, id).size);
  }

  /** The clocks at the end of a run. */
  function StampedBy(w: World, st: Stamps, es: seq<Event>): Stamps
    requires RunCalls(w, es).Some?
    decreases |es|
  {
    if es == [] then st
    else StampedBy(Do(w, es[0].client, es[0].call).value, Stamped(w, st, es[0].call), es[1..])
  }

  lemma {:induction false} RunStamps(w: World, es: seq<Event>, st: Stamps, attrs: set<nat>)
    requires CoherentBut(w, {}, attrs) && CallsFit(w, es) && Times(w.fs, st)
    ensures RunCalls(w, es).Some? && Times(RunCalls(w, es).value.fs, StampedBy(w, st, es))
    decreases |es|
  {
    hide CoherentBut, CallFits, Do, Mended, Times, Stamped;
    if es != [] {
      CallKeeps(w, es[0].client, es[0].call, attrs);
      CallStamps(w, es[0].client, es[0].call, st, attrs);
      RunStamps(Do(w, es[0].client, es[0].call).value, es[1..], Stamped(w, st, es[0].call), attrs - Mended(es[0].call));
    }
  }

  lemma BootTimes(superblock: Block, clients: set<Cid>)
    requires Boot(superblock, clients).Some?
    ensures Times(Boot(superblock, clients).value.fs, Repeat(0, INODE_NUM))
  {
    hide GetInode, PutInode, Format, FreeInum, AllocInode;
    var fs := Format(superblock);
    var st: Stamps := Repeat(0, INODE_NUM);
    forall i: nat ensures TimesAt(fs, st, i) { if i < INODE_NUM { FormatInodes(superblock, i); } }
    FormatInodes(superblock, 1);
    FreeInumTurn(fs.disk, 1);
    AllocTimes(fs, st, T_DIR);
    assert At(st, 1, 0) == st;
  }

  /** After every fitting run from a new server a getattr of any client tells the type of the file, its
      length, and three times the clock of the last call that wrote it, unless the extent is the root and
      no call has refreshed it. */
  lemma GetAttrTells(superblock: Block, clients: set<Cid>, es: seq<Event>, c: Cid, id: nat)
    requires Boot(superblock, clients).Some? && CallsFit(Boot(superblock, clients).value, es) && c in clients
    requires id != ROOT || ROOT in MendedBy(es)
    ensures var w := Boot(superblock, clients).value;
            var r := RunCalls(w, es);
            && r.Some? && c in r.value.peers
            && (id < INODE_NUM ==>
                  var f, now := FilesOf(r.value.fs.disk)[id], StampedBy(w, Repeat(0, INODE_NUM), es)[id];
                  |f.bytes| <= MAXSIZE && GotAttr(r.value, c, id) == Attr(f.kind, now, now, now, |f.bytes|))
            && (id >= INODE_NUM ==> GotAttr(r.value, c, id) == NO_ATTR)
  {
    hide CoherentBut, RunCalls, Boot, CallsFit, MendedBy, StampedBy, FilesOf, GotAttr, Times;
    BootCoherent(superblock, clients);
    BootTimes(superblock, clients);
    var w := Boot(superblock, clients).value;
    RunKeeps(w, es, {ROOT});
    RunStamps(w, es, Repeat(0, INODE_NUM), {ROOT});
    AttrTells(RunCalls(w, es).value, c, id, StampedBy(w, Repeat(0, INODE_NUM), es), {ROOT} - MendedBy(es));
  }

  /** After a put of text into an inode every client's getattr tells its length and the clock of the put. */
  lemma PutThenGetAttr(w: World, c: Cid, d: Cid, id: nat, buf: Text, env: Env, st: Stamps, attrs: set<nat>)
    requires CoherentBut(w, {}, attrs) && c in w.peers && d in w.peers && Times(w.fs, st)
    requires id < INODE_NUM && WriteFits(w.fs, id, buf)
    ensures DoPut(w, c, id, buf, env).Some? && d in DoPut(w, c, id, buf, env).value.peers
    ensures GotAttr(DoPut(w, c, id, buf, env).value, d, id) == Attr(FilesOf(w.fs.disk)[id].kind, env.now, env.now, env.now, |buf|)
  {
    hide CoherentBut, DoPut, FilesOf, GotAttr, Times, WriteFits;
    var call := Put(id, buf, env);
    assert Mask(id) == id;
    CallKeeps(w, c, call, attrs);
    CallStamps(w, c, call, st, attrs);
    var v := DoPut(w, c, id, buf, env).value;
    AttrTells(v, d, id, Stamped(w, st, call), attrs - Mended(call));
    PutFile(w, c, id, buf, env, attrs);
  }

  lemma PutFile(w: World, c: Cid, id: nat, buf: Text, env: Env, attrs: set<nat>)
    requires CoherentBut(w, {}, attrs) && id < INODE_NUM && WriteFits(w.fs, id, buf) && DoPut(w, c, id, buf, env).Some?
    ensures FilesOf(DoPut(w, c, id, buf, env).value.fs.disk)[id] == File(FilesOf(w.fs.disk)[id].kind, buf)
  {
    hide CoherentBut, Inv, WriteFile, Store, FilesOf, GetInode, Room;
    InvOf(w, {}, attrs);
    WriteFileRefines(w.fs, id, buf, env.junk, env.now);
    StoreFs(w, id, buf, env);
    SizeIsLength(w.fs, id);
    assert Mask(id) == id;
  }
}

/** Runs from a new server in which a promise of the file system is broken: a second client that
    mounts, and a get that returns what is no longer in the file. */
module FileSystemFailures {
  import opened Bytes
  import opened Options
  import opened Blocks
  import opened Inodes
  import opened Ownership
  import opened InodeFiles
  import InodeRuns
  import opened Extents
  import opened InodeFailures
  import opened FileSystem
  import opened Directory
  import D = DirectoryOps
  import T = FileTree
  import F = FileForest

  // ------------------------------------------------------- a directory that fits in one block

  /** The root has at most the first block, and no other block is in use. */
  predicate Rooted(fs: Fs) {
    var ino := GetInode(fs.disk, ROOT);
    && ino.kind == T_DIR && ino.blocks[NDIRECT] == 0 && ino.size <= BLOCK_SIZE
    && (ino.size == 0 ==> fs.used == SystemBlocks(FILEBLOCK))
    && (ino.size != 0 ==> fs.used == SystemBlocks(FILEBLOCK + 1) && ino.blocks[0] == FILEBLOCK)
  }

  lemma ReadShort(fs: Fs, inum: nat)
    requires inum < INODE_NUM && 0 < GetInode(fs.disk, inum).size <= BLOCK_SIZE && GetInode(fs.disk, inum).blocks[0] == FILEBLOCK
    ensures ReadFile(fs, inum) == Some(fs.disk[FILEBLOCK][..GetInode(fs.disk, inum).size])
  {
    hide GetInode, Words;
    var ino := GetInode(fs.disk, inum);
    assert BlockCount(ino.size) == 1 && ReadFrom(fs.disk, ino.blocks, ino.size, 1) == [];
    var b := ReadBlock(fs.disk, Nth(fs.disk, ino.blocks, 0));
    assert b + [] == b == b[..BLOCK_SIZE];
  }

  lemma ReadEmpty(fs: Fs, inum: nat)
    requires inum < INODE_NUM && GetInode(fs.disk, inum).size == 0
    ensures ReadFile(fs, inum) == Some([])
  {
    hide GetInode;
  }

  /** A write over the one block of the root. */
  lemma WriteOver(fs: Fs, text: Text, junk: Block, now: Word) returns (e: Fs)
    requires Rooted(fs) && GetInode(fs.disk, ROOT).size != 0 && 0 < |text| <= BLOCK_SIZE
    ensures WriteFile(fs, ROOT, text, junk, now) == Some(e) && e.used == fs.used && e.disk[FILEBLOCK] == Chunk(text, 0, junk)
    ensures GetInode(e.disk, ROOT) == Inode(T_DIR, |text|, now, now, now, GetInode(fs.disk, ROOT).blocks)
    ensures forall j: nat :: j < INODE_NUM && j != ROOT ==> GetInode(e.disk, j) == GetInode(fs.disk, j)
  {
    hide SystemBlocks, GetInode, PutInode, Words, Chunk, WriteFrom;
    var ino := GetInode(fs.disk, ROOT);
    assert BlockCount(ino.size) == BlockCount(|text|) == 1;
    var d := WriteFrom(fs.disk, ino.blocks, text, junk, 0);
    var ino1 := Inode(T_DIR, |text|, now, now, now, ino.blocks);
    e := Fs(PutInode(d, ROOT, ino1), fs.used);
    FirstBlock(fs.disk, ino.blocks, text, junk, ROOT, ino1);
    PutGet(d, ROOT, ino1, ROOT);
    forall j: nat | j < INODE_NUM && j != ROOT ensures GetInode(e.disk, j) == GetInode(fs.disk, j) {
      PutGet(d, ROOT, ino1, j);
      TableAvoided(fs.disk, ino.blocks, text, junk, j);
    }
  }

  lemma RootWrite(fs: Fs, text: Text, junk: Block, now: Word) returns (e: Fs)
    requires Rooted(fs) && 0 < |text| <= BLOCK_SIZE
    ensures WriteFile(fs, ROOT, text, junk, now) == Some(e) && Rooted(e) && e.used == SystemBlocks(FILEBLOCK + 1)
    ensures GetInode(e.disk, ROOT).size == |text| && ReadFile(e, ROOT) == Some(text)
    ensures forall j: nat :: j < INODE_NUM && j != ROOT ==> GetInode(e.disk, j) == GetInode(fs.disk, j)
  {
    hide SystemBlocks, GetInode, WriteFile, ReadFile, Front;
    assert BlockCount(|text|) == 1;
    if GetInode(fs.disk, ROOT).size == 0 {
      e := WriteFront(fs, ROOT, text, junk, now, FILEBLOCK);
    } else {
      e := WriteOver(fs, text, junk, now);
    }
    ReadShort(e, ROOT);
    assert Chunk(text, 0, junk)[..|text|] == text;
  }

  // ---------------------------------------------------------------------- steps of a run

  ghost predicate Ready(w: World) { Rooted(w.fs) && |Data(w.cache, ROOT)| == GetInode(w.fs.disk, ROOT).size }

  lemma StoreStep(w: World, id: nat, buf: Text, env: Env, e: Fs, d: Text) returns (v: World)
    requires id < INODE_NUM && WriteFile(w.fs, id, buf, env.junk, env.now) == Some(e) && ReadFile(e, id) == Some(d)
    ensures Store(w, id, buf, env) == Some(v) && v.fs == e && v.peers.Keys == w.peers.Keys
    ensures forall j: nat :: Data(v.cache, j) == if j == id then d else Data(w.cache, j)
  {
    hide WriteFile, ReadFile;
    v := UpdateCache(w.(fs := e), id).value;
  }

  lemma PutStep(w: World, c: Cid, id: nat, buf: Text, env: Env, e: Fs, d: Text) returns (v: World)
    requires c in w.peers && id < INODE_NUM
    requires WriteFile(w.fs, id, buf, env.junk, env.now) == Some(e) && ReadFile(e, id) == Some(d)
    ensures Do(w, c, Put(id, buf, env)) == Some(v) && v.fs == e && v.peers.Keys == w.peers.Keys
    ensures forall j: nat :: Data(v.cache, j) == if j == id then d else Data(w.cache, j)
  {
    hide WriteFile, ReadFile, Store;
    assert Mask(id) == id;
    var w1 := StoreStep(w, id, buf, env, e, d);
    v := Register(w1, c, id);
  }

  /** A create in the root while its text fits in one block. */
  lemma CreateStep(w: World, c: Cid, name: Text, n: nat, env: Env) returns (v: World)
    requires c in w.peers && Ready(w) && 2 <= n < 10 && |Data(w.cache, ROOT)| + |name| + 3 <= BLOCK_SIZE
    requires GetInode(w.fs.disk, n).kind == 0 && forall i: nat :: 1 <= i < n ==> GetInode(w.fs.disk, i).kind != 0
    ensures Do(w, c, Call.Create(T_FILE, ROOT, name, env)) == Some(v) && v.peers.Keys == w.peers.Keys
    ensures Ready(v) && v.fs.used == SystemBlocks(FILEBLOCK + 1)
    ensures Data(v.cache, ROOT) == D.Append(Data(w.cache, ROOT), name, n) && |Data(v.cache, ROOT)| == |Data(w.cache, ROOT)| + |name| + 3
    ensures GetInode(v.fs.disk, n) == BLANK.(kind := T_FILE, blocks := GetInode(w.fs.disk, n).blocks)
    ensures forall i: nat :: 1 < i < INODE_NUM && i != n ==> GetInode(v.fs.disk, i) == GetInode(w.fs.disk, i)
  {
    hide SystemBlocks, GetInode, PutInode, FreeInum, WriteFile, ReadFile, Store, UpdateCache, Data;
    FoundAt(w.fs.disk, n, 1);
    var f := CreateAt(w.fs, n);
    var text := D.Append(Data(w.cache, ROOT), name, n);
    assert |Digits(n)| == 1;
    var e := RootWrite(f, text, env.junk, env.now);
    var w1 := StoreStep(w.(fs := f), ROOT, text, env, e, text);
    ReadEmpty(e, n);
    var w2 := Refresh(w1, n, []);
    v := Register(w2, c, n);
  }

  lemma Refresh(w: World, id: nat, d: Text) returns (v: World)
    requires id < INODE_NUM && ReadFile(w.fs, id) == Some(d)
    ensures UpdateCache(w, id) == Some(v) && v.fs == w.fs && v.peers.Keys == w.peers.Keys
    ensures forall j: nat :: Data(v.cache, j) == if j == id then d else Data(w.cache, j)
  {
    hide ReadFile;
    v := UpdateCache(w, id).value;
  }

  /** The erased text of a root that starts with the name's entry and goes on. */
  lemma EraseFirst(s: Text, name: Text, rest: Text) returns (t: Text)
    requires s == name + [COLON] + [ZERO + 2] + [SLASH] + rest && rest != []
    ensures D.Erase(s, name) == Some(t) && 0 < |t| < |s|
  {
    assert MatchAt(s, name, 0);
    assert FindText(s, name, 0) == 0;
    assert s[|name| + 2] == SLASH;
    t := D.Erase(s, name).value;
  }

  lemma RemoveStep(w: World, c: Cid, name: Text, id: nat, env: Env, r: Fs, t: Text) returns (v: World)
    requires c in w.peers && 1 < id < INODE_NUM && RemoveFile(w.fs, id) == Some(r) && Rooted(r)
    requires D.Erase(Data(w.cache, ROOT), name) == Some(t) && 0 < |t| <= BLOCK_SIZE
    ensures Do(w, c, Call.Remove(ROOT, name, id, env)) == Some(v) && v.peers.Keys == w.peers.Keys
    ensures Ready(v) && v.fs.used == SystemBlocks(FILEBLOCK + 1) && Data(v.cache, ROOT) == t
    ensures forall i: nat :: 1 < i < INODE_NUM ==> GetInode(v.fs.disk, i) == GetInode(r.disk, i)
  {
    hide SystemBlocks, GetInode, RemoveFile, WriteFile, ReadFile, Store, D.Erase;
    var e := RootWrite(r, t, env.junk, env.now);
    assert Mask(id) == id;
    var w1 := StoreStep(w.(fs := r), ROOT, t, env, e, t);
    var w2 := BroadcastRemove(w1.(cache := Forgot(w1.cache, id)), id);
    v := Register(w2, c, id);
  }

  lemma First(w: World, c: Cid, call: Call, v: World, es: seq<Event>)
    requires c in w.peers && Do(w, c, call) == Some(v)
    ensures RunCalls(w, [Event(c, call)] + es) == RunCalls(v, es)
  {
    hide Do;
    assert ([Event(c, call)] + es)[1..] == es;
  }

  // ------------------------------------------------------------------------- a stale get

  /** Make three files, fill the first one over the direct blocks, remove it and make it again. */
  function Trap(c: Cid, x: Text, y: Text, z: Text, a: Text, env: Env): seq<Event> {
    [Event(c, Call.Create(T_FILE, ROOT, x, env))] + ([Event(c, Call.Create(T_FILE, ROOT, y, env))] +
    ([Event(c, Call.Create(T_FILE, ROOT, z, env))] + ([Event(c, Put(2, a, env))] +
    ([Event(c, Call.Remove(ROOT, x, 2, env))] + ([Event(c, Call.Create(T_FILE, ROOT, x, env))] + [])))))
  }

  /** Fill the second file, put one block into the third, and write the first again. */
  function Spring(c: Cid, a: Text, b: Text, env: Env): seq<Event> {
    [Event(c, Put(3, b, env))] + ([Event(c, Put(4, ZEROES, env))] + ([Event(c, Put(2, a, env))] + []))
  }

  /** The three files made, and the first one filled. */
  lemma Filling(w: World, c: Cid, x: Text, y: Text, z: Text, a: Text, env: Env)
    returns (w1: World, w2: World, w3: World, w4: World, ind: nat, data: nat)
    requires c in w.peers && Ready(w) && Data(w.cache, ROOT) == [] && |x| + |y| + |z| + 9 <= BLOCK_SIZE
    requires BlockCount(|a|) == NDIRECT + 1 && forall i: nat :: 1 < i < INODE_NUM ==> GetInode(w.fs.disk, i) == BLANK
    ensures Do(w, c, Call.Create(T_FILE, ROOT, x, env)) == Some(w1) && c in w1.peers
    ensures Do(w1, c, Call.Create(T_FILE, ROOT, y, env)) == Some(w2) && c in w2.peers
    ensures Do(w2, c, Call.Create(T_FILE, ROOT, z, env)) == Some(w3) && c in w3.peers
    ensures Do(w3, c, Put(2, a, env)) == Some(w4) && c in w4.peers && w4.peers.Keys == w.peers.Keys
    ensures GetInode(w4.fs.disk, 2).kind == T_FILE && GetInode(w4.fs.disk, 2).size == |a| && w4.fs.used == SystemBlocks(data + 1)
    ensures Behind(BLANK.blocks, FILEBLOCK + 1, GetInode(w4.fs.disk, 2).blocks, ind, data)
    ensures w4.fs.disk[ind] == Unwords(Words(w3.fs.disk[ind])[0 := data])
    ensures GetInode(w4.fs.disk, 3) == GetInode(w4.fs.disk, 4) == BLANK.(kind := T_FILE)
    ensures GetInode(w4.fs.disk, ROOT) == GetInode(w3.fs.disk, ROOT) && Ready(w3) && Data(w4.cache, ROOT) == Data(w3.cache, ROOT)
    ensures w3.fs.used == SystemBlocks(FILEBLOCK + 1) && GetInode(w3.fs.disk, ROOT).size != 0
    ensures Data(w3.cache, ROOT) == D.Append(D.Append(D.Append([], x, 2), y, 3), z, 4) && |Data(w3.cache, ROOT)| == |x| + |y| + |z| + 9
  {
    hide SystemBlocks, GetInode, WriteFile, ReadFile, Do, Data, Words, Unwords, D.Append;
    w1 := CreateStep(w, c, x, 2, env);
    w2 := CreateStep(w1, c, y, 3, env);
    w3 := CreateStep(w2, c, z, 4, env);
    var e, i, dt := LargeWrite(w3.fs, 2, a, env.junk, env.now, FILEBLOCK + 1);
    ind, data := i, dt;
    ReadSome(e, 2);
    w4 := PutStep(w3, c, 2, a, env, e, ReadFile(e, 2).value);
  }

  lemma ReadSome(fs: Fs, inum: nat)
    requires inum < INODE_NUM && GetInode(fs.disk, inum).size <= MAXSIZE
    requires GetInode(fs.disk, inum).blocks[NDIRECT] != 0 || BlockCount(GetInode(fs.disk, inum).size) <= NDIRECT
    ensures ReadFile(fs, inum).Some?
  {
    hide GetInode;
  }

  /** The first file is removed and made again: its inode has kept the pointer. */
  lemma Trapped(w: World, c: Cid, x: Text, y: Text, z: Text, a: Text, env: Env) returns (v: World)
    requires c in w.peers && Ready(w) && Data(w.cache, ROOT) == [] && |x| + |y| + |z| + 9 <= BLOCK_SIZE
    requires BlockCount(|a|) == NDIRECT + 1 && forall i: nat :: 1 < i < INODE_NUM ==> GetInode(w.fs.disk, i) == BLANK
    requires 2 * |x| + |y| + |z| + 12 <= BLOCK_SIZE
    ensures RunCalls(w, Trap(c, x, y, z, a, env)) == Some(v) && c in v.peers && v.peers.Keys == w.peers.Keys
    ensures v.fs.used == SystemBlocks(FILEBLOCK + 1)
    ensures GetInode(v.fs.disk, 2).size == 0 && GetInode(v.fs.disk, 2).blocks[NDIRECT] == FILEBLOCK + 1 + NDIRECT
    ensures GetInode(v.fs.disk, 3) == GetInode(v.fs.disk, 4) == BLANK.(kind := T_FILE)
  {
    hide SystemBlocks, GetInode, RemoveFile, Do, Data, Words, Unwords, RunCalls, D.Append;
    var w1, w2, w3, w4, ind, data := Filling(w, c, x, y, z, a, env);
    var r := LargeRemoved(w3.fs, w4.fs, 2, BLANK.blocks, FILEBLOCK + 1, ind, data);
    Texts(x, y, z);
    var t := EraseFirst(Data(w4.cache, ROOT), x, y + [COLON] + [ZERO + 3] + [SLASH] + (z + [COLON] + [ZERO + 4] + [SLASH]));
    var w5 := RemoveStep(w4, c, x, 2, env, r, t);
    v := CreateStep(w5, c, x, 2, env);
    RunEnd(v);
    First(w5, c, Call.Create(T_FILE, ROOT, x, env), v, []);
    var e5 := [Event(c, Call.Create(T_FILE, ROOT, x, env))] + [];
    First(w4, c, Call.Remove(ROOT, x, 2, env), w5, e5);
    var e4 := [Event(c, Call.Remove(ROOT, x, 2, env))] + e5;
    First(w3, c, Put(2, a, env), w4, e4);
    var e3 := [Event(c, Put(2, a, env))] + e4;
    First(w2, c, Call.Create(T_FILE, ROOT, z, env), w3, e3);
    var e2 := [Event(c, Call.Create(T_FILE, ROOT, z, env))] + e3;
    First(w1, c, Call.Create(T_FILE, ROOT, y, env), w2, e2);
    First(w, c, Call.Create(T_FILE, ROOT, x, env), w1, [Event(c, Call.Create(T_FILE, ROOT, y, env))] + e2);
  }

  lemma RunEnd(w: World)
    ensures RunCalls(w, []) == Some(w)
  {}

  lemma Texts(x: Text, y: Text, z: Text)
    ensures D.Append(D.Append(D.Append([], x, 2), y, 3), z, 4)
         == x + [COLON] + [ZERO + 2] + [SLASH] + (y + [COLON] + [ZERO + 3] + [SLASH] + (z + [COLON] + [ZERO + 4] + [SLASH]))
  {}

  /** The put of the first file goes through its old pointer into the block that is now the third's. */
  lemma Sprung(w: World, c: Cid, a: Text, b: Text, env: Env) returns (v: World)
    requires c in w.peers && BlockCount(|a|) == NDIRECT + 1 && BlockCount(|b|) == NDIRECT
    requires w.fs.used == SystemBlocks(FILEBLOCK + 1)
    requires GetInode(w.fs.disk, 2).size == 0 && GetInode(w.fs.disk, 2).blocks[NDIRECT] == FILEBLOCK + 1 + NDIRECT
    requires GetInode(w.fs.disk, 3) == GetInode(w.fs.disk, 4) == BLANK.(kind := T_FILE)
    ensures RunCalls(w, Spring(c, a, b, env)) == Some(v)
    ensures Data(v.cache, 4) == ZEROES && ReadFile(v.fs, 4).Some? && ReadFile(v.fs, 4).value != ZEROES
  {
    hide SystemBlocks, GetInode, WriteFile, ReadFile, Do, Data, Words, Unwords, RunCalls, Front;
    var at: nat := FILEBLOCK + 1 + NDIRECT;
    var f1 := WriteFront(w.fs, 3, b, env.junk, env.now, FILEBLOCK + 1);
    ReadSome(f1, 3);
    var w1 := PutStep(w, c, 3, b, env, f1, ReadFile(f1, 3).value);
    var f2 := WriteFront(f1, 4, ZEROES, env.junk, env.now, at);
    ReadOne(f2, 4);
    assert BlockCount(|ZEROES|) == 1 && Chunk(ZEROES, 0, env.junk) == ZEROES;
    var w2 := PutStep(w1, c, 4, ZEROES, env, f2, ZEROES);
    var f3, ind, word := LargeWrite(f2, 2, a, env.junk, env.now, at + 1);
    ReadSome(f3, 2);
    v := PutStep(w2, c, 2, a, env, f3, ReadFile(f3, 2).value);
    ReadOne(f3, 4);
    PointerIsNotZero(word);
    RunEnd(v);
    First(w2, c, Put(2, a, env), v, []);
    var e2 := [Event(c, Put(2, a, env))] + [];
    First(w1, c, Put(4, ZEROES, env), w2, e2);
    First(w, c, Put(3, b, env), w1, [Event(c, Put(4, ZEROES, env))] + e2);
  }

  lemma {:induction false} RunBoth(w: World, es: seq<Event>, more: seq<Event>)
    requires RunCalls(w, es).Some?
    ensures RunCalls(w, es + more) == RunCalls(RunCalls(w, es).value, more)
    decreases |es|
  {
    hide Do;
    if es == [] {
      assert es + more == more;
    } else {
      assert (es + more)[1..] == es[1..] + more && (es + more)[0] == es[0];
      RunBoth(Do(w, es[0].client, es[0].call).value, es[1..], more);
    }
  }

  lemma BootReady(superblock: Block, clients: set<Cid>) returns (w: World)
    ensures Boot(superblock, clients) == Some(w) && w.peers.Keys == clients && Ready(w) && w.fs.used == SystemBlocks(FILEBLOCK)
    ensures Data(w.cache, ROOT) == [] && forall i: nat :: 1 < i < INODE_NUM ==> GetInode(w.fs.disk, i) == BLANK
  {
    hide SystemBlocks, GetInode, AllocInode, Format, Inv;
    var fs := FirstCreate(superblock, T_DIR);
    w := Boot(superblock, clients).value;
  }

  /** A get that is not what the file holds. One client makes three files, puts more than the direct
      blocks into the first, removes it and makes it again, fills the second, puts a block into the third
      and writes the first again. Then every client that gets the third file gets that block,
      and the file on the disk is another one. */
  lemma StaleGet(superblock: Block, clients: set<Cid>, c: Cid, d: Cid, x: Text, y: Text, z: Text, a: Text, b: Text, env: Env)
    requires c in clients && d in clients && 2 * |x| + |y| + |z| + 12 <= BLOCK_SIZE
    requires BlockCount(|a|) == NDIRECT + 1 && BlockCount(|b|) == NDIRECT
    ensures Boot(superblock, clients).Some?
    ensures var r := RunCalls(Boot(superblock, clients).value, Trap(c, x, y, z, a, env) + Spring(c, a, b, env));
            && r.Some? && d in r.value.peers && DoGet(r.value, d, 4).peers[d].data[4] == ZEROES
            && ReadFile(r.value.fs, 4).Some? && ReadFile(r.value.fs, 4).value != ZEROES
  {
    hide SystemBlocks, GetInode, ReadFile, Data, RunCalls, Boot, Trap, Spring, Ready, DoGet;
    var w := BootReady(superblock, clients);
    var u := Trapped(w, c, x, y, z, a, env);
    var v := Sprung(u, c, a, b, env);
    RunBoth(w, Trap(c, x, y, z, a, env), Spring(c, a, b, env));
    ClientsSeeTheServer(superblock, clients, Trap(c, x, y, z, a, env) + Spring(c, a, b, env), d, 4);
  }

  // ---------------------------------------------------------------------- the second mount

  /** A client mounts and makes a file in the root, and another client mounts: its constructor puts an empty root. */
  function SecondMountRun(c: Cid, d: Cid, name: Text, env: Env): seq<Event> {
    [Event(c, Put(ROOT, [], env))] + ([Event(c, Call.Create(T_FILE, ROOT, name, env))] + ([Event(d, Put(ROOT, [], env))] + []))
  }

  /** With so many free blocks every text fits. */
  lemma Roomy(fs: Fs, text: Text)
    requires fs.used == SystemBlocks(FILEBLOCK) && GetInode(fs.disk, ROOT).kind != 0 && |text| < MAXSIZE
    ensures WriteFits(fs, ROOT, text)
  {
    hide GetInode, SystemBlocks, Free;
    FreeLeft(FILEBLOCK);
  }

  lemma EmptyFits(fs: Fs)
    ensures WriteFits(fs, ROOT, [])
  {
    hide GetInode;
  }

  /** An empty put over an empty root takes and frees no block. */
  lemma EmptyPut(fs: Fs, junk: Block, now: Word) returns (e: Fs)
    requires GetInode(fs.disk, ROOT).size == 0
    ensures WriteFile(fs, ROOT, [], junk, now) == Some(e) && e.used == fs.used && ReadFile(e, ROOT) == Some([])
    ensures GetInode(e.disk, ROOT) == Inode(GetInode(fs.disk, ROOT).kind, 0, now, now, now, GetInode(fs.disk, ROOT).blocks)
    ensures forall i: nat :: 1 < i < INODE_NUM ==> GetInode(e.disk, i) == GetInode(fs.disk, i)
  {
    hide GetInode, PutInode;
    var ino := Inode(GetInode(fs.disk, ROOT).kind, 0, now, now, now, GetInode(fs.disk, ROOT).blocks);
    e := Fs(PutInode(fs.disk, ROOT, ino), fs.used);
    PutGet(fs.disk, ROOT, ino, ROOT);
    forall i: nat | 1 < i < INODE_NUM ensures GetInode(e.disk, i) == GetInode(fs.disk, i) { PutGet(fs.disk, ROOT, ino, i); }
    ReadEmpty(e, ROOT);
  }

  /** A new file system with a client that has mounted, or is about to. */
  ghost predicate Mounted(w: World) {
    && CoherentBut(w, {}, {ROOT}) && F.New(Table(w)) && Ready(w) && w.fs.used == SystemBlocks(FILEBLOCK) && Data(w.cache, ROOT) == []
    && (forall i: nat :: 1 < i < INODE_NUM ==> GetInode(w.fs.disk, i) == BLANK)
  }

  lemma Mount(w: World, c: Cid, env: Env) returns (v: World)
    requires Mounted(w) && c in w.peers
    ensures CallFits(w, Put(ROOT, [], env)) && WellCalled(w, Put(ROOT, [], env)) && Do(w, c, Put(ROOT, [], env)) == Some(v)
    ensures Mounted(v) && v.peers.Keys == w.peers.Keys && Table(v) == Table(w)
  {
    hide CoherentBut, GetInode, SystemBlocks, Inv, FilesOf, WriteFile, ReadFile, Do, Data;
    EmptyFits(w.fs);
    var e := EmptyPut(w.fs, env.junk, env.now);
    v := PutStep(w, c, ROOT, [], env, e, []);
    F.NewIsTree(Table(w));
    F.ForestLists(Table(w));
    CallKeeps(w, c, Put(ROOT, [], env), {ROOT});
    Weaken(v, {}, {ROOT} - Mended(Put(ROOT, [], env)), {}, {ROOT});
    CallIsMeant(w, c, Put(ROOT, [], env), {ROOT});
  }

  lemma NewRoot(t: Files)
    requires F.New(t)
    ensures T.Entries(t, ROOT) == []
  {
    ListBack([]);
    T.EmptyText();
  }

  lemma CreateInRoot(w: World, name: Text, env: Env)
    requires Mounted(w) && CleanName(name) && |name| + 3 < MAXSIZE
    ensures CallFits(w, Call.Create(T_FILE, ROOT, name, env)) && WellCalled(w, Call.Create(T_FILE, ROOT, name, env))
    ensures InodeRuns.FreeEntry(Table(w), 1) == 2 && T.Allowed(Table(w), T.Make(ROOT, name, T_FILE, []))
  {
    hide CoherentBut, GetInode, SystemBlocks, Inv, FilesOf, PutInode, FreeInum, Data, T.Entries, Room, InodeRuns.FreeEntry;
    FoundAt(w.fs.disk, 2, 1);
    var f := CreateAt(w.fs, 2);
    assert |Digits(2)| == 1;
    Roomy(f, D.Append([], name, 2));
    NewRoot(Table(w));
    InodeRuns.FreeEntryIs(w.fs.disk, 1);
  }

  lemma MadeInRoot(t: Files, name: Text)
    requires F.New(t) && InodeRuns.FreeEntry(t, 1) == 2
    ensures T.Apply(t, T.Make(ROOT, name, T_FILE, [])) == t[2 := File(T_FILE, [])][ROOT := File(T_DIR, D.Append([], name, 2))]
  {
    hide InodeRuns.FreeEntry, T.Entries, D.Append;
    NewRoot(t);
  }

  lemma LeftBehind(t: Files)
    requires F.New(t)
    ensures F.Orphan(t[2 := File(T_FILE, [])], 2)
  {
    var u := t[2 := File(T_FILE, [])];
    NewRoot(t);
    assert T.Entries(u, ROOT) == T.Entries(t, ROOT);
    hide T.Entries;
    forall d: nat ensures !F.Lists(u, d, 2) {}
  }

  lemma BootMounted(superblock: Block, clients: set<Cid>) returns (w: World)
    ensures Boot(superblock, clients) == Some(w) && w.peers.Keys == clients && Mounted(w)
  {
    hide Boot, CoherentBut, Ready, SystemBlocks, GetInode, F.New, Table;
    w := BootReady(superblock, clients);
    BootCoherent(superblock, clients);
    BootIsNew(superblock, clients);
  }

  lemma FitsFirst(w: World, c: Cid, call: Call, v: World, es: seq<Event>)
    requires c in w.peers && CallFits(w, call) && WellCalled(w, call) && Do(w, c, call) == Some(v)
    requires CallsFit(v, es) && AllWellCalled(v, es)
    ensures CallsFit(w, [Event(c, call)] + es) && AllWellCalled(w, [Event(c, call)] + es)
    ensures RunCalls(w, [Event(c, call)] + es) == RunCalls(v, es)
  {
    hide Do, CallFits, WellCalled;
    assert ([Event(c, call)] + es)[1..] == es;
  }

  /** The file made by the first client, and the root emptied by the second. */
  lemma MakeAndMount(w: World, c: Cid, d: Cid, name: Text, env: Env) returns (w1: World, w2: World)
    requires Mounted(w) && c in w.peers && d in w.peers && CleanName(name) && |name| + 3 < MAXSIZE
    ensures CallFits(w, Call.Create(T_FILE, ROOT, name, env)) && WellCalled(w, Call.Create(T_FILE, ROOT, name, env))
    ensures Do(w, c, Call.Create(T_FILE, ROOT, name, env)) == Some(w1) && d in w1.peers
    ensures CallFits(w1, Put(ROOT, [], env)) && WellCalled(w1, Put(ROOT, [], env)) && Do(w1, d, Put(ROOT, [], env)) == Some(w2)
    ensures Table(w2) == Table(w)[2 := File(T_FILE, [])]
  {
    hide CoherentBut, Ready, CallFits, Do, FilesOf, SystemBlocks, GetInode, T.Listing, InodeRuns.FreeEntry, D.Append, T.Entries;
    var make, put := Call.Create(T_FILE, ROOT, name, env), Put(ROOT, [], env);
    var t := Table(w);
    CreateInRoot(w, name, env);
    F.NewIsTree(t);
    F.ForestLists(t);
    CallKeeps(w, c, make, {ROOT});
    CallIsMeant(w, c, make, {ROOT});
    MadeInRoot(t, name);
    T.StepKeeps(t, Meant(make));
    w1 := Do(w, c, make).value;
    PutFits(w1, env);
    CallKeeps(w1, d, put, {ROOT} - Mended(make));
    CallIsMeant(w1, d, put, {ROOT} - Mended(make));
    w2 := Do(w1, d, put).value;
    assert t[ROOT] == File(T_DIR, []);
    assert Table(w2) == t[2 := File(T_FILE, [])];
  }

  lemma PutFits(w: World, env: Env)
    ensures CallFits(w, Put(ROOT, [], env))
  {
    hide WriteFits;
    EmptyFits(w.fs);
  }

  /** The second mount loses the first client's file: all calls fit and are well made, the file is still
      in use and empty as it was made, and no directory lists it. */
  lemma SecondMount(superblock: Block, clients: set<Cid>, c: Cid, d: Cid, name: Text, env: Env)
    requires c in clients && d in clients && CleanName(name) && |name| + 3 < MAXSIZE
    ensures Boot(superblock, clients).Some?
    ensures var w, es := Boot(superblock, clients).value, SecondMountRun(c, d, name, env);
            && CallsFit(w, es) && AllWellCalled(w, es) && RunCalls(w, es).Some?
            && var t := Table(RunCalls(w, es).value);
               t == Table(w)[2 := File(T_FILE, [])] && F.Orphan(t, 2) && !F.Connected(t)
  {
    hide Mounted, CallFits, WellCalled, Do, RunCalls, Boot, CallsFit, AllWellCalled, Table, F.New, F.Connected, F.Orphan;
    var w := BootMounted(superblock, clients);
    var put, es := Put(ROOT, [], env), SecondMountRun(c, d, name, env);
    var w1 := Mount(w, c, env);
    var w2, w3 := MakeAndMount(w1, c, d, name, env);
    RunsOut(w3);
    FitsFirst(w2, d, put, w3, []);
    FitsFirst(w1, c, Call.Create(T_FILE, ROOT, name, env), w2, [Event(d, put)] + []);
    FitsFirst(w, c, put, w1, [Event(c, Call.Create(T_FILE, ROOT, name, env))] + ([Event(d, put)] + []));
    MountedNew(w);
    LeftBehind(Table(w));
    FileSystemIsTree(superblock, clients, es);
    F.OrphanBreaks(Table(w3), 2);
    F.WholeIsConnected(Table(w3));
  }

  lemma RunsOut(w: World)
    ensures CallsFit(w, []) && AllWellCalled(w, []) && RunCalls(w, []) == Some(w)
  {}

  lemma MountedNew(w: World)
    requires Mounted(w)
    ensures F.New(Table(w))
  {}
}

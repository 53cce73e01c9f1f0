/** The inode manager refines a table of files: what is written is read back, whatever the sizes
    before and after, no other file changes, and the block ownership invariant is kept. */
module InodeFiles {
  import opened Bytes
  import opened Options
  import opened Blocks
  import opened Inodes
  import opened Ownership

  // ----------------------------------------------------------------- writing the data

  /** Every data slot but those of i keeps what is in it. */
  predicate OtherAt(d: Disk, ns: Nodes, e: Disk, i: nat, j: nat, l: nat) {
    Live(ns, j, l) && l < MAXFILE && j != i ==> ReadBlock(e, At(d, ns, j, l)) == ReadBlock(d, At(d, ns, j, l))
  }

  predicate ChunkAt(e: Disk, ns: Nodes, i: nat, buf: seq<Byte>, junk: Block, l: nat) {
    i < INODE_NUM && l < MAXFILE && l < BlockCount(|buf|) ==> ReadBlock(e, At(e, ns, i, l)) == Chunk(buf, l, junk)
  }

  /** e is d after the data of file i was overwritten: no block moved, the inode table and the
      other files are as before. */
  ghost predicate Overwrites(d: Disk, ns: Nodes, e: Disk, i: nat) {
    && Same(d, ns, e)
    && (forall j: nat {:trigger TableAt(d, e, j)} :: TableAt(d, e, j))
    && (forall j: nat, l: nat {:trigger OtherAt(d, ns, e, i, j, l)} :: OtherAt(d, ns, e, i, j, l))
  }

  lemma WriteOne(d: Disk, used: set<nat>, ns: Nodes, i: nat, k: nat, x: Block)
    requires Own(d, used, ns) && Live(ns, i, k) && k < MAXFILE
    ensures var e := WriteBlock(d, At(d, ns, i, k), x);
            && Own(e, used, ns) && Overwrites(d, ns, e, i) && ReadBlock(e, At(e, ns, i, k)) == x
  {
    var e := WriteBlock(d, At(d, ns, i, k), x);
    assert MarkedAt(d, used, ns, i, k);
    forall j: nat, l: nat ensures KeptAt(d, ns, e, ns, j, l) {
      assert SoundAt(ns, j);
      assert ApartAt(d, ns, i, k, j, INDIRECT);
    }
    forall j: nat, l: nat ensures OtherAt(d, ns, e, i, j, l) { assert ApartAt(d, ns, i, k, j, l); }
    TableKept(d, e, At(d, ns, i, k), x);
    OwnSame(d, used, ns, e);
    assert KeptAt(d, ns, e, ns, i, k);
  }

  lemma OverwritesChain(d: Disk, ns: Nodes, e: Disk, f: Disk, i: nat)
    requires Overwrites(d, ns, e, i) && Overwrites(e, ns, f, i)
    ensures Overwrites(d, ns, f, i)
  {
    forall j: nat, l: nat ensures KeptAt(d, ns, f, ns, j, l) { assert KeptAt(d, ns, e, ns, j, l) && KeptAt(e, ns, f, ns, j, l); }
    forall j: nat ensures TableAt(d, f, j) { assert TableAt(d, e, j) && TableAt(e, f, j); }
    forall j: nat, l: nat ensures OtherAt(d, ns, f, i, j, l) {
      assert OtherAt(d, ns, e, i, j, l) && OtherAt(e, ns, f, i, j, l) && KeptAt(d, ns, e, ns, j, l);
    }
  }

  /** One turn of the write loop. */
  lemma {:induction false} WriteStep(d: Disk, used: set<nat>, ns: Nodes, i: nat, buf: seq<Byte>, junk: Block, k: nat, m: nat)
    returns (e: Disk)
    requires Own(d, used, ns) && i < INODE_NUM && |buf| <= MAXSIZE && k < ns[i].count == BlockCount(|buf|)
    ensures Own(e, used, ns) && Overwrites(d, ns, e, i)
    ensures WriteFrom(d, ns[i].p, buf, junk, k) == WriteFrom(e, ns[i].p, buf, junk, k + 1)
    ensures ChunkAt(e, ns, i, buf, junk, k)
    ensures m < ns[i].count && m != k ==> ReadBlock(e, At(d, ns, i, m)) == ReadBlock(d, At(d, ns, i, m))
  {
    e := WriteBlock(d, At(d, ns, i, k), Chunk(buf, k, junk));
    WriteOne(d, used, ns, i, k, Chunk(buf, k, junk));
    assert ApartAt(d, ns, i, k, i, m);
  }

  lemma {:induction false} WriteAll(d: Disk, used: set<nat>, ns: Nodes, i: nat, buf: seq<Byte>, junk: Block, k: nat, f: Disk)
    requires Own(d, used, ns) && i < INODE_NUM && |buf| <= MAXSIZE && ns[i].count == BlockCount(|buf|)
    requires f == WriteFrom(d, ns[i].p, buf, junk, k)
    ensures Own(f, used, ns) && Overwrites(d, ns, f, i)
    decreases ns[i].count - k
  {
    if k < ns[i].count {
      var e := WriteStep(d, used, ns, i, buf, junk, k, k);
      WriteAll(e, used, ns, i, buf, junk, k + 1, f);
      OverwritesChain(d, ns, e, f, i);
    }
  }

  /** The blocks before k are not touched. */
  lemma {:induction false} WriteSkips(d: Disk, used: set<nat>, ns: Nodes, i: nat, buf: seq<Byte>, junk: Block, k: nat, m: nat, f: Disk)
    requires Own(d, used, ns) && i < INODE_NUM && |buf| <= MAXSIZE && ns[i].count == BlockCount(|buf|)
    requires f == WriteFrom(d, ns[i].p, buf, junk, k) && m < k && m < ns[i].count
    ensures ReadBlock(f, At(d, ns, i, m)) == ReadBlock(d, At(d, ns, i, m))
    decreases ns[i].count - k
  {
    hide Words, Chunk, BlockCount;
    if k < ns[i].count {
      var e := WriteStep(d, used, ns, i, buf, junk, k, m);
      WriteSkips(e, used, ns, i, buf, junk, k + 1, m, f);
      assert KeptAt(d, ns, e, ns, i, m);
    }
  }

  /** From block k on the file holds buf. */
  lemma {:induction false} WriteLands(d: Disk, used: set<nat>, ns: Nodes, i: nat, buf: seq<Byte>, junk: Block, k: nat, m: nat, f: Disk)
    requires Own(d, used, ns) && i < INODE_NUM && |buf| <= MAXSIZE && ns[i].count == BlockCount(|buf|)
    requires f == WriteFrom(d, ns[i].p, buf, junk, k) && k <= m
    ensures ChunkAt(f, ns, i, buf, junk, m)
    decreases ns[i].count - k
  {
    hide Words, Chunk, BlockCount;
    if k < ns[i].count {
      var e := WriteStep(d, used, ns, i, buf, junk, k, m);
      if k < m {
        WriteLands(e, used, ns, i, buf, junk, k + 1, m, f);
      } else {
        WriteSkips(e, used, ns, i, buf, junk, k + 1, k, f);
        WriteAll(e, used, ns, i, buf, junk, k + 1, f);
        assert KeptAt(e, ns, f, ns, i, k);
      }
    }
  }

  /** Reading the chunks gives the bytes back; the junk behind the end is cut off. */
  lemma {:induction false} ReadChunks(e: Disk, ns: Nodes, i: nat, buf: seq<Byte>, junk: Block, k: nat)
    requires i < INODE_NUM && |buf| <= MAXSIZE && k <= BlockCount(|buf|)
    requires forall m: nat {:trigger ChunkAt(e, ns, i, buf, junk, m)} :: k <= m ==> ChunkAt(e, ns, i, buf, junk, m)
    ensures ReadFrom(e, ns[i].p, |buf|, k) == if k * BLOCK_SIZE <= |buf| then buf[k * BLOCK_SIZE..] else []
    decreases BlockCount(|buf|) - k
  {
    if k < BlockCount(|buf|) {
      assert ChunkAt(e, ns, i, buf, junk, k);
      ReadChunks(e, ns, i, buf, junk, k + 1);
      if (k + 1) * BLOCK_SIZE <= |buf| {
        assert buf[k * BLOCK_SIZE..] == buf[k * BLOCK_SIZE..(k + 1) * BLOCK_SIZE] + buf[(k + 1) * BLOCK_SIZE..];
      }
    }
  }

  // ------------------------------------------------------------------ the file table

  datatype File = File(kind: Word, bytes: seq<Byte>)

  type Files = t: seq<File> | |t| == INODE_NUM witness Repeat(File(0, []), INODE_NUM)

  function NodeOf(ino: Inode): Node { Node(BlockCount(ino.size), ino.blocks) }

  function NodesOf(d: Disk): Nodes { seq(INODE_NUM, i requires 0 <= i < INODE_NUM => NodeOf(GetInode(d, i))) }

  function FileOf(d: Disk, i: nat): File
    requires i < INODE_NUM
  {
    var ino := GetInode(d, i);
    File(ino.kind, if ino.size <= MAXSIZE then ReadFrom(d, ino.blocks, ino.size, 0) else [])
  }

  function FilesOf(d: Disk): Files { seq(INODE_NUM, i requires 0 <= i < INODE_NUM => FileOf(d, i)) }

  predicate UnusedAt(d: Disk, i: nat) { i < INODE_NUM && GetInode(d, i).kind == 0 ==> GetInode(d, i).size == 0 }

  ghost predicate Inv(fs: Fs) {
    Own(fs.disk, fs.used, NodesOf(fs.disk)) && forall i: nat {:trigger UnusedAt(fs.disk, i)} :: UnusedAt(fs.disk, i)
  }

  // --------------------------------------------------- what the other files see of a step

  predicate BlockKept(d: Disk, e: Disk, p: Ptrs, l: nat) {
    l < MAXFILE ==> Nth(e, p, l) == Nth(d, p, l) && ReadBlock(e, Nth(d, p, l)) == ReadBlock(d, Nth(d, p, l))
  }

  /** The first n blocks of a file are where and what they were. */
  ghost predicate BlocksKept(d: Disk, e: Disk, p: Ptrs, n: nat) {
    forall l: nat {:trigger BlockKept(d, e, p, l)} :: l < n ==> BlockKept(d, e, p, l)
  }

  lemma BlocksKeptChain(d: Disk, e: Disk, f: Disk, p: Ptrs, n: nat)
    requires BlocksKept(d, e, p, n) && BlocksKept(e, f, p, n)
    ensures BlocksKept(d, f, p, n)
  {
    forall l: nat | l < n ensures BlockKept(d, f, p, l) { assert BlockKept(d, e, p, l) && BlockKept(e, f, p, l); }
  }

  lemma {:induction false} ReadKept(d: Disk, e: Disk, p: Ptrs, size: nat, k: nat)
    requires size <= MAXSIZE && BlocksKept(d, e, p, BlockCount(size))
    ensures ReadFrom(e, p, size, k) == ReadFrom(d, p, size, k)
    decreases BlockCount(size) - k
  {
    if k < BlockCount(size) {
      assert BlockKept(d, e, p, k);
      ReadKept(d, e, p, size, k + 1);
    }
  }

  /** Storing an inode moves no block and changes no data. */
  lemma PutKeeps(d: Disk, used: set<nat>, ns: Nodes, inum: nat, ino: Inode)
    requires Own(d, used, ns) && inum < INODE_NUM
    ensures var e := PutInode(d, inum, ino);
            Own(e, used, ns) && forall j: nat :: j < INODE_NUM ==> BlocksKept(d, e, ns[j].p, ns[j].count)
  {
    var e := PutInode(d, inum, ino);
    Layout(inum);
    forall j: nat, l: nat ensures KeptAt(d, ns, e, ns, j, l) {
      assert SoundAt(ns, j);
      assert MarkedAt(d, used, ns, j, INDIRECT);
    }
    OwnSame(d, used, ns, e);
    forall j: nat, l: nat | j < INODE_NUM && l < ns[j].count ensures BlockKept(d, e, ns[j].p, l) {
      assert KeptAt(d, ns, e, ns, j, l) && MarkedAt(d, used, ns, j, l);
    }
  }

  lemma NodesAfterPut(d: Disk, inum: nat, ino: Inode)
    requires inum < INODE_NUM
    ensures NodesOf(PutInode(d, inum, ino)) == NodesOf(d)[inum := NodeOf(ino)]
  {
    forall i | 0 <= i < INODE_NUM
      ensures NodesOf(PutInode(d, inum, ino))[i] == NodesOf(d)[inum := NodeOf(ino)][i]
    {
      PutGet(d, inum, ino, i);
    }
  }

  lemma TableNodes(d: Disk, e: Disk)
    requires forall j: nat {:trigger TableAt(d, e, j)} :: TableAt(d, e, j)
    ensures NodesOf(e) == NodesOf(d) && forall i: nat :: i < INODE_NUM ==> GetInode(e, i) == GetInode(d, i)
  {
    forall i: nat | i < INODE_NUM ensures GetInode(e, i) == GetInode(d, i) { assert TableAt(d, e, i); }
    assert forall i :: 0 <= i < INODE_NUM ==> NodesOf(e)[i] == NodesOf(d)[i];
  }

  // -------------------------------------------------------------------- write_file

  lemma ResizeKeeps(fs: Fs, ns: Nodes, i: nat, n: nat)
    requires Own(fs.disk, fs.used, ns) && i < INODE_NUM && ns[i].count <= MAXFILE && n <= MAXFILE
    requires |Free(fs.used)| >= Cost(ns[i].p, ns[i].count, n)
    ensures var (fs1, p) := Resize(fs, ns[i].p, ns[i].count, n);
            && Own(fs1.disk, fs1.used, ns[i := Node(n, p)])
            && (forall j: nat {:trigger TableAt(fs.disk, fs1.disk, j)} :: TableAt(fs.disk, fs1.disk, j))
            && (forall j: nat :: j < INODE_NUM && j != i ==> BlocksKept(fs.disk, fs1.disk, ns[j].p, ns[j].count))
  {
    if ns[i].count < n {
      GrowKeeps(fs, ns, i, n);
      var (fs1, p) := Grow(fs, ns[i].p, ns[i].count, n);
      var ms := ns[i := Node(n, p)];
      forall j: nat, l: nat | j < INODE_NUM && j != i && l < ns[j].count ensures BlockKept(fs.disk, fs1.disk, ns[j].p, l) {
        assert DataAt(fs.disk, ns, fs1.disk, ms, j, l);
      }
    } else {
      FreedIds(fs.disk, fs.used, ns[i].p, n, ns[i].count);
      OwnDrops(fs.disk, fs.used, ns, i, n);
    }
  }

  lemma OverwriteKeeps(d: Disk, used: set<nat>, ns: Nodes, i: nat, buf: seq<Byte>, junk: Block)
    requires Own(d, used, ns) && i < INODE_NUM && |buf| <= MAXSIZE && ns[i].count == BlockCount(|buf|)
    ensures var e := WriteFrom(d, ns[i].p, buf, junk, 0);
            && Own(e, used, ns) && ReadFrom(e, ns[i].p, |buf|, 0) == buf
            && (forall j: nat {:trigger TableAt(d, e, j)} :: TableAt(d, e, j))
            && (forall j: nat :: j < INODE_NUM && j != i ==> BlocksKept(d, e, ns[j].p, ns[j].count))
  {
    var e := WriteFrom(d, ns[i].p, buf, junk, 0);
    WriteAll(d, used, ns, i, buf, junk, 0, e);
    forall m: nat ensures ChunkAt(e, ns, i, buf, junk, m) { WriteLands(d, used, ns, i, buf, junk, 0, m, e); }
    ReadChunks(e, ns, i, buf, junk, 0);
    forall j: nat, l: nat | j < INODE_NUM && j != i && l < ns[j].count ensures BlockKept(d, e, ns[j].p, l) {
      assert OtherAt(d, ns, e, i, j, l) && KeptAt(d, ns, e, ns, j, l);
    }
  }

  /** The part of a write after the asserts. */
  function Written(fs: Fs, inum: nat, buf: seq<Byte>, junk: Block, now: Word): Fs
    requires inum < INODE_NUM && |buf| < MAXSIZE && GetInode(fs.disk, inum).size <= MAXSIZE
  {
    var ino := GetInode(fs.disk, inum);
    var (fs1, p) := Resize(fs, ino.blocks, BlockCount(ino.size), BlockCount(|buf|));
    Fs(PutInode(WriteFrom(fs1.disk, p, buf, junk, 0), inum, Inode(ino.kind, |buf|, now, now, now, p)), fs1.used)
  }

  ghost predicate Room(fs: Fs, inum: nat, size: nat)
    requires inum < INODE_NUM
  {
    var ino := GetInode(fs.disk, inum);
    Cost(ino.blocks, BlockCount(ino.size), BlockCount(size)) <= |Free(fs.used)|
  }

  /** What the three stages of a write do to the disk. */
  lemma WriteStages(fs: Fs, inum: nat, buf: seq<Byte>, junk: Block, now: Word) returns (p: Ptrs, ns: Nodes)
    requires Inv(fs) && inum < INODE_NUM && |buf| < MAXSIZE && Room(fs, inum, |buf|)
    ensures GetInode(fs.disk, inum).size <= MAXSIZE
    ensures WriteFile(fs, inum, buf, junk, now) == Some(Written(fs, inum, buf, junk, now))
    ensures var e := Written(fs, inum, buf, junk, now);
            var ino := GetInode(fs.disk, inum);
            && ns == NodesOf(fs.disk)[inum := Node(BlockCount(|buf|), p)] == NodesOf(e.disk)
            && GetInode(e.disk, inum) == Inode(ino.kind, |buf|, now, now, now, p)
            && Own(e.disk, e.used, ns) && ReadFrom(e.disk, p, |buf|, 0) == buf
            && (forall j: nat :: j < INODE_NUM && j != inum ==>
                GetInode(e.disk, j) == GetInode(fs.disk, j) && BlocksKept(fs.disk, e.disk, ns[j].p, ns[j].count))
  {
    var ns0 := NodesOf(fs.disk);
    var ino := GetInode(fs.disk, inum);
    var n := BlockCount(|buf|);
    assert SoundAt(ns0, inum) && ns0[inum] == NodeOf(ino);
    ResizeKeeps(fs, ns0, inum, n);
    var (fs1, q) := Resize(fs, ino.blocks, BlockCount(ino.size), n);
    p := q;
    ns := ns0[inum := Node(n, p)];
    TableNodes(fs.disk, fs1.disk);
    OverwriteKeeps(fs1.disk, fs1.used, ns, inum, buf, junk);
    var d2 := WriteFrom(fs1.disk, p, buf, junk, 0);
    TableNodes(fs1.disk, d2);
    var ino1 := Inode(ino.kind, |buf|, now, now, now, p);
    PutKeeps(d2, fs1.used, ns, inum, ino1);
    NodesAfterPut(d2, inum, ino1);
    var d3 := PutInode(d2, inum, ino1);
    ReadKept(d2, d3, p, |buf|, 0);
    PutGet(d2, inum, ino1, inum);
    forall j: nat | j < INODE_NUM && j != inum
      ensures GetInode(d3, j) == GetInode(fs.disk, j) && BlocksKept(fs.disk, d3, ns[j].p, ns[j].count)
    {
      PutGet(d2, inum, ino1, j);
      BlocksKeptChain(fs.disk, fs1.disk, d2, ns[j].p, ns[j].count);
      BlocksKeptChain(fs.disk, d2, d3, ns[j].p, ns[j].count);
    }
    assert SoundAt(ns, inum);
  }

  /** `write_file` with room on the disk: block ownership is kept, the file is exactly the written
      bytes, every other file is as it was. Text in an inode of type 0 would be lost when it is allocated. */
  lemma WriteFileRefines(fs: Fs, inum: nat, buf: seq<Byte>, junk: Block, now: Word)
    requires Inv(fs) && inum < INODE_NUM && |buf| < MAXSIZE && Room(fs, inum, |buf|)
    ensures var r := WriteFile(fs, inum, buf, junk, now);
            && r.Some? && Own(r.value.disk, r.value.used, NodesOf(r.value.disk))
            && (Inv(r.value) <==> GetInode(fs.disk, inum).kind != 0 || buf == [])
            && FilesOf(r.value.disk) == FilesOf(fs.disk)[inum := File(GetInode(fs.disk, inum).kind, buf)]
  {
    var p, ns := WriteStages(fs, inum, buf, junk, now);
    var e := Written(fs, inum, buf, junk, now);
    var t := FilesOf(fs.disk)[inum := File(GetInode(fs.disk, inum).kind, buf)];
    forall i: nat | i < INODE_NUM ensures FilesOf(e.disk)[i] == t[i] {
      if i != inum { OtherFile(fs, e.disk, i); }
    }
    forall i: nat | i != inum ensures UnusedAt(e.disk, i) { assert UnusedAt(fs.disk, i); }
    assert Inv(e) ==> UnusedAt(e.disk, inum);
  }

  lemma OtherFile(fs: Fs, e: Disk, i: nat)
    requires Inv(fs) && i < INODE_NUM && GetInode(e, i) == GetInode(fs.disk, i)
    requires BlocksKept(fs.disk, e, NodesOf(fs.disk)[i].p, NodesOf(fs.disk)[i].count)
    ensures FileOf(e, i) == FileOf(fs.disk, i)
  {
    var ino := GetInode(fs.disk, i);
    if ino.size <= MAXSIZE { ReadKept(fs.disk, e, ino.blocks, ino.size, 0); }
  }
}

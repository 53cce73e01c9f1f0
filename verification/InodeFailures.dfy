/** Runs from a formatted disk in which block ownership is lost, and what it costs: a full disk, a
    removed file with an indirect block, and a second file that is overwritten through the pointer
    left behind. */
module InodeFailures {
  import opened Bytes
  import opened Options
  import opened Blocks
  import opened Inodes
  import opened Ownership
  import opened InodeFiles
  import opened InodeRuns
  import opened InodeFull

  const BLANK := Inode(0, 0, 0, 0, 0, Repeat(0, NDIRECT + 1))

  // ---------------------------------------------- allocation on a disk used from the front

  lemma AllocNext(n: nat)
    requires FILEBLOCK <= n < BLOCK_NUM
    ensures AllocId(SystemBlocks(n)) == n && Alloc(SystemBlocks(n)) == SystemBlocks(n + 1)
  {
    var b := AllocId(SystemBlocks(n));
    assert n !in SystemBlocks(n);
    assert b != n ==> b in SystemBlocks(n) || n in SystemBlocks(n);
  }

  lemma {:induction false} FreeLeft(n: nat)
    requires FILEBLOCK <= n <= BLOCK_NUM
    ensures |Free(SystemBlocks(n))| == BLOCK_NUM - n
    decreases BLOCK_NUM - n
  {
    hide SystemBlocks;
    if n < BLOCK_NUM {
      AllocNext(n);
      AllocTakesOne(SystemBlocks(n));
      FreeLeft(n + 1);
    } else {
      assert Free(SystemBlocks(n)) == {};
    }
  }

  // -------------------------------------------------------- removing a file that is too large

  /** The run that creates a file, writes 101 blocks and removes it. */
  function LargeRemoval(buf: seq<Byte>, junk: Block, now: Word): seq<Op> { [Create(T_FILE), Write(1, buf, junk, now), Remove(1)] }

  lemma FirstCreate(superblock: Block, kind: Word) returns (fs: Fs)
    ensures AllocInode(Format(superblock), kind) == Some((fs, 1)) && Inv(fs) && fs.used == SystemBlocks(FILEBLOCK)
    ensures GetInode(fs.disk, 1) == BLANK.(kind := kind)
    ensures forall i: nat :: i < INODE_NUM && i != 1 ==> GetInode(fs.disk, i) == BLANK
  {
    hide GetInode, PutInode, Inv, FilesOf, SystemBlocks;
    var d := Format(superblock).disk;
    FormatInv(superblock);
    FormatInodes(superblock, 1);
    FreeInumTurn(d, 1);
    AllocInodeRefines(Format(superblock), kind);
    fs := AllocInode(Format(superblock), kind).value.0;
    PutGet(d, 1, BLANK.(kind := kind), 1);
    forall i: nat | i < INODE_NUM && i != 1 ensures GetInode(fs.disk, i) == BLANK {
      FormatInodes(superblock, i);
      PutGet(d, 1, BLANK.(kind := kind), i);
    }
  }

  /** The write fits, so the invariant holds before the removal, and not after it. */
  lemma LargeRemovalLosesOwnership(superblock: Block, buf: seq<Byte>, junk: Block, now: Word)
    requires BlockCount(|buf|) == NDIRECT + 1
    ensures var ops := LargeRemoval(buf, junk, now);
            && RunFits(Format(superblock), ops[..2])
            && Run(Format(superblock), ops[..2]).Some? && Inv(Run(Format(superblock), ops[..2]).value)
            && Run(Format(superblock), ops).Some? && !Inv(Run(Format(superblock), ops).value)
  {
    hide GetInode, Inv, FilesOf, Format, AllocInode, WriteFile, RemoveFile, Written, NodesOf, Own, ReadFrom, SystemBlocks, BlocksKept;
    var fs0 := Format(superblock);
    var fs := FirstCreate(superblock, T_FILE);
    FreeLeft(FILEBLOCK);
    FormatInodes(superblock, 1);
    FreeInumTurn(fs0.disk, 1);
    assert Room(fs, 1, |buf|);
    WriteFileRefines(fs, 1, buf, junk, now);
    var _, _ := WriteStages(fs, 1, buf, junk, now);
    var fs1 := WriteFile(fs, 1, buf, junk, now).value;
    RemoveFileRefines(fs1, 1);
    var ops := LargeRemoval(buf, junk, now);
    assert ops[..2] == [ops[0], ops[1]];
    ThreeSteps(fs0, ops[0], ops[1], ops[2], fs, fs1, RemoveFile(fs1, 1).value);
  }

  lemma ThreeSteps(fs: Fs, a: Op, b: Op, c: Op, fs1: Fs, fs2: Fs, fs3: Fs)
    requires Apply(fs, a) == Some(fs1) && Apply(fs1, b) == Some(fs2) && Apply(fs2, c) == Some(fs3)
    ensures Run(fs, [a, b]) == Some(fs2) && Run(fs, [a, b, c]) == Some(fs3)
    ensures Fits(fs, a) && Fits(fs1, b) ==> RunFits(fs, [a, b])
  {
    hide Apply, Fits;
    assert [a, b, c][1..] == [b, c] && [b, c][1..] == [c] && [c][1..] == [] && [a, b][1..] == [b] && [b][1..] == [];
    assert Run(fs3, []) == Some(fs3) && Run(fs2, [c]) == Some(fs3) && Run(fs1, [b, c]) == Some(fs3);
    assert Run(fs2, []) == Some(fs2) && Run(fs1, [b]) == Some(fs2);
    assert RunFits(fs2, []);
    assert Fits(fs1, b) ==> RunFits(fs1, [b]);
  }

  // ------------------------------------------------------------------------ a full disk

  /** Blocks of a largest file: its data and its indirect block. */
  const LARGEST := MAXFILE + 1

  function FillOps(n: nat, buf: seq<Byte>): seq<Op> {
    if n == 0 then [] else FillOps(n - 1, buf) + [Create(T_FILE)] + [Write(n, buf, ZEROES, 0)]
  }

  lemma {:induction false} RunSnoc(fs: Fs, ops: seq<Op>, op: Op)
    requires Run(fs, ops).Some?
    ensures Run(fs, ops + [op]) == Apply(Run(fs, ops).value, op)
    ensures RunFits(fs, ops) && Fits(Run(fs, ops).value, op) ==> RunFits(fs, ops + [op])
    decreases |ops|
  {
    hide Apply, Fits;
    if ops == [] {
      assert ([] + [op])[1..] == [];
      assert ([] + [op])[0] == op;
    } else {
      assert (ops + [op])[1..] == ops[1..] + [op] && (ops + [op])[0] == ops[0];
      RunSnoc(Apply(fs, ops[0]).value, ops[1..], op);
    }
  }

  predicate FilledAt(d: Disk, n: nat, i: nat) {
    1 <= i < INODE_NUM ==> if i <= n then GetInode(d, i).kind != 0 else GetInode(d, i) == BLANK
  }

  /** Files 1 to n are as large as files can be, the other inodes were never used. */
  ghost predicate Filled(fs: Fs, n: nat) {
    && Inv(fs) && |Free(fs.used)| == BLOCK_NUM - FILEBLOCK - LARGEST * n
    && (forall i: nat {:trigger FilledAt(fs.disk, n, i)} :: FilledAt(fs.disk, n, i))
  }

  lemma {:induction false} FilledFree(d: Disk, n: nat, i: nat)
    requires 1 <= i <= n + 1 < INODE_NUM && forall j: nat {:trigger FilledAt(d, n, j)} :: FilledAt(d, n, j)
    ensures FreeInum(d, i) == n + 1
    decreases n + 1 - i
  {
    hide GetInode, FreeInum;
    FreeInumTurn(d, i);
    assert FilledAt(d, n, i);
    if i <= n { FilledFree(d, n, i + 1); }
  }

  lemma FillCreate(fs: Fs, n: nat) returns (fs1: Fs)
    requires Filled(fs, n) && n + 1 < INODE_NUM
    ensures Fits(fs, Create(T_FILE)) && Apply(fs, Create(T_FILE)) == Some(fs1) && Inv(fs1) && fs1.used == fs.used
    ensures GetInode(fs1.disk, n + 1) == BLANK.(kind := T_FILE)
    ensures forall i: nat :: i < INODE_NUM && i != n + 1 ==> GetInode(fs1.disk, i) == GetInode(fs.disk, i)
  {
    hide GetInode, PutInode, Inv, FilesOf;
    FilledFree(fs.disk, n, 1);
    AllocInodeRefines(fs, T_FILE);
    fs1 := AllocInode(fs, T_FILE).value.0;
    assert FilledAt(fs.disk, n, n + 1);
    PutGet(fs.disk, n + 1, BLANK.(kind := T_FILE), n + 1);
    forall i: nat | i < INODE_NUM && i != n + 1 ensures GetInode(fs1.disk, i) == GetInode(fs.disk, i) {
      PutGet(fs.disk, n + 1, BLANK.(kind := T_FILE), i);
    }
  }

  /** What a write of a fresh file takes off the free blocks. */
  lemma WriteTakes(fs: Fs, inum: nat, buf: seq<Byte>)
    requires Inv(fs) && inum < INODE_NUM && |buf| < MAXSIZE && buf != [] && Room(fs, inum, |buf|)
    requires GetInode(fs.disk, inum) == BLANK.(kind := T_FILE)
    ensures |Free(Written(fs, inum, buf, ZEROES, 0).used)| == |Free(fs.used)| - Cost(BLANK.blocks, 0, BlockCount(|buf|))
  {
    hide GetInode, PutInode, WriteFrom, Grow, Own, Kept;
    var ns := NodesOf(fs.disk);
    assert ns[inum] == Node(0, BLANK.blocks);
    GrowKeeps(fs, ns, inum, BlockCount(|buf|));
  }

  lemma FillWrite(fs: Fs, n: nat, fs1: Fs, buf: seq<Byte>) returns (fs2: Fs)
    requires Filled(fs, n) && LARGEST * (n + 1) <= BLOCK_NUM - FILEBLOCK && n + 1 < INODE_NUM
    requires BlockCount(|buf|) == MAXFILE && |buf| < MAXSIZE
    requires Inv(fs1) && fs1.used == fs.used && GetInode(fs1.disk, n + 1) == BLANK.(kind := T_FILE)
    requires forall i: nat :: i < INODE_NUM && i != n + 1 ==> GetInode(fs1.disk, i) == GetInode(fs.disk, i)
    ensures Fits(fs1, Write(n + 1, buf, ZEROES, 0)) && Apply(fs1, Write(n + 1, buf, ZEROES, 0)) == Some(fs2) && Filled(fs2, n + 1)
  {
    hide GetInode, Inv, FilesOf, WriteFile, Written, NodesOf, Own, ReadFrom, BlocksKept, Free;
    assert Room(fs1, n + 1, |buf|);
    WriteFileRefines(fs1, n + 1, buf, ZEROES, 0);
    var _, _ := WriteStages(fs1, n + 1, buf, ZEROES, 0);
    WriteTakes(fs1, n + 1, buf);
    fs2 := WriteFile(fs1, n + 1, buf, ZEROES, 0).value;
    var m := n + 1;
    forall i: nat ensures FilledAt(fs2.disk, m, i) { assert FilledAt(fs.disk, n, i); }
  }

  lemma {:induction false} FillRun(superblock: Block, n: nat, buf: seq<Byte>)
    requires LARGEST * n <= BLOCK_NUM - FILEBLOCK && BlockCount(|buf|) == MAXFILE && |buf| < MAXSIZE
    ensures var fs := Format(superblock);
            RunFits(fs, FillOps(n, buf)) && Run(fs, FillOps(n, buf)).Some? && Filled(Run(fs, FillOps(n, buf)).value, n)
    decreases n
  {
    hide GetInode, Inv, FilesOf, Format, Apply, Fits, Free;
    var fs := Format(superblock);
    if n == 0 {
      FormatInv(superblock);
      FormatUsed(superblock);
      forall i: nat ensures FilledAt(fs.disk, 0, i) { if i < INODE_NUM { FormatInodes(superblock, i); } }
    } else {
      FillRun(superblock, n - 1, buf);
      var ops := FillOps(n - 1, buf);
      var f := Run(fs, ops).value;
      var f1 := FillCreate(f, n - 1);
      var f2 := FillWrite(f, n - 1, f1, buf);
      RunSnoc(fs, ops, Create(T_FILE));
      RunSnoc(fs, ops + [Create(T_FILE)], Write(n, buf, ZEROES, 0));
    }
  }

  lemma FormatUsed(superblock: Block)
    ensures |Free(Format(superblock).used)| == BLOCK_NUM - FILEBLOCK
  {
    hide SystemBlocks, Free;
    FreeLeft(FILEBLOCK);
  }

  /** After 138 largest files a fitting run has made one more, empty file; a largest write to it dies
      or breaks ownership. */
  lemma FullDiskLosesOwnership(superblock: Block, buf: seq<Byte>, junk: Block, now: Word) returns (fs: Fs)
    requires BlockCount(|buf|) == MAXFILE && |buf| < MAXSIZE
    ensures var ops := FillOps(138, buf) + [Create(T_FILE)];
            RunFits(Format(superblock), ops) && Run(Format(superblock), ops) == Some(fs)
    ensures Inv(fs) && GetInode(fs.disk, 139).kind == T_FILE
    ensures var r := WriteFile(fs, 139, buf, junk, now); !(r.Some? && Inv(r.value))
  {
    hide GetInode, Inv, FilesOf, Format, Apply, Fits, Free, FillOps, WriteFile;
    FillRun(superblock, 138, buf);
    var f := Run(Format(superblock), FillOps(138, buf)).value;
    fs := FillCreate(f, 138);
    RunSnoc(Format(superblock), FillOps(138, buf), Create(T_FILE));
    assert !Room(fs, 139, |buf|);
    WriteNeedsRoom(fs, 139, buf, junk, now);
  }

  // ------------------------------------------- one file overwritten by writing another

  /** The first n pointers are the blocks from `at` on. */
  function Front(p: Ptrs, at: nat, n: nat): (q: Ptrs)
    requires n <= NDIRECT && at + n <= BLOCK_NUM
    ensures (forall k :: 0 <= k < n ==> q[k] == at + k) && (forall k :: n <= k <= NDIRECT ==> q[k] == p[k])
  {
    seq(n, k requires 0 <= k < n => (at + k) as Word) + p[n..]
  }

  /** On a disk used from the front the direct blocks of a file come one after another. */
  lemma {:induction false} GrowFront(fs: Fs, p: Ptrs, at: nat, n: nat)
    requires fs.used == SystemBlocks(at) && FILEBLOCK <= at && n <= NDIRECT && at + n <= BLOCK_NUM
    ensures Grow(fs, p, 0, n) == (Fs(fs.disk, SystemBlocks(at + n)), Front(p, at, n))
    decreases n
  {
    hide SystemBlocks;
    if n > 0 {
      GrowFront(fs, p, at, n - 1);
      AllocNext(at + n - 1);
      GrowSplit(fs, p, 0, n - 1, n);
      var mid := Fs(fs.disk, SystemBlocks(at + n - 1));
      assert Front(p, at, n - 1)[n - 1 := (at + n - 1) as Word] == Front(p, at, n);
      assert AllocNth(mid, Front(p, at, n - 1), n - 1) == (Fs(fs.disk, SystemBlocks(at + n)), Front(p, at, n));
    } else {
      assert Front(p, at, 0) == p;
    }
  }

  lemma {:induction false} GrowSplit(fs: Fs, p: Ptrs, j: nat, m: nat, n: nat)
    requires j <= m <= n <= MAXFILE
    ensures Grow(fs, p, j, n) == Grow(Grow(fs, p, j, m).0, Grow(fs, p, j, m).1, m, n)
    decreases m - j
  {
    if j < m {
      var (fs1, p1) := AllocNth(fs, p, j);
      GrowSplit(fs1, p1, j + 1, m, n);
    }
  }

  /** Writing data leaves a block alone that no pointer of the file names. */
  lemma {:induction false} Avoids(d: Disk, p: Ptrs, buf: seq<Byte>, junk: Block, k: nat, id: nat)
    requires |buf| <= MAXSIZE && id < BLOCK_NUM
    requires forall l: nat {:trigger Nth(d, p, l)} :: l < BlockCount(|buf|) ==> Nth(d, p, l) != id && Nth(d, p, l) != p[NDIRECT]
    ensures WriteFrom(d, p, buf, junk, k)[id] == d[id]
    decreases BlockCount(|buf|) - k
  {
    hide Words, Chunk;
    if k < BlockCount(|buf|) {
      var e := WriteBlock(d, Nth(d, p, k), Chunk(buf, k, junk));
      forall l: nat | l < BlockCount(|buf|) ensures Nth(e, p, l) == Nth(d, p, l) {}
      Avoids(e, p, buf, junk, k + 1, id);
    }
  }

  /** The state before an inode is stored. */
  lemma TableAvoided(d: Disk, p: Ptrs, buf: seq<Byte>, junk: Block, j: nat)
    requires |buf| <= MAXSIZE && j < INODE_NUM
    requires forall l: nat {:trigger Nth(d, p, l)} :: l < BlockCount(|buf|) ==> Nth(d, p, l) >= FILEBLOCK && Nth(d, p, l) != p[NDIRECT]
    ensures GetInode(WriteFrom(d, p, buf, junk, 0), j) == GetInode(d, j)
  {
    hide Nth, Words, WriteFrom;
    Layout(j);
    Avoids(d, p, buf, junk, 0, IBlock(j));
  }

  /** A first write of direct blocks on a disk used from the front. */
  lemma WriteFront(fs: Fs, inum: nat, buf: seq<Byte>, junk: Block, now: Word, at: nat) returns (e: Fs)
    requires inum < INODE_NUM && 0 < BlockCount(|buf|) <= NDIRECT && FILEBLOCK <= at && at + BlockCount(|buf|) <= BLOCK_NUM
    requires fs.used == SystemBlocks(at) && GetInode(fs.disk, inum).size == 0 && GetInode(fs.disk, inum).blocks[NDIRECT] == 0
    ensures WriteFile(fs, inum, buf, junk, now) == Some(e) && e.used == SystemBlocks(at + BlockCount(|buf|))
    ensures var ino := GetInode(fs.disk, inum);
            GetInode(e.disk, inum) == Inode(ino.kind, |buf|, now, now, now, Front(ino.blocks, at, BlockCount(|buf|)))
    ensures forall j: nat :: j < INODE_NUM && j != inum ==> GetInode(e.disk, j) == GetInode(fs.disk, j)
    ensures BlockCount(|buf|) == 1 ==> e.disk[at] == Chunk(buf, 0, junk)
  {
    hide SystemBlocks, GetInode, PutInode, Words, Chunk, Grow;
    var n, ino := BlockCount(|buf|), GetInode(fs.disk, inum);
    var p := Front(ino.blocks, at, n);
    GrowFront(fs, ino.blocks, at, n);
    var d := WriteFrom(fs.disk, p, buf, junk, 0);
    var ino1 := Inode(ino.kind, |buf|, now, now, now, p);
    e := Fs(PutInode(d, inum, ino1), SystemBlocks(at + n));
    PutGet(d, inum, ino1, inum);
    forall j: nat | j < INODE_NUM && j != inum ensures GetInode(e.disk, j) == GetInode(fs.disk, j) {
      PutGet(d, inum, ino1, j);
      TableAvoided(fs.disk, p, buf, junk, j);
    }
    if n == 1 { FirstBlock(fs.disk, p, buf, junk, inum, ino1); }
  }

  lemma FirstBlock(d: Disk, p: Ptrs, buf: seq<Byte>, junk: Block, inum: nat, ino: Inode)
    requires BlockCount(|buf|) == 1 && FILEBLOCK <= p[0] < BLOCK_NUM && inum < INODE_NUM
    ensures PutInode(WriteFrom(d, p, buf, junk, 0), inum, ino)[p[0]] == Chunk(buf, 0, junk)
  {
    hide Words, Chunk;
    Layout(inum);
    assert WriteFrom(d, p, buf, junk, 0) == WriteFrom(WriteBlock(d, Nth(d, p, 0), Chunk(buf, 0, junk)), p, buf, junk, 1);
  }

  /** Growing to one block more than there are direct ones: the indirect block is the next free one,
      or the one a pointer left in the inode names. */
  lemma GrowLarge(fs: Fs, p: Ptrs, at: nat) returns (e: Fs, q: Ptrs, ind: nat, data: nat)
    requires fs.used == SystemBlocks(at) && FILEBLOCK <= at && at + NDIRECT + 2 <= BLOCK_NUM
    requires p[NDIRECT] == 0 || FILEBLOCK <= p[NDIRECT] < at
    ensures Grow(fs, p, 0, NDIRECT + 1) == (e, q) && Behind(p, at, q, ind, data)
    ensures e.used == SystemBlocks(data + 1)
    ensures e.disk == fs.disk[ind := Unwords(Words(fs.disk[ind])[0 := data])]
  {
    hide SystemBlocks, Words, Unwords, AllocNth, AllocWord;
    GrowFront(fs, p, at, NDIRECT);
    GrowSplit(fs, p, 0, NDIRECT, NDIRECT + 1);
    var r := Front(p, at, NDIRECT);
    e, q, ind, data := AllocBehind(Fs(fs.disk, SystemBlocks(at + NDIRECT)), r, at + NDIRECT);
    assert Grow(Fs(fs.disk, SystemBlocks(at + NDIRECT)), r, NDIRECT, NDIRECT + 1) == (e, q);
  }

  lemma AllocBehind(fs: Fs, p: Ptrs, at: nat) returns (e: Fs, q: Ptrs, ind: nat, data: nat)
    requires fs.used == SystemBlocks(at) && FILEBLOCK <= at && at + 2 <= BLOCK_NUM && p[NDIRECT] < BLOCK_NUM
    ensures ind < BLOCK_NUM && data < BLOCK_NUM
    ensures AllocNth(fs, p, NDIRECT) == (e, q) && q == p[NDIRECT := ind] && e.used == SystemBlocks(data + 1)
    ensures e.disk == WriteBlock(fs.disk, ind, Unwords(Words(ReadBlock(fs.disk, ind))[0 := data]))
    ensures if p[NDIRECT] == 0 then ind == at && data == at + 1 else ind == p[NDIRECT] && data == at
  {
    hide SystemBlocks, Words, Unwords, WriteBlock, ReadBlock;
    AllocNext(at);
    AllocNext(at + 1);
    ind := if p[NDIRECT] == 0 then at else p[NDIRECT];
    data := if p[NDIRECT] == 0 then at + 1 else at;
    e, q := AllocNth(fs, p, NDIRECT).0, p[NDIRECT := ind];
    assert p[NDIRECT := p[NDIRECT]] == p;
  }

  /** The pointers q of a file grown from the pointers p at block `at`. */
  predicate Behind(p: Ptrs, at: nat, q: Ptrs, ind: nat, data: nat) {
    && FILEBLOCK <= at && at + NDIRECT + 2 <= BLOCK_NUM
    && (forall k: nat :: k < NDIRECT ==> q[k] == at + k) && q[NDIRECT] == ind
    && (if p[NDIRECT] == 0 then ind == at + NDIRECT && data == at + NDIRECT + 1
        else ind == p[NDIRECT] && FILEBLOCK <= ind < at && data == at + NDIRECT)
  }

  /** The write of such a file goes to fresh blocks and, through the indirect pointer, to the block it names. */
  lemma LargeWrite(fs: Fs, inum: nat, a: seq<Byte>, junk: Block, now: Word, at: nat) returns (e: Fs, ind: nat, data: nat)
    requires inum < INODE_NUM && BlockCount(|a|) == NDIRECT + 1
    requires fs.used == SystemBlocks(at) && FILEBLOCK <= at && at + NDIRECT + 2 <= BLOCK_NUM
    requires GetInode(fs.disk, inum).size == 0
    requires var p := GetInode(fs.disk, inum).blocks; p[NDIRECT] == 0 || FILEBLOCK <= p[NDIRECT] < at
    ensures WriteFile(fs, inum, a, junk, now) == Some(e) && e.used == SystemBlocks(data + 1)
    ensures var ino := GetInode(e.disk, inum);
            && ino.kind == GetInode(fs.disk, inum).kind && ino.size == |a|
            && Behind(GetInode(fs.disk, inum).blocks, at, ino.blocks, ind, data)
    ensures e.disk[ind] == Unwords(Words(fs.disk[ind])[0 := data])
    ensures forall j: nat :: j < INODE_NUM && j != inum ==> GetInode(e.disk, j) == GetInode(fs.disk, j)
  {
    hide SystemBlocks, GetInode, PutInode, Grow, WriteFrom, Words, Unwords;
    var ino := GetInode(fs.disk, inum);
    var f, q, i, dt := GrowLarge(fs, ino.blocks, at);
    ind, data := i, dt;
    LargePointers(fs.disk, f.disk, ino.blocks, q, at, ind, data);
    Avoids(f.disk, q, a, junk, 0, ind);
    var d := WriteFrom(f.disk, q, a, junk, 0);
    var ino1 := Inode(ino.kind, |a|, now, now, now, q);
    e := Fs(PutInode(d, inum, ino1), f.used);
    PutElsewhere(d, inum, ino1, ind);
    PutGet(d, inum, ino1, inum);
    forall j: nat | j < INODE_NUM && j != inum ensures GetInode(e.disk, j) == GetInode(fs.disk, j) {
      PutGet(d, inum, ino1, j);
      TableAvoided(f.disk, q, a, junk, j);
      Layout(j);
      assert GetInode(f.disk, j) == GetInode(fs.disk, j) by { SameInode(fs.disk, f.disk, j); }
    }
  }

  lemma LargePointers(d: Disk, e: Disk, p: Ptrs, q: Ptrs, at: nat, ind: nat, data: nat)
    requires Behind(p, at, q, ind, data) && e[ind] == Unwords(Words(d[ind])[0 := data])
    ensures forall l: nat {:trigger Nth(e, q, l)} :: l < NDIRECT + 1 ==>
      Nth(e, q, l) == (if l < NDIRECT then at + l else data) && Nth(e, q, l) != ind && Nth(e, q, l) >= FILEBLOCK
  {
    WordsBack(Words(d[ind])[0 := data]);
  }

  lemma PutElsewhere(d: Disk, inum: nat, ino: Inode, id: nat)
    requires inum < INODE_NUM && FILEBLOCK <= id < BLOCK_NUM
    ensures PutInode(d, inum, ino)[id] == d[id]
  {
    Layout(inum);
  }

  lemma SameInode(d: Disk, e: Disk, j: nat)
    requires j < INODE_NUM && e[IBlock(j)] == d[IBlock(j)]
    ensures GetInode(e, j) == GetInode(d, j)
  {}

  /** Removing the file frees all its blocks, but its inode keeps the pointer. */
  lemma LargeRemoved(fs: Fs, e: Fs, inum: nat, p: Ptrs, at: nat, ind: nat, data: nat) returns (r: Fs)
    requires inum < INODE_NUM && GetInode(e.disk, inum).kind != 0 && BlockCount(GetInode(e.disk, inum).size) == NDIRECT + 1
    requires p[NDIRECT] == 0 && Behind(p, at, GetInode(e.disk, inum).blocks, ind, data)
    requires e.used == SystemBlocks(data + 1) && e.disk[ind] == Unwords(Words(fs.disk[ind])[0 := data])
    ensures RemoveFile(e, inum) == Some(r) && r.used == SystemBlocks(at)
    ensures GetInode(r.disk, inum) == BLANK.(blocks := GetInode(e.disk, inum).blocks)
    ensures forall i: nat :: i < INODE_NUM && i != inum ==> GetInode(r.disk, i) == GetInode(e.disk, i)
  {
    hide GetInode, PutInode, SystemBlocks, Words, Unwords, Freed;
    var ino := GetInode(e.disk, inum);
    var ino1 := BLANK.(blocks := ino.blocks);
    var used := Freed(e.disk, e.used, ino.blocks, 0, NDIRECT + 1) - {ind};
    LargePointers(fs.disk, e.disk, p, ino.blocks, at, ind, data);
    FreedIds(e.disk, e.used, ino.blocks, 0, NDIRECT + 1);
    FreedFront(e.disk, e.used, ino.blocks, at, ind, data);
    r := Fs(PutInode(e.disk, inum, ino1), used);
    PutGet(e.disk, inum, ino1, inum);
    forall i: nat | i < INODE_NUM && i != inum ensures GetInode(r.disk, i) == GetInode(e.disk, i) { PutGet(e.disk, inum, ino1, i); }
  }

  lemma FreedFront(d: Disk, used: set<nat>, q: Ptrs, at: nat, ind: nat, data: nat)
    requires used == SystemBlocks(data + 1) && ind == at + NDIRECT && data == ind + 1
    requires forall l: nat {:trigger Nth(d, q, l)} :: l < NDIRECT + 1 ==> Nth(d, q, l) == if l < NDIRECT then at + l else data
    ensures used - Ids(d, q, 0, NDIRECT + 1) - {ind} == SystemBlocks(at)
  {
    hide Nth;
    var ids := Ids(d, q, 0, NDIRECT + 1);
    forall b: nat ensures b in used - ids - {ind} <==> b < at {
      if at <= b < ind {
        var l: nat := b - at;
        assert Nth(d, q, l) == b;
      }
      if b == data {
        var l: nat := NDIRECT;
        assert Nth(d, q, l) == b;
      }
    }
  }

  /** An allocation that finds inode n. */
  lemma CreateAt(fs: Fs, n: nat) returns (e: Fs)
    requires 1 <= n < INODE_NUM && GetInode(fs.disk, n).kind == 0
    requires forall i: nat :: 1 <= i < n ==> GetInode(fs.disk, i).kind != 0
    ensures Apply(fs, Create(T_FILE)) == Some(e) && e.used == fs.used
    ensures GetInode(e.disk, n) == BLANK.(kind := T_FILE, blocks := GetInode(fs.disk, n).blocks)
    ensures forall i: nat :: i < INODE_NUM && i != n ==> GetInode(e.disk, i) == GetInode(fs.disk, i)
  {
    hide GetInode, PutInode, FreeInum;
    FoundAt(fs.disk, n, 1);
    var ino := BLANK.(kind := T_FILE, blocks := GetInode(fs.disk, n).blocks);
    e := fs.(disk := PutInode(fs.disk, n, ino));
    PutGet(fs.disk, n, ino, n);
    forall i: nat | i < INODE_NUM && i != n ensures GetInode(e.disk, i) == GetInode(fs.disk, i) { PutGet(fs.disk, n, ino, i); }
  }

  lemma {:induction false} FoundAt(d: Disk, n: nat, i: nat)
    requires 1 <= i <= n < INODE_NUM && GetInode(d, n).kind == 0
    requires forall j: nat :: 1 <= j < n ==> GetInode(d, j).kind != 0
    ensures FreeInum(d, i) == n
    decreases n - i
  {
    hide GetInode;
    FreeInumTurn(d, i);
    if i < n { FoundAt(d, n, i + 1); }
  }

  /** Two files are made on the freed blocks; the second one lies in the block the stale pointer names. */
  lemma MakeVictims(f3: Fs, b: seq<Byte>, junk: Block, now: Word) returns (f4: Fs, f5: Fs, f6: Fs, f7: Fs, f8: Fs)
    requires BlockCount(|b|) == NDIRECT && f3.used == SystemBlocks(FILEBLOCK)
    requires GetInode(f3.disk, 1).kind == 0
    requires forall i: nat :: i < INODE_NUM && i != 1 ==> GetInode(f3.disk, i) == BLANK
    ensures Apply(f3, Create(T_FILE)) == Some(f4) && Apply(f4, Create(T_FILE)) == Some(f5) && Apply(f5, Create(T_FILE)) == Some(f6)
    ensures Apply(f6, Write(2, b, junk, now)) == Some(f7) && Apply(f7, Write(3, ZEROES, junk, now)) == Some(f8)
    ensures f8.used == SystemBlocks(FILEBLOCK + NDIRECT + 1) && f8.disk[FILEBLOCK + NDIRECT] == ZEROES
    ensures GetInode(f8.disk, 1).size == 0 && GetInode(f8.disk, 1).blocks == GetInode(f3.disk, 1).blocks
    ensures GetInode(f8.disk, 3).size == BLOCK_SIZE && GetInode(f8.disk, 3).blocks[0] == FILEBLOCK + NDIRECT
  {
    hide GetInode, SystemBlocks, WriteFile, Front;
    f4 := CreateAt(f3, 1);
    f5 := CreateAt(f4, 2);
    f6 := CreateAt(f5, 3);
    f7 := WriteFront(f6, 2, b, junk, now, FILEBLOCK);
    f8 := WriteFront(f7, 3, ZEROES, junk, now, FILEBLOCK + NDIRECT);
  }

  lemma ReadOne(fs: Fs, inum: nat)
    requires inum < INODE_NUM && GetInode(fs.disk, inum).size == BLOCK_SIZE && FILEBLOCK <= GetInode(fs.disk, inum).blocks[0] < BLOCK_NUM
    ensures ReadFile(fs, inum) == Some(fs.disk[GetInode(fs.disk, inum).blocks[0]])
  {
    hide GetInode, Words;
    var p := GetInode(fs.disk, inum).blocks;
    assert BlockCount(BLOCK_SIZE) == 1 && ReadFrom(fs.disk, p, BLOCK_SIZE, 1) == [];
    var b := ReadBlock(fs.disk, Nth(fs.disk, p, 0));
    assert ReadFrom(fs.disk, p, BLOCK_SIZE, 0) == b + [] == b;
  }

  function Overwriting(a: seq<Byte>, b: seq<Byte>, junk: Block, now: Word): seq<Op> {
    LargeRemoval(a, junk, now) + [Create(T_FILE), Create(T_FILE), Create(T_FILE), Write(2, b, junk, now), Write(3, ZEROES, junk, now)]
  }

  lemma {:induction false} RunAppend(fs: Fs, ops: seq<Op>, more: seq<Op>)
    requires Run(fs, ops).Some?
    ensures Run(fs, ops + more) == Run(Run(fs, ops).value, more)
    decreases |ops|
  {
    hide Apply;
    if ops == [] {
      assert ops + more == more;
    } else {
      assert (ops + more)[1..] == ops[1..] + more && (ops + more)[0] == ops[0];
      RunAppend(Apply(fs, ops[0]).value, ops[1..], more);
    }
  }

  /** After a file with an indirect block was removed and its inode used again, writing that inode
      changes what another file reads. */
  lemma WriteChangesAnotherFile(superblock: Block, a: seq<Byte>, b: seq<Byte>, junk: Block, now: Word)
    requires BlockCount(|a|) == NDIRECT + 1 && BlockCount(|b|) == NDIRECT
    ensures var before := Run(Format(superblock), Overwriting(a, b, junk, now));
            && before.Some? && ReadFile(before.value, 3) == Some(ZEROES)
            && var after := Apply(before.value, Write(1, a, junk, now));
               after.Some? && ReadFile(after.value, 3).Some? && ReadFile(after.value, 3) != Some(ZEROES)
  {
    hide GetInode, SystemBlocks, WriteFile, RemoveFile, AllocInode, Format, Inv, ReadFile, Words, Unwords;
    var f0 := Format(superblock);
    var f1 := FirstCreate(superblock, T_FILE);
    var f2, ind, data := LargeWrite(f1, 1, a, junk, now, FILEBLOCK);
    var f3 := LargeRemoved(f1, f2, 1, GetInode(f1.disk, 1).blocks, FILEBLOCK, ind, data);
    ThreeSteps(f0, Create(T_FILE), Write(1, a, junk, now), Remove(1), f1, f2, f3);
    var f4, f5, f6, f7, f8 := MakeVictims(f3, b, junk, now);
    var make := [Create(T_FILE), Create(T_FILE), Create(T_FILE)];
    var fill := [Write(2, b, junk, now), Write(3, ZEROES, junk, now)];
    ThreeSteps(f3, make[0], make[1], make[2], f4, f5, f6);
    TwoSteps(f6, fill[0], fill[1], f7, f8);
    RunAppend(f3, make, fill);
    RunAppend(f0, LargeRemoval(a, junk, now), make + fill);
    assert Overwriting(a, b, junk, now) == LargeRemoval(a, junk, now) + (make + fill);
    ReadOne(f8, 3);
    var f9, _, word := LargeWrite(f8, 1, a, junk, now, FILEBLOCK + NDIRECT + 1);
    ReadOne(f9, 3);
    PointerIsNotZero(word);
  }

  lemma TwoSteps(fs: Fs, a: Op, b: Op, fs1: Fs, fs2: Fs)
    requires Apply(fs, a) == Some(fs1) && Apply(fs1, b) == Some(fs2)
    ensures Run(fs, [a, b]) == Some(fs2)
  {
    hide Apply;
    assert [a, b][1..] == [b] && [b][1..] == [];
    assert Run(fs2, []) == Some(fs2) && Run(fs1, [b]) == Some(fs2);
  }

  lemma PointerIsNotZero(word: Word)
    requires word != 0
    ensures Unwords(Words(ZEROES)[0 := word]) != ZEROES
  {
    var ws: seq<Word> := Words(ZEROES)[0 := word];
    WordsBack(ws);
    ZeroWords(ZEROES);
    assert Words(Unwords(ws))[0] == word && Words(ZEROES)[0] == 0;
  }
}

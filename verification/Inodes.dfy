/** The inode layer as functions of the disk and the marked blocks. `None` is a failed assert,
    after which the process is gone. */
module Inodes {
  import opened Bytes
  import opened Options
  import opened Blocks

  const NDIRECT := 100
  const NINDIRECT := 128
  const MAXFILE := NDIRECT + NINDIRECT
  const MAXSIZE := MAXFILE * BLOCK_SIZE

  const T_DIR := 1
  const T_FILE := 2
  const T_SYMLINK := 3

  /** The inode of the root directory. */
  const ROOT := 1

  type Ptrs = p: seq<Word> | |p| == NDIRECT + 1 witness Repeat(0, NDIRECT + 1)

  datatype Inode = Inode(kind: Word, size: Word, atime: Word, mtime: Word, ctime: Word, blocks: Ptrs)

  /** The disk and the ids marked in `using_blocks`. */
  datatype Fs = Fs(disk: Disk, used: set<nat>)

  // ------------------------------------------------------------------- a new disk

  function Format(superblock: Block): Fs {
    var d: Disk := Repeat(ZEROES, BLOCK_NUM);
    Fs(d[1 := superblock], SystemBlocks(FILEBLOCK))
  }

  function SystemBlocks(n: nat): (s: set<nat>)
    ensures forall b: nat :: b in s <==> b < n
  {
    if n == 0 then {} else SystemBlocks(n - 1) + {n - 1}
  }

  // ------------------------------------------------------------------ the inode table

  function GetInode(d: Disk, inum: nat): Inode
    requires inum < INODE_NUM
  {
    InodeIn(Words(d[IBlock(inum)]))
  }

  function InodeIn(ws: seq<Word>): Inode
    requires |ws| == WORDS
  {
    Inode(ws[0], ws[1], ws[2], ws[3], ws[4], ws[5..5 + NDIRECT + 1])
  }

  function InodeWords(ino: Inode): seq<Word> { [ino.kind, ino.size, ino.atime, ino.mtime, ino.ctime] + ino.blocks }

  function PutInode(d: Disk, inum: nat, ino: Inode): Disk
    requires inum < INODE_NUM
  {
    WriteBlock(d, IBlock(inum), Unwords(InodeWords(ino) + Words(d[IBlock(inum)])[NDIRECT + 6..]))
  }

  /** An inode is read back as it was put, and no other inode changes. */
  lemma PutGet(d: Disk, inum: nat, ino: Inode, i: nat)
    requires inum < INODE_NUM && i < INODE_NUM
    ensures GetInode(PutInode(d, inum, ino), i) == if i == inum then ino else GetInode(d, i)
  {
    var ws := InodeWords(ino) + Words(d[IBlock(inum)])[NDIRECT + 6..];
    WordsBack(ws);
    if i == inum { assert ws[5..5 + NDIRECT + 1] == ino.blocks; }
  }

  function BlockCount(size: nat): nat { if size == 0 then 0 else (size - 1) / BLOCK_SIZE + 1 }

  // ------------------------------------------------------------------- block pointers

  /** Past the direct pointers an indirect block is needed; without one `get_nth_blockid` asserts. */
  predicate Reach(p: Ptrs, n: nat) { n <= NDIRECT || p[NDIRECT] != 0 }

  function Nth(d: Disk, p: Ptrs, n: nat): Word
    requires n < MAXFILE
  {
    if n < NDIRECT then p[n] else Words(ReadBlock(d, p[NDIRECT]))[n - NDIRECT]
  }

  function AllocNth(fs: Fs, p: Ptrs, n: nat): (Fs, Ptrs)
    requires n < MAXFILE
  {
    if n < NDIRECT then (Fs(fs.disk, Alloc(fs.used)), p[n := AllocId(fs.used)])
    else if p[NDIRECT] == 0 then AllocWord(Fs(fs.disk, Alloc(fs.used)), p[NDIRECT := AllocId(fs.used)], n)
    else AllocWord(fs, p, n)
  }

  /** A new block whose id goes into the indirect block. */
  function AllocWord(fs: Fs, p: Ptrs, n: nat): (Fs, Ptrs)
    requires NDIRECT <= n < MAXFILE
  {
    var ws := Words(ReadBlock(fs.disk, p[NDIRECT]));
    var d := WriteBlock(fs.disk, p[NDIRECT], Unwords(ws[n - NDIRECT := AllocId(fs.used)]));
    (Fs(d, Alloc(fs.used)), p)
  }

  function Grow(fs: Fs, p: Ptrs, j: nat, n: nat): (Fs, Ptrs)
    requires n <= MAXFILE
    decreases n - j
  {
    if j >= n then (fs, p) else var (fs1, p1) := AllocNth(fs, p, j); Grow(fs1, p1, j + 1, n)
  }

  function Freed(d: Disk, used: set<nat>, p: Ptrs, j: nat, n: nat): set<nat>
    requires n <= MAXFILE
    decreases n - j
  {
    if j >= n then used else Freed(d, used - {Nth(d, p, j)}, p, j + 1, n)
  }

  /** The block written for bytes of buf from block i on; past the end of buf it is junk. */
  function Chunk(buf: seq<Byte>, i: nat, junk: Block): Block
    requires i < BlockCount(|buf|)
  {
    if (i + 1) * BLOCK_SIZE <= |buf| then buf[i * BLOCK_SIZE..(i + 1) * BLOCK_SIZE]
    else buf[i * BLOCK_SIZE..] + junk[|buf| - i * BLOCK_SIZE..]
  }

  function WriteFrom(d: Disk, p: Ptrs, buf: seq<Byte>, junk: Block, i: nat): Disk
    requires |buf| <= MAXSIZE
    decreases BlockCount(|buf|) - i
  {
    if i >= BlockCount(|buf|) then d
    else WriteFrom(WriteBlock(d, Nth(d, p, i), Chunk(buf, i, junk)), p, buf, junk, i + 1)
  }

  function ReadFrom(d: Disk, p: Ptrs, size: nat, i: nat): seq<Byte>
    requires size <= MAXSIZE
    decreases BlockCount(size) - i
  {
    if i >= BlockCount(size) then []
    else if (i + 1) * BLOCK_SIZE <= size then ReadBlock(d, Nth(d, p, i)) + ReadFrom(d, p, size, i + 1)
    else ReadBlock(d, Nth(d, p, i))[..size - i * BLOCK_SIZE]
  }

  /** The block count as the full blocks and a rest. */
  lemma CountParts(size: nat)
    ensures BlockCount(size) == size / BLOCK_SIZE + (if size % BLOCK_SIZE == 0 then 0 else 1)
    ensures size <= MAXSIZE <==> BlockCount(size) <= MAXFILE
  {}

  lemma WriteTurn(d: Disk, p: Ptrs, buf: seq<Byte>, junk: Block, i: nat)
    requires |buf| < MAXSIZE && i < BlockCount(|buf|)
    ensures WriteFrom(d, p, buf, junk, i) == WriteFrom(WriteBlock(d, Nth(d, p, i), Chunk(buf, i, junk)), p, buf, junk, i + 1)
    ensures i < |buf| / BLOCK_SIZE ==> Chunk(buf, i, junk) == buf[i * BLOCK_SIZE..(i + 1) * BLOCK_SIZE]
    ensures i == |buf| / BLOCK_SIZE ==> Chunk(buf, i, junk) == buf[i * BLOCK_SIZE..] + junk[|buf| % BLOCK_SIZE..]
  {}

  lemma ReadTurn(d: Disk, p: Ptrs, size: nat, i: nat, s: seq<Byte>)
    requires size <= MAXSIZE && i < BlockCount(size)
    ensures var b := ReadBlock(d, Nth(d, p, i));
            && (i < size / BLOCK_SIZE ==> s + ReadFrom(d, p, size, i) == s + b + ReadFrom(d, p, size, i + 1))
            && (i == size / BLOCK_SIZE ==> ReadFrom(d, p, size, i) == b[..size % BLOCK_SIZE])
  {}

  // ------------------------------------------------------------------- file operations

  /** What `read_file` puts in the caller's buffer; an inode number out of range puts nothing. */
  function ReadFile(fs: Fs, inum: nat): Option<seq<Byte>> {
    if inum >= INODE_NUM then Some([])
    else
      var ino := GetInode(fs.disk, inum);
      if ino.size > MAXSIZE || !Reach(ino.blocks, BlockCount(ino.size)) then None
      else Some(ReadFrom(fs.disk, ino.blocks, ino.size, 0))
  }

  function Resize(fs: Fs, p: Ptrs, was: nat, now: nat): (Fs, Ptrs)
    requires was <= MAXFILE && now <= MAXFILE
  {
    if was < now then Grow(fs, p, was, now) else (Fs(fs.disk, Freed(fs.disk, fs.used, p, now, was)), p)
  }

  /** junk is what the last block's buffer held before, now is the clock. */
  function WriteFile(fs: Fs, inum: nat, buf: seq<Byte>, junk: Block, now: Word): Option<Fs> {
    if |buf| >= MAXSIZE then None
    else if inum >= INODE_NUM then Some(fs)
    else
      var ino := GetInode(fs.disk, inum);
      if ino.size > MAXSIZE then None
      else
        var (fs1, p) := Resize(fs, ino.blocks, BlockCount(ino.size), BlockCount(|buf|));
        if !Reach(p, BlockCount(ino.size)) || !Reach(p, BlockCount(|buf|)) then None
        else
          var d := WriteFrom(fs1.disk, p, buf, junk, 0);
          Some(Fs(PutInode(d, inum, Inode(ino.kind, |buf|, now, now, now, p)), fs1.used))
  }

  /** The first free inode from i on, or INODE_NUM. */
  function FreeInum(d: Disk, i: nat): (n: nat)
    ensures n <= INODE_NUM
    ensures n < INODE_NUM ==> i <= n && GetInode(d, n).kind == 0
    ensures forall j :: i <= j < n ==> GetInode(d, j).kind != 0
    decreases INODE_NUM - i
  {
    if i >= INODE_NUM then INODE_NUM else if GetInode(d, i).kind == 0 then i else FreeInum(d, i + 1)
  }

  lemma FreeInumTurn(d: Disk, i: nat)
    requires i < INODE_NUM
    ensures FreeInum(d, i) == if GetInode(d, i).kind == 0 then i else FreeInum(d, i + 1)
  {}

  /** With every inode in use the loop reaches the first number out of range and dereferences NULL. */
  function AllocInode(fs: Fs, kind: Word): Option<(Fs, nat)> {
    var i := FreeInum(fs.disk, 1);
    if i == INODE_NUM then None
    else Some((fs.(disk := PutInode(fs.disk, i, Inode(kind, 0, 0, 0, 0, GetInode(fs.disk, i).blocks))), i))
  }

  /** The block pointers stay in the freed inode. */
  function FreeInode(fs: Fs, inum: nat): Option<Fs> {
    if inum >= INODE_NUM then Some(fs)
    else if GetInode(fs.disk, inum).kind == 0 then None
    else Some(fs.(disk := PutInode(fs.disk, inum, Inode(0, 0, 0, 0, 0, GetInode(fs.disk, inum).blocks))))
  }

  function RemoveFile(fs: Fs, inum: nat): Option<Fs> {
    if inum >= INODE_NUM then None
    else
      var ino := GetInode(fs.disk, inum);
      var n := BlockCount(ino.size);
      if n > MAXFILE || !Reach(ino.blocks, n) then None
      else
        var used := Freed(fs.disk, fs.used, ino.blocks, 0, n);
        FreeInode(Fs(fs.disk, if n > NDIRECT then used - {ino.blocks[NDIRECT]} else used), inum)
  }
}

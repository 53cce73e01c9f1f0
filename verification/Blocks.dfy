/** Bytes, words and the disk: 32768 blocks of 512 bytes. The first blocks hold the boot block,
    the superblock, the bitmap and the inode table; the rest are data blocks. */
module Blocks {

  import opened Bytes

  const BLOCK_SIZE := 512
  const BLOCK_NUM := 32768
  const INODE_NUM := 1024
  const BPB := BLOCK_SIZE * 8
  const IPB := 1
  const WORDS := 128

  /** The block that holds inode i; one past the last inode block is the first data block. */
  function IBlock(i: nat): nat { BLOCK_NUM / BPB + i / IPB + 3 }
  const FILEBLOCK := 1035

  function Repeat<T>(x: T, n: nat): (s: seq<T>)
    ensures |s| == n && forall i :: 0 <= i < n ==> s[i] == x
  {
    seq(n, _ => x)
  }

  type Block = b: seq<Byte> | |b| == BLOCK_SIZE witness Repeat(0, BLOCK_SIZE)
  const ZEROES: Block := Repeat(0, BLOCK_SIZE)
  type Disk = d: seq<Block> | |d| == BLOCK_NUM witness Repeat(ZEROES, BLOCK_NUM)

  lemma Layout(i: nat)
    ensures FILEBLOCK == IBlock(INODE_NUM) && IBlock(i) == 11 + i
  {}

  // ------------------------------------------------------- blocks seen as 32-bit words

  function WordAt(block: Block, i: nat): Word
    requires i < WORDS
  {
    var b: seq<int> := block;
    b[4 * i] + 0x100 * b[4 * i + 1] + 0x10000 * b[4 * i + 2] + 0x1000000 * b[4 * i + 3]
  }

  function ByteOf(w: Word, k: nat): Byte {
    if k == 0 then w % 256 else if k == 1 then w / 0x100 % 256 else if k == 2 then w / 0x10000 % 256 else w / 0x1000000
  }

  function Words(b: Block): (ws: seq<Word>)
    ensures |ws| == WORDS
  {
    seq(WORDS, i requires 0 <= i < WORDS => WordAt(b, i))
  }

  function Unwords(ws: seq<Word>): Block
    requires |ws| == WORDS
  {
    seq(BLOCK_SIZE, k requires 0 <= k < BLOCK_SIZE => ByteOf(ws[k / 4], k % 4))
  }

  lemma WordParts(w: Word)
    ensures var b: int := ByteOf(w, 0); b + 0x100 * ByteOf(w, 1) + 0x10000 * ByteOf(w, 2) + 0x1000000 * ByteOf(w, 3) == w
  {
    var h, l := w / 0x10000, w % 0x10000;
    assert w % 256 == l % 256 && w / 256 % 256 == l / 256;
    assert w / 0x1000000 == h / 256;
  }

  /** What is stored as words is read back as words. */
  lemma WordsBack(ws: seq<Word>)
    requires |ws| == WORDS
    ensures Words(Unwords(ws)) == ws
  {
    forall i | 0 <= i < WORDS ensures Words(Unwords(ws))[i] == ws[i] {
      assert 4 * i / 4 == (4 * i + 1) / 4 == (4 * i + 2) / 4 == (4 * i + 3) / 4 == i;
      WordParts(ws[i]);
    }
  }

  lemma ZeroWords(b: Block)
    requires forall i :: 0 <= i < BLOCK_SIZE ==> b[i] == 0
    ensures forall i :: 0 <= i < WORDS ==> Words(b)[i] == 0
  {}

  // ------------------------------------------------------------------- the block layer

  /** A read outside the disk copies nothing; it is taken as zeroes here. */
  function ReadBlock(d: Disk, id: nat): Block { if id < BLOCK_NUM then d[id] else ZEROES }

  function WriteBlock(d: Disk, id: nat, b: Block): Disk { if id < BLOCK_NUM then d[id := b] else d }

  /** The first unmarked data block from i on, or 0. */
  function FirstFree(used: set<nat>, i: nat): (b: nat)
    requires FILEBLOCK <= i <= BLOCK_NUM
    ensures b == 0 ==> forall k: nat :: i <= k < BLOCK_NUM ==> k in used
    ensures b != 0 ==> i <= b < BLOCK_NUM && b !in used && forall k: nat :: i <= k < b ==> k in used
    decreases BLOCK_NUM - i
  {
    if i == BLOCK_NUM then 0 else if i !in used then i else FirstFree(used, i + 1)
  }

  function AllocId(used: set<nat>): nat { FirstFree(used, FILEBLOCK) }

  /** The block 0 that stands for failure is not marked. */
  function Alloc(used: set<nat>): set<nat> { if AllocId(used) == 0 then used else used + {AllocId(used)} }

  /** The data blocks that can still be allocated. */
  ghost function Free(used: set<nat>): set<nat> { set b: nat | FILEBLOCK <= b < BLOCK_NUM && b !in used }

  lemma AllocTakesOne(used: set<nat>)
    ensures AllocId(used) == 0 <==> Free(used) == {}
    ensures AllocId(used) != 0 ==>
      AllocId(used) in Free(used) && Free(Alloc(used)) == Free(used) - {AllocId(used)} && |Free(Alloc(used))| == |Free(used)| - 1
  {
    var b := AllocId(used);
    if b != 0 {
      assert b in Free(used);
      assert Free(Alloc(used)) == Free(used) - {b};
    } else {
      forall k: nat | FILEBLOCK <= k < BLOCK_NUM ensures k !in Free(used) { assert k in used; }
    }
  }
}

/** The inode manager as it runs: a disk array and a marking that are updated in place. A method
    that returns false for `ok` stopped at a failed assert; nothing is said about what is left. */
module InodeManager {
  import opened Bytes
  import opened Options
  import opened Blocks
  import opened Inodes

  class Manager {
    const blocks: array<Block>
    var used: set<nat>

    constructor (superblock: Block)
      ensures Valid() && View() == Format(superblock) && fresh(blocks)
    {
      blocks := new Block[BLOCK_NUM](_ => ZEROES);
      used := {};
      new;
      var i := 0;
      while i < FILEBLOCK
        invariant 0 <= i <= FILEBLOCK && used == SystemBlocks(i)
        invariant blocks[..] == Repeat(ZEROES, BLOCK_NUM)
      {
        used := used + {i};
        i := i + 1;
      }
      blocks[1] := superblock;
    }

    ghost predicate Valid() { blocks.Length == BLOCK_NUM }

    ghost function Disk(): Blocks.Disk
      requires Valid()
      reads blocks
    {
      blocks[..]
    }

    ghost function View(): Fs
      requires Valid()
      reads this, blocks
    {
      Fs(Disk(), used)
    }

    method ReadBlock(id: nat) returns (b: Block)
      requires Valid()
      ensures b == Blocks.ReadBlock(Disk(), id)
    {
      b := if id < BLOCK_NUM then blocks[id] else ZEROES;
    }

    method WriteBlock(id: nat, b: Block)
      requires Valid()
      modifies blocks
      ensures Disk() == Blocks.WriteBlock(old(Disk()), id, b)
    {
      if id < BLOCK_NUM { blocks[id] := b; }
    }

    method AllocBlock() returns (id: nat)
      requires Valid()
      modifies this
      ensures id == AllocId(old(used)) && used == Alloc(old(used))
    {
      var i := FILEBLOCK;
      while i < BLOCK_NUM
        invariant FILEBLOCK <= i <= BLOCK_NUM && used == old(used)
        invariant FirstFree(used, i) == AllocId(used)
      {
        if i !in used {
          used := used + {i};
          return i;
        }
        i := i + 1;
      }
      return 0;
    }

    method FreeBlock(id: nat)
      requires Valid()
      modifies this
      ensures used == old(used) - {id}
    {
      used := used - {id};
    }

    method ReadInode(inum: nat) returns (ino: Inode)
      requires Valid() && inum < INODE_NUM
      ensures ino == GetInode(Disk(), inum)
    {
      var b := ReadBlock(IBlock(inum));
      ino := InodeIn(Words(b));
    }

    method StoreInode(inum: nat, ino: Inode)
      requires Valid() && inum < INODE_NUM
      modifies blocks
      ensures Disk() == PutInode(old(Disk()), inum, ino)
    {
      var b := ReadBlock(IBlock(inum));
      WriteBlock(IBlock(inum), Unwords(InodeWords(ino) + Words(b)[NDIRECT + 6..]));
    }

    method GetNthBlockid(p: Ptrs, n: nat) returns (ok: bool, id: nat)
      requires Valid()
      ensures ok <==> n < MAXFILE && Reach(p, n + 1)
      ensures ok ==> id == Nth(Disk(), p, n)
    {
      if n < NDIRECT { return true, p[n]; }
      if n >= MAXFILE || p[NDIRECT] == 0 { return false, 0; }
      var b := ReadBlock(p[NDIRECT]);
      return true, Words(b)[n - NDIRECT];
    }

    method AllocNthBlock(p: Ptrs, n: nat) returns (q: Ptrs)
      requires Valid() && n < MAXFILE
      modifies this, blocks
      ensures (View(), q) == AllocNth(old(View()), p, n)
    {
      q := p;
      if n < NDIRECT {
        var b := AllocBlock();
        q := q[n := b];
      } else {
        if q[NDIRECT] == 0 {
          var b := AllocBlock();
          q := q[NDIRECT := b];
        }
        var buf := ReadBlock(q[NDIRECT]);
        var b := AllocBlock();
        WriteBlock(q[NDIRECT], Unwords(Words(buf)[n - NDIRECT := b]));
      }
    }

    method AllocBlocks(p: Ptrs, from: nat, n: nat) returns (q: Ptrs)
      requires Valid() && from <= n <= MAXFILE
      modifies this, blocks
      ensures (View(), q) == Grow(old(View()), p, from, n)
    {
      q := p;
      var j := from;
      while j < n
        invariant from <= j <= n
        invariant Grow(View(), q, j, n) == Grow(old(View()), p, from, n)
      {
        q := AllocNthBlock(q, j);
        j := j + 1;
      }
    }

    method FreeBlocks(p: Ptrs, from: nat, n: nat) returns (ok: bool)
      requires Valid() && from <= n
      modifies this
      ensures ok <==> from == n || (n <= MAXFILE && Reach(p, n))
      ensures ok ==> used == if n <= MAXFILE then Freed(Disk(), old(used), p, from, n) else old(used)
    {
      var j := from;
      while j < n
        invariant from <= j <= n
        invariant j > from ==> j <= MAXFILE && Reach(p, j)
        invariant n <= MAXFILE ==> Freed(Disk(), used, p, j, n) == Freed(Disk(), old(used), p, from, n)
        invariant j == from ==> used == old(used)
      {
        var found, id := GetNthBlockid(p, j);
        if !found { return false; }
        FreeBlock(id);
        j := j + 1;
      }
      return true;
    }

    method WriteFile(inum: nat, buf: seq<Byte>, junk: Block, now: Word) returns (ok: bool)
      requires Valid()
      modifies this, blocks
      ensures ok <==> Inodes.WriteFile(old(View()), inum, buf, junk, now).Some?
      ensures ok ==> Some(View()) == Inodes.WriteFile(old(View()), inum, buf, junk, now)
    {
      if |buf| >= MAXSIZE { return false; }
      if inum >= INODE_NUM { return true; }
      var ino := ReadInode(inum);
      var was, n := BlockCount(ino.size), BlockCount(|buf|);
      var p := ino.blocks;
      if was < n {
        p := AllocBlocks(p, was, n);
      } else {
        var freed := FreeBlocks(p, n, was);
        if !freed { return false; }
      }
      ok := WriteData(p, buf, junk);
      if ok { StoreInode(inum, Inode(ino.kind, |buf|, now, now, now, p)); }
    }

    method WriteNth(p: Ptrs, i: nat, b: Block) returns (ok: bool)
      requires Valid()
      modifies blocks
      ensures ok <==> i < MAXFILE && Reach(p, i + 1)
      ensures ok ==> Disk() == Blocks.WriteBlock(old(Disk()), Nth(old(Disk()), p, i), b)
    {
      var id;
      ok, id := GetNthBlockid(p, i);
      if ok { WriteBlock(id, b); }
    }

    method WriteData(p: Ptrs, buf: seq<Byte>, junk: Block) returns (ok: bool)
      requires Valid() && |buf| < MAXSIZE
      modifies blocks
      ensures ok <==> Reach(p, BlockCount(|buf|))
      ensures ok ==> Disk() == WriteFrom(old(Disk()), p, buf, junk, 0)
    {
      hide Nth, Chunk, BlockCount;
      var full, rest := |buf| / BLOCK_SIZE, |buf| % BLOCK_SIZE;
      CountParts(|buf|);
      ghost var goal := WriteFrom(Disk(), p, buf, junk, 0);
      var i := 0;
      while i < full
        invariant 0 <= i <= full && (i > 0 ==> Reach(p, i))
        invariant WriteFrom(Disk(), p, buf, junk, i) == goal
      {
        WriteTurn(Disk(), p, buf, junk, i);
        ok := WriteNth(p, i, buf[i * BLOCK_SIZE..(i + 1) * BLOCK_SIZE]);
        if !ok { return; }
        i := i + 1;
      }
      ok := true;
      if rest != 0 {
        WriteTurn(Disk(), p, buf, junk, i);
        ok := WriteNth(p, i, buf[i * BLOCK_SIZE..] + junk[rest..]);
      }
    }

    method ReadFile(inum: nat) returns (ok: bool, buf: seq<Byte>)
      requires Valid()
      ensures ok <==> Inodes.ReadFile(View(), inum).Some?
      ensures ok ==> Some(buf) == Inodes.ReadFile(View(), inum)
    {
      if inum >= INODE_NUM { return true, []; }
      var ino := ReadInode(inum);
      if ino.size > MAXSIZE { return false, []; }
      ok, buf := ReadData(ino.blocks, ino.size);
    }

    method ReadNth(p: Ptrs, i: nat) returns (ok: bool, b: Block)
      requires Valid()
      ensures ok <==> i < MAXFILE && Reach(p, i + 1)
      ensures ok ==> b == Blocks.ReadBlock(Disk(), Nth(Disk(), p, i))
    {
      var id;
      b := ZEROES;
      ok, id := GetNthBlockid(p, i);
      if ok { b := ReadBlock(id); }
    }

    method ReadData(p: Ptrs, size: nat) returns (ok: bool, buf: seq<Byte>)
      requires Valid() && size <= MAXSIZE
      ensures ok <==> Reach(p, BlockCount(size))
      ensures ok ==> buf == ReadFrom(Disk(), p, size, 0)
    {
      hide Nth, BlockCount;
      var full, rest := size / BLOCK_SIZE, size % BLOCK_SIZE;
      CountParts(size);
      ghost var d, goal := Disk(), ReadFrom(Disk(), p, size, 0);
      var i, b := 0, ZEROES;
      buf := [];
      while i < full
        invariant 0 <= i <= full && (i > 0 ==> Reach(p, i))
        invariant buf + ReadFrom(d, p, size, i) == goal
      {
        ReadTurn(d, p, size, i, buf);
        ok, b := ReadNth(p, i);
        if !ok { return; }
        buf := buf + b;
        i := i + 1;
      }
      ok := true;
      if rest != 0 {
        ReadTurn(d, p, size, i, buf);
        ok, b := ReadNth(p, i);
        buf := buf + b[..rest];
      }
    }

    method AllocInode(kind: Word) returns (ok: bool, inum: nat)
      requires Valid()
      modifies blocks
      ensures ok <==> Inodes.AllocInode(old(View()), kind).Some?
      ensures ok ==> Some((View(), inum)) == Inodes.AllocInode(old(View()), kind)
    {
      hide Words;
      ghost var d := Disk();
      var i := 1;
      while i < INODE_NUM
        invariant 1 <= i <= INODE_NUM && Disk() == d
        invariant FreeInum(d, i) == FreeInum(d, 1)
      {
        FreeInumTurn(d, i);
        var ino := ReadInode(i);
        if ino.kind == 0 {
          StoreInode(i, Inode(kind, 0, 0, 0, 0, ino.blocks));
          return true, i;
        }
        i := i + 1;
      }
      return false, 0;
    }

    method FreeInode(inum: nat) returns (ok: bool)
      requires Valid()
      modifies blocks
      ensures ok <==> Inodes.FreeInode(old(View()), inum).Some?
      ensures ok ==> Some(View()) == Inodes.FreeInode(old(View()), inum)
    {
      if inum >= INODE_NUM { return true; }
      var ino := ReadInode(inum);
      if ino.kind == 0 { return false; }
      StoreInode(inum, Inode(0, 0, 0, 0, 0, ino.blocks));
      return true;
    }

    method RemoveFile(inum: nat) returns (ok: bool)
      requires Valid()
      modifies this, blocks
      ensures ok <==> Inodes.RemoveFile(old(View()), inum).Some?
      ensures ok ==> Some(View()) == Inodes.RemoveFile(old(View()), inum)
    {
      if inum >= INODE_NUM { return false; }
      var ino := ReadInode(inum);
      var n := BlockCount(ino.size);
      var freed := FreeBlocks(ino.blocks, 0, n);
      if !freed { return false; }
      if n > NDIRECT { FreeBlock(ino.blocks[NDIRECT]); }
      ok := FreeInode(inum);
    }
  }
}

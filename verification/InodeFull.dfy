/** A full disk: `alloc_block` then returns block 0 and its callers do not look, so a write that
    does not fit either dies in an assert or leaves a file that owns block 0. */
module InodeFull {
  import opened Bytes
  import opened Options
  import opened Blocks
  import opened Inodes
  import opened Ownership
  import opened InodeFiles

  predicate HarmlessAt(d: Disk, p: Ptrs, l: nat) { l < MAXFILE ==> Nth(d, p, l) != p[NDIRECT] }

  /** Block c of the first n blocks has no block of its own, and the data of the file does not lie
      in its indirect block. */
  ghost predicate Lost(d: Disk, p: Ptrs, n: nat, c: nat) {
    && c < n <= MAXFILE
    && (c < NDIRECT ==> p[c] == 0)
    && (c >= NDIRECT && p[NDIRECT] != 0 ==>
        && FILEBLOCK <= p[NDIRECT] < BLOCK_NUM && Nth(d, p, c) == 0
        && forall l: nat {:trigger HarmlessAt(d, p, l)} :: l < n ==> HarmlessAt(d, p, l))
  }

  /** Writing pointer b for block n: the other pointers stay. */
  lemma WordSet(fs: Fs, p: Ptrs, n: nat, l: nat)
    requires NDIRECT <= n < MAXFILE && p[NDIRECT] < BLOCK_NUM && l < MAXFILE
    ensures Nth(AllocWord(fs, p, n).0.disk, p, l) == if l == n then AllocId(fs.used) else Nth(fs.disk, p, l)
  {
    WordsBack(Words(ReadBlock(fs.disk, p[NDIRECT]))[n - NDIRECT := AllocId(fs.used)]);
  }

  lemma StarvedStep(fs: Fs, p: Ptrs, j: nat, c: nat) returns (fs1: Fs, q: Ptrs)
    requires AllocId(fs.used) == 0 && j < MAXFILE && Lost(fs.disk, p, j, c)
    ensures (fs1, q) == AllocNth(fs, p, j) && fs1.used == fs.used && Lost(fs1.disk, q, j + 1, c)
  {
    var next := AllocNth(fs, p, j);
    fs1, q := next.0, next.1;
    if c >= NDIRECT && p[NDIRECT] != 0 {
      WordSet(fs, p, j, c);
      forall l: nat | l < j + 1 ensures HarmlessAt(fs1.disk, q, l) {
        WordSet(fs, p, j, l);
        assert l < j ==> HarmlessAt(fs.disk, p, l);
      }
    }
  }

  lemma {:induction false} StarvedGrow(fs: Fs, p: Ptrs, j: nat, n: nat, c: nat, end: (Fs, Ptrs))
    requires AllocId(fs.used) == 0 && j <= n <= MAXFILE && Lost(fs.disk, p, j, c) && end == Grow(fs, p, j, n)
    ensures Lost(end.0.disk, end.1, n, c)
    decreases n - j
  {
    if j < n {
      var fs1, q := StarvedStep(fs, p, j, c);
      assert end == Grow(fs1, q, j + 1, n);
      StarvedGrow(fs1, q, j + 1, n, c, end);
    }
  }

  /** The pointer that cannot be had is 0, where the indirect block exists. */
  lemma ShortWord(fs: Fs, ns: Nodes, i: nat)
    requires Own(fs.disk, fs.used, ns) && i < INODE_NUM && NDIRECT <= ns[i].count < MAXFILE
    requires ns[i].p[NDIRECT] != 0 && AllocId(fs.used) == 0
    ensures Lost(AllocWord(fs, ns[i].p, ns[i].count).0.disk, ns[i].p, ns[i].count + 1, ns[i].count)
  {
    var p, c := ns[i].p, ns[i].count;
    var d := AllocWord(fs, p, c).0.disk;
    assert MarkedAt(fs.disk, fs.used, ns, i, INDIRECT);
    WordSet(fs, p, c, c);
    forall l: nat | l < c + 1 ensures HarmlessAt(d, p, l) {
      WordSet(fs, p, c, l);
      assert ApartAt(fs.disk, ns, i, l, i, INDIRECT);
    }
  }

  lemma ShortStep(fs: Fs, ns: Nodes, i: nat)
    requires Own(fs.disk, fs.used, ns) && i < INODE_NUM && ns[i].count < MAXFILE
    requires |Free(fs.used)| < Cost(ns[i].p, ns[i].count, ns[i].count + 1)
    ensures var (fs1, p) := AllocNth(fs, ns[i].p, ns[i].count);
            AllocId(fs1.used) == 0 && Lost(fs1.disk, p, ns[i].count + 1, ns[i].count)
  {
    var c, p := ns[i].count, ns[i].p;
    AllocTakesOne(fs.used);
    if c >= NDIRECT && p[NDIRECT] != 0 {
      ShortWord(fs, ns, i);
    } else if c >= NDIRECT && AllocId(fs.used) != 0 {
      var b := AllocId(fs.used);
      AddIndirect(fs.disk, fs.used, ns, i, b);
      AllocTakesOne(Alloc(fs.used));
      ShortWord(Fs(fs.disk, Alloc(fs.used)), ns[i := Node(c, p[NDIRECT := b])], i);
    }
  }

  lemma {:induction false} ShortGrow(fs: Fs, ns: Nodes, i: nat, n: nat) returns (c: nat)
    requires Own(fs.disk, fs.used, ns) && i < INODE_NUM && ns[i].count < n <= MAXFILE
    requires |Free(fs.used)| < Cost(ns[i].p, ns[i].count, n)
    ensures var (fs1, p) := Grow(fs, ns[i].p, ns[i].count, n); Lost(fs1.disk, p, n, c)
    decreases n - ns[i].count
  {
    c := ns[i].count;
    var (fs1, p1) := AllocNth(fs, ns[i].p, c);
    if |Free(fs.used)| < Cost(ns[i].p, c, c + 1) {
      ShortStep(fs, ns, i);
      StarvedGrow(fs1, p1, c + 1, n, c, Grow(fs1, p1, c + 1, n));
    } else {
      AllocNthKeeps(fs, ns, i);
      c := ShortGrow(fs1, ns[i := Node(c + 1, p1)], i, n);
    }
  }

  /** Data that does not lie in the indirect block leaves the pointers alone. */
  lemma {:induction false} LostStays(d: Disk, p: Ptrs, buf: seq<Byte>, junk: Block, k: nat, n: nat, c: nat)
    requires |buf| <= MAXSIZE && n == BlockCount(|buf|) && Lost(d, p, n, c)
    ensures Lost(WriteFrom(d, p, buf, junk, k), p, n, c)
    decreases n - k
  {
    if k < n {
      var e := WriteBlock(d, Nth(d, p, k), Chunk(buf, k, junk));
      assert c >= NDIRECT && p[NDIRECT] != 0 ==> HarmlessAt(d, p, k);
      forall l: nat | l < n ensures c >= NDIRECT && p[NDIRECT] != 0 ==> HarmlessAt(e, p, l) {
        assert c >= NDIRECT && p[NDIRECT] != 0 ==> HarmlessAt(d, p, l);
      }
      LostStays(e, p, buf, junk, k + 1, n, c);
    }
  }

  /** A write keeps the invariant exactly when its blocks fit on the disk and it puts no text into an
      unused inode. */
  lemma WriteNeedsRoom(fs: Fs, inum: nat, buf: seq<Byte>, junk: Block, now: Word)
    requires Inv(fs) && inum < INODE_NUM && |buf| < MAXSIZE
    ensures var r := WriteFile(fs, inum, buf, junk, now);
            (r.Some? && Inv(r.value)) <==> Room(fs, inum, |buf|) && (GetInode(fs.disk, inum).kind != 0 || buf == [])
  {
    if Room(fs, inum, |buf|) {
      WriteFileRefines(fs, inum, buf, junk, now);
    } else {
      var ns := NodesOf(fs.disk);
      var ino := GetInode(fs.disk, inum);
      assert SoundAt(ns, inum) && ns[inum] == NodeOf(ino);
      var n := BlockCount(|buf|);
      var c := ShortGrow(fs, ns, inum, n);
      var (fs1, p) := Grow(fs, ino.blocks, BlockCount(ino.size), n);
      LostStays(fs1.disk, p, buf, junk, 0, n, c);
      if Reach(p, n) { LostBreaks(WriteFrom(fs1.disk, p, buf, junk, 0), fs1.used, inum, Inode(ino.kind, |buf|, now, now, now, p), c); }
    }
  }

  lemma LostBreaks(d: Disk, used: set<nat>, inum: nat, ino: Inode, c: nat)
    requires inum < INODE_NUM && Lost(d, ino.blocks, BlockCount(ino.size), c) && Reach(ino.blocks, BlockCount(ino.size))
    ensures !Inv(Fs(PutInode(d, inum, ino), used))
  {
    var e := PutInode(d, inum, ino);
    NodesAfterPut(d, inum, ino);
    Layout(inum);
    assert At(e, NodesOf(e), inum, c) == 0;
    assert !MarkedAt(e, used, NodesOf(e), inum, c);
  }
}

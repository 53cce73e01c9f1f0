/** Who owns which block: the marked data blocks are exactly the disjoint union of the blocks the
    inodes own. An indirect block that is kept after a file shrank still counts as owned. */
module Ownership {
  import opened Bytes
  import opened Blocks
  import opened Inodes

  /** An inode as the allocator sees it, also in the middle of a write: how many blocks it holds. */
  datatype Node = Node(count: nat, p: Ptrs)

  type Nodes = ns: seq<Node> | |ns| == INODE_NUM witness Repeat(Node(0, Repeat(0, NDIRECT + 1)), INODE_NUM)

  /** Slot INDIRECT of an inode is its indirect block; the slots below are its data blocks. */
  const INDIRECT := MAXFILE

  predicate Live(ns: Nodes, i: nat, k: nat) {
    i < INODE_NUM && ((k < ns[i].count && k < MAXFILE) || (k == INDIRECT && ns[i].p[NDIRECT] != 0))
  }

  /** The block in a slot. */
  function At(d: Disk, ns: Nodes, i: nat, k: nat): nat {
    if i >= INODE_NUM || k > INDIRECT then 0
    else if k == INDIRECT then ns[i].p[NDIRECT]
    else Nth(d, ns[i].p, k)
  }

  predicate SoundAt(ns: Nodes, i: nat) { i < INODE_NUM ==> ns[i].count <= MAXFILE && Reach(ns[i].p, ns[i].count) }

  predicate MarkedAt(d: Disk, used: set<nat>, ns: Nodes, i: nat, k: nat) {
    Live(ns, i, k) ==> FILEBLOCK <= At(d, ns, i, k) < BLOCK_NUM && At(d, ns, i, k) in used
  }

  predicate ApartAt(d: Disk, ns: Nodes, i: nat, k: nat, j: nat, l: nat) {
    Live(ns, i, k) && Live(ns, j, l) && (i, k) != (j, l) ==> At(d, ns, i, k) != At(d, ns, j, l)
  }

  ghost predicate OwnedAt(d: Disk, used: set<nat>, ns: Nodes, b: nat) {
    b in used && b >= FILEBLOCK ==> exists i: nat, k: nat {:trigger At(d, ns, i, k)} :: Live(ns, i, k) && At(d, ns, i, k) == b
  }

  predicate SystemAt(used: set<nat>, b: nat) { b < FILEBLOCK ==> b in used }

  ghost predicate Own(d: Disk, used: set<nat>, ns: Nodes) {
    && (forall i: nat {:trigger SoundAt(ns, i)} :: SoundAt(ns, i))
    && (forall i: nat, k: nat {:trigger MarkedAt(d, used, ns, i, k)} :: MarkedAt(d, used, ns, i, k))
    && (forall i: nat, k: nat, j: nat, l: nat {:trigger ApartAt(d, ns, i, k, j, l)} :: ApartAt(d, ns, i, k, j, l))
    && (forall b: nat {:trigger OwnedAt(d, used, ns, b)} :: OwnedAt(d, used, ns, b))
    && (forall b: nat {:trigger SystemAt(used, b)} :: SystemAt(used, b))
  }

  // ------------------------------------------------------- general steps of the invariant

  predicate KeptAt(d: Disk, ns: Nodes, e: Disk, ms: Nodes, i: nat, k: nat) {
    Live(ns, i, k) ==> At(e, ms, i, k) == At(d, ns, i, k)
  }

  predicate LiveAddAt(ns: Nodes, ms: Nodes, i: nat, k: nat, j: nat, l: nat) {
    Live(ms, j, l) <==> (Live(ns, j, l) || (j, l) == (i, k))
  }

  /** Slot (i, k) gets the fresh block b, every other slot keeps its block. */
  ghost predicate Adds(d: Disk, ns: Nodes, e: Disk, ms: Nodes, i: nat, k: nat, b: nat) {
    && !Live(ns, i, k) && At(e, ms, i, k) == b
    && (forall j: nat, l: nat {:trigger KeptAt(d, ns, e, ms, j, l)} :: KeptAt(d, ns, e, ms, j, l))
    && (forall j: nat, l: nat {:trigger LiveAddAt(ns, ms, i, k, j, l)} :: LiveAddAt(ns, ms, i, k, j, l))
    && (forall j: nat {:trigger SoundAt(ms, j)} :: SoundAt(ms, j))
  }

  lemma OwnAdds(d: Disk, used: set<nat>, ns: Nodes, e: Disk, ms: Nodes, i: nat, k: nat, b: nat)
    requires Own(d, used, ns) && Adds(d, ns, e, ms, i, k, b) && b in Free(used)
    ensures Own(e, used + {b}, ms)
  {
    forall j: nat, l: nat ensures MarkedAt(e, used + {b}, ms, j, l) {
      assert LiveAddAt(ns, ms, i, k, j, l) && KeptAt(d, ns, e, ms, j, l) && MarkedAt(d, used, ns, j, l);
    }
    forall j: nat, l: nat, u: nat, v: nat ensures ApartAt(e, ms, j, l, u, v) {
      assert LiveAddAt(ns, ms, i, k, j, l) && LiveAddAt(ns, ms, i, k, u, v);
      assert KeptAt(d, ns, e, ms, j, l) && KeptAt(d, ns, e, ms, u, v);
      assert MarkedAt(d, used, ns, j, l) && MarkedAt(d, used, ns, u, v) && ApartAt(d, ns, j, l, u, v);
    }
    forall c: nat ensures OwnedAt(e, used + {b}, ms, c) { OwnedAdds(d, used, ns, e, ms, i, k, b, c); }
    forall c: nat ensures SystemAt(used + {b}, c) { assert SystemAt(used, c); }
  }

  lemma OwnedAdds(d: Disk, used: set<nat>, ns: Nodes, e: Disk, ms: Nodes, i: nat, k: nat, b: nat, c: nat)
    requires Own(d, used, ns) && Adds(d, ns, e, ms, i, k, b)
    ensures OwnedAt(e, used + {b}, ms, c)
  {
    if c in used + {b} && c >= FILEBLOCK {
      if c == b {
        assert LiveAddAt(ns, ms, i, k, i, k) && At(e, ms, i, k) == c;
      } else {
        assert OwnedAt(d, used, ns, c);
        var j: nat, l: nat :| Live(ns, j, l) && At(d, ns, j, l) == c;
        assert LiveAddAt(ns, ms, i, k, j, l) && KeptAt(d, ns, e, ms, j, l);
        assert At(e, ms, j, l) == c;
      }
    }
  }

  /** The same slots hold the same blocks. */
  ghost predicate Same(d: Disk, ns: Nodes, e: Disk) {
    forall j: nat, l: nat {:trigger KeptAt(d, ns, e, ns, j, l)} :: KeptAt(d, ns, e, ns, j, l)
  }

  lemma OwnSame(d: Disk, used: set<nat>, ns: Nodes, e: Disk)
    requires Own(d, used, ns) && Same(d, ns, e)
    ensures Own(e, used, ns)
  {
    forall j: nat, l: nat ensures MarkedAt(e, used, ns, j, l) {
      assert KeptAt(d, ns, e, ns, j, l) && MarkedAt(d, used, ns, j, l);
    }
    forall j: nat, l: nat, u: nat, v: nat ensures ApartAt(e, ns, j, l, u, v) {
      assert KeptAt(d, ns, e, ns, j, l) && KeptAt(d, ns, e, ns, u, v) && ApartAt(d, ns, j, l, u, v);
    }
    forall c: nat ensures OwnedAt(e, used, ns, c) {
      assert OwnedAt(d, used, ns, c);
      if c in used && c >= FILEBLOCK {
        var j: nat, l: nat :| Live(ns, j, l) && At(d, ns, j, l) == c;
        assert KeptAt(d, ns, e, ns, j, l) && At(e, ns, j, l) == c;
      }
    }
  }

  // ----------------------------------------------------------------- freeing a tail

  function Ids(d: Disk, p: Ptrs, j: nat, n: nat): (s: set<nat>)
    requires n <= MAXFILE
    ensures forall k: nat :: j <= k < n ==> Nth(d, p, k) in s
  {
    set k: nat | j <= k < n :: Nth(d, p, k) as nat
  }

  lemma {:induction false} FreedIds(d: Disk, used: set<nat>, p: Ptrs, j: nat, n: nat)
    requires n <= MAXFILE
    ensures Freed(d, used, p, j, n) == used - Ids(d, p, j, n)
    decreases n - j
  {
    if j < n {
      FreedIds(d, used - {Nth(d, p, j)}, p, j + 1, n);
      assert Ids(d, p, j, n) == {Nth(d, p, j) as nat} + Ids(d, p, j + 1, n);
    }
  }

  lemma OwnDrops(d: Disk, used: set<nat>, ns: Nodes, i: nat, n: nat)
    requires Own(d, used, ns) && i < INODE_NUM && n <= ns[i].count <= MAXFILE
    ensures Own(d, used - Ids(d, ns[i].p, n, ns[i].count), ns[i := Node(n, ns[i].p)])
  {
    var ms := ns[i := Node(n, ns[i].p)];
    var gone := Ids(d, ns[i].p, n, ns[i].count);
    forall j: nat ensures SoundAt(ms, j) { assert SoundAt(ns, j); }
    forall j: nat, l: nat ensures MarkedAt(d, used - gone, ms, j, l) {
      assert MarkedAt(d, used, ns, j, l);
      if Live(ms, j, l) { KeptOutside(d, used, ns, i, n, j, l); }
    }
    forall j: nat, l: nat, u: nat, v: nat ensures ApartAt(d, ms, j, l, u, v) { assert ApartAt(d, ns, j, l, u, v); }
    forall c: nat ensures OwnedAt(d, used - gone, ms, c) {
      assert OwnedAt(d, used, ns, c);
      if c in used - gone && c >= FILEBLOCK {
        var j: nat, l: nat :| Live(ns, j, l) && At(d, ns, j, l) == c;
        assert At(d, ms, j, l) == c && Live(ms, j, l);
      }
    }
    forall c: nat ensures SystemAt(used - gone, c) {
      assert SystemAt(used, c);
      IdsAreData(d, used, ns, i, n);
    }
  }

  lemma IdsAreData(d: Disk, used: set<nat>, ns: Nodes, i: nat, n: nat)
    requires Own(d, used, ns) && i < INODE_NUM && ns[i].count <= MAXFILE
    ensures forall b :: b in Ids(d, ns[i].p, n, ns[i].count) ==> b >= FILEBLOCK
  {
    forall k: nat | n <= k < ns[i].count ensures Nth(d, ns[i].p, k) >= FILEBLOCK { assert MarkedAt(d, used, ns, i, k); }
  }

  lemma KeptOutside(d: Disk, used: set<nat>, ns: Nodes, i: nat, n: nat, j: nat, l: nat)
    requires Own(d, used, ns) && i < INODE_NUM && n <= ns[i].count <= MAXFILE
    requires Live(ns[i := Node(n, ns[i].p)], j, l)
    ensures Live(ns, j, l) && At(d, ns, j, l) !in Ids(d, ns[i].p, n, ns[i].count)
  {
    forall k: nat | n <= k < ns[i].count ensures Nth(d, ns[i].p, k) != At(d, ns, j, l) {
      assert ApartAt(d, ns, i, k, j, l);
    }
  }

  // --------------------------------------------------------------------- growing

  predicate TableAt(d: Disk, e: Disk, j: nat) { j < INODE_NUM ==> e[IBlock(j)] == d[IBlock(j)] }

  /** A data slot keeps its block and what is in it. */
  predicate DataAt(d: Disk, ns: Nodes, e: Disk, ms: Nodes, j: nat, l: nat) {
    Live(ns, j, l) && l < MAXFILE ==>
      && Live(ms, j, l) && At(e, ms, j, l) == At(d, ns, j, l)
      && ReadBlock(e, At(d, ns, j, l)) == ReadBlock(d, At(d, ns, j, l))
  }

  /** The inode table is untouched and so is every data block in use. */
  ghost predicate Kept(d: Disk, ns: Nodes, e: Disk, ms: Nodes) {
    && (forall j: nat {:trigger TableAt(d, e, j)} :: TableAt(d, e, j))
    && (forall j: nat, l: nat {:trigger DataAt(d, ns, e, ms, j, l)} :: DataAt(d, ns, e, ms, j, l))
  }

  lemma KeptChain(d: Disk, ns: Nodes, e: Disk, ms: Nodes, f: Disk, ks: Nodes)
    requires Kept(d, ns, e, ms) && Kept(e, ms, f, ks)
    ensures Kept(d, ns, f, ks)
  {
    forall j: nat ensures TableAt(d, f, j) { assert TableAt(d, e, j) && TableAt(e, f, j); }
    forall j: nat, l: nat ensures DataAt(d, ns, f, ks, j, l) {
      assert DataAt(d, ns, e, ms, j, l) && DataAt(e, ms, f, ks, j, l);
    }
  }

  lemma AddDirect(d: Disk, used: set<nat>, ns: Nodes, i: nat, b: Word)
    requires Own(d, used, ns) && i < INODE_NUM && ns[i].count < NDIRECT && b in Free(used)
    ensures var ms := ns[i := Node(ns[i].count + 1, ns[i].p[ns[i].count := b])];
            Own(d, used + {b}, ms) && Kept(d, ns, d, ms)
  {
    var c := ns[i].count;
    var ms: Nodes := ns[i := Node(c + 1, ns[i].p[c := b])];
    forall j: nat ensures SoundAt(ms, j) { assert SoundAt(ns, j); }
    forall j: nat, l: nat ensures KeptAt(d, ns, d, ms, j, l) && DataAt(d, ns, d, ms, j, l) {}
    forall j: nat, l: nat ensures LiveAddAt(ns, ms, i, c, j, l) {}
    OwnAdds(d, used, ns, d, ms, i, c, b);
  }

  lemma AddIndirect(d: Disk, used: set<nat>, ns: Nodes, i: nat, b: Word)
    requires Own(d, used, ns) && i < INODE_NUM && ns[i].p[NDIRECT] == 0 && b in Free(used)
    ensures var ms := ns[i := Node(ns[i].count, ns[i].p[NDIRECT := b])];
            Own(d, used + {b}, ms) && Kept(d, ns, d, ms)
  {
    var c := ns[i].count;
    var ms: Nodes := ns[i := Node(c, ns[i].p[NDIRECT := b])];
    assert SoundAt(ns, i);
    forall j: nat ensures SoundAt(ms, j) { assert SoundAt(ns, j); }
    forall j: nat, l: nat ensures KeptAt(d, ns, d, ms, j, l) && DataAt(d, ns, d, ms, j, l) {}
    forall j: nat, l: nat ensures LiveAddAt(ns, ms, i, INDIRECT, j, l) {}
    OwnAdds(d, used, ns, d, ms, i, INDIRECT, b);
  }

  /** Writing a pointer into the indirect block of i moves no slot but the one it is for. */
  lemma WordMoves(d: Disk, used: set<nat>, ns: Nodes, i: nat, b: Word, e: Disk, j: nat, l: nat)
    requires Own(d, used, ns) && i < INODE_NUM && NDIRECT <= ns[i].count < MAXFILE && ns[i].p[NDIRECT] != 0
    requires e == WriteBlock(d, ns[i].p[NDIRECT], Unwords(Words(ReadBlock(d, ns[i].p[NDIRECT]))[ns[i].count - NDIRECT := b]))
    ensures var ms := ns[i := Node(ns[i].count + 1, ns[i].p)];
            KeptAt(d, ns, e, ms, j, l) && DataAt(d, ns, e, ms, j, l)
  {
    WordsBack(Words(ReadBlock(d, ns[i].p[NDIRECT]))[ns[i].count - NDIRECT := b]);
    assert SoundAt(ns, j);
    assert MarkedAt(d, used, ns, i, INDIRECT);
    assert ApartAt(d, ns, i, INDIRECT, j, INDIRECT);
    assert ApartAt(d, ns, i, INDIRECT, j, l);
  }

  lemma WordLands(d: Disk, used: set<nat>, ns: Nodes, i: nat, b: Word, e: Disk)
    requires Own(d, used, ns) && i < INODE_NUM && NDIRECT <= ns[i].count < MAXFILE && ns[i].p[NDIRECT] != 0
    requires e == WriteBlock(d, ns[i].p[NDIRECT], Unwords(Words(ReadBlock(d, ns[i].p[NDIRECT]))[ns[i].count - NDIRECT := b]))
    ensures At(e, ns[i := Node(ns[i].count + 1, ns[i].p)], i, ns[i].count) == b
  {
    assert MarkedAt(d, used, ns, i, INDIRECT);
    var ws := Words(ReadBlock(d, ns[i].p[NDIRECT]))[ns[i].count - NDIRECT := b];
    WordsBack(ws);
    assert ReadBlock(e, ns[i].p[NDIRECT]) == Unwords(ws);
  }

  /** A data block is no inode block. */
  lemma TableKept(d: Disk, e: Disk, id: nat, x: Block)
    requires id >= FILEBLOCK && e == WriteBlock(d, id, x)
    ensures forall j: nat {:trigger TableAt(d, e, j)} :: TableAt(d, e, j)
  {
    forall j: nat ensures TableAt(d, e, j) { Layout(j); }
  }

  lemma AddWord(d: Disk, used: set<nat>, ns: Nodes, i: nat, b: Word, e: Disk)
    requires Own(d, used, ns) && i < INODE_NUM && NDIRECT <= ns[i].count < MAXFILE && ns[i].p[NDIRECT] != 0
    requires e == WriteBlock(d, ns[i].p[NDIRECT], Unwords(Words(ReadBlock(d, ns[i].p[NDIRECT]))[ns[i].count - NDIRECT := b]))
    requires b in Free(used)
    ensures var ms := ns[i := Node(ns[i].count + 1, ns[i].p)]; Own(e, used + {b}, ms) && Kept(d, ns, e, ms)
  {
    var c := ns[i].count;
    var ms: Nodes := ns[i := Node(c + 1, ns[i].p)];
    WordLands(d, used, ns, i, b, e);
    assert MarkedAt(d, used, ns, i, INDIRECT);
    TableKept(d, e, ns[i].p[NDIRECT], Unwords(Words(ReadBlock(d, ns[i].p[NDIRECT]))[c - NDIRECT := b]));
    forall j: nat, l: nat ensures KeptAt(d, ns, e, ms, j, l) && DataAt(d, ns, e, ms, j, l) {
      WordMoves(d, used, ns, i, b, e, j, l);
    }
    forall j: nat ensures SoundAt(ms, j) { assert SoundAt(ns, j); }
    forall j: nat, l: nat ensures LiveAddAt(ns, ms, i, c, j, l) {}
    OwnAdds(d, used, ns, e, ms, i, c, b);
  }

  /** How many blocks growing from `was` to `now` blocks takes. */
  function Cost(p: Ptrs, was: nat, now: nat): nat {
    if now <= was then 0 else now - was + (if now > NDIRECT && p[NDIRECT] == 0 then 1 else 0)
  }

  lemma AllocWordKeeps(fs: Fs, ns: Nodes, i: nat)
    requires Own(fs.disk, fs.used, ns) && i < INODE_NUM && NDIRECT <= ns[i].count < MAXFILE && ns[i].p[NDIRECT] != 0
    requires |Free(fs.used)| >= 1
    ensures var (fs1, p) := AllocWord(fs, ns[i].p, ns[i].count);
            var ms := ns[i := Node(ns[i].count + 1, ns[i].p)];
            && Own(fs1.disk, fs1.used, ms) && Kept(fs.disk, ns, fs1.disk, ms) && p == ns[i].p
            && |Free(fs1.used)| == |Free(fs.used)| - 1
  {
    AllocTakesOne(fs.used);
    AddWord(fs.disk, fs.used, ns, i, AllocId(fs.used), AllocWord(fs, ns[i].p, ns[i].count).0.disk);
  }

  /** The first block past the direct ones also takes an indirect block. */
  lemma AllocBothKeeps(fs: Fs, ns: Nodes, i: nat)
    requires Own(fs.disk, fs.used, ns) && i < INODE_NUM && NDIRECT <= ns[i].count < MAXFILE && ns[i].p[NDIRECT] == 0
    requires |Free(fs.used)| >= 2
    ensures var b := AllocId(fs.used);
            var (fs1, p) := AllocWord(Fs(fs.disk, Alloc(fs.used)), ns[i].p[NDIRECT := b], ns[i].count);
            var ms := ns[i := Node(ns[i].count + 1, p)];
            && b != 0 && Own(fs1.disk, fs1.used, ms) && Kept(fs.disk, ns, fs1.disk, ms) && p == ns[i].p[NDIRECT := b]
            && |Free(fs1.used)| == |Free(fs.used)| - 2
  {
    hide Words, Unwords, Nth;
    var c, b := ns[i].count, AllocId(fs.used);
    AllocTakesOne(fs.used);
    AddIndirect(fs.disk, fs.used, ns, i, b);
    var ms := ns[i := Node(c, ns[i].p[NDIRECT := b])];
    var mid := Fs(fs.disk, Alloc(fs.used));
    AllocWordKeeps(mid, ms, i);
    var ks := ns[i := Node(c + 1, ms[i].p)];
    assert ms[i := Node(c + 1, ms[i].p)] == ks;
    KeptChain(fs.disk, ns, fs.disk, ms, AllocWord(mid, ms[i].p, c).0.disk, ks);
  }

  lemma AllocNthKeeps(fs: Fs, ns: Nodes, i: nat)
    requires Own(fs.disk, fs.used, ns) && i < INODE_NUM && ns[i].count < MAXFILE
    requires |Free(fs.used)| >= Cost(ns[i].p, ns[i].count, ns[i].count + 1)
    ensures var c := ns[i].count;
            var (fs1, p) := AllocNth(fs, ns[i].p, c);
            var ms := ns[i := Node(c + 1, p)];
            && Own(fs1.disk, fs1.used, ms) && Kept(fs.disk, ns, fs1.disk, ms)
            && |Free(fs1.used)| == |Free(fs.used)| - Cost(ns[i].p, c, c + 1)
            && (p[NDIRECT] != 0 <==> ns[i].p[NDIRECT] != 0 || c >= NDIRECT)
  {
    var c, p := ns[i].count, ns[i].p;
    AllocTakesOne(fs.used);
    if c < NDIRECT {
      AddDirect(fs.disk, fs.used, ns, i, AllocId(fs.used));
    } else if p[NDIRECT] != 0 {
      AllocWordKeeps(fs, ns, i);
    } else {
      AllocBothKeeps(fs, ns, i);
    }
  }

  lemma {:induction false} GrowKeeps(fs: Fs, ns: Nodes, i: nat, n: nat)
    requires Own(fs.disk, fs.used, ns) && i < INODE_NUM && ns[i].count <= n <= MAXFILE
    requires |Free(fs.used)| >= Cost(ns[i].p, ns[i].count, n)
    ensures var (fs1, p) := Grow(fs, ns[i].p, ns[i].count, n);
            var ms := ns[i := Node(n, p)];
            && Own(fs1.disk, fs1.used, ms) && Kept(fs.disk, ns, fs1.disk, ms)
            && |Free(fs1.used)| == |Free(fs.used)| - Cost(ns[i].p, ns[i].count, n)
    decreases n - ns[i].count
  {
    var c := ns[i].count;
    if c < n {
      AllocNthKeeps(fs, ns, i);
      var (fs1, p1) := AllocNth(fs, ns[i].p, c);
      var ms := ns[i := Node(c + 1, p1)];
      GrowKeeps(fs1, ms, i, n);
      var (fs2, p2) := Grow(fs1, p1, c + 1, n);
      assert ms[i := Node(n, p2)] == ns[i := Node(n, p2)];
      KeptChain(fs.disk, ns, fs1.disk, ms, fs2.disk, ns[i := Node(n, p2)]);
    } else {
      assert ns[i := Node(n, ns[i].p)] == ns;
    }
  }
}

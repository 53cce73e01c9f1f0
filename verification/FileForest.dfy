/** The directories as a graph: an edge leads from a directory to every inode it lists. In every run
    the graph is a forest; it is one tree from the root if and only if no directory that had entries
    was dropped or emptied. */
module FileForest {
  import opened Bytes
  import opened Options
  import opened Blocks
  import opened Inodes
  import opened InodeFiles
  import InodeRuns
  import opened Directory
  import D = DirectoryOps
  import opened FileTree
  import opened WaitGraph

  ghost predicate Lists(t: Files, d: nat, x: nat) {
    IsDir(t, d) && exists k: nat :: k < |Entries(t, d)| && Entries(t, d)[k].inum == x
  }

  ghost function Edges(t: Files): Graph {
    set d: nat, x: nat | d < INODE_NUM && x < INODE_NUM && Lists(t, d, x) :: (d, x)
  }

  predicate InUse(t: Files, i: nat) { i < INODE_NUM && t[i].kind != 0 }

  ghost predicate Listed(t: Files, x: nat) { exists d: nat :: Lists(t, d, x) }

  ghost predicate Forest(t: Files) { Listing(t) && Acyclic(Edges(t)) }

  /** Everything in use can be reached from the root. */
  ghost predicate Connected(t: Files) { forall i: nat :: InUse(t, i) ==> Reaches(Edges(t), ROOT, i) }

  /** Everything in use but the root is in some directory. */
  ghost predicate Whole(t: Files) { forall i: nat :: InUse(t, i) && i != ROOT ==> Listed(t, i) }

  /** An inode in use that no directory lists. */
  ghost predicate Orphan(t: Files, i: nat) { InUse(t, i) && i != ROOT && !Listed(t, i) }

  // ------------------------------------------------------------- what a step does to the edges

  lemma ListsUsed(t: Files, d: nat, x: nat)
    requires Listing(t) && Lists(t, d, x)
    ensures d < INODE_NUM && 1 < x < INODE_NUM && InUse(t, x) && x != d
  {
    hide Entries;
    var k: nat :| k < |Entries(t, d)| && Entries(t, d)[k].inum == x;
    assert UsedAt(t, d, k);
  }

  lemma ListsOnce(t: Files, d: nat, e: nat, x: nat)
    requires Listing(t) && Lists(t, d, x) && Lists(t, e, x)
    ensures d == e
  {
    hide Entries;
    var k: nat :| k < |Entries(t, d)| && Entries(t, d)[k].inum == x;
    var l: nat :| l < |Entries(t, e)| && Entries(t, e)[l].inum == x;
    assert OnceAt(t, d, k, e, l);
  }

  predicate Makes(t: Files, op: Op) {
    op.Make? && IsDir(t, op.parent) && !D.Named(Entries(t, op.parent), op.name) && InodeRuns.FreeEntry(t, 1) < INODE_NUM
  }

  lemma MakeLists(t: Files, op: Op, d: nat, x: nat)
    requires Listing(t) && Allowed(t, op) && Makes(t, op)
    ensures var u, i := Apply(t, op), InodeRuns.FreeEntry(t, 1);
            && (Lists(u, d, x) <==> Lists(t, d, x) || (d == op.parent && x == i))
            && (InUse(u, x) <==> InUse(t, x) || x == i)
            && !InUse(t, i) && i > ROOT
  {
    hide Closed, List, DirText, D.Append;
    var i, was, u := InodeRuns.FreeEntry(t, 1), Entries(t, op.parent), Apply(t, op);
    FreeIsFree(t, 1);
    var es := was + [Entry(op.name, i)];
    assert TextAt(t, op.parent);
    forall k | 0 <= k < |was| ensures was[k].inum != i { assert UsedAt(t, op.parent, k); }
    D.AppendText(was, Entry(op.name, i));
    D.MakeKeeps(was, Entry(op.name, i));
    ChangedEntries(t, u, op.parent, es, i, d);
    hide Entries;
    if d == op.parent { Appended(was, Entry(op.name, i), x); }
  }

  lemma Appended(es: seq<Entry>, e: Entry, x: nat)
    ensures (exists k: nat :: k < |es + [e]| && (es + [e])[k].inum == x) <==> (exists k: nat :: k < |es| && es[k].inum == x) || e.inum == x
  {
    var more := es + [e];
    if k: nat :| k < |es| && es[k].inum == x { assert more[k] == es[k]; }
    if e.inum == x { var n: nat := |es|; assert more[n] == e; }
    if k: nat :| k < |more| && more[k].inum == x { assert k < |es| ==> es[k] == more[k]; }
  }

  /** The inode an unlink frees. */
  function Victim(t: Files, op: Op): nat
    requires op.Drop? && D.Named(Entries(t, op.parent), op.name)
  {
    Entries(t, op.parent)[D.Index(Entries(t, op.parent), op.name)].inum
  }

  lemma DropLists(t: Files, op: Op, d: nat, x: nat)
    requires Listing(t) && op.Drop? && Allowed(t, op)
    ensures var u, i := Apply(t, op), Victim(t, op);
            && (Lists(u, d, x) <==> Lists(t, d, x) && x != i && d != i)
            && (InUse(u, x) <==> InUse(t, x) && x != i)
            && Lists(t, op.parent, i)
  {
    hide Closed, List, DirText, D.Erase, D.Start, FindText;
    var was, u := Entries(t, op.parent), Apply(t, op);
    var k := D.Index(was, op.name);
    var i, es := was[k].inum, D.Without(was, k);
    assert TextAt(t, op.parent) && UsedAt(t, op.parent, k);
    D.EraseExactly(was, k);
    D.DropKeeps(was, k);
    ChangedEntries(t, u, op.parent, es, i, d);
    assert Lists(t, op.parent, i);
    hide Entries;
    if Lists(t, d, i) { ListsOnce(t, d, op.parent, i); }
    if d == op.parent { Removed(was, k, x); }
  }

  lemma Removed(es: seq<Entry>, k: nat, x: nat)
    requires k < |es| && D.Distinct(es)
    ensures (exists j: nat :: j < |D.Without(es, k)| && D.Without(es, k)[j].inum == x) <==>
            (exists j: nat :: j < |es| && es[j].inum == x) && x != es[k].inum
  {
    var less := D.Without(es, k);
    if j: nat :| j < |less| && less[j].inum == x {
      var l: nat := if j < k then j else j + 1;
      assert es[l] == less[j];
    }
    if j: nat :| j < |es| && es[j].inum == x {
      if j != k {
        var l: nat := if j < k then j else j - 1;
        assert less[l] == es[j];
      }
    }
  }

  /** The directory a write empties. */
  predicate Resets(t: Files, op: Op, d: nat) { op.Write? && op.file == d && IsDir(t, d) && op.bytes == [] }

  lemma WriteLists(t: Files, op: Op, d: nat, x: nat)
    requires op.Write? && Allowed(t, op)
    ensures var u := Apply(t, op);
            && (Lists(u, d, x) <==> Lists(t, d, x) && !Resets(t, op, d))
            && (InUse(u, x) <==> InUse(t, x))
  {
    var u := Apply(t, op);
    ListBack([]);
    EmptyText();
    assert IsDir(u, d) <==> IsDir(t, d);
    assert d < INODE_NUM ==> u[d].kind == t[d].kind;
    if IsDir(t, d) {
      if Resets(t, op, d) { assert Entries(u, d) == []; } else { assert u[d] == t[d] && Entries(u, d) == Entries(t, d); }
    }
  }

  // ------------------------------------------------------------------- the graph is a forest

  lemma EdgeIs(t: Files, d: nat, x: nat)
    requires Listing(t)
    ensures (d, x) in Edges(t) <==> Lists(t, d, x)
  {
    if Lists(t, d, x) { ListsUsed(t, d, x); }
  }

  /** What no directory can be left from reaches only itself. */
  lemma DeadEnd(g: Graph, a: nat, b: nat)
    requires (forall c :: (a, c) !in g) && Reaches(g, a, b)
    ensures a == b
  {
    if a != b { FirstStep(g, a, b); }
  }

  lemma StepForest(t: Files, op: Op)
    requires Forest(t) && Allowed(t, op)
    ensures Forest(Apply(t, op))
  {
    hide Apply, Allowed, Lists, Listing, Acyclic;
    var u := Apply(t, op);
    StepKeeps(t, op);
    if op.Make? { MakeForest(t, op); }
    else {
      forall d: nat, x: nat | (d, x) in Edges(u) ensures (d, x) in Edges(t) {
        EdgeIs(t, d, x); EdgeIs(u, d, x);
        if op.Drop? { DropLists(t, op, d, x); } else { WriteLists(t, op, d, x); }
      }
      SubgraphAcyclic(Edges(u), Edges(t));
    }
  }

  lemma MakeForest(t: Files, op: Op)
    requires Forest(t) && op.Make? && Allowed(t, op)
    ensures Acyclic(Edges(Apply(t, op)))
  {
    hide Lists, Listing, Acyclic, Entries;
    if Makes(t, op) {
      var u, i := Apply(t, op), InodeRuns.FreeEntry(t, 1);
      StepKeeps(t, op);
      hide Apply;
      forall d: nat, x: nat ensures (d, x) in Edges(u) <==> (d, x) in Edges(t) + {(op.parent, i)} {
        EdgeIs(t, d, x); EdgeIs(u, d, x);
        MakeLists(t, op, d, x);
      }
      assert Edges(u) == Edges(t) + {(op.parent, i)};
      forall c ensures (i, c) !in Edges(t) {
        MakeLists(t, op, 0, i);
        if (i, c) in Edges(t) { assert Lists(t, i, c); NotDir(t, i, c); }
      }
      if Reaches(Edges(t), i, op.parent) { DeadEnd(Edges(t), i, op.parent); MakeLists(t, op, 0, i); }
      AddEdgeAcyclic(Edges(t), op.parent, i);
    }
  }

  lemma NotDir(t: Files, i: nat, c: nat)
    requires Lists(t, i, c)
    ensures InUse(t, i)
  {}

  // ------------------------------------------------------------- when it is one tree

  /** A directory that has entries is dropped or emptied. */
  predicate Loses(t: Files, op: Op) {
    || (op.Drop? && D.Named(Entries(t, op.parent), op.name) && IsDir(t, Victim(t, op)) && Entries(t, Victim(t, op)) != [])
    || (op.Write? && Resets(t, op, op.file) && Entries(t, op.file) != [])
  }

  lemma StepLists(t: Files, op: Op, d: nat, x: nat)
    requires Listing(t) && Allowed(t, op)
    ensures var u := Apply(t, op);
            && (Lists(u, d, x) ==> Lists(t, d, x) || !InUse(t, x))
            && (Lists(t, d, x) && !Lists(u, d, x) ==>
                  (op.Drop? && (x == Victim(t, op) || d == Victim(t, op))) || (op.Write? && Resets(t, op, d)))
            && (InUse(u, x) && !InUse(t, x) ==> op.Make? && Lists(u, op.parent, x))
            && (InUse(t, x) && !InUse(u, x) ==> op.Drop? && x == Victim(t, op) && Listed(t, x))
            && (op.Drop? && x == Victim(t, op) ==> !InUse(u, x))
  {
    hide Lists, Listing;
    if Makes(t, op) { MakeLists(t, op, d, x); MakeLists(t, op, op.parent, x); }
    else if op.Drop? { DropLists(t, op, d, x); }
    else if op.Write? { WriteLists(t, op, d, x); }
  }

  /** An inode that is listed nowhere is never listed again: new entries are for free inodes only. */
  lemma OrphanStays(t: Files, op: Op, c: nat)
    requires Listing(t) && Allowed(t, op) && Orphan(t, c)
    ensures Orphan(Apply(t, op), c)
  {
    hide Lists, Listing, Apply, Allowed;
    var u := Apply(t, op);
    StepLists(t, op, 0, c);
    forall d: nat ensures !Lists(u, d, c) { StepLists(t, op, d, c); }
  }

  lemma LossOrphans(t: Files, op: Op) returns (c: nat)
    requires Listing(t) && Allowed(t, op) && Loses(t, op)
    ensures Orphan(Apply(t, op), c)
  {
    hide Listing, Apply;
    var u := Apply(t, op);
    var v := if op.Drop? then Victim(t, op) else op.file;
    var n: nat := 0;
    c := Entries(t, v)[n].inum;
    assert Lists(t, v, c);
    hide Lists, Entries;
    ListsUsed(t, v, c);
    forall d: nat ensures !Lists(u, d, c) {
      if op.Drop? { DropLists(t, op, d, c); } else { WriteLists(t, op, d, c); }
      if Lists(t, d, c) { ListsOnce(t, d, v, c); }
    }
    if op.Drop? { DropLists(t, op, 0, c); } else { WriteLists(t, op, 0, c); }
  }

  lemma LossBy(t: Files, op: Op, d: nat, x: nat)
    requires Allowed(t, op) && Lists(t, d, x)
    requires (op.Drop? && d == Victim(t, op)) || (op.Write? && Resets(t, op, d))
    ensures Loses(t, op)
  {}

  lemma WholeStays(t: Files, op: Op)
    requires Listing(t) && Allowed(t, op) && Whole(t) && !Loses(t, op)
    ensures Whole(Apply(t, op))
  {
    hide Listing, Apply, Allowed, Lists, Loses, Resets;
    var u := Apply(t, op);
    forall i: nat | InUse(u, i) && i != ROOT ensures Listed(u, i) {
      if InUse(t, i) {
        var d: nat :| Lists(t, d, i);
        StepLists(t, op, d, i);
        if !Lists(u, d, i) { LossBy(t, op, d, i); }
        assert Lists(u, d, i);
      } else {
        StepLists(t, op, 0, i);
        assert Lists(u, op.parent, i);
      }
    }
  }

  /** Going up from an inode ends at the root. */
  lemma {:induction false} ReachedFromRoot(t: Files, i: nat)
    requires Forest(t) && Whole(t) && InUse(t, i)
    ensures Reaches(Edges(t), ROOT, i)
    decreases |Nodes(Edges(t))| - |Below(Edges(t), i)|
  {
    hide Lists, Listing, Acyclic, Below;
    var g := Edges(t);
    if i == ROOT {
      ReachesSelf(g, i);
    } else {
      var d: nat :| Lists(t, d, i);
      EdgeIs(t, d, i);
      BelowShrinks(g, d, i);
      BelowBound(g, d);
      NotDir(t, d, i);
      ReachedFromRoot(t, d);
      ReachesSelf(g, i);
      assert ReachesOver(g, d, i, i);
      ReachesStep(g, d, i, i);
      ReachesTransitive(g, ROOT, d, i);
    }
  }

  lemma BelowBound(g: Graph, a: nat)
    ensures |Below(g, a)| <= |Nodes(g)|
  {
    SubsetSize(Below(g, a), Nodes(g));
  }

  lemma LastStep(g: Graph, a: nat, b: nat) returns (d: nat)
    requires Reaches(g, a, b) && a != b
    ensures (d, b) in g
  {
    var p :| PathFromTo(g, p, a, b);
    d := p[|p| - 2];
    assert (p[|p| - 2], p[|p| - 2 + 1]) in g;
  }

  /** Being listed and being reachable from the root are the same in a forest. */
  lemma WholeIsConnected(t: Files)
    requires Forest(t)
    ensures Whole(t) <==> Connected(t)
  {
    hide Lists, Listing, Acyclic;
    if Whole(t) {
      forall i: nat | InUse(t, i) ensures Reaches(Edges(t), ROOT, i) { ReachedFromRoot(t, i); }
    }
    if Connected(t) {
      forall i: nat | InUse(t, i) && i != ROOT ensures Listed(t, i) {
        var d := LastStep(Edges(t), ROOT, i);
        EdgeIs(t, d, i);
      }
    }
  }

  predicate AnyLoss(t: Files, ops: seq<Op>)
    decreases |ops|
  {
    ops != [] && (Loses(t, ops[0]) || AnyLoss(Apply(t, ops[0]), ops[1..]))
  }

  lemma {:induction false} OrphanForever(t: Files, ops: seq<Op>, c: nat)
    requires Listing(t) && RunAllowed(t, ops) && Orphan(t, c)
    ensures Orphan(Run(t, ops), c)
    decreases |ops|
  {
    hide Listing, Apply, Allowed, Orphan;
    if ops != [] {
      StepKeeps(t, ops[0]);
      OrphanStays(t, ops[0], c);
      OrphanForever(Apply(t, ops[0]), ops[1..], c);
    }
  }

  lemma {:induction false} RunForest(t: Files, ops: seq<Op>)
    requires Forest(t) && Whole(t) && RunAllowed(t, ops)
    ensures Forest(Run(t, ops)) && (Whole(Run(t, ops)) <==> !AnyLoss(t, ops))
    decreases |ops|
  {
    hide Forest, Apply, Allowed, Loses, Whole;
    if ops != [] {
      var u := Apply(t, ops[0]);
      StepForest(t, ops[0]);
      ForestLists(t);
      if Loses(t, ops[0]) {
        var c := LossOrphans(t, ops[0]);
        ForestLists(u);
        OrphanForever(u, ops[1..], c);
        OrphanBreaks(Run(u, ops[1..]), c);
        ForestRun(u, ops[1..]);
      } else {
        WholeStays(t, ops[0]);
        RunForest(u, ops[1..]);
      }
    }
  }

  lemma ForestLists(t: Files)
    requires Forest(t)
    ensures Listing(t)
  {}

  lemma OrphanBreaks(t: Files, c: nat)
    requires Orphan(t, c)
    ensures !Whole(t)
  {}

  lemma {:induction false} ForestRun(t: Files, ops: seq<Op>)
    requires Forest(t) && RunAllowed(t, ops)
    ensures Forest(Run(t, ops))
    decreases |ops|
  {
    hide Forest, Apply, Allowed;
    if ops != [] {
      StepForest(t, ops[0]);
      ForestRun(Apply(t, ops[0]), ops[1..]);
    }
  }

  /** A new file system: only an empty root. */
  ghost predicate New(t: Files) {
    t[ROOT] == File(T_DIR, []) && forall d: nat :: d < INODE_NUM && d != ROOT ==> t[d].kind == 0
  }

  lemma NewIsTree(t: Files)
    requires New(t)
    ensures Forest(t) && Whole(t)
  {
    RootIsListing(t);
    ListBack([]);
    EmptyText();
    assert Entries(t, ROOT) == [];
    assert Edges(t) == {};
  }

  /** In every run from a new file system the directories form a forest, and it is one tree from the
      root, holding everything in use, if and only if no directory that had entries was dropped or emptied. */
  lemma TreeExactly(t: Files, ops: seq<Op>)
    requires New(t) && RunAllowed(t, ops)
    ensures Forest(Run(t, ops)) && (Connected(Run(t, ops)) <==> !AnyLoss(t, ops))
  {
    hide Forest, Whole, Connected, New;
    NewIsTree(t);
    RunForest(t, ops);
    WholeIsConnected(Run(t, ops));
  }
}

/** Directed graphs over transaction ids, as the recorded waits-for relation uses them. */
module WaitGraph {

  type Graph = set<(nat, nat)>

  /** p visits an edge of g between any two neighbours. */
  predicate IsPath(g: Graph, p: seq<nat>) {
    p != [] && forall i {:trigger p[i]} :: 0 <= i < |p| - 1 ==> (p[i], p[i + 1]) in g
  }

  ghost predicate PathFromTo(g: Graph, p: seq<nat>, a: nat, b: nat) {
    IsPath(g, p) && p[0] == a && p[|p| - 1] == b
  }

  /** There is a path from a to b, possibly of no edge. */
  ghost predicate Reaches(g: Graph, a: nat, b: nat) {
    exists p :: PathFromTo(g, p, a, b)
  }

  /** There is an edge from a and then a path to b. */
  ghost predicate ReachesOver(g: Graph, a: nat, c: nat, b: nat) {
    (a, c) in g && Reaches(g, c, b)
  }

  ghost predicate Acyclic(g: Graph) {
    forall a, c :: (a, c) in g ==> !Reaches(g, c, a)
  }

  lemma ReachesSelf(g: Graph, a: nat)
    ensures Reaches(g, a, a)
  {
    assert PathFromTo(g, [a], a, a);
  }

  lemma ReachesStep(g: Graph, a: nat, c: nat, b: nat)
    requires ReachesOver(g, a, c, b)
    ensures Reaches(g, a, b)
  {
    var p :| PathFromTo(g, p, c, b);
    var q := [a] + p;
    assert IsPath(g, q) by {
      forall i | 0 <= i < |q| - 1 ensures (q[i], q[i + 1]) in g {
        if i > 0 { assert q[i] == p[i - 1]; }
      }
    }
    assert PathFromTo(g, q, a, b);
  }

  lemma FirstStep(g: Graph, a: nat, b: nat)
    requires Reaches(g, a, b) && a != b
    ensures exists c :: ReachesOver(g, a, c, b)
  {
    var p :| PathFromTo(g, p, a, b);
    var q := p[1..];
    assert (p[0], p[1]) in g;
    assert IsPath(g, q) by {
      forall i | 0 <= i < |q| - 1 ensures (q[i], q[i + 1]) in g {
        assert q[i] == p[i + 1];
      }
    }
    assert PathFromTo(g, q, q[0], b);
    assert ReachesOver(g, a, q[0], b);
  }

  lemma ReachesTransitive(g: Graph, a: nat, b: nat, c: nat)
    requires Reaches(g, a, b) && Reaches(g, b, c)
    ensures Reaches(g, a, c)
  {
    var p :| PathFromTo(g, p, a, b);
    AppendPath(g, p, b, c);
  }

  lemma {:induction false} AppendPath(g: Graph, p: seq<nat>, b: nat, c: nat)
    requires IsPath(g, p) && p[|p| - 1] == b && Reaches(g, b, c)
    ensures Reaches(g, p[0], c)
    decreases |p|
  {
    if |p| > 1 {
      var q := p[1..];
      assert IsPath(g, q) by {
        forall i | 0 <= i < |q| - 1 ensures (q[i], q[i + 1]) in g { assert q[i] == p[i + 1]; }
      }
      AppendPath(g, q, b, c);
      assert (p[0], p[1]) in g;
      assert ReachesOver(g, p[0], q[0], c);
      ReachesStep(g, p[0], q[0], c);
    }
  }

  lemma ReachesMonotone(g: Graph, h: Graph, a: nat, b: nat)
    requires g <= h && Reaches(g, a, b)
    ensures Reaches(h, a, b)
  {
    var p :| PathFromTo(g, p, a, b);
    assert PathFromTo(h, p, a, b);
  }

  /** A path that may use the extra edge (u, v) splits at its uses. */
  lemma {:induction false} SplitAtEdge(g: Graph, u: nat, v: nat, p: seq<nat>)
    requires IsPath(g + {(u, v)}, p)
    ensures Reaches(g, p[0], p[|p| - 1]) || (Reaches(g, p[0], u) && Reaches(g, v, p[|p| - 1]))
    decreases |p|
  {
    var a, b := p[0], p[|p| - 1];
    if |p| == 1 {
      ReachesSelf(g, a);
    } else {
      var h, q := g + {(u, v)}, p[1..];
      assert IsPath(h, q) by {
        forall i | 0 <= i < |q| - 1 ensures (q[i], q[i + 1]) in h { assert q[i] == p[i + 1]; }
      }
      SplitAtEdge(g, u, v, q);
      assert (p[0], p[1]) in h;
      if (a, q[0]) in g {
        if Reaches(g, q[0], b) { assert ReachesOver(g, a, q[0], b); ReachesStep(g, a, q[0], b); }
        else { assert ReachesOver(g, a, q[0], u); ReachesStep(g, a, q[0], u); }
      } else {
        ReachesSelf(g, u);
      }
    }
  }

  /** Recording that u waits for v keeps the graph acyclic exactly when v does not already
      (transitively) wait for u. */
  lemma AddEdgeAcyclic(g: Graph, u: nat, v: nat)
    requires Acyclic(g)
    ensures Acyclic(g + {(u, v)}) <==> !Reaches(g, v, u)
  {
    var h := g + {(u, v)};
    if Reaches(g, v, u) {
      ReachesMonotone(g, h, v, u);
      assert (u, v) in h;
    } else {
      forall a, c | (a, c) in h ensures !Reaches(h, c, a) {
        if Reaches(h, c, a) { NoNewCycle(g, u, v, a, c); }
      }
    }
  }

  lemma NoNewCycle(g: Graph, u: nat, v: nat, a: nat, c: nat)
    requires Acyclic(g) && !Reaches(g, v, u) && (a, c) in g + {(u, v)}
    ensures !Reaches(g + {(u, v)}, c, a)
  {
    var h := g + {(u, v)};
    if p :| PathFromTo(h, p, c, a) {
      SplitAtEdge(g, u, v, p);
      if (a, c) in g && Reaches(g, c, u) && Reaches(g, v, a) {
        assert ReachesOver(g, a, c, u);
        ReachesStep(g, a, c, u);
        ReachesTransitive(g, v, a, u);
      }
    }
  }

  /** Removing edges keeps the graph acyclic. */
  lemma SubgraphAcyclic(g: Graph, h: Graph)
    requires g <= h && Acyclic(h)
    ensures Acyclic(g)
  {
    forall a, c | (a, c) in g ensures !Reaches(g, c, a) {
      if Reaches(g, c, a) { ReachesMonotone(g, h, c, a); assert false; }
    }
  }

  function Nodes(g: Graph): set<nat> { set e | e in g :: e.1 }

  /** Everything that can be reached from a over at least one edge. */
  ghost function Below(g: Graph, a: nat): set<nat> {
    set b | b in Nodes(g) && exists c :: ReachesOver(g, a, c, b)
  }

  /** In an acyclic graph the part below a node shrinks along every edge: a search without a
      visited set ends. */
  lemma BelowShrinks(g: Graph, a: nat, c: nat)
    requires Acyclic(g) && (a, c) in g
    ensures |Below(g, c)| < |Below(g, a)|
  {
    var lo, hi := Below(g, c), Below(g, a);
    forall b | b in lo ensures b in hi {
      var d :| ReachesOver(g, c, d, b);
      ReachesStep(g, c, d, b);
      assert ReachesOver(g, a, c, b);
    }
    ReachesSelf(g, c);
    assert (a, c).1 in Nodes(g) && ReachesOver(g, a, c, c);
    assert c in hi;
    assert forall d :: !ReachesOver(g, c, d, c);
    SmallerSet(lo, hi, c);
  }

  lemma SmallerSet(lo: set<nat>, hi: set<nat>, c: nat)
    requires lo <= hi && c in hi && c !in lo
    ensures |lo| < |hi|
  {
    var rest := hi - {c};
    assert lo <= rest && |rest| == |hi| - 1;
    SubsetSize(lo, rest);
  }

  lemma {:induction false} SubsetSize(lo: set<nat>, hi: set<nat>)
    requires lo <= hi
    ensures |lo| <= |hi|
  {
    if lo != {} {
      var x :| x in lo;
      SubsetSize(lo - {x}, hi - {x});
    }
  }
}

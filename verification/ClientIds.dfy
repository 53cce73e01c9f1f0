/** Client ids and the order in which `std::set<std::string>` iterates over them.
    `Nobody` is the empty string, which the server stores when there is no client. */
module ClientIds {

  datatype Cid = Nobody | Client(addr: string)

  /** Lexicographic comparison of characters. */
  predicate StringLe(a: string, b: string) {
    if a == [] then true
    else if b == [] then false
    else if a[0] != b[0] then a[0] < b[0]
    else StringLe(a[1..], b[1..])
  }

  predicate Le(a: Cid, b: Cid) {
    a.Nobody? || (b.Client? && StringLe(a.addr, b.addr))
  }

  lemma {:induction false} StringLeTotal(a: string, b: string)
    ensures StringLe(a, b) || StringLe(b, a)
    ensures StringLe(a, b) && StringLe(b, a) ==> a == b
  {
    if a != [] && b != [] && a[0] == b[0] {
      StringLeTotal(a[1..], b[1..]);
      assert a == [a[0]] + a[1..] && b == [b[0]] + b[1..];
    }
  }

  lemma {:induction false} StringLeTransitive(a: string, b: string, c: string)
    requires StringLe(a, b) && StringLe(b, c)
    ensures StringLe(a, c)
  {
    if a != [] && b != [] && c != [] && a[0] == b[0] == c[0] {
      StringLeTransitive(a[1..], b[1..], c[1..]);
    }
  }

  /** The first difference decides, and a prefix comes first. */
  ghost predicate Earlier(a: string, b: string) {
    a <= b || exists i :: 0 <= i < |a| && i < |b| && a[..i] == b[..i] && a[i] < b[i]
  }

  lemma {:induction false} StringLeExactly(a: string, b: string)
    ensures StringLe(a, b) <==> Earlier(a, b)
  {
    if a != [] && b != [] && a[0] == b[0] {
      StringLeExactly(a[1..], b[1..]);
      EarlierTail(a, b);
    } else if a != [] && b != [] {
      assert a[..0] == b[..0];
      if i :| 0 < i < |a| && i < |b| && a[..i] == b[..i] { SameStart(a, b, i); }
    }
  }

  lemma SameStart(a: string, b: string, i: nat)
    requires 0 < i <= |a| && i <= |b| && a[..i] == b[..i]
    ensures a[0] == b[0]
  {
    assert a[0] == a[..i][0] && b[0] == b[..i][0];
  }

  lemma EarlierTail(a: string, b: string)
    requires a != [] && b != [] && a[0] == b[0]
    ensures Earlier(a, b) <==> Earlier(a[1..], b[1..])
  {
    var x, y := a[1..], b[1..];
    assert a == [a[0]] + x && b == [b[0]] + y;
    assert a <= b <==> x <= y;
    if i :| 0 <= i < |a| && i < |b| && a[..i] == b[..i] && a[i] < b[i] {
      assert x[..i - 1] == a[..i][1..] && y[..i - 1] == b[..i][1..];
      assert x[i - 1] < y[i - 1];
    }
    if i :| 0 <= i < |x| && i < |y| && x[..i] == y[..i] && x[i] < y[i] {
      assert a[..i + 1] == [a[0]] + x[..i] && b[..i + 1] == [b[0]] + y[..i];
      var j := i + 1;
      assert a[j] < b[j] && a[..j] == b[..j];
    }
  }

  lemma LeTotal(a: Cid, b: Cid)
    ensures Le(a, b) || Le(b, a)
    ensures Le(a, b) && Le(b, a) ==> a == b
  {
    if a.Client? && b.Client? { StringLeTotal(a.addr, b.addr); }
  }

  lemma LeTransitive(a: Cid, b: Cid, c: Cid)
    requires Le(a, b) && Le(b, c)
    ensures Le(a, c)
  {
    if a.Client? { StringLeTransitive(a.addr, b.addr, c.addr); }
  }

  ghost predicate IsLeast(w: Cid, ws: set<Cid>) {
    w in ws && forall v :: v in ws ==> Le(w, v)
  }

  lemma LeastExists(ws: set<Cid>)
    requires ws != {}
    ensures exists w :: IsLeast(w, ws)
  {
    var x :| x in ws;
    if ws == {x} {
      LeTotal(x, x);
      assert IsLeast(x, ws);
    } else {
      LeastExists(ws - {x});
      var y :| IsLeast(y, ws - {x});
      LeTotal(x, y);
      if Le(x, y) {
        forall v | v in ws ensures Le(x, v) {
          if v != x { LeTransitive(x, y, v); } else { LeTotal(x, x); }
        }
        assert IsLeast(x, ws);
      } else {
        assert IsLeast(y, ws);
      }
    }
  }

  /** The first element in iteration order of a non-empty set of client ids. */
  function Least(ws: set<Cid>): (w: Cid)
    requires ws != {}
    ensures w in ws && forall v :: v in ws ==> Le(w, v)
  {
    LeastExists(ws);
    assert forall a, b | a in ws && b in ws :: Le(a, b) && Le(b, a) ==> a == b by {
      forall a, b | a in ws && b in ws { LeTotal(a, b); }
    }
    var w :| w in ws && forall v :: v in ws ==> Le(w, v);
    w
  }
}

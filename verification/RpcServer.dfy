/** The server half of at-most-once RPC: per client nonce a window of remembered replies.
    `Check` and `Stored` describe the new window; the class walks the list in place. */
module RpcServer {

  type Nonce = nat
  type Bytes = seq<nat>

  datatype Reply = Reply(xid: nat, present: bool, buf: Bytes)
  datatype Verdict = NEW | INPROGRESS | DONE(buf: Bytes) | FORGOTTEN

  predicate Ascending(w: seq<Reply>) { forall i, j :: 0 <= i < j < |w| ==> w[i].xid < w[j].xid }

  /** The place of xid in the window, or its length. */
  function Find(w: seq<Reply>, xid: nat): (i: nat)
    ensures i <= |w|
    ensures i < |w| ==> w[i].xid == xid
    ensures forall j :: 0 <= j < i ==> w[j].xid != xid
  {
    if w == [] || w[0].xid == xid then 0 else 1 + Find(w[1..], xid)
  }

  function Insert(w: seq<Reply>, r: Reply): (v: seq<Reply>) {
    if w == [] || w[0].xid > r.xid then [r] + w else [w[0]] + Insert(w[1..], r)
  }

  /** Entries are dropped from the front until one is at least `rep`. */
  function Trim(w: seq<Reply>, rep: nat): (v: seq<Reply>) {
    if w == [] || w[0].xid >= rep then w else Trim(w[1..], rep)
  }

  function Judge(w: seq<Reply>, xid: nat): Verdict {
    var i := Find(w, xid);
    if i < |w| then (if w[i].present then DONE(w[i].buf) else INPROGRESS)
    else if w != [] && w[0].xid > xid then FORGOTTEN
    else NEW
  }

  /** The window after a request (xid, xid_rep). */
  function Checked(w: seq<Reply>, xid: nat, rep: nat): seq<Reply> {
    if Judge(w, xid) == NEW then Trim(Insert(w, Reply(xid, false, [])), rep) else w
  }

  /** The window after the reply to xid is known. */
  function Stored(w: seq<Reply>, xid: nat, buf: Bytes): seq<Reply> {
    var i := Find(w, xid);
    if i < |w| then w[i := Reply(xid, true, buf)] else w
  }

  // --------------------------------------------------------- list operations, as sets

  predicate Has(w: seq<Reply>, xid: nat) { Find(w, xid) < |w| }

  function Entry(w: seq<Reply>, xid: nat): Reply
    requires Has(w, xid)
  {
    w[Find(w, xid)]
  }

  lemma HasMember(w: seq<Reply>, i: nat)
    requires i < |w|
    ensures Has(w, w[i].xid)
  {}

  lemma {:induction false} InsertHas(w: seq<Reply>, r: Reply, x: nat)
    requires !Has(w, r.xid)
    ensures Has(Insert(w, r), x) <==> x == r.xid || Has(w, x)
    ensures Has(Insert(w, r), x) ==> Entry(Insert(w, r), x) == if x == r.xid then r else Entry(w, x)
  {
    if w != [] && w[0].xid <= r.xid {
      InsertHas(w[1..], r, x);
      assert Insert(w, r)[1..] == Insert(w[1..], r);
    } else {
      assert Insert(w, r)[1..] == w;
    }
  }

  lemma {:induction false} TrimHas(w: seq<Reply>, rep: nat, x: nat)
    requires Ascending(w)
    ensures Has(Trim(w, rep), x) <==> x >= rep && Has(w, x)
    ensures Has(Trim(w, rep), x) ==> Entry(Trim(w, rep), x) == Entry(w, x)
  {
    if w != [] && w[0].xid < rep { TrimHas(w[1..], rep, x); }
  }

  lemma {:induction false} InsertAscending(w: seq<Reply>, r: Reply)
    requires Ascending(w) && !Has(w, r.xid)
    ensures Ascending(Insert(w, r))
    ensures Insert(w, r)[0].xid == if w == [] || w[0].xid > r.xid then r.xid else w[0].xid
  {
    if w != [] && w[0].xid <= r.xid {
      InsertAscending(w[1..], r);
      var v := Insert(w[1..], r);
      assert w[0].xid != r.xid;
      assert |w| > 1 ==> w[1..][0].xid > w[0].xid;
      assert forall j :: 0 <= j < |v| ==> v[0].xid <= v[j].xid;
    }
  }

  lemma {:induction false} TrimAscending(w: seq<Reply>, rep: nat)
    requires Ascending(w)
    ensures Ascending(Trim(w, rep))
  {
    if w != [] && w[0].xid < rep { TrimAscending(w[1..], rep); }
  }

  class ReplyWindows {
    var windows: map<Nonce, seq<Reply>>

    constructor ()
      ensures windows == map[]
    {
      windows := map[];
    }

    function Window(nonce: Nonce): seq<Reply>
      reads this
    {
      if nonce in windows then windows[nonce] else []
    }

    /** `checkduplicate_and_update`, on the window of one client. */
    method CheckDuplicateAndUpdate(nonce: Nonce, xid: nat, rep: nat) returns (v: Verdict)
      modifies this
      ensures v == Judge(old(Window(nonce)), xid)
      ensures windows == old(windows)[nonce := Checked(old(Window(nonce)), xid, rep)]
    {
      var w := Window(nonce);
      windows := windows[nonce := w];
      var it := 0;
      while it < |w|
        invariant 0 <= it <= |w| && it <= Find(w, xid)
        invariant windows == old(windows)[nonce := w]
      {
        if w[it].xid == xid {
          assert Find(w, xid) == it;
          return if w[it].present then DONE(w[it].buf) else INPROGRESS;
        }
        FindPast(w, xid, it);
        it := it + 1;
      }
      if |w| > 0 && w[0].xid > xid {
        return FORGOTTEN;
      }
      var reply := Reply(xid, false, []);
      var full := InsertReply(w, reply);
      var kept := DropAcknowledged(full, rep);
      windows := windows[nonce := kept];
      return NEW;
    }

    method InsertReply(w: seq<Reply>, reply: Reply) returns (v: seq<Reply>)
      ensures v == Insert(w, reply)
    {
      hide Insert;
      var it := 0;
      assert w[..0] + Insert(w[0..], reply) == Insert(w, reply) by { assert w[0..] == w; }
      while it < |w| && w[it].xid <= reply.xid
        invariant 0 <= it <= |w|
        invariant Insert(w, reply) == w[..it] + Insert(w[it..], reply)
      {
        InsertPasses(w, reply, it);
        it := it + 1;
      }
      InsertStops(w, reply, it);
      v := w[..it] + [reply] + w[it..];
    }

    method DropAcknowledged(w: seq<Reply>, rep: nat) returns (v: seq<Reply>)
      ensures v == Trim(w, rep)
    {
      var it := 0;
      while it < |w| && w[it].xid < rep
        invariant 0 <= it <= |w|
        invariant Trim(w, rep) == Trim(w[it..], rep)
      {
        assert w[it..][1..] == w[it + 1..];
        it := it + 1;
      }
      v := w[it..];
    }

    /** `add_reply`: remember the reply with the entry of its request, if it is still there. */
    method AddReply(nonce: Nonce, xid: nat, buf: Bytes)
      modifies this
      ensures windows == old(windows)[nonce := Stored(old(Window(nonce)), xid, buf)]
    {
      var w := Window(nonce);
      windows := windows[nonce := w];
      var it := 0;
      while it < |w|
        invariant 0 <= it <= |w| && it <= Find(w, xid)
        invariant windows == old(windows)[nonce := w]
      {
        if w[it].xid == xid {
          assert Find(w, xid) == it;
          windows := windows[nonce := w[it := Reply(xid, true, buf)]];
          return;
        }
        FindPast(w, xid, it);
        it := it + 1;
      }
    }
  }

  lemma InsertPasses(w: seq<Reply>, r: Reply, it: nat)
    requires it < |w| && w[it].xid <= r.xid
    ensures w[..it] + Insert(w[it..], r) == w[..it + 1] + Insert(w[it + 1..], r)
  {
    assert w[it..][1..] == w[it + 1..];
    assert w[..it + 1] == w[..it] + [w[it]];
  }

  lemma InsertStops(w: seq<Reply>, r: Reply, it: nat)
    requires it <= |w| && (it == |w| || w[it].xid > r.xid)
    ensures w[..it] + Insert(w[it..], r) == w[..it] + [r] + w[it..]
  {
    assert Insert(w[it..], r) == [r] + w[it..];
  }

  lemma FindPast(w: seq<Reply>, xid: nat, it: nat)
    requires it < |w| && it <= Find(w, xid) && w[it].xid != xid
    ensures it + 1 <= Find(w, xid)
  {}

  // ------------------------------------------------------------------ at most once

  /** A request that was answered NEW stays recognisable: still listed, or below the front. */
  predicate Known(w: seq<Reply>, xid: nat) {
    Has(w, xid) || (w != [] && xid < w[0].xid)
  }

  lemma KnownIsNotNew(w: seq<Reply>, xid: nat)
    ensures Judge(w, xid) == NEW <==> !Known(w, xid)
  {}

  datatype Event = Request(xid: nat, rep: nat) | Answer(xid: nat, buf: Bytes)

  function Serve(w: seq<Reply>, e: Event): seq<Reply> {
    match e
    case Request(xid, rep) => Checked(w, xid, rep)
    case Answer(xid, buf) => Stored(w, xid, buf)
  }

  function ServeAll(w: seq<Reply>, es: seq<Event>): seq<Reply> {
    if es == [] then w else Serve(ServeAll(w, es[..|es| - 1]), es[|es| - 1])
  }

  lemma StoredSame(w: seq<Reply>, xid: nat, buf: Bytes, x: nat)
    requires Ascending(w)
    ensures Ascending(Stored(w, xid, buf))
    ensures |Stored(w, xid, buf)| == |w| && (w != [] ==> Stored(w, xid, buf)[0].xid == w[0].xid)
    ensures Has(Stored(w, xid, buf), x) <==> Has(w, x)
    ensures Has(w, x) ==> Entry(Stored(w, xid, buf), x) == if x == xid then Reply(xid, true, buf) else Entry(w, x)
  {
    var v := Stored(w, xid, buf);
    assert forall i :: 0 <= i < |w| ==> v[i].xid == w[i].xid;
    if Has(w, x) {
      assert v[Find(w, x)].xid == x;
    }
    if Has(v, x) {
      assert w[Find(v, x)].xid == x;
    }
  }

  /** The window after a new request, entry by entry. */
  lemma CheckedNew(w: seq<Reply>, xid: nat, rep: nat, x: nat)
    requires Ascending(w) && Judge(w, xid) == NEW
    ensures Ascending(Checked(w, xid, rep))
    ensures Has(Checked(w, xid, rep), x) <==> x >= rep && (x == xid || Has(w, x))
    ensures Has(Checked(w, xid, rep), x) ==>
              Entry(Checked(w, xid, rep), x) == if x == xid then Reply(xid, false, []) else Entry(w, x)
  {
    var r := Reply(xid, false, []);
    InsertAscending(w, r);
    InsertHas(w, r, x);
    TrimAscending(Insert(w, r), rep);
    TrimHas(Insert(w, r), rep, x);
  }

  lemma AscendingHas(w: seq<Reply>, x: nat)
    requires Ascending(w) && Has(w, x)
    ensures w != [] && w[0].xid <= x
  {
    if Find(w, x) > 0 { assert w[0].xid < w[Find(w, x)].xid; }
  }

  lemma KnownStays(w: seq<Reply>, e: Event, x: nat)
    requires Ascending(w) && Known(w, x)
    requires e.Request? ==> e.rep <= e.xid
    ensures Ascending(Serve(w, e)) && Known(Serve(w, e), x)
  {
    match e {
      case Answer(xid, buf) => StoredSame(w, xid, buf, x);
      case Request(xid, rep) =>
        if Judge(w, xid) == NEW {
          var v := Serve(w, e);
          CheckedNew(w, xid, rep, x);
          CheckedNew(w, xid, rep, xid);
          if !Has(v, x) {
            CheckedNew(w, xid, rep, v[0].xid);
            HasMember(v, 0);
            if Has(w, v[0].xid) { AscendingHas(w, v[0].xid); }
          }
        }
    }
  }

  /** A new request is recognised later exactly when its acknowledgement does not reach past
      everything listed: the client must send xid_rep <= xid. */
  lemma RememberedExactly(w: seq<Reply>, xid: nat, rep: nat)
    requires Ascending(w) && Judge(w, xid) == NEW
    ensures Known(Checked(w, xid, rep), xid) <==> rep <= xid || exists i :: 0 <= i < |w| && w[i].xid >= rep
  {
    var v := Checked(w, xid, rep);
    CheckedNew(w, xid, rep, xid);
    assert forall y :: Has(w, y) ==> w[Find(w, y)].xid == y;
    if rep > xid {
      if i :| 0 <= i < |w| && w[i].xid >= rep {
        HasMember(w, i);
        CheckedNew(w, xid, rep, w[i].xid);
        HasMember(v, 0);
        CheckedNew(w, xid, rep, v[0].xid);
      } else if v != [] {
        HasMember(v, 0);
        CheckedNew(w, xid, rep, v[0].xid);
      }
    }
  }

  lemma {:induction false} ServedAscending(es: seq<Event>)
    requires forall i :: 0 <= i < |es| && es[i].Request? ==> es[i].rep <= es[i].xid
    ensures Ascending(ServeAll([], es))
  {
    if es != [] {
      var front, e := es[..|es| - 1], es[|es| - 1];
      ServedAscending(front);
      var w := ServeAll([], front);
      if e.Answer? { StoredSame(w, e.xid, e.buf, 0); }
      else if Judge(w, e.xid) == NEW { CheckedNew(w, e.xid, e.rep, 0); }
    }
  }

  lemma {:induction false} KnownForever(es: seq<Event>, i: nat, x: nat)
    requires i <= |es|
    requires forall k :: 0 <= k < |es| && es[k].Request? ==> es[k].rep <= es[k].xid
    requires Known(ServeAll([], es[..i]), x)
    ensures Known(ServeAll([], es), x)
    decreases |es|
  {
    if i < |es| {
      var front, e := es[..|es| - 1], es[|es| - 1];
      assert es[..i] == front[..i];
      KnownForever(front, i, x);
      ServedAscending(front);
      KnownStays(ServeAll([], front), e, x);
    } else {
      assert es[..i] == es;
    }
  }

  /** Whatever requests arrive, lost, repeated and in any order, and whenever replies are
      stored: no xid is answered NEW twice. */
  lemma AtMostOnce(es: seq<Event>, i: nat, j: nat)
    requires forall k :: 0 <= k < |es| && es[k].Request? ==> es[k].rep <= es[k].xid
    requires i < j < |es| && es[i].Request? && es[j].Request? && es[i].xid == es[j].xid
    requires Judge(ServeAll([], es[..i]), es[i].xid) == NEW
    ensures Judge(ServeAll([], es[..j]), es[j].xid) != NEW
  {
    var x := es[i].xid;
    var w := ServeAll([], es[..i]);
    ServedAscending(es[..i]);
    RememberedExactly(w, x, es[i].rep);
    assert es[..i + 1][..i] == es[..i];
    assert es[..j][..i + 1] == es[..i + 1];
    assert ServeAll([], es[..i + 1]) == Serve(w, es[i]);
    KnownForever(es[..j], i + 1, x);
  }

  /** Without that discipline it fails: the same request is NEW twice. */
  lemma AcknowledgingTooMuchRepeats()
    ensures var es := [Request(5, 10)]; Judge([], 5) == NEW && Judge(ServeAll([], es), 5) == NEW
  {
    var es := [Request(5, 10)];
    assert es[..0] == [];
    assert ServeAll([], es) == Checked([], 5, 10);
    assert Insert([], Reply(5, false, [])) == [Reply(5, false, [])];
  }
}

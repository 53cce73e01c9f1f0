/** Slot stores, transaction traces and what it means to run transactions one after another.
    A slot is the hash of a key; colliding keys share it. */
module Transactions {

  type Slot = nat
  type Store = map<Slot, string>

  /** An absent extent reads as the empty string. */
  function Read(s: Store, k: Slot): string { if k in s then s[k] else "" }

  /** One completed operation of a transaction, with the value a get returned. */
  datatype Event = Got(slot: Slot, value: string) | Put(slot: Slot, value: string) | Deleted(slot: Slot)

  type Trace = seq<Event>

  // ------------------------------------------------------- the intended semantics

  datatype Write = Wrote(value: string) | Removed

  /** The last own write to every slot the transaction wrote. */
  function Net(t: Trace): map<Slot, Write> {
    if t == [] then map[]
    else
      var n := Net(t[..|t| - 1]);
      match t[|t| - 1]
      case Got(_, _) => n
      case Put(k, v) => n[k := Wrote(v)]
      case Deleted(k) => n[k := Removed]
  }

  /** What slot k holds for a transaction with own writes n running alone on store s. */
  function See(s: Store, n: map<Slot, Write>, k: Slot): string {
    if k in n then (match n[k] case Wrote(v) => v case Removed => "") else Read(s, k)
  }

  /** Every get returned what the transaction would have seen running alone on s. */
  ghost predicate GetsMatch(t: Trace, s: Store) {
    forall i :: 0 <= i < |t| && t[i].Got? ==> t[i].value == See(s, Net(t[..i]), t[i].slot)
  }

  /** s2 is what the transaction leaves behind when it runs alone on s. */
  ghost predicate Leaves(t: Trace, s: Store, s2: Store) {
    forall k :: Read(s2, k) == See(s, Net(t), k)
  }

  // ------------------------------------------------------- what a transaction was asked for

  /** A request of a client. */
  datatype Op = Get(slot: Slot) | Set(slot: Slot, value: string) | Del(slot: Slot)

  /** The event a request leaves in the trace; only a get may leave any value. */
  predicate Records(e: Event, op: Op) {
    match op
    case Get(k) => e.Got? && e.slot == k
    case Set(k, v) => e == Put(k, v)
    case Del(k) => e == Deleted(k)
  }

  /** The trace is the requests, one event for each, in order. */
  predicate Follows(t: Trace, ops: seq<Op>) {
    |t| == |ops| && forall i :: 0 <= i < |t| ==> Records(t[i], ops[i])
  }

  /** The last write asked for, for every slot. */
  function Wanted(ops: seq<Op>): map<Slot, Write> {
    if ops == [] then map[]
    else
      var n := Wanted(ops[..|ops| - 1]);
      match ops[|ops| - 1]
      case Get(_) => n
      case Set(k, v) => n[k := Wrote(v)]
      case Del(k) => n[k := Removed]
  }

  lemma {:induction false} NetIsWanted(t: Trace, ops: seq<Op>)
    requires Follows(t, ops)
    ensures Net(t) == Wanted(ops)
  {
    if t != [] {
      assert Records(t[|t| - 1], ops[|t| - 1]);
      NetIsWanted(t[..|t| - 1], ops[..|t| - 1]);
    }
  }

  /** One more event for one more request. */
  lemma Grown(t: Trace, u: Trace, ops: seq<Op>, op: Op)
    requires Follows(t, ops) && |u| == |t| + 1 && u[..|t|] == t && Records(u[|t|], op)
    ensures Follows(u, ops + [op])
  {
    hide Records;
    forall i | 0 <= i < |t| ensures u[i] == t[i] { assert u[i] == u[..|t|][i]; }
  }
}

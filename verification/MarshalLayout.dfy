/** Where every byte of a message lies: numbers with their highest byte first, counts before contents,
    elements, entries and arguments in order, and the header fields at their offsets. */
module MarshalLayout {
  import opened Bytes
  import opened Marshal
  import opened MarshalBuffer

  function Pow256(k: nat): nat { if k == 0 then 1 else 256 * Pow256(k - 1) }

  /** The bytes of a number. */
  function Width(ty: Ty): nat {
    match ty
    case TU8 => 1   case TI8 => 1
    case TU16 => 2  case TI16 => 2
    case TU32 => 4  case TI32 => 4
    case TU64 => 8
    case _ => 0
  }

  /** The word in which a number is sent; a negative one as its two's complement. */
  function Sent(n: int, ty: Ty): int { if n < 0 then n + Pow256(Width(ty)) else n }

  lemma Powers()
    ensures Pow256(0) == 1 && Pow256(1) == 0x100 && Pow256(2) == 0x1_0000 && Pow256(3) == 0x100_0000
    ensures Pow256(4) == 0x1_0000_0000 && Pow256(5) == 0x100_0000_0000 && Pow256(6) == 0x1_0000_0000_0000
    ensures Pow256(7) == 0x100_0000_0000_0000 && Pow256(8) == 0x1_0000_0000_0000_0000
  {
    assert Pow256(0) == 1;
    assert Pow256(1) == 0x100;
    assert Pow256(2) == 0x1_0000;
    assert Pow256(3) == 0x100_0000;
    assert Pow256(4) == 0x1_0000_0000;
    assert Pow256(5) == 0x100_0000_0000;
    assert Pow256(6) == 0x1_0000_0000_0000;
    assert Pow256(7) == 0x100_0000_0000_0000;
  }

  /** Byte i of n in a word of w bytes, the highest first. */
  predicate ByteIs(b: Byte, n: nat, w: nat, i: nat)
    requires i < w
  {
    Pow256(w - 1 - i) > 0 && b as int == n / Pow256(w - 1 - i) % 256
  }

  lemma FourBytes(n: nat, i: nat)
    requires i < 4
    ensures ByteIs(BE4(n)[i], n, 4, i)
  {
    Powers();
  }

  lemma HighBytes(n: nat, i: nat)
    requires i < 4 && n < TWO64
    ensures ByteIs(BE4(n / TWO32)[i], n, 8, i)
  {
    Powers();
    if i == 0 { assert n / 0x1_0000_0000 / 0x100_0000 == n / 0x100_0000_0000_0000; }
    else if i == 1 { assert n / 0x1_0000_0000 / 0x1_0000 == n / 0x1_0000_0000_0000; }
    else if i == 2 { assert n / 0x1_0000_0000 / 0x100 == n / 0x100_0000_0000; }
  }

  // What lies above the low word does not show in its bytes.

  lemma Multiple(k: nat, x: nat)
    ensures (k * 256 + x) % 256 == x % 256
  {}

  lemma Quotient3(h: nat, l: nat)
    ensures (h * 0x1_0000_0000 + l) / 0x100_0000 == h * 256 + l / 0x100_0000
  {}

  lemma Quotient2(h: nat, l: nat)
    ensures (h * 0x1_0000_0000 + l) / 0x1_0000 == h * 256 * 256 + l / 0x1_0000
  {}

  lemma Quotient1(h: nat, l: nat)
    ensures (h * 0x1_0000_0000 + l) / 0x100 == h * 0x1_0000 * 256 + l / 0x100
  {}

  lemma LowBytes(n: nat, i: nat)
    requires i < 4
    ensures ByteIs(BE4(n % TWO32)[i], n, 8, 4 + i)
  {
    Powers();
    hide Pow256;
    var h, l := n / 0x1_0000_0000, n % 0x1_0000_0000;
    if i == 0 {
      Quotient3(h, l);
      Multiple(h, l / 0x100_0000);
    } else if i == 1 {
      Quotient2(h, l);
      Multiple(h * 256, l / 0x1_0000);
    } else if i == 2 {
      Quotient1(h, l);
      Multiple(h * 0x1_0000, l / 0x100);
    }
  }

  /** Every number is sent with its highest byte first. */
  lemma NumberBytes(v: Val, ty: Ty, i: nat)
    requires Width(ty) > 0 && HasType(v, ty) && i < Width(ty)
    ensures |Enc(v, ty)| == Width(ty) && 0 <= Sent(v.n, ty) && ByteIs(Enc(v, ty)[i], Sent(v.n, ty), Width(ty), i)
  {
    Powers();
    hide Pow256;
    if ty.TU64? { LongBytes(v, i); }
    else if ty.TU32? { FourBytes(v.n, i); }
    else if ty.TI32? { FourBytes(Bits(v.n, TWO32), i); }
  }

  lemma LongBytes(v: Val, i: nat)
    requires HasType(v, TU64) && i < 8
    ensures |Enc(v, TU64)| == 8 && ByteIs(Enc(v, TU64)[i], v.n, 8, i)
  {
    hide Pow256;
    if i < 4 { HighBytes(v.n, i); } else { LowBytes(v.n, i - 4); }
  }

  /** A string is its length in four bytes and then its bytes. */
  lemma StringBytes(v: Val)
    requires HasType(v, TStr)
    ensures var s := Enc(v, TStr); |s| == 4 + |v.s| && WordAt(s, 0) == |v.s| && s[4..] == v.s
  {
    WordThere(BE4(|v.s|) + v.s, |v.s|, 0);
  }

  /** The four bytes at an offset read as a word. */
  function WordAt(s: seq<Byte>, at: nat): nat
    requires at + 4 <= |s|
  {
    s[at] as nat * 0x100_0000 + s[at + 1] as nat * 0x1_0000 + s[at + 2] as nat * 0x100 + s[at + 3] as nat
  }

  lemma WordThere(s: seq<Byte>, n: nat, at: nat)
    requires n < TWO32 && at + 4 <= |s| && s[at..at + 4] == BE4(n)
    ensures WordAt(s, at) == n
  {
    hide BE4;
    assert s[at] == BE4(n)[0] && s[at + 1] == BE4(n)[1] && s[at + 2] == BE4(n)[2] && s[at + 3] == BE4(n)[3];
    Marshal.FourBytes(n);
  }

  /** A vector is its count in four bytes and then its elements, the first one first. */
  lemma VectorBytes(v: Val, ty: Ty)
    requires ty.TVec? && HasType(v, ty)
    ensures var s := Enc(v, ty); |s| >= 4 && WordAt(s, 0) == |v.vs| && s[4..] == EncVec(v.vs, ty)
  {
    WordThere(BE4(|v.vs|) + EncVec(v.vs, ty), |v.vs|, 0);
  }

  lemma {:induction false} TypedBoth(xs: seq<Val>, ys: seq<Val>, ty: Ty)
    requires ty.TVec? && ElementsTyped(xs, ty) && ElementsTyped(ys, ty)
    ensures ElementsTyped(xs + ys, ty)
    decreases |xs|
  {
    if xs == [] { assert xs + ys == ys; } else { assert (xs + ys)[1..] == xs[1..] + ys; TypedBoth(xs[1..], ys, ty); }
  }

  lemma {:induction false} VectorInOrder(xs: seq<Val>, ys: seq<Val>, ty: Ty)
    requires ty.TVec? && ElementsTyped(xs, ty) && ElementsTyped(ys, ty)
    ensures ElementsTyped(xs + ys, ty) && EncVec(xs + ys, ty) == EncVec(xs, ty) + EncVec(ys, ty)
    decreases |xs|
  {
    TypedBoth(xs, ys, ty);
    if xs == [] {
      assert xs + ys == ys;
    } else {
      assert (xs + ys)[1..] == xs[1..] + ys;
      VectorInOrder(xs[1..], ys, ty);
    }
  }

  lemma OneElement(x: Val, ty: Ty)
    requires ty.TVec? && HasType(x, ty.elem)
    ensures ElementsTyped([x], ty) && EncVec([x], ty) == Enc(x, ty.elem)
  {
    assert [x][1..] == [];
  }

  /** A map is its count in four bytes and then its entries in order, each key before its value. */
  lemma MapBytes(v: Val, ty: Ty)
    requires ty.TMap? && HasType(v, ty)
    ensures var s := Enc(v, ty); |s| >= 4 && WordAt(s, 0) == |v.es| && s[4..] == EncMap(v.es, ty)
  {
    WordThere(BE4(|v.es|) + EncMap(v.es, ty), |v.es|, 0);
  }

  lemma {:induction false} MapInOrder(xs: seq<(Val, Val)>, ys: seq<(Val, Val)>, ty: Ty)
    requires ty.TMap? && EntriesTyped(xs, ty) && EntriesTyped(ys, ty)
    ensures EntriesTyped(xs + ys, ty) && EncMap(xs + ys, ty) == EncMap(xs, ty) + EncMap(ys, ty)
    decreases |xs|
  {
    if xs == [] {
      assert xs + ys == ys;
    } else {
      assert (xs + ys)[1..] == xs[1..] + ys;
      MapInOrder(xs[1..], ys, ty);
    }
  }

  lemma OneEntry(k: Val, v: Val, ty: Ty)
    requires ty.TMap? && HasType(k, ty.key) && HasType(v, ty.val)
    ensures EntriesTyped([(k, v)], ty) && EncMap([(k, v)], ty) == Enc(k, ty.key) + Enc(v, ty.val)
  {
    assert [(k, v)][1..] == [];
  }

  /** The entries of a map come with ascending keys: numbers by value, strings by the first byte that
      differs, a prefix first. */
  lemma NumbersAscend(a: int, b: int)
    ensures KeyLt(Num(a), Num(b)) <==> a < b
  {}

  lemma {:induction false} StringsAscend(p: seq<Byte>, s: seq<Byte>, t: seq<Byte>)
    requires s == [] || t == [] || s[0] != t[0]
    ensures KeyLt(Str(p + s), Str(p + t)) <==> if s == [] || t == [] then s == [] && t != [] else s[0] < t[0]
  {
    if p == [] {
      assert p + s == s && p + t == t;
    } else {
      assert (p + s)[1..] == p[1..] + s && (p + t)[1..] == p[1..] + t;
      StringsAscend(p[1..], s, t);
    }
  }

  /** The arguments of a call follow each other in order. */
  lemma {:induction false} ArgumentsInOrder(vs: seq<Val>, tys: seq<Ty>, v: Val, ty: Ty)
    requires AllTyped(vs, tys) && HasType(v, ty)
    ensures AllTyped(vs + [v], tys + [ty]) && EncAll(vs + [v], tys + [ty]) == EncAll(vs, tys) + Enc(v, ty)
    decreases |vs|
  {
    hide Enc, HasType;
    if vs == [] {
      assert (vs + [v])[1..] == [] && (tys + [ty])[1..] == [];
    } else {
      assert (vs + [v])[1..] == vs[1..] + [v] && (tys + [ty])[1..] == tys[1..] + [ty];
      ArgumentsInOrder(vs[1..], tys[1..], v, ty);
    }
  }

  /** The fields of a request header and the body, in the finished message. */
  lemma RequestOffsets(gap: seq<Byte>, size: seq<Byte>, h: ReqHeader, body: seq<Byte>)
    requires |gap| == RPC_HEADER_SZ && |size| == SIZE_SZ
    ensures var pdu := Over(Over(gap + body, SIZE_SZ, ReqBytes(h)), 0, size);
            && |pdu| == 24 + |body| && pdu[..4] == size && pdu[24..] == body
            && WordAt(pdu, 4) == h.xid && WordAt(pdu, 8) == h.proc && WordAt(pdu, 12) == h.cltNonce
            && WordAt(pdu, 16) == h.srvNonce && WordAt(pdu, 20) == h.xidRep
  {
    hide BE4;
    var pdu := Over(Over(gap + body, SIZE_SZ, ReqBytes(h)), 0, size);
    FourLong(h.xid); FourLong(h.proc); FourLong(h.cltNonce); FourLong(h.srvNonce); FourLong(h.xidRep);
    assert pdu == size + ReqBytes(h) + body;
    WordThere(pdu, h.xid, 4);
    WordThere(pdu, h.proc, 8);
    WordThere(pdu, h.cltNonce, 12);
    WordThere(pdu, h.srvNonce, 16);
    WordThere(pdu, h.xidRep, 20);
  }

  lemma FourLong(n: nat)
    ensures |BE4(n)| == 4
  {}

  /** And those of a reply. */
  lemma ReplyOffsets(gap: seq<Byte>, size: seq<Byte>, h: ReplyHeader, body: seq<Byte>)
    requires |gap| == RPC_HEADER_SZ && |size| == SIZE_SZ
    ensures var pdu := Over(Over(gap + body, SIZE_SZ, ReplyBytes(h)), 0, size);
            && |pdu| == 24 + |body| && pdu[..4] == size && pdu[24..] == body
            && WordAt(pdu, 4) == h.xid && WordAt(pdu, 8) == h.ret
  {
    hide BE4;
    var pdu := Over(Over(gap + body, SIZE_SZ, ReplyBytes(h)), 0, size);
    FourLong(h.xid); FourLong(h.ret);
    assert pdu == size + ReplyBytes(h) + gap[12..] + body;
    WordThere(pdu, h.xid, 4);
    WordThere(pdu, h.ret, 8);
  }
}

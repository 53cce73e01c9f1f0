/** The buffers behind the wire format: `marshall`, which grows as values are written and is
    given its header last, and `unmarshall`, which reads a header and then values. */
module MarshalBuffer {
  import opened Bytes
  import opened Marshal

  const DEFAULT_RPC_SZ := 1024
  const SIZE_SZ := 4
  const RPC_HEADER_SZ := 24

  /** The header fields are C ints and unsigned ints; as bits they are all 32-bit words. */
  datatype ReqHeader = ReqHeader(xid: Word, proc: Word, cltNonce: Word, srvNonce: Word, xidRep: Word)
  datatype ReplyHeader = ReplyHeader(xid: Word, ret: Word)

  function ReqBytes(h: ReqHeader): (s: seq<Byte>)
    ensures |s| == RPC_HEADER_SZ - SIZE_SZ
  {
    BE4(h.xid) + BE4(h.proc) + BE4(h.cltNonce) + BE4(h.srvNonce) + BE4(h.xidRep)
  }

  function ReplyBytes(h: ReplyHeader): (s: seq<Byte>)
    ensures |s| == 8
  {
    BE4(h.xid) + BE4(h.ret)
  }

  /** s with t written over it from position i. */
  function Over(s: seq<Byte>, i: nat, t: seq<Byte>): (r: seq<Byte>)
    requires i + |t| <= |s|
    ensures |r| == |s| && r[i..i + |t|] == t && r[..i] == s[..i] && r[i + |t|..] == s[i + |t|..]
  {
    s[..i] + t + s[i + |t|..]
  }

  lemma Overwritten(s: seq<Byte>, i: nat, t: seq<Byte>, r: seq<Byte>, n: nat)
    requires i + |t| <= n <= |s| && r == s[..i] + t + s[i + |t|..]
    ensures r == Over(s, i, t) && r[..n] == Over(s[..n], i, t)
  {}

  /** What `unpack_req_header` reads, and where it leaves the read head. */
  function UnpackReq(r: Reader): (ReqHeader, Reader) {
    var (a, r1) := U32(r.(ind := SIZE_SZ));
    var (b, r2) := U32(r1);
    var (h, r3) := ReqRest(a, b, r2);
    (h, r3.(ind := RPC_HEADER_SZ))
  }

  function ReqRest(xid: Word, proc: Word, r: Reader): (ReqHeader, Reader) {
    var (c, r1) := U32(r);
    var (d, r2) := U32(r1);
    var (e, r3) := U32(r2);
    (ReqHeader(xid, proc, c, d, e), r3)
  }

  function UnpackReply(r: Reader): (ReplyHeader, Reader) {
    var (a, r1) := U32(r.(ind := SIZE_SZ));
    var (b, r2) := U32(r1);
    (ReplyHeader(a, b), r2.(ind := RPC_HEADER_SZ))
  }

  lemma WordsBack(r: Reader, a: Word, b: Word, rest: seq<Byte>)
    requires Before(r, BE4(a) + BE4(b) + rest)
    ensures U32(r) == (a, Past(r, 4)) && U32(Past(r, 4)) == (b, Past(r, 8)) && Before(Past(r, 8), rest)
  {
    BeforeSplit(r, BE4(a) + BE4(b), rest);
    BeforeSplit(r, BE4(a), BE4(b));
    U32Back(r, a);
    U32Back(Past(r, 4), b);
  }

  lemma ReqHeaderBack(r: Reader, h: ReqHeader)
    requires Before(r.(ind := SIZE_SZ), ReqBytes(h))
    ensures UnpackReq(r) == (h, r.(ind := RPC_HEADER_SZ))
  {
    var r0 := r.(ind := SIZE_SZ);
    var tail := BE4(h.cltNonce) + BE4(h.srvNonce) + BE4(h.xidRep);
    assert ReqBytes(h) == BE4(h.xid) + BE4(h.proc) + tail;
    WordsBack(r0, h.xid, h.proc, tail);
    WordsBack(Past(r0, 8), h.cltNonce, h.srvNonce, BE4(h.xidRep));
    U32Back(Past(r0, 16), h.xidRep);
  }

  /** A whole request: the body is written after the gap for the header, then the header into the
      gap, then the channel puts the size in front. The other side gets the header and exactly the
      arguments, with nothing left over, whatever was in the gap and whatever the size bytes are. */
  lemma RequestRoundTrip(gap: seq<Byte>, size: seq<Byte>, h: ReqHeader, vs: seq<Val>, tys: seq<Ty>)
    requires |gap| == RPC_HEADER_SZ && |size| == SIZE_SZ && AllTyped(vs, tys)
    ensures
      var pdu := Over(Over(gap + EncAll(vs, tys), SIZE_SZ, ReqBytes(h)), 0, size);
      var (g, r) := UnpackReq(Reader(pdu, 0, true));
      var (ws, end) := DecAll(tys, r);
      g == h && ws == vs && OkDone(end)
  {
    var body := EncAll(vs, tys);
    var pdu := Over(Over(gap + body, SIZE_SZ, ReqBytes(h)), 0, size);
    var header := size + ReqBytes(h);
    assert pdu == header + body;
    assert pdu[SIZE_SZ..][..RPC_HEADER_SZ - SIZE_SZ] == ReqBytes(h);
    ReqHeaderBack(Reader(pdu, 0, true), h);
    BodyRoundTrip(header, vs, tys);
  }

  lemma ReplyLayout(gap: seq<Byte>, size: seq<Byte>, h: ReplyHeader, body: seq<Byte>)
    requires |gap| == RPC_HEADER_SZ && |size| == SIZE_SZ
    ensures var pdu := Over(Over(gap + body, SIZE_SZ, ReplyBytes(h)), 0, size);
            pdu[SIZE_SZ..] == BE4(h.xid) + BE4(h.ret) + (gap[12..] + body) && pdu[RPC_HEADER_SZ..] == body
  {
    assert (gap + body)[12..] == gap[12..] + body;
  }

  /** A reply uses only the first eight bytes of the gap; the rest of it is skipped. */
  lemma ReplyRoundTrip(gap: seq<Byte>, size: seq<Byte>, h: ReplyHeader, v: Val, ty: Ty)
    requires |gap| == RPC_HEADER_SZ && |size| == SIZE_SZ && HasType(v, ty)
    ensures
      var pdu := Over(Over(gap + Enc(v, ty), SIZE_SZ, ReplyBytes(h)), 0, size);
      var (g, r) := UnpackReply(Reader(pdu, 0, true));
      var (w, end) := Dec(ty, r);
      g == h && w == v && OkDone(end)
  {
    var pdu := Over(Over(gap + Enc(v, ty), SIZE_SZ, ReplyBytes(h)), 0, size);
    ReplyLayout(gap, size, h, Enc(v, ty));
    WordsBack(Reader(pdu, SIZE_SZ, true), h.xid, h.ret, gap[12..] + Enc(v, ty));
    RoundTrip(v, ty, Reader(pdu, RPC_HEADER_SZ, true));
  }

  class Marshaller {
    var buf: array<Byte>
    var capa: nat
    var ind: nat

    ghost predicate Valid() reads this { 0 < capa == buf.Length && ind <= capa }

    /** Everything before the write head. */
    ghost function Bytes(): seq<Byte>
      requires Valid()
      reads this, buf
    {
      buf[..ind]
    }

    constructor ()
      ensures Valid() && ind == RPC_HEADER_SZ && capa == DEFAULT_RPC_SZ && fresh(buf)
    {
      buf := new Byte[DEFAULT_RPC_SZ];
      capa := DEFAULT_RPC_SZ;
      ind := RPC_HEADER_SZ;
    }

    method Realloc(n: nat)
      requires Valid() && capa <= n
      modifies this
      ensures Valid() && capa == n && ind == old(ind) && fresh(buf)
      ensures buf[..old(capa)] == old(buf[..])
    {
      var grown := new Byte[n];
      forall i | 0 <= i < capa { grown[i] := buf[i]; }
      buf, capa := grown, n;
    }

    /** Writing inside the buffer keeps what lies behind the head; at its end the buffer grows. */
    method RawByte(x: Byte)
      requires Valid()
      modifies this, buf
      ensures Valid() && ind == old(ind) + 1 && (buf == old(buf) || fresh(buf))
      ensures Bytes() == old(Bytes()) + [x]
      ensures old(ind < capa) ==> buf == old(buf) && forall k :: ind <= k < capa ==> buf[k] == old(buf[k])
    {
      if ind >= capa { Realloc(capa * 2); }
      buf[ind] := x;
      ind := ind + 1;
    }

    /** The one-step growth always makes enough room. */
    method RawBytes(p: seq<Byte>)
      requires Valid()
      modifies this, buf
      ensures Valid() && ind == old(ind) + |p| && (buf == old(buf) || fresh(buf))
      ensures Bytes() == old(Bytes()) + p
    {
      if ind + |p| > capa { Realloc(if capa > |p| then 2 * capa else capa + |p|); }
      for i := 0 to |p|
        invariant Valid() && ind == old(ind) && ind + |p| <= capa && (buf == old(buf) || fresh(buf))
        invariant buf[..ind + i] == old(Bytes()) + p[..i]
      {
        buf[ind + i] := p[i];
      }
      ind := ind + |p|;
    }

    /** `pack` and `operator<<` of an unsigned int. */
    method Put32(n: Word)
      requires Valid()
      modifies this, buf
      ensures Valid() && ind == old(ind) + 4 && (buf == old(buf) || fresh(buf))
      ensures Bytes() == old(Bytes()) + BE4(n)
      ensures old(ind + 4 <= capa) ==> buf == old(buf) && forall k :: ind <= k < capa ==> buf[k] == old(buf[k])
    {
      RawByte(n / 0x1000000 % 256);
      RawByte(n / 0x10000 % 256);
      RawByte(n / 256 % 256);
      RawByte(n % 256);
    }

    method PackReqHeader(h: ReqHeader)
      requires Valid() && RPC_HEADER_SZ <= ind
      modifies this, buf
      ensures Valid() && ind == old(ind) && buf == old(buf)
      ensures buf[..] == Over(old(buf[..]), SIZE_SZ, ReqBytes(h))
      ensures Bytes() == Over(old(Bytes()), SIZE_SZ, ReqBytes(h))
    {
      var saved := ind;
      ghost var s := buf[..];
      ind := SIZE_SZ;
      Put32(h.xid);
      Put32(h.proc);
      Put32(h.cltNonce);
      Put32(h.srvNonce);
      Put32(h.xidRep);
      assert Bytes() == s[..SIZE_SZ] + ReqBytes(h);
      assert buf[..] == Bytes() + s[ind..];
      Overwritten(s, SIZE_SZ, ReqBytes(h), buf[..], saved);
      ind := saved;
    }

    method PackReplyHeader(h: ReplyHeader)
      requires Valid() && RPC_HEADER_SZ <= ind
      modifies this, buf
      ensures Valid() && ind == old(ind) && buf == old(buf)
      ensures buf[..] == Over(old(buf[..]), SIZE_SZ, ReplyBytes(h))
      ensures Bytes() == Over(old(Bytes()), SIZE_SZ, ReplyBytes(h))
    {
      var saved := ind;
      ghost var s := buf[..];
      ind := SIZE_SZ;
      Put32(h.xid);
      Put32(h.ret);
      assert buf[..] == Bytes() + s[ind..];
      Overwritten(s, SIZE_SZ, ReplyBytes(h), buf[..], saved);
      ind := saved;
    }

    /** `operator<<` at every type: the bytes of the value are appended. */
    method Put(v: Val, ty: Ty)
      requires Valid() && HasType(v, ty)
      modifies this, buf
      ensures Valid() && (buf == old(buf) || fresh(buf))
      ensures Bytes() == old(Bytes()) + Enc(v, ty)
      decreases ty, 2, 0
    {
      match ty
      case TStr => PutString(v.s);
      case TVec(_) => PutVector(v.vs, ty);
      case TMap(_, _) => PutMap(v.es, ty);
      case _ => PutScalar(v, ty);
    }

    method PutString(s: seq<Byte>)
      requires Valid() && |s| < TWO32
      modifies this, buf
      ensures Valid() && (buf == old(buf) || fresh(buf))
      ensures Bytes() == old(Bytes()) + (BE4(|s|) + s)
    {
      Put32(|s|);
      RawBytes(s);
    }

    method PutScalar(v: Val, ty: Ty)
      requires Valid() && !ty.TStr? && !ty.TVec? && !ty.TMap? && HasType(v, ty)
      modifies this, buf
      ensures Valid() && (buf == old(buf) || fresh(buf))
      ensures Bytes() == old(Bytes()) + Enc(v, ty)
    {
      match ty
      case TBool => RawByte(if v.b then 1 else 0);
      case TU8 => RawByte(v.n);
      case TI8 => RawByte(Bits(v.n, 256));
      case TU16 => Put16(v.n);
      case TI16 => Put16(Bits(v.n, TWO16));
      case TU32 => Put32(v.n);
      case TI32 => Put32(Bits(v.n, TWO32));
      case TU64 => Put32(v.n / TWO32); Put32(v.n % TWO32);
    }

    method Put16(n: nat)
      requires Valid() && n < TWO16
      modifies this, buf
      ensures Valid() && (buf == old(buf) || fresh(buf))
      ensures Bytes() == old(Bytes()) + BE2(n)
    {
      RawByte(n / 256 % 256);
      RawByte(n % 256);
    }

    static lemma ElementWritten(s: seq<Byte>, vs: seq<Val>, ty: Ty)
      requires ty.TVec? && vs != [] && ElementsTyped(vs, ty)
      ensures ElementsTyped(vs[1..], ty)
      ensures s + EncVec(vs, ty) == s + Enc(vs[0], ty.elem) + EncVec(vs[1..], ty)
    {}

    method PutVector(vs: seq<Val>, ty: Ty)
      requires Valid() && ty.TVec? && |vs| < TWO32 && ElementsTyped(vs, ty)
      modifies this, buf
      ensures Valid() && (buf == old(buf) || fresh(buf))
      ensures Bytes() == old(Bytes()) + (BE4(|vs|) + EncVec(vs, ty))
      decreases ty, 1, 0
    {
      Put32(|vs|);
      assert Bytes() + EncVec(vs, ty) == old(Bytes()) + (BE4(|vs|) + EncVec(vs, ty));
      var i := 0;
      while i < |vs|
        invariant 0 <= i <= |vs| && Valid() && (buf == old(buf) || fresh(buf))
        invariant ElementsTyped(vs[i..], ty)
        invariant Bytes() + EncVec(vs[i..], ty) == old(Bytes()) + (BE4(|vs|) + EncVec(vs, ty))
      {
        ghost var s := Bytes();
        assert vs[i..][1..] == vs[i + 1..];
        Put(vs[i], ty.elem);
        ElementWritten(s, vs[i..], ty);
        i := i + 1;
      }
    }

    static lemma EntryWritten(s: seq<Byte>, es: seq<(Val, Val)>, ty: Ty)
      requires ty.TMap? && es != [] && EntriesTyped(es, ty)
      ensures EntriesTyped(es[1..], ty)
      ensures s + EncMap(es, ty) == s + Enc(es[0].0, ty.key) + Enc(es[0].1, ty.val) + EncMap(es[1..], ty)
    {}

    method PutEntry(k: Val, v: Val, ty: Ty)
      requires Valid() && ty.TMap? && HasType(k, ty.key) && HasType(v, ty.val)
      modifies this, buf
      ensures Valid() && (buf == old(buf) || fresh(buf))
      ensures Bytes() == old(Bytes()) + Enc(k, ty.key) + Enc(v, ty.val)
      decreases ty, 0, 0
    {
      Put(k, ty.key);
      Put(v, ty.val);
    }

    method PutMap(es: seq<(Val, Val)>, ty: Ty)
      requires Valid() && ty.TMap? && |es| < TWO32 && EntriesTyped(es, ty)
      modifies this, buf
      ensures Valid() && (buf == old(buf) || fresh(buf))
      ensures Bytes() == old(Bytes()) + (BE4(|es|) + EncMap(es, ty))
      decreases ty, 1, 0
    {
      Put32(|es|);
      assert Bytes() + EncMap(es, ty) == old(Bytes()) + (BE4(|es|) + EncMap(es, ty));
      var i := 0;
      while i < |es|
        invariant 0 <= i <= |es| && Valid() && (buf == old(buf) || fresh(buf))
        invariant EntriesTyped(es[i..], ty)
        invariant Bytes() + EncMap(es[i..], ty) == old(Bytes()) + (BE4(|es|) + EncMap(es, ty))
      {
        ghost var s := Bytes();
        assert es[i..][1..] == es[i + 1..];
        PutEntry(es[i].0, es[i].1, ty);
        EntryWritten(s, es[i..], ty);
        i := i + 1;
      }
    }
  }

  class Unmarshaller {
    var buf: seq<Byte>
    var ind: nat
    var ok: bool

    ghost function View(): Reader reads this { Reader(buf, ind, ok) }

    constructor (b: seq<Byte>)
      ensures View() == Reader(b, 0, true)
    {
      buf, ind, ok := b, 0, true;
    }

    method OkDone() returns (r: bool)
      ensures r == Marshal.OkDone(View())
    {
      r := ok && ind == |buf|;
    }

    method RawByte() returns (b: Byte)
      modifies this
      ensures (b, View()) == Marshal.RawByte(old(View()))
    {
      if ind >= |buf| {
        b, ok := 0, false;
      } else {
        b, ind := buf[ind], ind + 1;
      }
    }

    method RawBytes(n: nat) returns (s: seq<Byte>)
      modifies this
      ensures (s, View()) == Marshal.RawBytes(old(View()), n)
    {
      if ind + n > |buf| {
        s, ok := [], false;
      } else {
        s, ind := buf[ind..ind + n], ind + n;
      }
    }

    method Get16() returns (n: nat)
      modifies this
      ensures (n, View()) == U16(old(View()))
    {
      var a: int := RawByte();
      var b := RawByte();
      n := a * 256 + b;
    }

    method Get32() returns (n: Word)
      modifies this
      ensures (n as nat, View()) == U32(old(View()))
    {
      var a: int := RawByte();
      var b: int := RawByte();
      var c: int := RawByte();
      var d := RawByte();
      n := a * 0x1000000 + b * 0x10000 + c * 256 + d;
    }

    method UnpackReqHeader() returns (h: ReqHeader)
      modifies this
      ensures (h, View()) == UnpackReq(old(View()))
    {
      hide U32, ReqRest;
      ind := SIZE_SZ;
      var a := Get32();
      var b := Get32();
      h := UnpackRest(a, b);
      ind := RPC_HEADER_SZ;
    }

    method UnpackRest(a: Word, b: Word) returns (h: ReqHeader)
      modifies this
      ensures (h, View()) == ReqRest(a, b, old(View()))
    {
      var c := Get32();
      var d := Get32();
      var e := Get32();
      h := ReqHeader(a, b, c, d, e);
    }

    method UnpackReplyHeader() returns (h: ReplyHeader)
      modifies this
      ensures (h, View()) == UnpackReply(old(View()))
    {
      ind := SIZE_SZ;
      var a := Get32();
      var b := Get32();
      h := ReplyHeader(a, b);
      ind := RPC_HEADER_SZ;
    }

    /** `operator>>` at every type. */
    method Get(ty: Ty) returns (v: Val)
      modifies this
      ensures (v, View()) == Dec(ty, old(View()))
      decreases ty, 2, 0
    {
      match ty
      case TBool => var b := RawByte(); v := Bool(b != 0);
      case TU8 => var b := RawByte(); v := Num(b);
      case TI8 => var b := RawByte(); v := Num(Signed(b, 256));
      case TU16 => var n := Get16(); v := Num(n);
      case TI16 => var n := Get16(); v := Num(Signed(n, TWO16));
      case TU32 => var n := Get32(); v := Num(n);
      case TI32 => var n := Get32(); v := Num(Signed(n, TWO32));
      case TU64 => var h := Get32(); var l := Get32(); v := Num(l + h * TWO32);
      case TStr =>
        var n := Get32();
        var s := [];
        if ok { s := RawBytes(n); }
        v := Str(s);
      case TVec(_) => var n := Get32(); v := GetVector(n, ty, []);
      case TMap(_, _) => var n := Get32(); v := GetMap(n, ty);
    }

    /** The elements are pushed to the back of what the caller's vector already holds. */
    method GetVector(n: nat, ty: Ty, onto: seq<Val>) returns (v: Val)
      requires ty.TVec?
      modifies this
      ensures (v, View()) == DecVec(ty, n, old(View()), onto)
      decreases ty, 1, 0
    {
      var vs := onto;
      var i := 0;
      while i < n
        invariant 0 <= i <= n
        invariant DecVec(ty, n - i, View(), vs) == DecVec(ty, n, old(View()), onto)
      {
        var z := Get(ty.elem);
        vs := vs + [z];
        i := i + 1;
      }
      v := Vec(vs);
    }

    method GetMap(n: nat, ty: Ty) returns (v: Val)
      requires ty.TMap?
      modifies this
      ensures (v, View()) == DecMap(ty, n, old(View()), [])
      decreases ty, 1, 0
    {
      var es := [];
      var i := 0;
      while i < n
        invariant 0 <= i <= n
        invariant DecMap(ty, n - i, View(), es) == DecMap(ty, n, old(View()), [])
      {
        var k := Get(ty.key);
        var w := Get(ty.val);
        es := Insert(es, k, w);
        i := i + 1;
      }
      v := Map(es);
    }
  }
}

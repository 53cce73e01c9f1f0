/** The wire format of RPC arguments and results: a self-delimiting printer and parser.
    Numbers are big-endian; strings, vectors and maps carry a 32-bit count. */
module Marshal {

  import opened Bytes

  const TWO16 := 0x1_0000
  const TWO64 := 0x1_0000_0000_0000_0000

  datatype Ty = TBool | TU8 | TI8 | TU16 | TI16 | TU32 | TI32 | TU64 | TStr | TVec(elem: Ty) | TMap(key: Ty, val: Ty)

  /** A map is its entries in iteration order. */
  datatype Val = Bool(b: bool) | Num(n: int) | Str(s: seq<Byte>) | Vec(vs: seq<Val>) | Map(es: seq<(Val, Val)>)

  // --------------------------------------------------------------------- typing

  /** The order of `std::less` on keys as a three-way comparison: negative, zero or positive. Strings,
      vectors and maps compare element by element, a prefix first. */
  function Compare(a: Val, b: Val): int
    decreases a, 0
  {
    match (a, b)
    case (Bool(x), Bool(y)) => (if x then 1 else 0) - (if y then 1 else 0)
    case (Num(x), Num(y)) => x - y
    case (Str(x), Str(y)) => CompareBytes(x, y)
    case (Vec(x), Vec(y)) => CompareVecs(x, y)
    case (Map(x), Map(y)) => CompareMaps(x, y)
    case _ => 0
  }

  function CompareBytes(a: seq<Byte>, b: seq<Byte>): int {
    if a == [] || b == [] then |a| - |b|
    else if a[0] != b[0] then a[0] as int - b[0] as int
    else CompareBytes(a[1..], b[1..])
  }

  function CompareVecs(a: seq<Val>, b: seq<Val>): int
    decreases a, 0
  {
    if a == [] || b == [] then |a| - |b|
    else if Compare(a[0], b[0]) != 0 then Compare(a[0], b[0])
    else CompareVecs(a[1..], b[1..])
  }

  function CompareMaps(a: seq<(Val, Val)>, b: seq<(Val, Val)>): int
    decreases a, 0
  {
    if a == [] || b == [] then |a| - |b|
    else if CompareEntries(a[0], b[0]) != 0 then CompareEntries(a[0], b[0])
    else CompareMaps(a[1..], b[1..])
  }

  function CompareEntries(a: (Val, Val), b: (Val, Val)): int
    decreases a, 0
  {
    if Compare(a.0, b.0) != 0 then Compare(a.0, b.0) else Compare(a.1, b.1)
  }

  predicate KeyLt(a: Val, b: Val) { Compare(a, b) < 0 }

  predicate LtAt(es: seq<(Val, Val)>, i: int, j: int) { 0 <= i < j < |es| ==> KeyLt(es[i].0, es[j].0) }

  ghost predicate Ordered(es: seq<(Val, Val)>) { forall i, j {:trigger LtAt(es, i, j)} :: LtAt(es, i, j) }

  function Lo(ty: Ty): int { match ty case TI8 => -128 case TI16 => -0x8000 case TI32 => -0x8000_0000 case _ => 0 }
  function Hi(ty: Ty): int {
    match ty
    case TU8 => 256     case TI8 => 128
    case TU16 => TWO16  case TI16 => 0x8000
    case TU32 => TWO32  case TI32 => 0x8000_0000
    case TU64 => TWO64
    case _ => 0
  }

  ghost predicate HasType(v: Val, ty: Ty)
    decreases ty, 2, 0
  {
    match ty
    case TBool => v.Bool?
    case TStr => v.Str? && |v.s| < TWO32
    case TVec(_) => v.Vec? && |v.vs| < TWO32 && ElementsTyped(v.vs, ty)
    case TMap(_, _) => v.Map? && |v.es| < TWO32 && EntriesTyped(v.es, ty) && Ordered(v.es)
    case _ => v.Num? && Lo(ty) <= v.n < Hi(ty)
  }

  ghost predicate ElementsTyped(vs: seq<Val>, ty: Ty)
    requires ty.TVec?
    decreases ty, 1, |vs|
  {
    vs == [] || (HasType(vs[0], ty.elem) && ElementsTyped(vs[1..], ty))
  }

  ghost predicate EntriesTyped(es: seq<(Val, Val)>, ty: Ty)
    requires ty.TMap?
    decreases ty, 1, |es|
  {
    es == [] || (HasType(es[0].0, ty.key) && HasType(es[0].1, ty.val) && EntriesTyped(es[1..], ty))
  }

  // -------------------------------------------------------------------- printing

  function BE2(n: nat): seq<Byte> { [n / 256 % 256, n % 256] }
  function BE4(n: nat): seq<Byte> { [n / 0x1000000 % 256, n / 0x10000 % 256, n / 256 % 256, n % 256] }

  /** The two's complement bits of n in a word of the given size. */
  function Bits(n: int, word: nat): (u: nat)
    requires -n <= word && n < word
    ensures u < word
  {
    if n < 0 then n + word else n
  }

  function Enc(v: Val, ty: Ty): seq<Byte>
    requires HasType(v, ty)
    decreases ty, 2, 0
  {
    match ty
    case TBool => [if v.b then 1 else 0]
    case TU8 => [v.n]
    case TI8 => [Bits(v.n, 256)]
    case TU16 => BE2(v.n)
    case TI16 => BE2(Bits(v.n, TWO16))
    case TU32 => BE4(v.n)
    case TI32 => BE4(Bits(v.n, TWO32))
    case TU64 => BE4(v.n / TWO32) + BE4(v.n % TWO32)
    case TStr => BE4(|v.s|) + v.s
    case TVec(_) => BE4(|v.vs|) + EncVec(v.vs, ty)
    case TMap(_, _) => BE4(|v.es|) + EncMap(v.es, ty)
  }

  function EncVec(vs: seq<Val>, ty: Ty): seq<Byte>
    requires ty.TVec? && ElementsTyped(vs, ty)
    decreases ty, 1, |vs|
  {
    if vs == [] then [] else Enc(vs[0], ty.elem) + EncVec(vs[1..], ty)
  }

  function EncMap(es: seq<(Val, Val)>, ty: Ty): seq<Byte>
    requires ty.TMap? && EntriesTyped(es, ty)
    decreases ty, 1, |es|
  {
    if es == [] then [] else Enc(es[0].0, ty.key) + Enc(es[0].1, ty.val) + EncMap(es[1..], ty)
  }

  // --------------------------------------------------------------------- parsing

  /** An unmarshall object: the bytes, the read head and the ok flag. */
  datatype Reader = Reader(buf: seq<Byte>, ind: nat, ok: bool)

  function RawByte(r: Reader): (Byte, Reader) {
    if r.ind >= |r.buf| then (0, r.(ok := false)) else (r.buf[r.ind], r.(ind := r.ind + 1))
  }

  function RawBytes(r: Reader, n: nat): (seq<Byte>, Reader) {
    if r.ind + n > |r.buf| then ([], r.(ok := false)) else (r.buf[r.ind..r.ind + n], r.(ind := r.ind + n))
  }

  function U16(r: Reader): (nat, Reader) {
    var (a, r1) := RawByte(r);
    var (b, r2) := RawByte(r1);
    (a * 256 + b, r2)
  }

  function U32(r: Reader): (nat, Reader) {
    var (a, r1) := RawByte(r);
    var (b, r2) := RawByte(r1);
    var (c, r3) := RawByte(r2);
    var (d, r4) := RawByte(r3);
    (a * 0x1000000 + b * 0x10000 + c * 256 + d, r4)
  }

  /** Bits read back as a signed number. */
  function Signed(u: nat, word: nat): int { if u < word / 2 then u else u - word }

  /** `d[k] = v` on an ordered map. */
  function Insert(es: seq<(Val, Val)>, k: Val, v: Val): seq<(Val, Val)> {
    if es == [] || KeyLt(k, es[0].0) then [(k, v)] + es
    else if !KeyLt(es[0].0, k) then [(es[0].0, v)] + es[1..]
    else [es[0]] + Insert(es[1..], k, v)
  }

  function Dec(ty: Ty, r: Reader): (Val, Reader)
    decreases ty, 2, 0
  {
    match ty
    case TBool => var (b, r1) := RawByte(r); (Bool(b != 0), r1)
    case TU8 => var (b, r1) := RawByte(r); (Num(b), r1)
    case TI8 => var (b, r1) := RawByte(r); (Num(Signed(b, 256)), r1)
    case TU16 => var (n, r1) := U16(r); (Num(n), r1)
    case TI16 => var (n, r1) := U16(r); (Num(Signed(n, TWO16)), r1)
    case TU32 => var (n, r1) := U32(r); (Num(n), r1)
    case TI32 => var (n, r1) := U32(r); (Num(Signed(n, TWO32)), r1)
    case TU64 =>
      var (h, r1) := U32(r);
      var (l, r2) := U32(r1);
      (Num(l + h * TWO32), r2)
    case TStr =>
      var (n, r1) := U32(r);
      if r1.ok then var (s, r2) := RawBytes(r1, n); (Str(s), r2) else (Str([]), r1)
    case TVec(_) => var (n, r1) := U32(r); DecVec(ty, n, r1, [])
    case TMap(_, _) => var (n, r1) := U32(r); DecMap(ty, n, r1, [])
  }

  /** n more elements, pushed to the back of acc. */
  function DecVec(ty: Ty, n: nat, r: Reader, acc: seq<Val>): (Val, Reader)
    requires ty.TVec?
    decreases ty, 1, n
  {
    if n == 0 then (Vec(acc), r)
    else var (v, r1) := Dec(ty.elem, r); DecVec(ty, n - 1, r1, acc + [v])
  }

  function DecMap(ty: Ty, n: nat, r: Reader, acc: seq<(Val, Val)>): (Val, Reader)
    requires ty.TMap?
    decreases ty, 1, n
  {
    if n == 0 then (Map(acc), r)
    else
      var (k, r1) := Dec(ty.key, r);
      var (v, r2) := Dec(ty.val, r1);
      DecMap(ty, n - 1, r2, Insert(acc, k, v))
  }

  // ------------------------------------------------------------------ round trip

  /** r stands before the bytes s. */
  predicate Before(r: Reader, s: seq<Byte>) {
    r.ok && r.ind <= |r.buf| && s <= r.buf[r.ind..]
  }

  function Past(r: Reader, n: nat): Reader { r.(ind := r.ind + n) }

  lemma PastNothing(r: Reader)
    ensures Past(r, 0) == r
  {}

  lemma BeforeSplit(r: Reader, a: seq<Byte>, b: seq<Byte>)
    requires Before(r, a + b)
    ensures Before(r, a) && Before(Past(r, |a|), b)
  {
    var rest := r.buf[r.ind..];
    assert rest[..|a|] == (a + b)[..|a|] == a;
    assert rest[|a|..|a| + |b|] == (a + b)[|a|..] == b;
    assert r.buf[r.ind + |a|..] == rest[|a|..];
  }

  lemma BeforeAt(r: Reader, s: seq<Byte>, i: nat)
    requires Before(r, s) && i < |s|
    ensures r.ind + i < |r.buf| && r.buf[r.ind + i] == s[i]
  {
    assert r.buf[r.ind..][i] == s[i];
  }

  lemma FourBytes(n: nat)
    requires n < TWO32
    ensures var b: seq<int> := BE4(n); b[0] * 0x1000000 + b[1] * 0x10000 + b[2] * 256 + b[3] == n
  {
    var h, l := n / 0x10000, n % 0x10000;
    assert n / 0x1000000 == h / 256;
    assert n / 256 % 256 == l / 256;
    assert n % 256 == l % 256;
  }

  lemma U32Back(r: Reader, n: nat)
    requires n < TWO32 && Before(r, BE4(n))
    ensures U32(r) == (n, Past(r, 4))
  {
    BeforeAt(r, BE4(n), 0); BeforeAt(r, BE4(n), 1); BeforeAt(r, BE4(n), 2); BeforeAt(r, BE4(n), 3);
    FourBytes(n);
  }

  lemma U16Back(r: Reader, n: nat)
    requires n < TWO16 && Before(r, BE2(n))
    ensures U16(r) == (n, Past(r, 2))
  {
    BeforeAt(r, BE2(n), 0); BeforeAt(r, BE2(n), 1);
  }

  lemma {:induction false} BytesOpposite(a: seq<Byte>, b: seq<Byte>)
    ensures CompareBytes(b, a) == -CompareBytes(a, b)
  {
    if a != [] && b != [] && a[0] == b[0] { BytesOpposite(a[1..], b[1..]); }
  }

  /** Comparing the other way round gives the opposite. */
  lemma {:induction false} Opposite(a: Val, b: Val)
    ensures Compare(b, a) == -Compare(a, b)
    decreases a, 0
  {
    if a.Str? && b.Str? { BytesOpposite(a.s, b.s); }
    if a.Vec? && b.Vec? { VecsOpposite(a.vs, b.vs); }
    if a.Map? && b.Map? { MapsOpposite(a.es, b.es); }
  }

  lemma {:induction false} VecsOpposite(a: seq<Val>, b: seq<Val>)
    ensures CompareVecs(b, a) == -CompareVecs(a, b)
    decreases a, 0
  {
    if a != [] && b != [] {
      Opposite(a[0], b[0]);
      VecsOpposite(a[1..], b[1..]);
    }
  }

  lemma {:induction false} MapsOpposite(a: seq<(Val, Val)>, b: seq<(Val, Val)>)
    ensures CompareMaps(b, a) == -CompareMaps(a, b)
    decreases a, 0
  {
    if a != [] && b != [] {
      EntriesOpposite(a[0], b[0]);
      MapsOpposite(a[1..], b[1..]);
    }
  }

  lemma {:induction false} EntriesOpposite(a: (Val, Val), b: (Val, Val))
    ensures CompareEntries(b, a) == -CompareEntries(a, b)
    decreases a, 0
  {
    Opposite(a.0, b.0);
    Opposite(a.1, b.1);
  }

  lemma KeyLtStrict(a: Val, b: Val)
    requires KeyLt(a, b)
    ensures !KeyLt(b, a) && a != b
  {
    Opposite(a, b);
  }

  /** A key above all others goes to the back. */
  lemma {:induction false} InsertLast(es: seq<(Val, Val)>, k: Val, v: Val)
    requires forall i :: 0 <= i < |es| ==> KeyLt(es[i].0, k)
    ensures Insert(es, k, v) == es + [(k, v)]
  {
    if es != [] {
      KeyLtStrict(es[0].0, k);
      InsertLast(es[1..], k, v);
    }
  }

  lemma SmallBack(v: Val, ty: Ty, r: Reader)
    requires ty in {TBool, TU8, TI8, TU16, TI16}
    requires HasType(v, ty) && Before(r, Enc(v, ty))
    ensures Dec(ty, r) == (v, Past(r, |Enc(v, ty)|))
  {
    BeforeAt(r, Enc(v, ty), 0);
    match ty {
      case TU16 => U16Back(r, v.n);
      case TI16 => U16Back(r, Bits(v.n, TWO16));
      case _ =>
    }
  }

  lemma WordBack(v: Val, ty: Ty, r: Reader)
    requires ty in {TU32, TI32, TU64}
    requires HasType(v, ty) && Before(r, Enc(v, ty))
    ensures Dec(ty, r) == (v, Past(r, |Enc(v, ty)|))
  {
    match ty {
      case TU32 => U32Back(r, v.n);
      case TI32 => U32Back(r, Bits(v.n, TWO32));
      case TU64 =>
        BeforeSplit(r, BE4(v.n / TWO32), BE4(v.n % TWO32));
        U32Back(r, v.n / TWO32);
        U32Back(Past(r, 4), v.n % TWO32);
    }
  }

  lemma StringBack(s: seq<Byte>, r: Reader)
    requires |s| < TWO32 && Before(r, BE4(|s|) + s)
    ensures Dec(TStr, r) == (Str(s), Past(r, 4 + |s|))
  {
    BeforeSplit(r, BE4(|s|), s);
    U32Back(r, |s|);
    var r1 := Past(r, 4);
    assert r1.buf[r1.ind..r1.ind + |s|] == r1.buf[r1.ind..][..|s|] == s;
  }

  /** Reading back what was written, whatever stands before and after it, gives the same value
      and leaves the read head right behind it. */
  lemma {:induction false} RoundTrip(v: Val, ty: Ty, r: Reader)
    requires HasType(v, ty) && Before(r, Enc(v, ty))
    ensures Dec(ty, r) == (v, Past(r, |Enc(v, ty)|))
    decreases ty, 2, 0
  {
    if ty in {TBool, TU8, TI8, TU16, TI16} { SmallBack(v, ty, r); }
    else if ty in {TU32, TI32, TU64} { WordBack(v, ty, r); }
    else if ty.TStr? { StringBack(v.s, r); }
    else if ty.TVec? { VectorBack(v.vs, ty, r); }
    else { MapBack(v.es, ty, r); }
  }

  lemma CountBack(n: nat, rest: seq<Byte>, r: Reader)
    requires n < TWO32 && Before(r, BE4(n) + rest)
    ensures U32(r) == (n, Past(r, 4)) && Before(Past(r, 4), rest)
  {
    BeforeSplit(r, BE4(n), rest);
    U32Back(r, n);
  }

  lemma {:induction false} VectorBack(vs: seq<Val>, ty: Ty, r: Reader)
    requires ty.TVec? && HasType(Vec(vs), ty) && Before(r, Enc(Vec(vs), ty))
    ensures Dec(ty, r) == (Vec(vs), Past(r, |Enc(Vec(vs), ty)|))
    decreases ty, 1, |vs| + 1
  {
    hide DecVec, EncVec, ElementsTyped, U32;
    CountBack(|vs|, EncVec(vs, ty), r);
    RoundTripVec(vs, ty, Past(r, 4), []);
    assert [] + vs == vs;
  }

  lemma {:induction false} MapBack(es: seq<(Val, Val)>, ty: Ty, r: Reader)
    requires ty.TMap? && HasType(Map(es), ty) && Before(r, Enc(Map(es), ty))
    ensures Dec(ty, r) == (Map(es), Past(r, |Enc(Map(es), ty)|))
    decreases ty, 1, |es| + 1
  {
    hide DecMap, EncMap, EntriesTyped, Ordered, U32;
    CountBack(|es|, EncMap(es, ty), r);
    assert [] + es == es;
    RoundTripMap(es, ty, Past(r, 4), []);
  }

  lemma {:induction false} RoundTripVec(vs: seq<Val>, ty: Ty, r: Reader, acc: seq<Val>)
    requires ty.TVec? && ElementsTyped(vs, ty)
    requires Before(r, EncVec(vs, ty))
    ensures DecVec(ty, |vs|, r, acc) == (Vec(acc + vs), Past(r, |EncVec(vs, ty)|))
    decreases ty, 1, |vs|
  {
    if vs == [] {
      assert acc + vs == acc;
    } else {
      BeforeSplit(r, Enc(vs[0], ty.elem), EncVec(vs[1..], ty));
      RoundTrip(vs[0], ty.elem, r);
      RoundTripVec(vs[1..], ty, Past(r, |Enc(vs[0], ty.elem)|), acc + [vs[0]]);
      assert acc + [vs[0]] + vs[1..] == acc + vs;
    }
  }

  lemma NextIsLast(acc: seq<(Val, Val)>, es: seq<(Val, Val)>)
    requires es != [] && Ordered(acc + es)
    ensures Insert(acc, es[0].0, es[0].1) == acc + [es[0]] && (acc + [es[0]]) + es[1..] == acc + es
  {
    var all := acc + es;
    forall i | 0 <= i < |acc| ensures KeyLt(acc[i].0, es[0].0) {
      assert all[i] == acc[i] && all[|acc|] == es[0] && LtAt(all, i, |acc|);
    }
    InsertLast(acc, es[0].0, es[0].1);
  }

  lemma {:induction false} DecMapStep(ty: Ty, n: nat, r: Reader, acc: seq<(Val, Val)>, k: Val, r1: Reader, v: Val, r2: Reader)
    requires ty.TMap? && n > 0 && Dec(ty.key, r) == (k, r1) && Dec(ty.val, r1) == (v, r2)
    ensures DecMap(ty, n, r, acc) == DecMap(ty, n - 1, r2, Insert(acc, k, v))
  {}

  lemma {:induction false} EncMapStep(es: seq<(Val, Val)>, ty: Ty, r: Reader) returns (mid: Reader, next: Reader)
    requires ty.TMap? && es != [] && EntriesTyped(es, ty)
    requires Before(r, EncMap(es, ty))
    ensures Before(r, Enc(es[0].0, ty.key)) && mid == Past(r, |Enc(es[0].0, ty.key)|)
    ensures Before(mid, Enc(es[0].1, ty.val)) && next == Past(mid, |Enc(es[0].1, ty.val)|)
    ensures Before(next, EncMap(es[1..], ty)) && Past(next, |EncMap(es[1..], ty)|) == Past(r, |EncMap(es, ty)|)
  {
    var k, v := Enc(es[0].0, ty.key), Enc(es[0].1, ty.val);
    BeforeSplit(r, k + v, EncMap(es[1..], ty));
    BeforeSplit(r, k, v);
    mid, next := Past(r, |k|), Past(r, |k| + |v|);
  }

  /** One entry is read and goes to the back of what was read before. */
  lemma {:induction false} EntryBack(es: seq<(Val, Val)>, ty: Ty, r: Reader, acc: seq<(Val, Val)>) returns (next: Reader)
    requires ty.TMap? && es != [] && EntriesTyped(es, ty)
    requires Ordered(acc + es) && Before(r, EncMap(es, ty))
    ensures Before(next, EncMap(es[1..], ty))
    ensures Past(next, |EncMap(es[1..], ty)|) == Past(r, |EncMap(es, ty)|)
    ensures DecMap(ty, |es|, r, acc) == DecMap(ty, |es| - 1, next, acc + [es[0]])
    decreases ty, 1, 0
  {
    hide Dec, Enc, HasType, Ordered, Insert, Before, Past, DecMap, EncMap;
    var k, v := es[0].0, es[0].1;
    assert HasType(k, ty.key) && HasType(v, ty.val);
    var mid: Reader;
    mid, next := EncMapStep(es, ty, r);
    RoundTrip(k, ty.key, r);
    RoundTrip(v, ty.val, mid);
    DecMapStep(ty, |es|, r, acc, k, mid, v, next);
    NextIsLast(acc, es);
  }

  lemma {:induction false} RoundTripMap(es: seq<(Val, Val)>, ty: Ty, r: Reader, acc: seq<(Val, Val)>)
    requires ty.TMap? && EntriesTyped(es, ty)
    requires Ordered(acc + es) && Before(r, EncMap(es, ty))
    ensures DecMap(ty, |es|, r, acc) == (Map(acc + es), Past(r, |EncMap(es, ty)|))
    decreases ty, 1, |es|
  {
    hide Dec, Enc, HasType, Ordered, Insert, Before, Past;
    if es == [] {
      assert acc + es == acc;
      assert Past(r, 0) == r by { PastNothing(r); }
    } else {
      var next := EntryBack(es, ty, r, acc);
      assert (acc + [es[0]]) + es[1..] == acc + es;
      RoundTripMap(es[1..], ty, next, acc + [es[0]]);
    }
  }

  // ------------------------------------------------------------- argument lists

  ghost predicate AllTyped(vs: seq<Val>, tys: seq<Ty>) {
    |vs| == |tys| && forall i :: 0 <= i < |vs| ==> HasType(vs[i], tys[i])
  }

  function EncAll(vs: seq<Val>, tys: seq<Ty>): seq<Byte>
    requires AllTyped(vs, tys)
  {
    if vs == [] then [] else Enc(vs[0], tys[0]) + EncAll(vs[1..], tys[1..])
  }

  function DecAll(tys: seq<Ty>, r: Reader): (seq<Val>, Reader)
    decreases |tys|
  {
    if tys == [] then ([], r)
    else
      var (v, r1) := Dec(tys[0], r);
      var (vs, r2) := DecAll(tys[1..], r1);
      ([v] + vs, r2)
  }

  predicate OkDone(r: Reader) { r.ok && r.ind == |r.buf| }

  lemma FirstBack(vs: seq<Val>, tys: seq<Ty>, r: Reader) returns (next: Reader)
    requires AllTyped(vs, tys) && vs != [] && Before(r, EncAll(vs, tys))
    ensures Dec(tys[0], r) == (vs[0], next) && AllTyped(vs[1..], tys[1..])
    ensures Before(next, EncAll(vs[1..], tys[1..])) && Past(next, |EncAll(vs[1..], tys[1..])|) == Past(r, |EncAll(vs, tys)|)
  {
    BeforeSplit(r, Enc(vs[0], tys[0]), EncAll(vs[1..], tys[1..]));
    RoundTrip(vs[0], tys[0], r);
    next := Past(r, |Enc(vs[0], tys[0])|);
  }

  lemma {:induction false} ArgumentsRoundTrip(vs: seq<Val>, tys: seq<Ty>, r: Reader)
    requires AllTyped(vs, tys) && Before(r, EncAll(vs, tys))
    ensures DecAll(tys, r) == (vs, Past(r, |EncAll(vs, tys)|))
    decreases |vs|
  {
    hide Dec, Enc, HasType, Before, Past;
    PastNothing(r);
    if vs != [] {
      var next := FirstBack(vs, tys, r);
      ArgumentsRoundTrip(vs[1..], tys[1..], next);
      assert vs == [vs[0]] + vs[1..];
    }
  }

  /** A whole call body decodes to its arguments and `okdone` holds: nothing is left over. */
  lemma BodyRoundTrip(header: seq<Byte>, vs: seq<Val>, tys: seq<Ty>)
    requires AllTyped(vs, tys)
    ensures var (ws, r) := DecAll(tys, Reader(header + EncAll(vs, tys), |header|, true)); ws == vs && OkDone(r)
  {
    var r := Reader(header + EncAll(vs, tys), |header|, true);
    assert r.buf[|header|..|header| + |EncAll(vs, tys)|] == EncAll(vs, tys);
    ArgumentsRoundTrip(vs, tys, r);
  }
}

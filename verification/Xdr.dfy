/**
  The XDR representation (RFC 1832) as `spl-xdr.c` writes and reads it: sections 3.2 (unsigned
  integer), 3.5 (unsigned hyper), 3.9 (fixed-length opaque), 3.11 (string), 3.13 (array), and
  sequences of these.
 */
module Xdr {
  import opened Arith
  import opened Options

  const W32: nat := 0x1_0000_0000
  const UINT_MAX: nat := 0xFFFF_FFFF

  type byte = x: int | 0 <= x < 256

  /** What an `xdrproc_t` describes: a scalar, bytes, a string, an array, or one thing after another. */
  datatype Type =
    | Char | Ushort | Uint | Hyper
    | Opaque(cnt: nat)
    | String(max: nat)
    | Array(max: nat, elsize: nat, elem: Type)
    | Pair(first: Type, second: Type)

  datatype Value = Num(n: nat) | Bytes(b: seq<byte>) | Items(vs: seq<Value>) | Both(a: Value, b2: Value)

  /** Counts and limits are 32-bit; an element has a size, since the code divides by it. */
  predicate TypeOk(t: Type) {
    match t
    case Opaque(cnt) => cnt < W32
    case String(max) => max < W32
    case Array(max, elsize, elem) => max < W32 && 0 < elsize < W32 && TypeOk(elem)
    case Pair(a, b) => TypeOk(a) && TypeOk(b)
    case _ => true
  }

  /** The values a C object of the type can hold. */
  predicate HasType(t: Type, v: Value) {
    match t
    case Char => v.Num? && v.n < 0x100
    case Ushort => v.Num? && v.n < 0x1_0000
    case Uint => v.Num? && v.n < 0x1_0000_0000
    case Hyper => v.Num? && v.n < 0x1_0000_0000_0000_0000
    case Opaque(cnt) => v.Bytes? && |v.b| == cnt
    case String(_) => v.Bytes? && 0 !in v.b
    case Array(_, _, elem) => v.Items? && |v.vs| < W32 && forall i :: 0 <= i < |v.vs| ==> HasType(elem, v.vs[i])
    case Pair(a, b) => v.Both? && HasType(a, v.a) && HasType(b, v.b2)
  }

  // ---------------------------------------------------------------- words and bytes

  /** `cpu_to_be32` */
  function Be32(n: nat): (r: seq<byte>)
    requires n < 0x1_0000_0000
    ensures |r| == 4
  {
    [n / 0x100_0000, n / 0x1_0000 % 256, n / 0x100 % 256, n % 256]
  }

  /** `be32_to_cpu` */
  function FromBe32(s: seq<byte>): (n: nat)
    requires |s| >= 4
    ensures n < 0x1_0000_0000
  {
    var a: int, b: int, c: int, d: int := s[0], s[1], s[2], s[3];
    a * 0x100_0000 + b * 0x1_0000 + c * 0x100 + d
  }

  function Zeros(k: nat): seq<byte> { seq(k, i => 0) }

  /** `roundup(cnt, 4)` on 32-bit unsigned integers. */
  function Roundup(cnt: nat): nat
    requires cnt < 0x1_0000_0000
  {
    (cnt + 3) % 0x1_0000_0000 / 4 * 4
  }

  /** `xdrmem_enc_bytes`, buffer space aside. */
  function EncBytes(b: seq<byte>): Option<seq<byte>>
    requires |b| < W32
  {
    var size := Roundup(|b|);
    if size < |b| then None else Some(b + Zeros(size - |b|))
  }

  /** `xdrmem_dec_bytes` */
  function DecBytes(s: seq<byte>, cnt: nat): Option<(seq<byte>, nat)>
    requires cnt < W32
  {
    var size := Roundup(cnt);
    if size < cnt || |s| < size || s[cnt..size] != Zeros(size - cnt) then None else Some((s[..cnt], size))
  }

  /** `xdrmem_dec_uint32` */
  function DecWord(s: seq<byte>): Option<(nat, nat)> {
    if |s| < 4 then None else Some((FromBe32(s), 4))
  }

  /** The guard of both array procedures. */
  predicate ArrayOk(size: nat, max: nat, elsize: nat)
    requires elsize > 0
  {
    size <= max && size <= UINT_MAX / elsize
  }

  // ---------------------------------------------------------------- encoding

  /** One encoding after another; the first failure fails. */
  function Join(x: Option<seq<byte>>, y: Option<seq<byte>>): Option<seq<byte>> {
    if x.Some? && y.Some? then Some(x.value + y.value) else None
  }

  function Encode(t: Type, v: Value): Option<seq<byte>>
    requires TypeOk(t) && HasType(t, v)
    decreases t, 0
  {
    match t
    case Hyper => Some(Be32(v.n / 0x1_0000_0000) + Be32(v.n % 0x1_0000_0000))
    case Opaque(cnt) => EncBytes(v.b)
    case String(max) =>
      if |v.b| > max then None else Join(Some(Be32(|v.b|)), EncBytes(v.b))
    case Array(max, elsize, elem) =>
      if !ArrayOk(|v.vs|, max, elsize) then None else Join(Some(Be32(|v.vs|)), EncodeAll(elem, v.vs))
    case Pair(a, b) =>
      Join(Encode(a, v.a), Encode(b, v.b2))
    case _ => Some(Be32(v.n))
  }

  /** The loop of `xdr_enc_array`. */
  function EncodeAll(t: Type, vs: seq<Value>): Option<seq<byte>>
    requires TypeOk(t) && forall i :: 0 <= i < |vs| ==> HasType(t, vs[i])
    decreases t, 1 + |vs|
  {
    if vs == [] then Some([])
    else
      var n := |vs| - 1;
      Join(EncodeAll(t, vs[..n]), Encode(t, vs[n]))
  }

  // ---------------------------------------------------------------- decoding

  /** The value and the number of bytes it took. */
  function Decode(t: Type, s: seq<byte>): (r: Option<(Value, nat)>)
    requires TypeOk(t)
    ensures r.Some? ==> r.value.1 <= |s|
    decreases t, 0
  {
    match t
    case Char => DecNum(s, 0x100)
    case Ushort => DecNum(s, 0x1_0000)
    case Uint => DecNum(s, 0x1_0000_0000)
    case Hyper => DecWide(s)
    case Opaque(cnt) => DecFixed(s, cnt)
    case String(max) => DecText(s, max)
    case Array(max, elsize, elem) =>
      if |s| < 4 || !ArrayOk(FromBe32(s), max, elsize) then None
      else Counted(DecodeAll(elem, s[4..], FromBe32(s)))
    case Pair(a, b) =>
      var x := Decode(a, s);
      if x == None then None else Then(x.value, Decode(b, s[x.value.1..]))
  }

  /** `xdrmem_dec_ulonglong` */
  function DecWide(s: seq<byte>): Option<(Value, nat)> {
    if |s| < 8 then None else Some((Num(FromBe32(s) * 0x1_0000_0000 + FromBe32(s[4..])), 8))
  }

  function DecFixed(s: seq<byte>, cnt: nat): Option<(Value, nat)>
    requires cnt < W32
  {
    var d := DecBytes(s, cnt);
    if d == None then None else Some((Bytes(d.value.0), d.value.1))
  }

  /** `xdr_dec_string` */
  function DecText(s: seq<byte>, max: nat): Option<(Value, nat)> {
    if |s| < 4 || FromBe32(s) > max || FromBe32(s) > UINT_MAX - 1 then None else
      var d := DecBytes(s[4..], FromBe32(s));
      if d == None || 0 in d.value.0 then None else Some((Bytes(d.value.0), 4 + d.value.1))
  }

  /** The items of an array, behind its count. */
  function Counted(d: Option<(seq<Value>, nat)>): Option<(Value, nat)> {
    if d == None then None else Some((Items(d.value.0), 4 + d.value.1))
  }

  /** One value after another. */
  function Then(x: (Value, nat), y: Option<(Value, nat)>): Option<(Value, nat)> {
    if y == None then None else Some((Both(x.0, y.value.0), x.1 + y.value.1))
  }

  function DecNum(s: seq<byte>, limit: nat): (r: Option<(Value, nat)>)
    ensures r.Some? ==> r.value.1 <= |s|
  {
    match DecWord(s)
    case None => None
    case Some((n, k)) => if n >= limit then None else Some((Num(n), k))
  }

  /** The loop of `xdr_dec_array`. */
  function DecodeAll(t: Type, s: seq<byte>, count: nat): (r: Option<(seq<Value>, nat)>)
    requires TypeOk(t)
    ensures r.Some? ==> r.value.1 <= |s| && |r.value.0| == count
    decreases t, 1 + count
  {
    if count == 0 then Some(([], 0))
    else match DecodeAll(t, s, count - 1)
         case None => None
         case Some((vs, k)) =>
           match Decode(t, s[k..])
           case None => None
           case Some((v, k')) => Some((vs + [v], k + k'))
  }

  /** How many targets decoding a value allocates, when the caller passes null pointers. */
  function Needs(t: Type, v: Value): nat
    decreases t, 0
  {
    match t
    case String(_) => 1
    case Array(_, _, elem) => 1 + if v.Items? then NeedsAll(elem, v.vs) else 0
    case Pair(a, b) => if v.Both? then Needs(a, v.a) + Needs(b, v.b2) else 0
    case _ => 0
  }

  function NeedsAll(t: Type, vs: seq<Value>): nat
    decreases t, 1 + |vs|
  {
    if vs == [] then 0 else NeedsAll(t, vs[..|vs|-1]) + Needs(t, vs[|vs|-1])
  }

  /** Decoding when only `mem` allocations succeed. */
  function DecodeWithin(t: Type, s: seq<byte>, mem: nat): Option<(Value, nat)>
    requires TypeOk(t)
  {
    var d := Decode(t, s);
    if d.Some? && Needs(t, d.value.0) <= mem then d else None
  }

  // ---------------------------------------------------------------- arithmetic

  lemma WordRoundTrip(n: nat, rest: seq<byte>)
    requires n < 0x1_0000_0000
    ensures FromBe32(Be32(n) + rest) == n
  {
    var s := Be32(n) + rest;
    assert s[0] == n / 0x100_0000 && s[1] == n / 0x1_0000 % 256 && s[2] == n / 0x100 % 256 && s[3] == n % 256;
    hide Be32;
    FourDigits(n);
  }

  lemma FourDigits(n: nat)
    ensures n / 0x100_0000 * 0x100_0000 + n / 0x1_0000 % 256 * 0x1_0000 + n / 0x100 % 256 * 0x100 + n % 256 == n
  {
    DivSplit(n, 0x100);
    var q := n / 0x100;
    DivSplit(q, 0x100);
    DivUnique(n, 0x1_0000, q / 0x100, q % 0x100 * 0x100 + n % 0x100);
    var q' := q / 0x100;
    DivSplit(q', 0x100);
    DivUnique(n, 0x100_0000, q' / 0x100, q' % 0x100 * 0x1_0000 + q % 0x100 * 0x100 + n % 0x100);
  }

  lemma WordCanonical(s: seq<byte>)
    requires |s| >= 4
    ensures Be32(FromBe32(s)) == s[..4]
  {
    var a: int, b: int, c: int, d: int := s[0], s[1], s[2], s[3];
    var n := FromBe32(s);
    DivUnique(n, 0x100_0000, a, b * 0x1_0000 + c * 0x100 + d);
    DivUnique(n, 0x1_0000, a * 0x100 + b, c * 0x100 + d);
    DivUnique(n, 0x100, a * 0x1_0000 + b * 0x100 + c, d);
    DivUnique(a * 0x100 + b, 0x100, a, b);
    DivUnique(a * 0x1_0000 + b * 0x100 + c, 0x100, a * 0x100 + b, c);
  }

  /** The rounded size is too small exactly when the addition wrapped; otherwise it adds at most three. */
  lemma RoundupMeans(cnt: nat)
    requires cnt < 0x1_0000_0000
    ensures Roundup(cnt) < cnt <==> cnt > 0x1_0000_0000 - 4
    ensures Roundup(cnt) >= cnt ==> Roundup(cnt) % 4 == 0 && Roundup(cnt) - cnt < 4
  {}
}

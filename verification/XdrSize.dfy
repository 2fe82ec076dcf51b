/** The size pass of `spl-xdr_sizeof.c`, and when it agrees with what the encoder writes. */
module XdrSize {
  import opened Arith
  import opened Options
  import opened Xdr

  /** `x_handy += k`, read back as unsigned. */
  function Plus(h: nat, k: nat): nat { (h + k) % 0x1_0000_0000 }

  /** The running size after a value, or failure; array elements are not visited. */
  function Sized(t: Type, v: Value, h: nat): Option<nat>
    requires TypeOk(t) && HasType(t, v)
    decreases t
  {
    match t
    case Hyper => Some(Plus(Plus(h, 4), 4))
    case Opaque(cnt) => SizedBytes(cnt, h)
    case String(max) => if |v.b| > max then None else SizedBytes(|v.b|, Plus(h, 4))
    case Array(max, elsize, elem) =>
      if ArrayOk(|v.vs|, max, elsize) then Some(Plus(Plus(h, 4), |v.vs| * elsize)) else None
    case Pair(a, b) =>
      (match Sized(a, v.a, h)
       case None => None
       case Some(h') => Sized(b, v.b2, h'))
    case _ => Some(Plus(h, 4))
  }

  function SizedBytes(cnt: nat, h: nat): Option<nat>
    requires cnt < W32
  {
    var size := Roundup(cnt);
    if size < cnt then None else Some(Plus(h, size))
  }

  /** Every array outside of other arrays takes as many bytes as its elements do in memory. */
  ghost predicate Packed(t: Type, v: Value)
    requires TypeOk(t) && HasType(t, v) && Encode(t, v).Some?
  {
    match t
    case Array(max, elsize, elem) => |EncodeAll(elem, v.vs).value| == |v.vs| * elsize
    case Pair(a, b) => Packed(a, v.a) && Packed(b, v.b2)
    case _ => true
  }

  lemma PlusTwice(h: nat, a: nat, b: nat)
    ensures Plus(Plus(h, a), b) == Plus(h, a + b)
  {
    DivSplit(h + a, 0x1_0000_0000);
    var q := (h + a) / 0x1_0000_0000;
    DivSplit(h + a + b, 0x1_0000_0000);
    DivSplit((h + a) % 0x1_0000_0000 + b, 0x1_0000_0000);
    DivUnique(h + a + b, 0x1_0000_0000, q + ((h + a) % 0x1_0000_0000 + b) / 0x1_0000_0000, Plus(Plus(h, a), b));
  }

  lemma BytesSized(b: seq<byte>, h: nat)
    requires |b| < W32
    ensures SizedBytes(|b|, h).Some? <==> EncBytes(b).Some?
    ensures EncBytes(b).Some? ==> SizedBytes(|b|, h) == Some(Plus(h, |EncBytes(b).value|))
  {
    hide Roundup, Plus;
  }

  /**
    The size pass succeeds whenever the encoder does, and gives the number of bytes it writes, to
    32 bits, for every composition whose arrays are packed.
   */
  lemma {:induction false} SizeIsLength(t: Type, v: Value, h: nat)
    requires TypeOk(t) && HasType(t, v) && Encode(t, v).Some?
    ensures Sized(t, v, h).Some?
    ensures Packed(t, v) ==> Sized(t, v, h) == Some(Plus(h, |Encode(t, v).value|))
    decreases t
  {
    hide Plus, Be32, EncBytes, SizedBytes;
    match t {
      case Hyper => PlusTwice(h, 4, 4);
      case Opaque(cnt) => BytesSized(v.b, h);
      case String(max) =>
        BytesSized(v.b, Plus(h, 4));
        PlusTwice(h, 4, |EncBytes(v.b).value|);
      case Array(max, elsize, elem) =>
        PlusTwice(h, 4, |v.vs| * elsize);
      case Pair(a, b) =>
        SizeIsLength(a, v.a, h);
        SizeIsLength(b, v.b2, Sized(a, v.a, h).value);
        PlusTwice(h, |Encode(a, v.a).value|, |Encode(b, v.b2).value|);
      case _ =>
    }
  }

  predicate NoArrays(t: Type) {
    match t
    case Array(_, _, _) => false
    case Pair(a, b) => NoArrays(a) && NoArrays(b)
    case _ => true
  }

  /** Without arrays the two passes fail alike, and the size is always right. */
  lemma {:induction false} NoArraysExact(t: Type, v: Value, h: nat)
    requires TypeOk(t) && HasType(t, v) && NoArrays(t)
    ensures Sized(t, v, h).Some? <==> Encode(t, v).Some?
    ensures Encode(t, v).Some? ==> Packed(t, v)
    decreases t
  {
    hide Plus, Be32, EncBytes, SizedBytes;
    match t {
      case Opaque(cnt) => BytesSized(v.b, h);
      case String(max) => if |v.b| <= max { BytesSized(v.b, Plus(h, 4)); }
      case Pair(a, b) =>
        NoArraysExact(a, v.a, h);
        if Sized(a, v.a, h).Some? { NoArraysExact(b, v.b2, Sized(a, v.a, h).value); }
        NoArraysExact(b, v.b2, 0);
      case _ =>
    }
  }

  // ---------------------------------------------------------------- arrays

  /** The size an element always takes, if it is always the same. */
  function FixedWire(t: Type): Option<nat>
    requires TypeOk(t)
  {
    match t
    case Hyper => Some(8)
    case Opaque(cnt) => Some(Roundup(cnt))
    case String(_) => None
    case Array(_, _, _) => None
    case Pair(a, b) =>
      var x, y := FixedWire(a), FixedWire(b);
      if x.Some? && y.Some? then Some(x.value + y.value) else None
    case _ => Some(4)
  }

  lemma {:induction false} FixedLength(t: Type, v: Value)
    requires TypeOk(t) && HasType(t, v) && FixedWire(t).Some? && Encode(t, v).Some?
    ensures |Encode(t, v).value| == FixedWire(t).value
    decreases t
  {
    if t.Pair? {
      FixedLength(t.first, v.a);
      FixedLength(t.second, v.b2);
    }
  }

  lemma {:induction false} FixedItems(t: Type, vs: seq<Value>)
    requires TypeOk(t) && (forall i :: 0 <= i < |vs| ==> HasType(t, vs[i])) && FixedWire(t).Some? && EncodeAll(t, vs).Some?
    ensures |EncodeAll(t, vs).value| == |vs| * FixedWire(t).value
    decreases |vs|
  {
    hide Encode, FixedWire;
    if vs != [] {
      var n := |vs| - 1;
      FixedItems(t, vs[..n]);
      FixedLength(t, vs[n]);
      assert |vs| * FixedWire(t).value == n * FixedWire(t).value + FixedWire(t).value;
    }
  }

  /** An array of fixed-size elements is sized right if and only if it is empty or packed in memory as on the wire. */
  lemma ArraySizeRight(max: nat, elsize: nat, elem: Type, vs: seq<Value>)
    requires TypeOk(Array(max, elsize, elem)) && HasType(Array(max, elsize, elem), Items(vs))
    requires Encode(Array(max, elsize, elem), Items(vs)).Some? && FixedWire(elem).Some?
    requires 4 + |vs| * elsize < W32
    ensures var (t, v) := (Array(max, elsize, elem), Items(vs));
      Sized(t, v, 0) == Some(|Encode(t, v).value|) <==> vs == [] || elsize == FixedWire(elem).value
  {
    ArraySizes(max, elsize, elem, vs);
    ProductsEqual(|vs|, elsize, FixedWire(elem).value);
    hide *;
  }

  lemma ArraySizes(max: nat, elsize: nat, elem: Type, vs: seq<Value>)
    requires TypeOk(Array(max, elsize, elem)) && HasType(Array(max, elsize, elem), Items(vs))
    requires Encode(Array(max, elsize, elem), Items(vs)).Some? && FixedWire(elem).Some? && 4 + |vs| * elsize < W32
    ensures Sized(Array(max, elsize, elem), Items(vs), 0) == Some(4 + |vs| * elsize)
    ensures |Encode(Array(max, elsize, elem), Items(vs)).value| == 4 + |vs| * FixedWire(elem).value
  {
    FixedItems(elem, vs);
    SizedArray(max, elsize, elem, vs);
    hide FixedWire, EncodeAll, Be32, Sized;
  }

  lemma SizedArray(max: nat, elsize: nat, elem: Type, vs: seq<Value>)
    requires TypeOk(Array(max, elsize, elem)) && HasType(Array(max, elsize, elem), Items(vs))
    requires ArrayOk(|vs|, max, elsize) && 4 + |vs| * elsize < W32
    ensures Sized(Array(max, elsize, elem), Items(vs), 0) == Some(4 + |vs| * elsize)
  {
    PlusTwice(0, 4, |vs| * elsize);
    ModSmall(4 + |vs| * elsize, W32);
    hide Plus;
  }

  lemma ProductsEqual(n: nat, a: nat, b: nat)
    ensures n * a == n * b <==> n == 0 || a == b
  {
    if a < b && n > 0 { MulStrict(a, b, n); }
    if b < a && n > 0 { MulStrict(b, a, n); }
    assert n * a == a * n && n * b == b * n;
  }

  /** An array of two characters: twelve bytes on the wire, sized as six. */
  lemma CharArrayWitness()
    ensures var (t, v) := (Array(2, 1, Char), Items([Num(65), Num(66)]));
      TypeOk(t) && HasType(t, v) && Encode(t, v).Some? && |Encode(t, v).value| == 12 && Sized(t, v, 0) == Some(6)
  {
    var vs := [Num(65), Num(66)];
    assert vs[..1] == [Num(65)] && vs[..1][..0] == [];
    assert EncodeAll(Char, []) == Some([]);
    assert EncodeAll(Char, vs[..1]) == Some([] + Be32(65));
    assert EncodeAll(Char, vs) == Some([] + Be32(65) + Be32(66));
  }

  // ---------------------------------------------------------------- the pass

  class SizeStream {
    var handy: nat

    constructor ()
      ensures handy == 0
    {
      handy := 0;
    }

    method Add(k: nat)
      modifies this
      ensures handy == Plus(old(handy), k)
    {
      handy := (handy + k) % 0x1_0000_0000;
    }

    /** `xdrmem_sizeof_bytes` */
    method AddBytes(cnt: nat) returns (ok: bool)
      requires cnt < W32
      modifies this
      ensures SizedBytes(cnt, old(handy)) == if ok then Some(handy) else None
    {
      var size := Roundup(cnt);
      if size < cnt { return false; }
      Add(size);
      return true;
    }

    /** A client's `xdrproc_t`, sizing. */
    method Proc(t: Type, v: Value) returns (ok: bool)
      requires TypeOk(t) && HasType(t, v)
      modifies this
      ensures Sized(t, v, old(handy)) == if ok then Some(handy) else None
      decreases t
    {
      ok := true;
      match t {
        case Hyper => Add(4); Add(4);
        case Opaque(cnt) => ok := AddBytes(cnt);
        case String(max) =>
          if |v.b| > max { return false; }
          Add(4);
          ok := AddBytes(|v.b|);
        case Array(max, elsize, elem) =>
          if |v.vs| > max || |v.vs| > UINT_MAX / elsize { return false; }
          Add(4);
          Add(|v.vs| * elsize);
        case Pair(a, b) =>
          ok := Proc(a, v.a);
          if ok { ok := Proc(b, v.b2); }
        case _ => Add(4);
      }
    }
  }

  /** `xdr_sizeof`: the size, or zero when the pass fails. */
  method XdrSizeof(t: Type, v: Value) returns (n: nat)
    requires TypeOk(t) && HasType(t, v)
    ensures n == (match Sized(t, v, 0) case None => 0 case Some(h) => h)
    ensures Encode(t, v).Some? && Packed(t, v) && |Encode(t, v).value| < W32 ==> n == |Encode(t, v).value|
  {
    hide Encode, Sized;
    var x := new SizeStream();
    var ok := x.Proc(t, v);
    n := if ok then x.handy else 0;
    if Encode(t, v).Some? { SizeIsLength(t, v, 0); }
  }
}

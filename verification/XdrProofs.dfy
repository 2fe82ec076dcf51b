/** XDR is canonical both ways. */
module XdrProofs {
  import opened Arith
  import opened Options
  import opened Xdr

  // ---------------------------------------------------------------- pieces

  lemma BytesRoundTrip(b: seq<byte>, rest: seq<byte>)
    requires |b| < W32 && EncBytes(b).Some?
    ensures DecBytes(EncBytes(b).value + rest, |b|) == Some((b, |EncBytes(b).value|))
  {
    var (bs, size) := (EncBytes(b).value, Roundup(|b|));
    assert (bs + rest)[..|b|] == b;
    assert (bs + rest)[|b|..size] == Zeros(size - |b|);
    hide Roundup;
  }

  lemma BytesCanonical(s: seq<byte>, cnt: nat)
    requires cnt < W32 && DecBytes(s, cnt).Some?
    ensures var (b, k) := DecBytes(s, cnt).value;
      |b| == cnt <= k <= |s| && EncBytes(b) == Some(s[..k])
  {
    hide Roundup;
    var size := Roundup(cnt);
    assert s[..size] == s[..cnt] + s[cnt..size];
  }

  lemma DropPrefix(a: seq<byte>, b: seq<byte>, rest: seq<byte>)
    ensures (a + b) + rest == a + (b + rest) && (a + (b + rest))[|a|..] == b + rest
  {}

  lemma JoinPrefix(s: seq<byte>, k: nat, k': nat)
    requires k + k' <= |s|
    ensures s[..k] + s[k..][..k'] == s[..k + k']
  {}

  lemma HyperRoundTrip(n: nat, rest: seq<byte>)
    requires n < 0x1_0000_0000_0000_0000
    ensures n / 0x1_0000_0000 < 0x1_0000_0000
    ensures var s := Be32(n / 0x1_0000_0000) + Be32(n % 0x1_0000_0000) + rest;
      |s| >= 8 && FromBe32(s) * 0x1_0000_0000 + FromBe32(s[4..]) == n
  {
    var (hi, lo) := (Be32(n / 0x1_0000_0000), Be32(n % 0x1_0000_0000));
    DropPrefix(hi, lo, rest);
    WordRoundTrip(n / 0x1_0000_0000, lo + rest);
    WordRoundTrip(n % 0x1_0000_0000, rest);
    hide Be32, FromBe32;
    DivSplit(n, 0x1_0000_0000);
  }

  lemma HyperCanonical(s: seq<byte>)
    requires |s| >= 8
    ensures var n := FromBe32(s) * 0x1_0000_0000 + FromBe32(s[4..]);
      && n < 0x1_0000_0000_0000_0000
      && n / 0x1_0000_0000 == FromBe32(s) && n % 0x1_0000_0000 == FromBe32(s[4..])
      && Be32(FromBe32(s)) + Be32(FromBe32(s[4..])) == s[..8]
  {
    var (hi, lo) := (FromBe32(s), FromBe32(s[4..]));
    DivUnique(hi * 0x1_0000_0000 + lo, 0x1_0000_0000, hi, lo);
    WordCanonical(s);
    WordCanonical(s[4..]);
    JoinPrefix(s, 4, 4);
    hide Be32, FromBe32;
  }

  // ---------------------------------------------------------------- round trip

  /** What the specification says of a pair and of an array, without its other cases. */
  lemma PairUnfolds(a: Type, b: Type, s: seq<byte>)
    requires TypeOk(Pair(a, b))
    ensures var x := Decode(a, s);
      Decode(Pair(a, b), s) == if x == None then None else Then(x.value, Decode(b, s[x.value.1..]))
  {
    hide DecodeAll, DecFixed, DecText, DecWide, DecNum, FromBe32, Counted, Then, ArrayOk;
  }

  lemma ArrayUnfolds(max: nat, elsize: nat, elem: Type, s: seq<byte>)
    requires TypeOk(Array(max, elsize, elem)) && |s| >= 4
    ensures Decode(Array(max, elsize, elem), s) ==
      if ArrayOk(FromBe32(s), max, elsize) then Counted(DecodeAll(elem, s[4..], FromBe32(s))) else None
  {
    hide DecodeAll, DecFixed, DecText, DecWide, DecNum, FromBe32, Counted, Then, ArrayOk;
  }

  lemma PairRoundTrip(a: Type, b: Type, v: Value, w: Value, x: seq<byte>, y: seq<byte>, rest: seq<byte>)
    requires TypeOk(Pair(a, b)) && Decode(a, x + (y + rest)) == Some((v, |x|)) && Decode(b, y + rest) == Some((w, |y|))
    ensures Decode(Pair(a, b), (x + y) + rest) == Some((Both(v, w), |x + y|))
  {
    hide Decode;
    DropPrefix(x, y, rest);
    PairUnfolds(a, b, x + (y + rest));
  }

  lemma ArrayRoundTrip(max: nat, elsize: nat, elem: Type, vs: seq<Value>, bs: seq<byte>, rest: seq<byte>)
    requires TypeOk(Array(max, elsize, elem)) && |vs| < W32 && ArrayOk(|vs|, max, elsize)
    requires DecodeAll(elem, bs + rest, |vs|) == Some((vs, |bs|))
    ensures Decode(Array(max, elsize, elem), Be32(|vs|) + bs + rest) == Some((Items(vs), 4 + |bs|))
  {
    hide Decode, DecodeAll, Be32, FromBe32, ArrayOk;
    WordRoundTrip(|vs|, bs + rest);
    DropPrefix(Be32(|vs|), bs, rest);
    ArrayUnfolds(max, elsize, elem, Be32(|vs|) + (bs + rest));
  }

  lemma ScalarRoundTrip(t: Type, v: Value, rest: seq<byte>)
    requires (t.Char? || t.Ushort? || t.Uint? || t.Hyper? || t.Opaque?) && TypeOk(t) && HasType(t, v) && Encode(t, v).Some?
    ensures Decode(t, Encode(t, v).value + rest) == Some((v, |Encode(t, v).value|))
  {
    hide Be32, FromBe32, Roundup, EncBytes, DecBytes;
    if t.Hyper? {
      HyperRoundTrip(v.n, rest);
    } else if t.Opaque? {
      BytesRoundTrip(v.b, rest);
    } else {
      WordRoundTrip(v.n, rest);
    }
  }

  /** What the encoder needs of the parts, and what it makes of them. */
  lemma PairEncodes(a: Type, b: Type, v: Value)
    requires TypeOk(Pair(a, b)) && HasType(Pair(a, b), v)
    ensures v.Both? && HasType(a, v.a) && HasType(b, v.b2) && Encode(Pair(a, b), v) == Join(Encode(a, v.a), Encode(b, v.b2))
  {
    hide EncBytes, Be32, EncodeAll, Join;
  }

  lemma ItemsEncode(max: nat, elsize: nat, elem: Type, v: Value)
    requires TypeOk(Array(max, elsize, elem)) && HasType(Array(max, elsize, elem), v)
    ensures v.Items? && |v.vs| < W32 && forall i :: 0 <= i < |v.vs| ==> HasType(elem, v.vs[i])
    ensures Encode(Array(max, elsize, elem), v) ==
      if ArrayOk(|v.vs|, max, elsize) then Join(Some(Be32(|v.vs|)), EncodeAll(elem, v.vs)) else None
  {
    hide EncBytes, Be32, EncodeAll, Join, ArrayOk;
  }

  lemma TextEncodes(max: nat, v: Value)
    requires max < W32 && HasType(String(max), v)
    ensures v.Bytes? && 0 !in v.b
    ensures Encode(String(max), v) == if |v.b| <= max then Join(Some(Be32(|v.b|)), EncBytes(v.b)) else None
  {
    hide EncBytes, Be32, Join;
  }

  /** Decoding an encoding gives the value back and takes exactly its bytes, whatever follows. */
  lemma {:induction false} RoundTrip(t: Type, v: Value, rest: seq<byte>)
    requires TypeOk(t) && HasType(t, v) && Encode(t, v).Some?
    ensures Decode(t, Encode(t, v).value + rest) == Some((v, |Encode(t, v).value|))
    decreases t, 0
  {
    hide Encode, Decode, EncodeAll, DecodeAll, HasType, Be32, FromBe32, EncBytes, ArrayOk;
    match t {
      case String(max) =>
        TextEncodes(max, v);
        StringRoundTrip(v.b, max, rest);
      case Array(max, elsize, elem) =>
        ItemsEncode(max, elsize, elem, v);
        AllRoundTrip(elem, v.vs, rest);
        ArrayRoundTrip(max, elsize, elem, v.vs, EncodeAll(elem, v.vs).value, rest);
      case Pair(a, b) =>
        PairEncodes(a, b, v);
        var (x, y) := (Encode(a, v.a).value, Encode(b, v.b2).value);
        RoundTrip(a, v.a, y + rest);
        RoundTrip(b, v.b2, rest);
        PairRoundTrip(a, b, v.a, v.b2, x, y, rest);
      case _ => ScalarRoundTrip(t, v, rest);
    }
  }

  lemma StringRoundTrip(b: seq<byte>, max: nat, rest: seq<byte>)
    requires max < W32 && 0 !in b && |b| <= max && EncBytes(b).Some?
    ensures Decode(String(max), Be32(|b|) + EncBytes(b).value + rest) == Some((Bytes(b), 4 + |EncBytes(b).value|))
  {
    RoundupMeans(|b|);
    assert |b| <= UINT_MAX - 1;
    var bs := EncBytes(b).value;
    hide Be32, FromBe32, Roundup, EncBytes, DecBytes;
    BytesRoundTrip(b, rest);
    WordRoundTrip(|b|, bs + rest);
    DropPrefix(Be32(|b|), bs, rest);
  }

  lemma {:induction false} AllRoundTrip(t: Type, vs: seq<Value>, rest: seq<byte>)
    requires TypeOk(t) && (forall i :: 0 <= i < |vs| ==> HasType(t, vs[i])) && EncodeAll(t, vs).Some?
    ensures DecodeAll(t, EncodeAll(t, vs).value + rest, |vs|) == Some((vs, |EncodeAll(t, vs).value|))
    decreases t, 1 + |vs|
  {
    hide *;
    if vs == [] {
      EmptyRoundTrip(t, rest);
    } else {
      var n := |vs| - 1;
      LastEncodes(t, vs);
      var (x, y) := (EncodeAll(t, vs[..n]).value, Encode(t, vs[n]).value);
      AllRoundTrip(t, vs[..n], y + rest);
      RoundTrip(t, vs[n], rest);
      RoundTripStep(t, vs[..n], vs[n], x, y, rest);
      assert vs[..n] + [vs[n]] == vs;
    }
  }

  lemma EmptyRoundTrip(t: Type, rest: seq<byte>)
    requires TypeOk(t)
    ensures EncodeAll(t, []) == Some([]) && DecodeAll(t, [] + rest, 0) == Some(([], 0))
  {}

  lemma LastEncodes(t: Type, vs: seq<Value>)
    requires TypeOk(t) && (forall i :: 0 <= i < |vs| ==> HasType(t, vs[i])) && vs != [] && EncodeAll(t, vs).Some?
    ensures EncodeAll(t, vs[..|vs|-1]).Some? && Encode(t, vs[|vs|-1]).Some?
  {}

  lemma RoundTripStep(t: Type, vs: seq<Value>, v: Value, x: seq<byte>, y: seq<byte>, rest: seq<byte>)
    requires TypeOk(t) && (forall i :: 0 <= i < |vs| ==> HasType(t, vs[i])) && HasType(t, v)
    requires EncodeAll(t, vs) == Some(x) && Encode(t, v) == Some(y)
    requires DecodeAll(t, x + (y + rest), |vs|) == Some((vs, |x|)) && Decode(t, y + rest) == Some((v, |y|))
    ensures forall i :: 0 <= i < |vs + [v]| ==> HasType(t, (vs + [v])[i])
    ensures EncodeAll(t, vs + [v]) == Some(x + y) && DecodeAll(t, x + y + rest, |vs| + 1) == Some((vs + [v], |x + y|))
  {
    hide *;
    EncodeMore(t, vs, v, x, y);
    DropPrefix(x, y, rest);
    DecodeMore(t, x + (y + rest), vs, |x|, v, |y|);
  }

  lemma EncodeMore(t: Type, vs: seq<Value>, v: Value, x: seq<byte>, y: seq<byte>)
    requires TypeOk(t) && (forall i :: 0 <= i < |vs| ==> HasType(t, vs[i])) && HasType(t, v)
    requires EncodeAll(t, vs) == Some(x) && Encode(t, v) == Some(y)
    ensures forall i :: 0 <= i < |vs + [v]| ==> HasType(t, (vs + [v])[i])
    ensures EncodeAll(t, vs + [v]) == Some(x + y)
  {
    hide Encode, HasType, TypeOk;
    assert (vs + [v])[..|vs|] == vs;
  }

  lemma DecodeMore(t: Type, s: seq<byte>, vs: seq<Value>, k: nat, v: Value, k': nat)
    requires TypeOk(t) && DecodeAll(t, s, |vs|) == Some((vs, k)) && k <= |s| && Decode(t, s[k..]) == Some((v, k'))
    ensures DecodeAll(t, s, |vs| + 1) == Some((vs + [v], k + k'))
  {
    hide Decode, TypeOk;
  }

  // ---------------------------------------------------------------- canonical form

  /** Whatever is accepted is exactly what the encoder writes for the value returned. */
  lemma {:induction false} Canonical(t: Type, s: seq<byte>)
    requires TypeOk(t) && Decode(t, s).Some?
    ensures var (v, k) := Decode(t, s).value;
      k <= |s| && HasType(t, v) && Encode(t, v) == Some(s[..k])
    decreases t, 0
  {
    hide Encode, Decode, EncodeAll, DecodeAll, HasType, Be32, FromBe32, ArrayOk, Then, Counted;
    match t {
      case String(max) => StringCanonical(s, max);
      case Array(max, elsize, elem) =>
        ArrayParts(max, elsize, elem, s);
        AllCanonical(elem, s[4..], FromBe32(s));
        ArrayCanonical(max, elsize, elem, s);
      case Pair(a, b) =>
        PairParts(a, b, s);
        var (x, k) := Decode(a, s).value;
        var (y, k') := Decode(b, s[k..]).value;
        Canonical(a, s);
        Canonical(b, s[k..]);
        PairCanonical(a, b, s, x, k, y, k');
      case _ => ScalarCanonical(t, s);
    }
  }

  lemma ScalarCanonical(t: Type, s: seq<byte>)
    requires (t.Char? || t.Ushort? || t.Uint? || t.Hyper? || t.Opaque?) && TypeOk(t) && Decode(t, s).Some?
    ensures var (v, k) := Decode(t, s).value;
      k <= |s| && HasType(t, v) && Encode(t, v) == Some(s[..k])
  {
    hide Be32, FromBe32, Roundup, EncBytes, DecBytes;
    if t.Hyper? {
      HyperCanonical(s);
    } else if t.Opaque? {
      BytesCanonical(s, t.cnt);
    } else {
      WordCanonical(s);
    }
  }

  lemma PairParts(a: Type, b: Type, s: seq<byte>)
    requires TypeOk(Pair(a, b)) && Decode(Pair(a, b), s).Some?
    ensures Decode(a, s).Some? && var (v, k) := Decode(a, s).value;
      && k <= |s| && Decode(b, s[k..]).Some? && var (w, k') := Decode(b, s[k..]).value;
      Decode(Pair(a, b), s) == Some((Both(v, w), k + k'))
  {
    hide Decode, Then;
    PairUnfolds(a, b, s);
    var x := Decode(a, s).value;
    ThenIs(x.0, x.1, Decode(b, s[x.1..]));
  }

  lemma ThenIs(v: Value, k: nat, y: Option<(Value, nat)>)
    ensures Then((v, k), y) == if y == None then None else Some((Both(v, y.value.0), k + y.value.1))
  {}

  lemma PairCanonical(a: Type, b: Type, s: seq<byte>, x: Value, k: nat, y: Value, k': nat)
    requires TypeOk(Pair(a, b)) && k + k' <= |s| && HasType(a, x) && HasType(b, y)
    requires Encode(a, x) == Some(s[..k]) && Encode(b, y) == Some(s[k..][..k'])
    ensures HasType(Pair(a, b), Both(x, y)) && Encode(Pair(a, b), Both(x, y)) == Some(s[..k + k'])
  {
    hide Encode, HasType;
    PairTyped(a, b, x, y);
    PairEncodes(a, b, Both(x, y));
    JoinPrefix(s, k, k');
  }

  lemma PairTyped(a: Type, b: Type, x: Value, y: Value)
    requires HasType(a, x) && HasType(b, y)
    ensures HasType(Pair(a, b), Both(x, y))
  {}

  lemma ArrayParts(max: nat, elsize: nat, elem: Type, s: seq<byte>)
    requires TypeOk(Array(max, elsize, elem)) && Decode(Array(max, elsize, elem), s).Some?
    ensures |s| >= 4 && ArrayOk(FromBe32(s), max, elsize) && DecodeAll(elem, s[4..], FromBe32(s)).Some?
    ensures var (vs, k) := DecodeAll(elem, s[4..], FromBe32(s)).value;
      Decode(Array(max, elsize, elem), s) == Some((Items(vs), 4 + k))
  {
    hide DecodeAll, DecFixed, DecText, DecWide, DecNum, FromBe32, Then, ArrayOk;
  }

  lemma ArrayTyped(max: nat, elsize: nat, elem: Type, vs: seq<Value>)
    requires |vs| < W32 && forall i :: 0 <= i < |vs| ==> HasType(elem, vs[i])
    ensures HasType(Array(max, elsize, elem), Items(vs))
  {}

  lemma ArrayCanonical(max: nat, elsize: nat, elem: Type, s: seq<byte>)
    requires TypeOk(Array(max, elsize, elem)) && Decode(Array(max, elsize, elem), s).Some?
    requires |s| >= 4 && DecodeAll(elem, s[4..], FromBe32(s)).Some?
    requires var (vs, k) := DecodeAll(elem, s[4..], FromBe32(s)).value;
      && k <= |s| - 4 && |vs| == FromBe32(s) && (forall i :: 0 <= i < |vs| ==> HasType(elem, vs[i]))
      && EncodeAll(elem, vs) == Some(s[4..][..k])
    ensures var (v, k) := Decode(Array(max, elsize, elem), s).value;
      k <= |s| && HasType(Array(max, elsize, elem), v) && Encode(Array(max, elsize, elem), v) == Some(s[..k])
  {
    hide Decode, DecodeAll, Encode, EncodeAll, FromBe32, Be32, HasType;
    ArrayParts(max, elsize, elem, s);
    var (vs, k) := DecodeAll(elem, s[4..], FromBe32(s)).value;
    WordCanonical(s);
    JoinPrefix(s, 4, k);
    ArrayTyped(max, elsize, elem, vs);
    ItemsEncode(max, elsize, elem, Items(vs));
  }

  lemma StringCanonical(s: seq<byte>, max: nat)
    requires max < W32 && Decode(String(max), s).Some?
    ensures var (v, k) := Decode(String(max), s).value;
      HasType(String(max), v) && Encode(String(max), v) == Some(s[..k])
  {
    hide Be32, FromBe32, Roundup, EncBytes, DecBytes;
    var size := FromBe32(s);
    WordCanonical(s);
    BytesCanonical(s[4..], size);
    JoinPrefix(s, 4, DecBytes(s[4..], size).value.1);
  }

  lemma {:induction false} AllCanonical(t: Type, s: seq<byte>, count: nat)
    requires TypeOk(t) && DecodeAll(t, s, count).Some?
    ensures var (vs, k) := DecodeAll(t, s, count).value;
      k <= |s| && |vs| == count && (forall i :: 0 <= i < |vs| ==> HasType(t, vs[i])) && EncodeAll(t, vs) == Some(s[..k])
    decreases t, 1 + count
  {
    hide Encode, Decode, EncodeAll, DecodeAll, HasType, TypeOk;
    if count == 0 {
      EmptyRoundTrip(t, s);
      assert [] + s == s && s[..0] == [];
    } else {
      LastDecodes(t, s, count);
      var (vs, k) := DecodeAll(t, s, count - 1).value;
      AllCanonical(t, s, count - 1);
      Canonical(t, s[k..]);
      CanonicalStep(t, s, vs, k, Decode(t, s[k..]).value.0, Decode(t, s[k..]).value.1);
    }
  }

  lemma LastDecodes(t: Type, s: seq<byte>, count: nat)
    requires TypeOk(t) && count > 0 && DecodeAll(t, s, count).Some?
    ensures DecodeAll(t, s, count - 1).Some? && var (vs, k) := DecodeAll(t, s, count - 1).value;
      && k <= |s| && Decode(t, s[k..]).Some? && var (v, k') := Decode(t, s[k..]).value;
      DecodeAll(t, s, count) == Some((vs + [v], k + k'))
  {
    hide Decode, TypeOk;
  }

  lemma CanonicalStep(t: Type, s: seq<byte>, vs: seq<Value>, k: nat, v: Value, k': nat)
    requires TypeOk(t) && (forall i :: 0 <= i < |vs| ==> HasType(t, vs[i])) && HasType(t, v)
    requires k + k' <= |s| && EncodeAll(t, vs) == Some(s[..k]) && Encode(t, v) == Some(s[k..][..k'])
    ensures forall i :: 0 <= i < |vs + [v]| ==> HasType(t, (vs + [v])[i])
    ensures EncodeAll(t, vs + [v]) == Some(s[..k + k'])
  {
    JoinPrefix(s, k, k');
    EncodeMore(t, vs, v, s[..k], s[k..][..k']);
    hide *;
  }

  /** So no two byte strings, and no two values, are confused. */
  lemma EncodingUnique(t: Type, v: Value, w: Value)
    requires TypeOk(t) && HasType(t, v) && HasType(t, w)
    requires Encode(t, v).Some? && Encode(t, v) == Encode(t, w)
    ensures v == w
  {
    RoundTrip(t, v, []);
    RoundTrip(t, w, []);
    hide Encode, Decode;
  }

  lemma DecodingUnique(t: Type, s: seq<byte>, u: seq<byte>)
    requires TypeOk(t) && Decode(t, s).Some? && Decode(t, u).Some? && Decode(t, s).value.0 == Decode(t, u).value.0
    ensures Decode(t, s).value.1 == Decode(t, u).value.1 && s[..Decode(t, s).value.1] == u[..Decode(t, u).value.1]
  {
    Canonical(t, s);
    Canonical(t, u);
    hide Encode, Decode;
    assert |s[..Decode(t, s).value.1]| == Decode(t, s).value.1;
    assert |u[..Decode(t, u).value.1]| == Decode(t, u).value.1;
  }

  lemma BytesAligned(b: seq<byte>)
    requires |b| < W32 && EncBytes(b).Some?
    ensures |EncBytes(b).value| % 4 == 0
  {
    RoundupMeans(|b|);
  }

  /** Every encoding is a whole number of four-byte units (RFC 1832, section 2). */
  lemma {:induction false} Aligned(t: Type, v: Value)
    requires TypeOk(t) && HasType(t, v) && Encode(t, v).Some?
    ensures |Encode(t, v).value| % 4 == 0
    decreases t, 0
  {
    hide Be32, EncBytes;
    match t {
      case Opaque(cnt) => BytesAligned(v.b);
      case String(max) =>
        BytesAligned(v.b);
        SumMod(4, |EncBytes(v.b).value|, 4);
      case Array(max, elsize, elem) =>
        AllAligned(elem, v.vs);
        SumMod(4, |EncodeAll(elem, v.vs).value|, 4);
      case Pair(a, b) =>
        Aligned(a, v.a);
        Aligned(b, v.b2);
        SumMod(|Encode(a, v.a).value|, |Encode(b, v.b2).value|, 4);
      case _ =>
    }
  }

  lemma {:induction false} AllAligned(t: Type, vs: seq<Value>)
    requires TypeOk(t) && (forall i :: 0 <= i < |vs| ==> HasType(t, vs[i])) && EncodeAll(t, vs).Some?
    ensures |EncodeAll(t, vs).value| % 4 == 0
    decreases t, 1 + |vs|
  {
    hide Encode, HasType, TypeOk;
    if vs != [] {
      var n := |vs| - 1;
      AllAligned(t, vs[..n]);
      Aligned(t, vs[n]);
      SumMod(|EncodeAll(t, vs[..n]).value|, |Encode(t, vs[n]).value|, 4);
    }
  }
}

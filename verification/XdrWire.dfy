/** The bytes on the wire, as RFC 1832 lays them out, stated without the functions that compute them. */
module XdrWire {
  import opened Arith
  import opened Options
  import opened Xdr
  import opened XdrProofs

  // ---------------------------------------------------------------- digits

  lemma DivDiv(n: nat, a: nat, b: nat, ab: nat)
    requires a > 0 && b > 0 && ab == a * b
    ensures n / a / b == n / ab
  {
    DivSplit(n, a);
    DivSplit(n / a, b);
    var q, r := n / a / b, n / a % b * a + n % a;
    MulMono(n / a % b, b - 1, a);
    assert (b - 1) * a == ab - a by { assert b * a == a * b; Spread(b, -1, a); }
    assert q * b * a == q * ab by { assert q * (b * a) == q * b * a; }
    Spread(q * b, n / a % b, a);
    assert n == q * ab + r;
    QuotientPositive(n / a % b, a, n % a);
    DivUnique(n, ab, q, r);
  }

  lemma QuotientPositive(x: nat, a: nat, y: nat)
    ensures x * a + y >= 0
  {
    MulMono(0, x, a);
  }

  lemma Spread(x: int, y: int, w: int)
    ensures (x + y) * w == x * w + y * w
  {}

  /** The low word keeps the low digits. */
  lemma LowDigits(n: nat)
    ensures var lo := n % 0x1_0000_0000;
      && lo / 0x100_0000 == n / 0x100_0000 % 256 && lo / 0x1_0000 % 256 == n / 0x1_0000 % 256
      && lo / 0x100 % 256 == n / 0x100 % 256 && lo % 256 == n % 256
  {
    var hi, lo := n / 0x1_0000_0000, n % 0x1_0000_0000;
    DivSplit(n, 0x1_0000_0000);
    LowDigit(hi, lo, 0x100_0000, 0x100);
    LowDigit(hi, lo, 0x1_0000, 0x1_0000);
    LowDigit(hi, lo, 0x100, 0x100_0000);
    LowByte(hi, lo);
    SmallDigit(lo);
  }

  lemma LowByte(hi: nat, lo: nat)
    ensures (hi * 0x1_0000_0000 + lo) % 256 == lo % 256
  {
    DivSplit(lo, 256);
    DivUnique(hi * 0x1_0000_0000 + lo, 256, hi * 0x100_0000 + lo / 256, lo % 256);
  }

  lemma LowDigit(hi: nat, lo: nat, d: nat, e: nat)
    requires d > 0 && e > 0 && e % 256 == 0 && d * e == 0x1_0000_0000
    ensures (hi * 0x1_0000_0000 + lo) / d % 256 == lo / d % 256
  {
    DivSplit(lo, d);
    var n := hi * 0x1_0000_0000 + lo;
    assert hi * e * d == hi * 0x1_0000_0000 by { assert hi * e * d == hi * (e * d); assert e * d == d * e; }
    Spread(hi * e, lo / d, d);
    DivUnique(n, d, hi * e + lo / d, lo % d);
    DivSplit(lo / d, 256);
    DivSplit(e, 256);
    var k := e / 256;
    assert hi * e == hi * k * 256 by { assert hi * (k * 256) == hi * k * 256; }
    Spread(hi * k, lo / d / 256, 256);
    DivUnique(n / d, 256, hi * k + lo / d / 256, lo / d % 256);
  }

  // ---------------------------------------------------------------- scalars

  /** Characters, shorts and integers: one word, the most significant byte first (sections 3.1 and 3.2). */
  lemma ScalarBytes(t: Type, v: Value)
    requires (t.Char? || t.Ushort? || t.Uint?) && HasType(t, v)
    ensures Encode(t, v).Some? && var e := Encode(t, v).value;
      && |e| == 4
      && e[0] == v.n / 0x100_0000 % 256 && e[1] == v.n / 0x1_0000 % 256 && e[2] == v.n / 0x100 % 256 && e[3] == v.n % 256
  {
    WordBytes(v.n);
    hide Be32;
  }

  /** A word on the wire. */
  lemma WordBytes(n: nat)
    requires n < 0x1_0000_0000
    ensures var e := Be32(n);
      && |e| == 4
      && e[0] == n / 0x100_0000 % 256 && e[1] == n / 0x1_0000 % 256 && e[2] == n / 0x100 % 256 && e[3] == n % 256
  {}

  /** Unsigned hyper: eight bytes, the most significant first (section 3.4). */
  lemma HyperBytes(v: Value)
    requires HasType(Hyper, v)
    ensures Encode(Hyper, v).Some? && var e := Encode(Hyper, v).value;
      && |e| == 8
      && e[0] == v.n / 0x100_0000_0000_0000 % 256 && e[1] == v.n / 0x1_0000_0000_0000 % 256
      && e[2] == v.n / 0x100_0000_0000 % 256 && e[3] == v.n / 0x1_0000_0000 % 256
      && e[4] == v.n / 0x100_0000 % 256 && e[5] == v.n / 0x1_0000 % 256 && e[6] == v.n / 0x100 % 256 && e[7] == v.n % 256
  {
    hide Be32;
    var n := v.n;
    var hi, lo := n / 0x1_0000_0000, n % 0x1_0000_0000;
    WordBytes(hi);
    WordBytes(lo);
    DivDiv(n, 0x1_0000_0000, 0x100_0000, 0x100_0000_0000_0000);
    DivDiv(n, 0x1_0000_0000, 0x1_0000, 0x1_0000_0000_0000);
    DivDiv(n, 0x1_0000_0000, 0x100, 0x100_0000_0000);
    LowDigits(n);
    SmallDigit(lo);
  }

  lemma SmallDigit(lo: nat)
    requires lo < 0x1_0000_0000
    ensures lo / 0x100_0000 % 256 == lo / 0x100_0000
  {
    ModSmall(lo / 0x100_0000, 256);
  }

  // ---------------------------------------------------------------- bytes

  /** The bytes as they are, then zero bytes up to the next multiple of four, and no more. */
  ghost predicate Padded(e: seq<byte>, b: seq<byte>) {
    && |e| % 4 == 0 && |b| <= |e| < |b| + 4
    && (forall i :: 0 <= i < |b| ==> e[i] == b[i])
    && (forall i :: |b| <= i < |e| ==> e[i] == 0)
  }

  /** Fixed-length opaque data (section 3.9), refused exactly when the padded count does not fit a word. */
  lemma OpaqueBytes(cnt: nat, v: Value)
    requires cnt < 0x1_0000_0000 && HasType(Opaque(cnt), v)
    ensures Encode(Opaque(cnt), v).Some? <==> cnt <= 0xFFFF_FFFC
    ensures Encode(Opaque(cnt), v).Some? ==> Padded(Encode(Opaque(cnt), v).value, v.b)
  {
    hide Roundup;
    RoundupMeans(cnt);
  }

  /** Strings (section 3.11): the length as a word, then the bytes, within the limit. */
  lemma StringBytes(max: nat, v: Value)
    requires max < 0x1_0000_0000 && HasType(String(max), v)
    ensures Encode(String(max), v).Some? <==> |v.b| <= max && |v.b| <= 0xFFFF_FFFC
    ensures Encode(String(max), v).Some? ==> var (e, n) := (Encode(String(max), v).value, |v.b|);
      && |e| >= 4
      && e[0] == n / 0x100_0000 % 256 && e[1] == n / 0x1_0000 % 256 && e[2] == n / 0x100 % 256 && e[3] == n % 256
      && Padded(e[4..], v.b)
  {
    hide Be32, EncBytes, Padded, Encode;
    TextEncodes(max, v);
    if |v.b| <= max {
      WordBytes(|v.b|);
      OpaqueEncodes(v.b);
      OpaqueBytes(|v.b|, v);
      if EncBytes(v.b).Some? {
        assert (Be32(|v.b|) + EncBytes(v.b).value)[4..] == EncBytes(v.b).value;
      }
    }
  }

  lemma OpaqueEncodes(b: seq<byte>)
    requires |b| < 0x1_0000_0000
    ensures HasType(Opaque(|b|), Bytes(b)) && Encode(Opaque(|b|), Bytes(b)) == EncBytes(b)
  {}

  // ---------------------------------------------------------------- arrays and sequences

  /** Every item encodes. */
  ghost predicate AllEncode(elem: Type, vs: seq<Value>)
    requires TypeOk(elem)
  {
    forall i :: 0 <= i < |vs| ==> HasType(elem, vs[i]) && Encode(elem, vs[i]).Some?
  }

  /** Where item `i` begins, behind the items before it. */
  ghost function Offset(elem: Type, vs: seq<Value>, i: nat): nat
    requires TypeOk(elem) && i <= |vs| && AllEncode(elem, vs)
  {
    if i == 0 then 0 else Offset(elem, vs, i - 1) + |Encode(elem, vs[i-1]).value|
  }

  /** Item `i` stands at its place, as its own encoding. */
  ghost predicate ItemAt(elem: Type, vs: seq<Value>, e: seq<byte>, i: nat)
    requires TypeOk(elem) && AllEncode(elem, vs) && i < |vs|
  {
    var (from, item) := (Offset(elem, vs, i), Encode(elem, vs[i]).value);
    from + |item| <= |e| && e[from..from + |item|] == item
  }

  /** The items one after the other, and nothing else. */
  ghost predicate InSequence(elem: Type, vs: seq<Value>, e: seq<byte>)
    requires TypeOk(elem) && AllEncode(elem, vs)
  {
    |e| == Offset(elem, vs, |vs|) && forall i :: 0 <= i < |vs| ==> ItemAt(elem, vs, e, i)
  }

  lemma {:induction false} OffsetPrefix(elem: Type, vs: seq<Value>, n: nat, i: nat)
    requires TypeOk(elem) && AllEncode(elem, vs) && i <= n <= |vs|
    ensures AllEncode(elem, vs[..n]) && Offset(elem, vs[..n], i) == Offset(elem, vs, i)
    decreases i
  {
    hide Encode, HasType, TypeOk;
    if i > 0 { OffsetPrefix(elem, vs, n, i - 1); }
  }

  /** The array loop succeeds exactly when every item encodes, and then writes them in sequence. */
  lemma {:induction false} ItemsBytes(elem: Type, vs: seq<Value>)
    requires TypeOk(elem) && forall i :: 0 <= i < |vs| ==> HasType(elem, vs[i])
    ensures EncodeAll(elem, vs).Some? <==> AllEncode(elem, vs)
    ensures EncodeAll(elem, vs).Some? ==> InSequence(elem, vs, EncodeAll(elem, vs).value)
    decreases |vs|
  {
    hide Encode, HasType, TypeOk;
    if vs == [] {
    } else {
      var n := |vs| - 1;
      ItemsBytes(elem, vs[..n]);
      LastItem(elem, vs);
      if AllEncode(elem, vs) { SequenceStep(elem, vs, EncodeAll(elem, vs[..n]).value); }
    }
  }

  lemma LastItem(elem: Type, vs: seq<Value>)
    requires TypeOk(elem) && vs != [] && forall i :: 0 <= i < |vs| ==> HasType(elem, vs[i])
    ensures AllEncode(elem, vs) <==> AllEncode(elem, vs[..|vs|-1]) && Encode(elem, vs[|vs|-1]).Some?
  {
    hide Encode, HasType, TypeOk;
    forall i | 0 <= i < |vs| ensures i < |vs| - 1 ==> vs[..|vs|-1][i] == vs[i] {}
  }

  lemma ItemStays(elem: Type, vs: seq<Value>, n: nat, x: seq<byte>, y: seq<byte>, i: nat)
    requires TypeOk(elem) && AllEncode(elem, vs) && i < n <= |vs| && AllEncode(elem, vs[..n])
    requires ItemAt(elem, vs[..n], x, i)
    ensures ItemAt(elem, vs, x + y, i)
  {
    hide Encode, HasType, TypeOk, Offset;
    OffsetPrefix(elem, vs, n, i);
    assert vs[..n][i] == vs[i];
    var (a, b) := (Offset(elem, vs, i), Offset(elem, vs, i) + |Encode(elem, vs[i]).value|);
    assert (x + y)[a..b] == x[a..b];
  }

  lemma LastStands(elem: Type, vs: seq<Value>, x: seq<byte>)
    requires TypeOk(elem) && vs != [] && AllEncode(elem, vs) && |x| == Offset(elem, vs, |vs| - 1)
    ensures ItemAt(elem, vs, x + Encode(elem, vs[|vs|-1]).value, |vs| - 1)
  {
    hide Encode, HasType, TypeOk, Offset;
  }

  lemma SequenceStep(elem: Type, vs: seq<Value>, x: seq<byte>)
    requires TypeOk(elem) && vs != [] && AllEncode(elem, vs) && AllEncode(elem, vs[..|vs|-1])
    requires InSequence(elem, vs[..|vs|-1], x)
    ensures InSequence(elem, vs, x + Encode(elem, vs[|vs|-1]).value)
  {
    hide Encode, HasType, TypeOk, ItemAt;
    var n := |vs| - 1;
    var y := Encode(elem, vs[n]).value;
    OffsetPrefix(elem, vs, n, n);
    LastStands(elem, vs, x);
    forall i | 0 <= i < |vs| ensures ItemAt(elem, vs, x + y, i) {
      if i < n { ItemStays(elem, vs, n, x, y, i); }
    }
  }

  /** Variable-length arrays (section 3.13): the count as a word, then the items in sequence. */
  lemma ArrayBytes(max: nat, elsize: nat, elem: Type, v: Value)
    requires TypeOk(Array(max, elsize, elem)) && HasType(Array(max, elsize, elem), v)
    ensures Encode(Array(max, elsize, elem), v).Some? <==>
      |v.vs| <= max && |v.vs| <= 0xFFFF_FFFF / elsize && AllEncode(elem, v.vs)
    ensures Encode(Array(max, elsize, elem), v).Some? ==> var (e, n) := (Encode(Array(max, elsize, elem), v).value, |v.vs|);
      && |e| >= 4
      && e[0] == n / 0x100_0000 % 256 && e[1] == n / 0x1_0000 % 256 && e[2] == n / 0x100 % 256 && e[3] == n % 256
      && InSequence(elem, v.vs, e[4..])
  {
    ItemsEncode(max, elsize, elem, v);
    hide Encode, HasType, EncodeAll, Be32, AllEncode, InSequence;
    WordBytes(|v.vs|);
    ItemsBytes(elem, v.vs);
    if EncodeAll(elem, v.vs).Some? {
      assert (Be32(|v.vs|) + EncodeAll(elem, v.vs).value)[4..] == EncodeAll(elem, v.vs).value;
    }
  }

  /** One thing after another (section 3.14): the parts in order. */
  lemma PairBytes(a: Type, b: Type, v: Value)
    requires TypeOk(Pair(a, b)) && HasType(Pair(a, b), v)
    ensures Encode(Pair(a, b), v).Some? <==> Encode(a, v.a).Some? && Encode(b, v.b2).Some?
    ensures Encode(Pair(a, b), v).Some? ==> Encode(Pair(a, b), v).value == Encode(a, v.a).value + Encode(b, v.b2).value
  {
    hide Encode;
    PairEncodes(a, b, v);
  }

  // ---------------------------------------------------------------- reading

  /** What four bytes spell, the most significant first. */
  ghost function Spelled(s: seq<byte>): nat
    requires |s| >= 4
  {
    s[0] as int * 0x100_0000 + s[1] as int * 0x1_0000 + s[2] as int * 0x100 + s[3] as int
  }

  /** A scalar is read exactly when four bytes are there and they spell a number of its range. */
  lemma ScalarRead(t: Type, s: seq<byte>)
    requires t.Char? || t.Ushort? || t.Uint?
    ensures var limit := if t.Char? then 0x100 else if t.Ushort? then 0x1_0000 else 0x1_0000_0000;
      && (Decode(t, s).Some? <==> |s| >= 4 && Spelled(s) < limit)
      && (Decode(t, s).Some? ==> Decode(t, s) == Some((Num(Spelled(s)), 4)))
  {}

  /** A hyper is read exactly when eight bytes are there. */
  lemma HyperRead(s: seq<byte>)
    ensures Decode(Hyper, s) == if |s| >= 8 then Some((Num(Spelled(s[..4]) * 0x1_0000_0000 + Spelled(s[4..])), 8)) else None
  {}
}

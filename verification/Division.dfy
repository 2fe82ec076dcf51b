/**
  64-bit division on a 32-bit machine, from `spl-generic.c`.  Words are natural numbers; every
  operation that could leave 64 bits wraps explicitly, and the proofs show that none does.
 */
module Division {
  import opened Arith

  const W32: int := 0x1_0000_0000
  const W64: int := 0x1_0000_0000_0000_0000
  const W63: int := 0x8000_0000_0000_0000

  predicate Word(x: int) { 0 <= x < W64 }

  /** Shift left, losing what leaves the word. */
  function Shl(x: nat, n: nat): nat { (x * Pow2(n)) % W64 }

  function Shr(x: nat, n: nat): nat { Quot(x, Pow2(n)) }

  function Add(x: nat, y: nat): nat { (x + y) % W64 }

  function Sub(x: nat, y: nat): nat { (x - y) % W64 }

  function Mul(x: nat, y: nat): nat { (x * y) % W64 }

  lemma {:induction false} Pow2Sum(a: nat, b: nat)
    ensures Pow2(a + b) == Pow2(a) * Pow2(b)
  {
    if a > 0 {
      Pow2Sum(a - 1, b);
      assert Pow2(a + b) == 2 * (Pow2(a - 1) * Pow2(b));
    }
  }

  lemma {:induction false} Pow2Mono(a: nat, b: nat)
    requires a <= b
    ensures Pow2(a) <= Pow2(b)
  {
    if a < b { Pow2Mono(a, b - 1); }
  }

  lemma Pow2Values()
    ensures Pow2(0) == 1 && Pow2(1) == 2 && Pow2(2) == 4 && Pow2(4) == 16 && Pow2(8) == 256 && Pow2(16) == 65536
    ensures Pow2(31) == 0x8000_0000 && Pow2(32) == W32 && Pow2(63) == W63 && Pow2(64) == W64
  {
    assert Pow2(4) == 16 by { assert Pow2(3) == 8; }
    Pow2Sum(4, 4);
    Pow2Sum(8, 8);
    Pow2Sum(16, 16);
    Pow2Sum(32, 32);
  }

  // ---------------------------------------------------------------- leading zeros

  /** Shifting `x` left by `n` brings its top bit to the top of the word. */
  predicate Normalised(x: nat, n: nat) { W63 <= x * Pow2(n) < W64 }

  /** One line of `nlz64`: when the top `k` bits are clear, shift them out. */
  method ShiftIfClear(ghost x0: nat, n: nat, x: nat, k: nat, bound: nat, ghost low: nat) returns (n': nat, x': nat)
    requires Scaled(x0, n, x) && low <= x < W64
    requires (bound + 1) * Pow2(k) == W64 && low * Pow2(k) == bound + 1
    ensures Scaled(x0, n', x') && n <= n' <= n + k && bound < x' < W64
  {
    n', x' := n, x;
    if x <= bound {
      MulStrict(x, bound + 1, Pow2(k));
      MulMono(low, x, Pow2(k));
      Shifted(x0, n, x, k);
      n', x' := n + k, Shl(x, k);
    }
  }

  /** `nlz64`: the number of leading zeros, found by halving. */
  method LeadingZeros(x: nat) returns (n: nat)
    requires Word(x)
    ensures x == 0 ==> n == 64
    ensures x > 0 ==> n < 64 && Normalised(x, n)
  {
    if x == 0 { return 64; }
    var y := x;
    assert Scaled(x, 0, y);
    Pow2Values();
    hide Pow2, Scaled, Normalised;
    n, y := ShiftIfClear(x, 0, y, 32, 0x0000_0000_FFFF_FFFF, 1);
    n, y := ShiftIfClear(x, n, y, 16, 0x0000_FFFF_FFFF_FFFF, 0x1_0000_0000);
    n, y := ShiftIfClear(x, n, y, 8, 0x00FF_FFFF_FFFF_FFFF, 0x1_0000_0000_0000);
    n, y := ShiftIfClear(x, n, y, 4, 0x0FFF_FFFF_FFFF_FFFF, 0x100_0000_0000_0000);
    n, y := ShiftIfClear(x, n, y, 2, 0x3FFF_FFFF_FFFF_FFFF, 0x1000_0000_0000_0000);
    n, y := ShiftIfClear(x, n, y, 1, 0x7FFF_FFFF_FFFF_FFFF, 0x4000_0000_0000_0000);
    Normal(x, n, y);
  }

  predicate Scaled(x0: nat, n: nat, x: nat) { x == x0 * Pow2(n) }

  lemma Normal(x0: nat, n: nat, x: nat)
    requires Scaled(x0, n, x) && W63 <= x < W64
    ensures Normalised(x0, n)
  {}

  /** A shift that loses nothing multiplies by a power of two. */
  lemma Shifted(x0: nat, n: nat, x: nat, k: nat)
    requires Scaled(x0, n, x) && x * Pow2(k) < W64
    ensures Shl(x, k) == x * Pow2(k) && Scaled(x0, n + k, x * Pow2(k))
  {
    Pow2Sum(n, k);
    Assoc(x0, Pow2(n), Pow2(k));
  }

  lemma Assoc(a: nat, b: nat, c: nat)
    ensures a * (b * c) == a * b * c
  {}

  // ---------------------------------------------------------------- a 32-bit divisor

  /** Grade-school division by a divisor below 2^32, one 32-bit digit at a time. */
  lemma TwoDigits(u: nat, v: nat, u1: nat, u0: nat, q1: nat, k: nat, q0: nat)
    requires 0 < v < W32 && u == u1 * W32 + u0 && u0 < W32
    requires q1 == Quot(u1, v) && k == u1 - q1 * v && q0 == Quot(k * W32 + u0, v)
    ensures 0 <= k < v && q0 < W32 && u / v == q1 * W32 + q0
  {
    var r := k * W32 + u0 - q0 * v;
    MulStrict(k, v, W32);
    if q0 >= W32 { MulMono(W32, q0, v); }
    Regroup(q1, q0, v, W32);
    Spread(q1 * v, k, W32);
    DivUnique(u, v, q1 * W32 + q0, r);
  }

  lemma Regroup(a: int, b: int, v: int, w: int)
    ensures (a * w + b) * v == a * v * w + b * v
  {}

  lemma Spread(a: int, b: int, w: int)
    ensures (a + b) * w == a * w + b * w
  {}

  // ---------------------------------------------------------------- a larger divisor

  /** The normalised divisor: `v` shifted up by `n`, upper half, with what is cut off. */
  lemma Divisor(v: nat, n: nat) returns (v1: nat, r: nat)
    requires W32 <= v < W64 && Normalised(v, n)
    ensures n <= 31 && v1 == Shr(Shl(v, n), 32)
    ensures v * Pow2(n) == v1 * W32 + r && r < W32 && 0x8000_0000 <= v1 < W32
  {
    Pow2Values();
    if n >= 32 {
      Pow2Mono(32, n);
      MulMono(W32, v, Pow2(n));
      MulMono(W32, Pow2(n), W32);
    }
    v1 := Quot(v * Pow2(n), W32);
    r := v * Pow2(n) - v1 * W32;
  }

  /** The scaled true quotient does not exceed the estimate. */
  lemma EstimateLow(u: nat, v: nat, p: nat, e: nat, v1: nat, r: nat)
    requires p * e == 0x8000_0000 && v * p == v1 * W32 + r && v > 0 && v1 > 0
    ensures Quot(u, v) * e <= Quot(Quot(u, 2), v1)
  {
    var q := Quot(u, v);
    var q1 := Quot(Quot(u, 2), v1);
    var a := q * e * v1;
    assert a * W32 == q * e * (v1 * W32) by { Assoc(q * e, v1, W32); }
    MulMonoLeft(v1 * W32, v * p, q * e);
    assert q * e * (v * p) == q * v * 0x8000_0000 by { Swap4(q, e, v, p); }
    MulMono(q * v, u, 0x8000_0000);
    assert a * 2 <= u;
    if q * e > q1 { MulMono(q1 + 1, q * e, v1); Spread(q1, 1, v1); }
  }

  /** The estimate stays below two more than the scaled true quotient, when the cut-off is small. */
  lemma EstimateHigh(u: nat, v: nat, p: nat, e: nat, v1: nat, r: nat)
    requires p * e == 0x8000_0000 && v * p == v1 * W32 + r && v > 0 && v1 > 0
    requires (Quot(u, v) + 2) * r <= v * p
    ensures Quot(Quot(u, 2), v1) < (Quot(u, v) + 2) * e
  {
    hide Quot;
    var (q, d, q1) := (Quot(u, v) + 2, Quot(u, v), Quot(Quot(u, 2), v1));
    EstimateScaled(q, v, p, e, v1, r);
    Spread(d, 2, v);
    assert q * e * v1 * 2 > u;
    if q1 >= q * e { MulMono(q * e, q1, v1); }
  }

  /** The scaled estimate overshoots: both sides times the scale. */
  lemma EstimateScaled(q: nat, v: nat, p: nat, e: nat, v1: nat, r: nat)
    requires p * e == 0x8000_0000 && v * p == v1 * W32 + r && q * r <= v * p
    ensures q * e * v1 * W32 >= q * v * 0x8000_0000 - v * 0x8000_0000
  {
    Assoc(q * e, v1, W32);
    Distribute(q * e, v1 * W32, r);
    Swap4(q, e, v, p);
    ScaledRest(q, v, p, e, r);
  }

  lemma ScaledRest(q: nat, v: nat, p: nat, e: nat, r: nat)
    requires p * e == 0x8000_0000 && q * r <= v * p
    ensures q * e * r <= v * 0x8000_0000
  {
    MulMono(q * r, v * p, e);
    assert q * r * e == q * e * r;
    assert v * p * e == v * (p * e);
  }

  lemma MulMonoLeft(a: int, b: int, c: int)
    requires a <= b && c >= 0
    ensures c * a <= c * b
  {
    MulMono(a, b, c);
  }

  lemma Distribute(c: int, a: int, b: int)
    ensures c * (a + b) == c * a + c * b
  {}

  lemma Swap4(q: int, e: int, v: int, p: int)
    ensures q * e * (v * p) == q * v * (p * e)
  {
    assert q * e * (v * p) == q * (e * (v * p));
    assert e * (v * p) == v * (p * e);
    assert q * (v * (p * e)) == q * v * (p * e);
  }

  /** A quotient by a divisor at least `d` is below 2^64 / d. */
  lemma QuotientBound(u: nat, v: nat, d: nat, b: nat)
    requires u < W64 && 0 < d <= v && d * b == W64
    ensures Quot(u, v) < b
  {
    var q := Quot(u, v);
    if q >= b { MulMono(b, q, v); MulMono(d, v, b); }
  }

  /** The cut-off part is a multiple of 2^n, which makes it small enough even for 32-bit quotients. */
  lemma CutOff(u: nat, v: nat, n: nat, v1: nat, r: nat)
    requires u < W64 && W32 <= v && n <= 31 && Normalised(v, n)
    requires v * Pow2(n) == v1 * W32 + r && r < W32
    ensures (Quot(u, v) + 2) * r <= v * Pow2(n)
  {
    Pow2Values();
    var q := Quot(u, v);
    if n == 31 {
      CutOff31(u, v, v1, r);
    } else if n == 30 {
      assert Pow2(30) == 0x4000_0000;
      QuotientBound(u, v, 0x2_0000_0000, 0x8000_0000);
      assert r <= 0xC000_0000;
      MulMono(q + 2, 0x8000_0001, r);
    } else {
      Pow2Mono(n, 29);
      assert Pow2(29) == 0x2000_0000 by { assert Pow2(30) == 2 * Pow2(29); }
      if v < 0x4_0000_0000 { MulMono(v, 0x3_FFFF_FFFF, Pow2(n)); MulMonoLeft(Pow2(n), 0x2000_0000, 0x3_FFFF_FFFF); }
      QuotientBound(u, v, 0x4_0000_0000, 0x4000_0000);
      MulMono(q + 2, 0x4000_0001, r);
    }
  }

  lemma CutOff31(u: nat, v: nat, v1: nat, r: nat)
    requires u < W64 && W32 <= v && v * 0x8000_0000 == v1 * W32 + r && r < W32
    ensures (Quot(u, v) + 2) * r <= v * 0x8000_0000
  {
    var q := Quot(u, v);
    assert r == 0 || (r == 0x8000_0000 && v > W32);
    if r > 0 {
      if q >= W32 { MulMono(W32, q, v); }
      MulMono(q + 2, v, r);
    } else {
      assert (q + 2) * r == 0;
    }
  }

  /** Undoing the normalisation leaves the true quotient or one more. */
  lemma Estimate(u: nat, v: nat, n: nat, q1: nat)
    requires u < W64 && W32 <= v < W64 && Normalised(v, n)
    requires q1 == Quot(Quot(u, 2), Quot(v * Pow2(n), W32)) && Quot(v * Pow2(n), W32) > 0
    requires n <= 31
    ensures Quot(u, v) <= Quot(q1 * Pow2(n), 0x8000_0000) <= Quot(u, v) + 1
  {
    var q, p, e, v1 := Quot(u, v), Pow2(n), Pow2(31 - n), Quot(v * Pow2(n), W32);
    hide Pow2, Normalised;
    var r := v * p - v1 * W32;
    Pow2Sum(n, 31 - n);
    Pow2Values();
    CutOff(u, v, n, v1, r);
    EstimateLow(u, v, p, e, v1, r);
    EstimateHigh(u, v, p, e, v1, r);
    Rescale(q, q1, p, e);
  }

  lemma Rescale(q: nat, q1: nat, p: nat, e: nat)
    requires p * e == 0x8000_0000 && q * e <= q1 < (q + 2) * e
    ensures q <= Quot(q1 * p, 0x8000_0000) <= q + 1
  {
    assert p > 0;
    MulMono(q * e, q1, p);
    assert q * e * p == q * 0x8000_0000 by { Assoc(q, e, p); }
    MulStrict(q1, (q + 2) * e, p);
    assert (q + 2) * e * p == (q + 2) * 0x8000_0000 by { Assoc(q + 2, e, p); }
  }

  /** The first half of `__udivdi3`: the divisor fits in 32 bits. */
  method DivideNarrow(u: nat, v: nat) returns (q: nat)
    requires Word(u) && 0 < v < W32
    ensures q == u / v
  {
    Pow2Values();
    hide Pow2, Shl, Sub, Mul, Add;
    if Shr(u, 32) < v {
      q := Quot(u, v);
    } else {
      var u1, u0 := Shr(u, 32), u % W32;
      var q1 := Quot(u1, v);
      ghost var kk := u1 - q1 * v;
      ghost var q := Quot(kk * W32 + u0, v);
      TwoDigits(u, v, u1, u0, q1, kk, q);
      NarrowExact(u1, u0, v, q1, kk, q);
      var k := Sub(u1, Mul(q1, v));
      u0 := Add(u0, Shl(k, 32));
      var q0 := Quot(u0, v);
      return Add(Shl(q1, 32), q0);
    }
  }

  /** None of the word operations of the two-digit division wraps. */
  lemma NarrowExact(u1: nat, u0: nat, v: nat, q1: nat, k: nat, q0: nat)
    requires 0 < v < W32 && u1 < W32 && u0 < W32 && q1 == Quot(u1, v) && k == u1 - q1 * v < v && q0 < W32
    ensures Sub(u1, Mul(q1, v)) == k && Add(u0, Shl(k, 32)) == k * W32 + u0
    ensures Add(Shl(q1, 32), q0) == q1 * W32 + q0
  {
    MulMono(1, v, q1);
    var p := q1 * v;
    assert q1 <= p <= u1;
    ShlWord(k);
    ShlWord(q1);
    ModSmall(p, W64);
    ModSmall(u1 - p, W64);
    ModSmall(u0 + k * W32, W64);
    ModSmall(q1 * W32 + q0, W64);
    hide Shl;
  }

  lemma ShlWord(x: nat)
    requires x < W32
    ensures Shl(x, 32) == x * W32 && x * W32 + W32 <= W64
  {
    Pow2Values();
    hide Pow2;
  }

  /** The second half: estimate from a normalised divisor, then correct by at most one. */
  method DivideWide(u: nat, v: nat) returns (q: nat)
    requires Word(u) && W32 <= v < W64
    ensures q == u / v
  {
    Pow2Values();
    hide Pow2, Normalised, Shl, Sub, Mul;
    var n := LeadingZeros(v);
    ghost var top, cut := Divisor(v, n);
    var v1 := Shr(Shl(v, n), 32);
    var u1 := Shr(u, 1);
    var q1 := Quot(u1, v1);
    DivisorIs(v, n);
    Estimate(u, v, n, q1);
    ShlFits(q1, n, u1, v1);
    q := Shr(Shl(q1, n), 31);
    if q != 0 { q := q - 1; }
    Correct(u, v, q);
    if Sub(u, Mul(q, v)) >= v { q := q + 1; }
  }

  lemma DivisorIs(v: nat, n: nat)
    requires Normalised(v, n)
    ensures Shl(v, n) == v * Pow2(n)
  {}

  /** `__udivdi3`: for every dividend and every non-zero divisor, the floor of the quotient. */
  method Udivdi3(u: nat, v: nat) returns (q: nat)
    requires Word(u) && 0 < v < W64
    ensures q == u / v
  {
    Pow2Values();
    hide Pow2;
    if Shr(v, 32) == 0 {
      q := DivideNarrow(u, v);
    } else {
      q := DivideWide(u, v);
    }
  }

  /** The estimate fits in 32 bits, so shifting it loses nothing. */
  lemma ShlFits(q1: nat, n: nat, u1: nat, v1: nat)
    requires u1 < W63 && 0x8000_0000 <= v1 && q1 == Quot(u1, v1) && n <= 31
    ensures q1 < W32 && Shl(q1, n) == q1 * Pow2(n)
  {
    Pow2Values();
    hide Pow2;
    if q1 >= W32 { MulMono(W32, q1, v1); }
    Pow2Mono(n, 31);
    MulMono(q1, W32, Pow2(n));
  }

  /** One comparison repairs a quotient that is exact or one too small. */
  lemma Correct(u: nat, v: nat, q0: nat)
    requires Word(u) && 0 < v && (q0 == u / v || q0 + 1 == u / v)
    ensures Sub(u, Mul(q0, v)) == u - q0 * v
    ensures u - q0 * v >= v <==> q0 + 1 == u / v
  {
    DivSplit(u, v);
    Spread(q0, 1, v);
    MulMono(q0, u / v, v);
  }

  /** `__umoddi3`. */
  method Umoddi3(u: nat, v: nat) returns (m: nat)
    requires Word(u) && 0 < v < W64
    ensures m == u % v
  {
    hide Sub, Mul;
    var q := Udivdi3(u, v);
    Correct(u, v, q);
    MulCommutes(v, q);
    DivSplit(u, v);
    m := Sub(u, Mul(v, q));
  }

  lemma MulCommutes(x: nat, y: nat)
    ensures Mul(x, y) == Mul(y, x)
  {
    assert x * y == y * x;
  }

  // ---------------------------------------------------------------- signed division

  predicate Signed(x: int) { -W63 <= x < W63 }

  /** The value of a 64-bit pattern read as a signed number. */
  function ToSigned(x: int): int {
    var y := x % W64;
    if y < W63 then y else y - W64
  }

  /** Arithmetic shift by 63: all ones for a negative word, else zero. */
  function SignMask(x: int): int { if x < 0 then -1 else 0 }

  /** Exclusive or with such a mask: complement or nothing. */
  function XorMask(x: int, t: int): int { if t == 0 then x else -1 - x }

  /** `abs64`, an unsigned result. */
  function Abs64(x: int): (r: nat)
    requires Signed(x)
    ensures r == if x < 0 then -x else x
  {
    XorMask(x, SignMask(x)) - SignMask(x)
  }

  /** `q` is `u / v` rounded toward zero: the remainder is short and leans the way of `u`. */
  predicate Truncates(u: int, v: int, q: int) {
    var r := u - q * v;
    && (if v < 0 then v < r < -v else -v < r < v)
    && (u >= 0 ==> r >= 0) && (u <= 0 ==> r <= 0)
  }

  function Abs(x: int): int { if x < 0 then -x else x }

  lemma MagnitudeTruncates(u: int, v: int, a: int)
    requires v != 0 && a == Abs(u) / Abs(v)
    ensures Truncates(u, v, if (u < 0) != (v < 0) then -a else a)
  {
    hide Truncates;
    DivSplit(Abs(u), Abs(v));
    var q := if (u < 0) != (v < 0) then -a else a;
    SignedProduct(a, u, v);
    FromMagnitude(u, v, q, a * Abs(v));
  }

  lemma FromMagnitude(u: int, v: int, q: int, p: int)
    requires 0 <= Abs(u) - p < Abs(v) && q * v == if u < 0 then -p else p
    ensures Truncates(u, v, q)
  {}

  lemma SignedProduct(a: int, u: int, v: int)
    ensures (if (u < 0) != (v < 0) then -a else a) * v == if u < 0 then -(a * Abs(v)) else a * Abs(v)
  {
    Signs(a, Abs(v));
  }

  lemma Signs(a: int, y: int)
    ensures (-a) * y == -(a * y) && a * (-y) == -(a * y) && (-a) * (-y) == a * y
  {}

  /** `__divdi3`: truncating division, for every pair except the one whose quotient has no word. */
  method Divdi3(u: int, v: int) returns (q: int)
    requires Signed(u) && Signed(v) && v != 0
    ensures Truncates(u, v, q) <==> !(u == -W63 && v == -1)
    ensures u == -W63 && v == -1 ==> q == -W63
  {
    hide Truncates, ToSigned, XorMask;
    var a := Udivdi3(Abs64(u), Abs64(v));
    MagnitudeTruncates(u, v, a);
    QuotientAtMost(Abs64(u), Abs64(v));
    q := ToSigned(a);
    var t := if (u < 0) != (v < 0) then -1 else 0;
    q := ToSigned(XorMask(q, t) - t);
    SignFix(a, t);
    NoWordFor();
  }

  /** Negating by complement gives the signed quotient, unless a positive one reaches 2^63. */
  lemma SignFix(a: int, t: int)
    requires 0 <= a <= W63 && (t == 0 || t == -1)
    ensures ToSigned(XorMask(ToSigned(a), t) - t) == if t == -1 || a == W63 then -a else a
  {}

  lemma NoWordFor()
    ensures !Truncates(-W63, -1, -W63)
  {}

  lemma QuotientAtMost(x: nat, y: nat)
    requires y > 0
    ensures 0 <= x / y <= x && (x / y == x ==> x == 0 || y == 1)
  {
    DivSplit(x, y);
    var q := Quot(x, y);
    if y >= 2 { MulMono(2, y, q); }
  }
}

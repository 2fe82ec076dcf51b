/** Products, quotients and remainders: the few non-linear facts the model needs. */
module Arith {

  lemma MulMono(a: int, b: int, c: int)
    requires a <= b && c >= 0
    ensures a * c <= b * c
  {
    assert (b - a) * c >= 0;
    assert (b - a) * c == b * c - a * c;
  }

  lemma MulStrict(a: int, b: int, c: int)
    requires a < b && c > 0
    ensures a * c < b * c && a * c + c <= b * c
  {
    MulMono(a + 1, b, c);
    assert (a + 1) * c == a * c + c;
  }

  /** Division with remainder, as an equation. */
  lemma DivSplit(x: int, d: int)
    requires d > 0
    ensures x == x / d * d + x % d && 0 <= x % d < d
  {}

  /** Quotient and remainder are unique. */
  lemma DivUnique(x: int, d: int, q: int, r: int)
    requires d > 0 && x == q * d + r && 0 <= r < d
    ensures x / d == q && x % d == r
  {
    DivSplit(x, d);
    var p := x / d;
    if p < q { MulStrict(p, q, d); }
    if q < p { MulStrict(q, p, d); }
  }

  /** Natural division, with the bounds that characterise it. */
  function Quot(a: nat, b: nat): (q: nat)
    requires b > 0
    ensures q == a / b && q * b <= a < q * b + b
  {
    DivSplit(a, b);
    assert a / b >= 0 by { if a / b < 0 { MulMono(a / b, -1, b); } }
    a / b
  }

  lemma MultipleMod(k: nat, a: nat)
    requires a > 0
    ensures (k * a) % a == 0
  {
    DivUnique(k * a, a, k, 0);
  }

  lemma SumMod(a: int, b: int, d: int)
    requires d > 0 && a % d == 0 && b % d == 0
    ensures (a + b) % d == 0
  {
    DivSplit(a, d);
    DivSplit(b, d);
    assert (a / d + b / d) * d == a / d * d + b / d * d;
    DivUnique(a + b, d, a / d + b / d, 0);
  }

  lemma ScaleMod(k: int, b: int, d: int)
    requires d > 0 && b % d == 0
    ensures (k * b) % d == 0
  {
    DivSplit(b, d);
    assert k * b == k * (b / d) * d by { assert k * (b / d * d) == k * (b / d) * d; }
    DivUnique(k * b, d, k * (b / d), 0);
  }

  lemma ModSmall(x: nat, m: nat)
    requires x < m
    ensures x % m == x
  {
    DivUnique(x, m, 0, x);
  }

  function Pow2(k: nat): (r: nat)
    ensures r > 0
  {
    if k == 0 then 1 else 2 * Pow2(k - 1)
  }
}

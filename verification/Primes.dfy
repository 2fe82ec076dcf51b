/** The prime search of `mod_hash_iddata_gen`: trial division by odd numbers, and why it ends. */
module Primes {
  import opened Arith
  import opened Options

  predicate Divides(d: nat, m: int)
    requires d > 0
  {
    m % d == 0
  }

  predicate Odd(n: nat) { n % 2 == 1 }

  ghost predicate IsPrime(p: nat) {
    p >= 2 && forall d :: 2 <= d < p ==> !Divides(d, p)
  }

  /** What the comment above the code asks for. */
  ghost predicate FirstOddPrime(r: nat, n: nat) {
    r > n && Odd(r) && IsPrime(r) && NoneBetween(n, r)
  }

  ghost predicate NoneBetween(n: nat, k: nat) {
    forall q :: n < q < k && Odd(q) ==> !IsPrime(q)
  }

  // ---------------------------------------------------------------- primes are unbounded

  /** The least divisor from `d` up. */
  ghost function Least(m: nat, d: nat): (r: nat)
    requires 2 <= d <= m && forall e :: 2 <= e < d ==> !Divides(e, m)
    ensures 2 <= r <= m && Divides(r, m)
    ensures forall e :: 2 <= e < r ==> !Divides(e, m)
    decreases m - d
  {
    MultipleMod(1, m);
    if Divides(d, m) then d else Least(m, d + 1)
  }

  /** The least divisor is prime. */
  lemma LeastPrime(m: nat)
    requires m >= 2
    ensures IsPrime(Least(m, 2))
  {
    var r := Least(m, 2);
    forall e | 2 <= e < r ensures !Divides(e, r) { DividesTransitive(e, r, m); }
  }

  lemma DividesTransitive(e: nat, r: nat, m: nat)
    requires e > 0 && r > 0 && Divides(r, m)
    ensures Divides(e, r) ==> Divides(e, m)
  {
    DivSplit(m, r);
    if Divides(e, r) { ScaleMod(m / r, r, e); }
  }

  ghost function Factorial(n: nat): nat {
    if n == 0 then 1 else Factorial(n - 1) * n
  }

  lemma {:induction false} FactorialDivisible(n: nat, d: nat)
    requires 1 <= d <= n
    ensures Divides(d, Factorial(n))
  {
    if d == n {
      MultipleMod(Factorial(n - 1), n);
    } else {
      FactorialDivisible(n - 1, d);
      ScaleMod(n, Factorial(n - 1), d);
      assert n * Factorial(n - 1) == Factorial(n - 1) * n;
    }
  }

  lemma {:induction false} FactorialPositive(n: nat)
    ensures Factorial(n) >= 1
  {
    if n > 0 {
      FactorialPositive(n - 1);
      MulMono(1, Factorial(n - 1), n);
    }
  }

  /** No number from two up divides two neighbours. */
  lemma NextNotDivisible(d: nat, m: nat)
    requires d >= 2
    ensures Divides(d, m) ==> !Divides(d, m + 1)
  {
    DivSplit(m, d);
    if Divides(d, m) { DivUnique(m + 1, d, m / d, 1); }
  }

  /** The least divisor of `n! + 1` is a prime above `n`. */
  lemma PrimeAbove(n: nat) returns (p: nat)
    ensures p > n && IsPrime(p)
  {
    FactorialPositive(n);
    p := Least(Factorial(n) + 1, 2);
    LeastPrime(Factorial(n) + 1);
    if p <= n {
      FactorialDivisible(n, p);
      NextNotDivisible(p, Factorial(n));
      assert false;
    }
  }

  lemma OddPrime(p: nat)
    requires IsPrime(p) && p > 2
    ensures Odd(p)
  {
    assert !Divides(2, p);
  }

  // ---------------------------------------------------------------- trial division

  /** No odd number from three below `i` divides `k`. */
  ghost predicate NoOddBelow(k: nat, i: nat) {
    forall d :: 3 <= d < i && Odd(d) ==> !Divides(d, k)
  }

  /** Odd divisors up to the square root are enough. */
  lemma TrialEnough(k: nat, i: nat)
    requires Odd(k) && k >= 3 && i * i > k && NoOddBelow(k, i)
    ensures IsPrime(k)
  {
    var s := Least(k, 2);
    LeastPrime(k);
    if s < k {
      SquareBelow(k, s);
      if s >= i { MulMono(i, s, s); MulMono(i, s, i); }
      OddDivisor(k, s);
      assert false;
    }
  }

  /** A proper least divisor is at most the square root. */
  lemma SquareBelow(k: nat, s: nat)
    requires 2 <= s < k && Divides(s, k) && forall e :: 2 <= e < s ==> !Divides(e, k)
    ensures s * s <= k
  {
    DivSplit(k, s);
    var q := k / s;
    if q < 2 { MulMono(q, 1, s); }
    MultipleMod(s, q);
    assert s * q == q * s;
    assert Divides(q, k);
    MulMono(s, q, s);
  }

  lemma OddDivisor(k: nat, s: nat)
    requires s > 0 && Odd(k) && Divides(s, k)
    ensures Odd(s)
  {
    DivSplit(k, s);
    if !Odd(s) { ScaleMod(k / s, s, 2); }
  }

  lemma NoneTried(k: nat)
    ensures NoOddBelow(k, 3) && Odd(3)
  {}

  /** One odd number tried. */
  lemma TrialNext(k: nat, i: nat)
    requires Odd(i) && i >= 3 && i * i <= k
    ensures Odd(i + 2) && i + 2 <= k && k >= 9
    ensures k % i == 0 ==> !IsPrime(k)
    ensures k % i != 0 && NoOddBelow(k, i) ==> NoOddBelow(k, i + 2)
  {
    MulMono(3, i, i);
    if k % i == 0 { assert Divides(i, k); }
  }

  /** The inner loop, in exact arithmetic. */
  method Trial(k: nat) returns (prime: bool)
    requires Odd(k)
    ensures k >= 3 ==> (prime <==> IsPrime(k))
    ensures k == 1 ==> prime
  {
    hide IsPrime, NoOddBelow, Odd;
    NoneTried(k);
    prime := true;
    var i := 3;
    while i * i <= k
      invariant i >= 3 && Odd(i)
      invariant if prime then NoOddBelow(k, i) else !IsPrime(k)
      invariant k < 9 ==> prime
      decreases k - i
    {
      TrialNext(k, i);
      if k % i == 0 { prime := false; }
      i := i + 2;
    }
    if k >= 3 && prime { TrialEnough(k, i); }
  }

  lemma FirstOdd(n: nat)
    ensures var k := if n % 2 == 0 then n + 1 else n + 2; Odd(k) && NoneBetween(n, k)
    ensures !IsPrime(1)
  {}

  lemma NextOdd(n: nat, k: nat, p: nat)
    requires Odd(k) && !IsPrime(k) && NoneBetween(n, k) && k <= p && Odd(p) && IsPrime(p)
    ensures Odd(k + 2) && NoneBetween(n, k + 2) && k + 2 <= p
  {
    assert k != p;
  }

  /** `mod_hash_iddata_gen` in exact arithmetic: right if and only if there is a chain. */
  method FirstPrime(n: nat) returns (k: nat)
    ensures FirstOddPrime(k, n) <==> n >= 1
    ensures n == 0 ==> k == 1
  {
    k := if n % 2 == 0 then n + 1 else n + 2;
    ghost var p := PrimeAbove(n + 2);
    OddPrime(p);
    FirstOdd(n);
    hide IsPrime, NoneBetween, Odd;
    var prime := Trial(k);
    while !prime
      invariant n < k <= p && Odd(k) && (n >= 1 ==> k >= 3)
      invariant k >= 3 ==> (prime <==> IsPrime(k))
      invariant n == 0 ==> k == 1 && prime
      invariant NoneBetween(n, k)
      decreases p - k
    {
      NextOdd(n, k, p);
      k := k + 2;
      prime := Trial(k);
    }
  }

  // ---------------------------------------------------------------- thirty-two bits

  const WORD: nat := 0x1_0000_0000

  /** The square of the largest odd number whose square fits in a word. */
  const LIMIT: nat := 65535 * 65535

  /** The largest square of an odd number modulo 2^32, and a number whose square it is. */
  const STUCK: nat := 0xFFFF_FFF9
  const ROOT: nat := 479772853

  lemma RootSquare()
    ensures ROOT * ROOT % WORD == STUCK && Odd(ROOT) && 65537 <= ROOT < LIMIT < STUCK
  {
    DivUnique(479772853 * 479772853, 0x1_0000_0000, 53593420, 0xFFFF_FFF9);
  }

  /** Odd squares are one more than a multiple of eight, so none exceeds `STUCK` modulo 2^32. */
  lemma SquareAtMost(i: nat)
    requires Odd(i)
    ensures i * i % WORD <= STUCK
  {
    var h := i / 2;
    OddSquare(h);
    OneIsEven(h);
    DivSplit(h * (h + 1), 2);
    LowEighth(i * i, h * (h + 1) / 2);
  }

  lemma OddSquare(h: nat)
    ensures (2 * h + 1) * (2 * h + 1) == 4 * (h * (h + 1)) + 1
  {}

  lemma LowEighth(x: nat, e: int)
    requires x == 8 * e + 1
    ensures x % WORD <= STUCK
  {
    DivSplit(x, 0x1_0000_0000);
  }

  lemma OneIsEven(h: nat)
    ensures h * (h + 1) % 2 == 0
  {
    if h % 2 == 0 { ScaleMod(h + 1, h, 2); assert (h + 1) * h == h * (h + 1); } else { ScaleMod(h, h + 1, 2); }
  }

  /** For the four largest odd words the inner loop never ends: its guard holds for every odd divisor. */
  lemma TrialStuck(k: nat)
    requires k >= STUCK
    ensures forall i: nat :: Odd(i) ==> i * i % WORD <= k
  {
    forall i: nat | Odd(i) ensures i * i % WORD <= k { SquareAtMost(i); }
  }

  /** One odd number below `k` tried. */
  lemma TrialAny(k: nat, i: nat)
    requires Odd(i) && 3 <= i < k
    ensures Odd(i + 2)
    ensures k % i == 0 ==> !IsPrime(k)
    ensures k % i != 0 && NoOddBelow(k, i) ==> NoOddBelow(k, i + 2)
  {
    if k % i == 0 { assert Divides(i, k); }
  }

  lemma SquareFits(i: nat)
    requires i <= 65535
    ensures i * i % WORD == i * i <= LIMIT
    ensures i * i < LIMIT ==> i < 65535
  {
    MulMono(i, 65535, i);
    MulMono(i, 65535, 65535);
    ModSmall(i * i, WORD);
  }

  /** Where the inner loop ends at the latest. */
  function Last(k: nat): nat { if k < LIMIT then 65535 else ROOT }

  /** While the guard holds, the next divisor is below `k` and before the last. */
  lemma GuardMeans(k: nat, i: nat)
    requires Odd(k) && k < STUCK && Odd(i) && 3 <= i <= Last(k) && i * i % WORD <= k
    ensures i < k && i + 2 <= Last(k) && k >= 9
  {
    RootSquare();
    if i <= 65535 {
      SquareFits(i);
      MulMono(3, i, i);
    }
  }

  /** When it fails, every odd number up to the square root has been tried. */
  lemma GuardFails(k: nat, i: nat)
    requires k < STUCK && Odd(i) && 3 <= i <= Last(k) && i * i % WORD > k
    ensures i * i > k
  {
    if i <= 65535 {
      SquareFits(i);
    } else {
      MulMono(65536, i, i);
      MulMono(65536, i, 65536);
    }
  }

  /** The inner loop on unsigned 32-bit integers; none when it never ends. */
  method Trial32(k: nat) returns (r: Option<bool>)
    requires Odd(k) && k < WORD
    ensures r == None <==> k >= STUCK
    ensures r.Some? && k >= 3 ==> (r.value <==> IsPrime(k))
    ensures k == 1 ==> r == Some(true)
  {
    if k >= STUCK {
      TrialStuck(k);
      return None;
    }
    hide IsPrime, NoOddBelow, Odd, Last;
    NoneTried(k);
    LastAtLeast(k);
    var prime := true;
    var i := 3;
    while i * i % WORD <= k
      invariant 3 <= i <= Last(k) && Odd(i)
      invariant if prime then NoOddBelow(k, i) else !IsPrime(k)
      invariant k < 9 ==> prime
      decreases Last(k) - i
    {
      GuardMeans(k, i);
      TrialAny(k, i);
      if k % i == 0 { prime := false; }
      ModSmall(i + 2, WORD);
      i := (i + 2) % WORD;
    }
    GuardFails(k, i);
    if k >= 3 && prime { TrialEnough(k, i); }
    r := Some(prime);
  }

  lemma LastAtLeast(k: nat)
    ensures 65535 <= Last(k) < STUCK
  {
    RootSquare();
  }

  /** Some odd prime above `n` that the compiled search can recognise. */
  ghost predicate Reachable(n: nat) {
    exists p :: n < p < STUCK && Odd(p) && IsPrime(p)
  }

  lemma NotReachable(n: nat)
    requires NoneBetween(n, STUCK)
    ensures !Reachable(n)
  {}

  lemma StuckWitness()
    ensures !Reachable(0xFFFF_FFF8)
  {}

  lemma IsReachable(n: nat, p: nat)
    requires n < p < STUCK && Odd(p) && IsPrime(p)
    ensures Reachable(n)
  {}

  lemma Later(n: nat, k: nat)
    requires Odd(k) && !IsPrime(k) && NoneBetween(n, k)
    ensures Odd(k + 2) && NoneBetween(n, k + 2)
  {}

  lemma Fewer(n: nat, k: nat, j: nat)
    requires NoneBetween(n, k) && j <= k
    ensures NoneBetween(n, j)
  {}

  /** The first number tried depends on the lower word of the chain count only. */
  lemma LowerWord(n: nat)
    ensures var m := n % WORD; var k := if n % 2 == 0 then (n + 1) % WORD else (n + 2) % WORD;
      && Odd(k) && k < WORD && (k == 1 <==> m == 0 || m == WORD - 1)
      && (k != 1 ==> m < k < WORD && k >= 3 && Odd(k) && NoneBetween(m, k))
  {
    var m := n % WORD;
    WordParts(n);
    FirstOdd(m);
    hide IsPrime, NoneBetween;
  }

  lemma WordParts(n: nat)
    ensures n % 2 == n % WORD % 2
    ensures (n + 1) % WORD == if n % WORD == WORD - 1 then 0 else n % WORD + 1
    ensures (n + 2) % WORD == if n % WORD >= WORD - 2 then n % WORD + 2 - WORD else n % WORD + 2
  {
    DivSplit(n, 0x1_0000_0000);
    var q, m := n / 0x1_0000_0000, n % 0x1_0000_0000;
    if m == WORD - 1 { DivUnique(n + 1, 0x1_0000_0000, q + 1, 0); } else { DivUnique(n + 1, 0x1_0000_0000, q, m + 1); }
    if m >= WORD - 2 { DivUnique(n + 2, 0x1_0000_0000, q + 1, m + 2 - WORD); } else { DivUnique(n + 2, 0x1_0000_0000, q, m + 2); }
  }

  /**
    `mod_hash_iddata_gen` as compiled: a chain count is cut to its lower word `m`.  The search ends
    with the first odd prime above `m` exactly when one lies below `STUCK`, except that it returns
    one when `m` is zero or the largest word.  So the result is right exactly for a positive 32-bit
    count with such a prime above it.
   */
  method FirstPrime32(n: nat) returns (r: Option<nat>)
    requires n < 0x1_0000_0000_0000_0000
    ensures var m := n % WORD;
      if m == 0 || m == WORD - 1 then r == Some(1) else r.Some? <==> Reachable(m)
    ensures r.Some? && FirstOddPrime(r.value, n) <==> 0 < n < WORD - 1 && Reachable(n)
  {
    r := Search32(n);
    ModSmall(if n < WORD then n else 0, WORD);
    NotAbove(n);
    hide Reachable, FirstOddPrime;
  }

  lemma NotAbove(n: nat)
    ensures forall k: nat :: FirstOddPrime(k, n) ==> k > n && k != 1
    ensures n == WORD - 1 ==> !Reachable(n)
  {}

  method Search32(n: nat) returns (r: Option<nat>)
    requires n < 0x1_0000_0000_0000_0000
    ensures var m := n % WORD;
      && (m == 0 || m == WORD - 1 ==> r == Some(1))
      && (0 < m < WORD - 1 ==> (r.Some? <==> Reachable(m)) && (r.Some? ==> r.value < WORD && FirstOddPrime(r.value, m)))
  {
    hide IsPrime, NoneBetween, Odd, Reachable;
    var k := if n % 2 == 0 then (n + 1) % WORD else (n + 2) % WORD;
    LowerWord(n);
    ghost var m := n % WORD;
    var prime := Trial32(k);
    if k == 1 { return Some(1); }
    r := SearchFrom(k, prime, m);
  }

  /** The outer loop from `k` on. */
  method SearchFrom(k0: nat, prime0: Option<bool>, ghost n: nat) returns (r: Option<nat>)
    requires n < k0 < WORD && k0 >= 3 && Odd(k0) && NoneBetween(n, k0)
    requires (prime0 == None <==> k0 >= STUCK) && (prime0.Some? ==> (prime0.value <==> IsPrime(k0)))
    ensures (r.Some? <==> Reachable(n)) && (r.Some? ==> r.value < WORD && FirstOddPrime(r.value, n))
  {
    hide IsPrime, NoneBetween, Odd, Reachable;
    var k, prime := k0, prime0;
    while prime == Some(false)
      invariant n < k < WORD && k >= 3 && Odd(k) && NoneBetween(n, k)
      invariant prime == None <==> k >= STUCK
      invariant prime.Some? ==> (prime.value <==> IsPrime(k))
      decreases WORD - k
    {
      Later(n, k);
      ModSmall(k + 2, WORD);
      k := (k + 2) % WORD;
      prime := Trial32(k);
    }
    if prime == None {
      Fewer(n, k, STUCK);
      NotReachable(n);
      return None;
    }
    IsReachable(n, k);
    r := Some(k);
  }

  /** Trial division of a literal by `steps` odd numbers from `i` up. */
  predicate NoOddFrom(k: nat, i: nat, steps: nat)
    requires i > 0
    decreases steps
  {
    steps == 0 || (k % i != 0 && NoOddFrom(k, i + 2, steps - 1))
  }

  lemma {:induction false} RuledOut(k: nat, i: nat, steps: nat)
    requires Odd(i) && NoOddFrom(k, i, steps)
    ensures forall d :: i <= d < i + 2 * steps && Odd(d) ==> !Divides(d, k)
    decreases steps
  {
    if steps > 0 { RuledOut(k, i + 2, steps - 1); }
  }

  lemma MersennePrime()
    ensures IsPrime(8191) && Odd(8191)
  {
    assert NoOddFrom(8191, 75, 8);
    assert NoOddFrom(8191, 59, 16);
    assert NoOddFrom(8191, 43, 24);
    assert NoOddFrom(8191, 27, 32);
    assert NoOddFrom(8191, 11, 40);
    RuledOut(8191, 3, 44);
    TrialEnough(8191, 91);
  }

  /** So tables of up to 8190 chains are served. */
  lemma SmallTables(n: nat)
    requires n < 8191
    ensures Reachable(n)
  {
    MersennePrime();
    IsReachable(n, 8191);
  }
}

/** Sequence facts shared by the list-shaped parts of the model. */
module Seqs {

  predicate NoDup<T(==)>(s: seq<T>) {
    forall i, j :: 0 <= i < j < |s| ==> s[i] != s[j]
  }

  lemma {:induction false} FirstExists<T>(s: seq<T>, x: T)
    requires x in s
    ensures exists k :: FirstAt(s, x, k)
  {
    if s[0] == x {
      assert FirstAt(s, x, 0);
    } else {
      assert s == [s[0]] + s[1..];
      FirstExists(s[1..], x);
      var k :| FirstAt(s[1..], x, k);
      assert FirstAt(s, x, k + 1);
    }
  }

  ghost predicate FirstAt<T>(s: seq<T>, x: T, k: int) {
    0 <= k < |s| && s[k] == x && forall i :: 0 <= i < k ==> s[i] != x
  }

  /** Position of the first occurrence of `x`, or `|s|` when there is none. */
  ghost function Find<T>(s: seq<T>, x: T): (k: nat)
    ensures k <= |s|
    ensures x in s ==> FirstAt(s, x, k)
    ensures x in s <==> k < |s|
  {
    if x in s then FirstExists(s, x); var k :| FirstAt(s, x, k); k else |s|
  }

  function RemoveAt<T>(s: seq<T>, k: nat): (r: seq<T>)
    requires k < |s|
    ensures |r| == |s| - 1
  {
    s[..k] + s[k+1..]
  }

  /** The effect of `list_del` on a list that may hold `x`: unlink it wherever it stands. */
  ghost function Delete<T>(s: seq<T>, x: T): seq<T> {
    var k := Find(s, x);
    if k < |s| then RemoveAt(s, k) else s
  }

  /** `list_del` by search. */
  method Unlink<T(==)>(s: seq<T>, x: T) returns (r: seq<T>)
    ensures r == Delete(s, x)
  {
    var k := 0;
    while k < |s| && s[k] != x
      invariant 0 <= k <= |s|
      invariant forall i :: 0 <= i < k ==> s[i] != x
    {
      k := k + 1;
    }
    if k < |s| {
      assert Find(s, x) == k;
      r := s[..k] + s[k+1..];
    } else {
      r := s;
    }
  }

  lemma DeleteFacts<T>(s: seq<T>, x: T)
    requires NoDup(s)
    ensures NoDup(Delete(s, x))
    ensures forall y :: y in Delete(s, x) <==> y in s && y != x
    ensures |Delete(s, x)| == if x in s then |s| - 1 else |s|
  {
    var k := Find(s, x);
    if k < |s| {
      var r := Delete(s, x);
      forall y ensures y in r <==> y in s && y != x {
        if y in s && y != x {
          var i :| 0 <= i < |s| && s[i] == y;
          assert r[if i < k then i else i - 1] == y;
        }
      }
    }
  }

  lemma DeleteAbsent<T>(s: seq<T>, x: T)
    requires x !in s
    ensures Delete(s, x) == s
  {}

  lemma PrependFacts<T>(s: seq<T>, x: T)
    requires x !in s
    ensures Delete([x] + s, x) == s
    ensures NoDup(s) ==> NoDup([x] + s)
    ensures forall y :: y in [x] + s <==> y == x || y in s
  {
    var t := [x] + s;
    assert t[0] == x && t[1..] == s;
    assert FirstAt(t, x, 0) && Find(t, x) == 0;
    if NoDup(s) {
      forall i, j | 0 <= i < j < |t| ensures t[i] != t[j] {
        assert t[j] == s[j-1] && s[j-1] in s;
        if i > 0 { assert t[i] == s[i-1]; }
      }
    }
  }

  lemma AppendFacts<T>(s: seq<T>, x: T)
    requires x !in s
    ensures Delete(s + [x], x) == s
    ensures NoDup(s) ==> NoDup(s + [x])
    ensures forall y :: y in s + [x] <==> y == x || y in s
  {
    var t := s + [x];
    assert t[|s|] == x;
    assert forall i :: 0 <= i < |s| ==> t[i] == s[i];
    assert Find(t, x) == |s|;
  }

  /** Deleting from the first of two adjoining runs. */
  lemma DeleteInFirst<T>(a: seq<T>, b: seq<T>, x: T)
    requires x in a
    ensures Delete(a + b, x) == Delete(a, x) + b
  {
    var k := Find(a, x);
    var t := a + b;
    FindInFirst(a, b, x);
    assert t[..k] == a[..k] && t[k+1..] == a[k+1..] + b;
  }

  lemma FindInFirst<T>(a: seq<T>, b: seq<T>, x: T)
    requires x in a
    ensures Find(a + b, x) == Find(a, x) < |a|
  {
    var t := a + b;
    assert forall i :: 0 <= i < |a| ==> t[i] == a[i];
    assert t[Find(a, x)] == x;
  }

  lemma TailFacts<T>(s: seq<T>)
    requires NoDup(s) && s != []
    ensures NoDup(s[1..]) && s[0] !in s[1..]
    ensures forall x :: x in s <==> x == s[0] || x in s[1..]
    ensures Delete(s, s[0]) == s[1..]
  {
    assert s == [s[0]] + s[1..];
    assert Find(s, s[0]) == 0;
  }

  lemma SplitAt<T>(s: seq<T>, k: nat)
    requires k < |s|
    ensures s == s[..k] + [s[k]] + s[k+1..]
  {}

  /** A duplicate-free sequence has as many entries as its set of elements. */
  lemma {:induction false} NoDupCardinality<T>(s: seq<T>)
    requires NoDup(s)
    ensures |set x | x in s| == |s|
  {
    if s == [] {
      assert (set x | x in s) == {};
    } else {
      var t := s[..|s|-1];
      NoDupCardinality(t);
      assert s == t + [s[|s|-1]];
      assert (set x | x in s) == (set x | x in t) + {s[|s|-1]};
      assert s[|s|-1] !in t;
    }
  }

  lemma EndsIn<T>(s: seq<T>)
    ensures s != [] ==> s[0] in s && s[|s|-1] in s
  {}

  /** The last entry of two adjoining runs belongs to the last non-empty run. */
  lemma LastOfRuns<T>(a: seq<T>, b: seq<T>)
    requires a + b != []
    ensures if b != [] then (a + b)[|a + b|-1] in b else (a + b)[|a + b|-1] in a
  {
    if b == [] { assert (a + b)[|a + b|-1] == a[|a|-1]; } else { assert (a + b)[|a + b|-1] == b[|b|-1]; }
  }

  lemma CountTwo<T>(s: seq<T>, i: nat, j: nat)
    requires i < j < |s|
    ensures s[i] == s[j] ==> multiset(s)[s[i]] >= 2
  {
    assert s == s[..i] + [s[i]] + s[i+1..j] + [s[j]] + s[j+1..];
  }

  lemma SingleMeansNoDup<T>(s: seq<T>)
    requires forall x :: multiset(s)[x] <= 1
    ensures NoDup(s)
  {
    forall i, j | 0 <= i < j < |s| ensures s[i] != s[j] { CountTwo(s, i, j); }
  }

  lemma SubsetSize<T>(a: set<T>, b: set<T>)
    requires a <= b
    ensures |a| <= |b|
  {
    assert b == a + (b - a);
  }
}

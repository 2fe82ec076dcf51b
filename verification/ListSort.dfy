/** The insertion sort of `lib/list.c` on the sequence of items, and why it is a stable sort. */
module ListSort {
  import opened Seqs
  import opened ListCursor

  /** A client comparator: negative when the first item is smaller. */
  type Cmp = (nat, nat) -> int

  predicate Less(f: Cmp, x: nat, y: nat) { f(x, y) < 0 }

  /** Items that neither precedes. */
  predicate Same(f: Cmp, x: nat, y: nat) { !Less(f, x, y) && !Less(f, y, x) }

  /** What `list.h` asks of a comparator, in the form the sort relies on: a total preorder. */
  ghost predicate TotalPreorder(f: Cmp) {
    && (forall x, y :: Less(f, x, y) ==> !Less(f, y, x))
    && (forall x, y, z :: !Less(f, y, x) && !Less(f, z, y) ==> !Less(f, z, x))
  }

  /** The slot the inner loop finds: the first item the new one is smaller than. */
  function Place(s: seq<nat>, x: nat, f: Cmp): (k: nat)
    ensures k <= |s|
    ensures forall i :: 0 <= i < k ==> !Less(f, x, s[i])
    ensures k < |s| ==> Less(f, x, s[k])
  {
    if s == [] || Less(f, x, s[0]) then 0 else 1 + Place(s[1..], x, f)
  }

  /** One round of the outer loop: leave the item where it is, or move it to its place. */
  function Put(s: seq<nat>, x: nat, f: Cmp): seq<nat> {
    if s == [] || !Less(f, x, s[|s|-1]) then s + [x] else InsertAt(s, Place(s, x, f), x)
  }

  function Sort(s: seq<nat>, f: Cmp): (r: seq<nat>)
    ensures |r| == |s|
  {
    if s == [] then [] else Put(Sort(s[..|s|-1], f), s[|s|-1], f)
  }

  ghost predicate Ascends(s: seq<nat>, f: Cmp) {
    forall i, j :: 0 <= i < j < |s| ==> !Less(f, s[j], s[i])
  }

  /** The items that rank the same as `k`, in order. */
  function Class(s: seq<nat>, k: nat, f: Cmp): seq<nat> {
    if s == [] then [] else
      Class(s[..|s|-1], k, f) + (if Same(f, s[|s|-1], k) then [s[|s|-1]] else [])
  }

  // ---------------------------------------------------------------- sorted

  lemma PutAscends(s: seq<nat>, x: nat, f: Cmp)
    requires TotalPreorder(f) && Ascends(s, f)
    ensures Ascends(Put(s, x, f), f)
  {
    var t := Put(s, x, f);
    if s == [] || !Less(f, x, s[|s|-1]) {
      forall i, j | 0 <= i < j < |t| ensures !Less(f, t[j], t[i]) {
        if j == |s| && i < |s| - 1 { assert !Less(f, s[|s|-1], s[i]); }
      }
    } else {
      var k := Place(s, x, f);
      forall i, j | 0 <= i < j < |t| ensures !Less(f, t[j], t[i]) {
        if i == k { PutAbove(s, x, k, j - 1, f); }
      }
    }
  }

  lemma PutAbove(s: seq<nat>, x: nat, k: nat, j: nat, f: Cmp)
    requires TotalPreorder(f) && Ascends(s, f) && k <= j < |s| && Less(f, x, s[k])
    ensures !Less(f, s[j], x)
  {
    assert !Less(f, s[k], x);
    if k < j { assert !Less(f, s[j], s[k]); }
  }

  // ---------------------------------------------------------------- stable

  lemma {:induction false} ClassConcat(a: seq<nat>, b: seq<nat>, k: nat, f: Cmp)
    ensures Class(a + b, k, f) == Class(a, k, f) + Class(b, k, f)
  {
    if b == [] {
      assert a + b == a;
    } else {
      ClassConcat(a, b[..|b|-1], k, f);
      assert (a + b)[..|a + b|-1] == a + b[..|b|-1];
    }
  }

  lemma {:induction false} NoneOfClass(s: seq<nat>, k: nat, f: Cmp)
    requires forall i :: 0 <= i < |s| ==> !Same(f, s[i], k)
    ensures Class(s, k, f) == []
  {
    if s != [] { NoneOfClass(s[..|s|-1], k, f); }
  }

  /** Moving an item past strictly larger ones leaves every class as it was. */
  lemma PutClass(s: seq<nat>, x: nat, k: nat, f: Cmp)
    requires TotalPreorder(f) && Ascends(s, f)
    ensures Class(Put(s, x, f), k, f) == Class(s + [x], k, f)
  {
    hide TotalPreorder, Ascends, Class, Place;
    if s != [] && Less(f, x, s[|s|-1]) {
      var p := Place(s, x, f);
      assert p < |s|;
      if Same(f, x, k) {
        forall i | p <= i < |s| ensures !Same(f, s[i], k) { LargerThanClass(s, x, k, p, i, f); }
        NoneOfClass(s[p..], k, f);
      }
      assert s == s[..p] + s[p..];
      SwapClass(s[..p], s[p..], x, k, f);
    }
  }

  lemma SwapClass(a: seq<nat>, b: seq<nat>, x: nat, k: nat, f: Cmp)
    requires Same(f, x, k) ==> Class(b, k, f) == []
    ensures Class(a + [x] + b, k, f) == Class(a + b + [x], k, f)
  {
    ClassOne(x, k, f);
    hide Class;
    ClassConcat(a + [x], b, k, f);
    ClassConcat(a, [x], k, f);
    ClassConcat(a + b, [x], k, f);
    ClassConcat(a, b, k, f);
  }

  lemma ClassOne(x: nat, k: nat, f: Cmp)
    ensures Class([x], k, f) == if Same(f, x, k) then [x] else []
  {
    assert [x][..0] == [];
  }

  lemma Transitive(x: nat, y: nat, z: nat, f: Cmp)
    requires TotalPreorder(f)
    ensures !Less(f, y, x) && !Less(f, z, y) ==> !Less(f, z, x)
    ensures !Less(f, x, x)
  {
    assert Less(f, x, x) ==> !Less(f, x, x);
  }

  lemma LargerThanClass(s: seq<nat>, x: nat, k: nat, p: nat, j: nat, f: Cmp)
    requires TotalPreorder(f) && Ascends(s, f) && p <= j < |s| && Less(f, x, s[p]) && Same(f, x, k)
    ensures !Same(f, s[j], k)
  {
    if p < j { assert !Less(f, s[j], s[p]); }
    Transitive(s[j], k, x, f);
    Transitive(s[p], s[j], x, f);
  }

  /** `list_sort`: ascending, and each class of equal items keeps its order. */
  lemma {:induction false} SortStable(s: seq<nat>, k: nat, f: Cmp)
    requires TotalPreorder(f)
    ensures Ascends(Sort(s, f), f)
    ensures Class(Sort(s, f), k, f) == Class(s, k, f)
  {
    if s != [] {
      var (t, x) := (s[..|s|-1], s[|s|-1]);
      SortStable(t, k, f);
      PutAscends(Sort(t, f), x, f);
      PutClass(Sort(t, f), x, k, f);
      ClassConcat(Sort(t, f), [x], k, f);
      ClassConcat(t, [x], k, f);
      assert s == t + [x];
    }
  }

  lemma PutPermutes(s: seq<nat>, x: nat, f: Cmp)
    ensures multiset(Put(s, x, f)) == multiset(s + [x])
  {
    var p := Place(s, x, f);
    assert s == s[..p] + s[p..];
  }

  /** For any comparator at all, the items are the same ones. */
  lemma {:induction false} SortPermutes(s: seq<nat>, f: Cmp)
    ensures multiset(Sort(s, f)) == multiset(s)
  {
    if s != [] {
      SortPermutes(s[..|s|-1], f);
      PutPermutes(Sort(s[..|s|-1], f), s[|s|-1], f);
      assert s == s[..|s|-1] + [s[|s|-1]];
    }
  }

  // ---------------------------------------------------------------- unique

  lemma {:induction false} ClassMember(s: seq<nat>, k: nat, f: Cmp)
    ensures Class(s, k, f) != [] ==> exists i :: 0 <= i < |s| && Same(f, s[i], k)
  {
    if s != [] && !Same(f, s[|s|-1], k) { ClassMember(s[..|s|-1], k, f); }
  }

  /** The top of one list is not above the top of the other. */
  lemma TopBelow(t: seq<nat>, u: seq<nat>, f: Cmp)
    requires TotalPreorder(f) && Ascends(u, f) && t != []
    requires forall k :: Class(t, k, f) == Class(u, k, f)
    ensures u != [] && !Less(f, u[|u|-1], t[|t|-1])
  {
    var x := t[|t|-1];
    Transitive(x, x, x, f);
    assert Class(t, x, f) != [];
    ClassMember(u, x, f);
    var i :| 0 <= i < |u| && Same(f, u[i], x);
    if i < |u| - 1 { assert !Less(f, u[|u|-1], u[i]); }
  }

  /** The last items of two ascending lists with equal classes are the same item. */
  lemma LastAgrees(t: seq<nat>, u: seq<nat>, f: Cmp)
    requires TotalPreorder(f) && Ascends(t, f) && Ascends(u, f) && t != []
    requires forall k :: Class(t, k, f) == Class(u, k, f)
    ensures u != [] && t[|t|-1] == u[|u|-1]
  {
    hide TotalPreorder, Ascends;
    TopBelow(t, u, f);
    TopBelow(u, t, f);
    var (x, y) := (t[|t|-1], u[|u|-1]);
    Transitive(x, x, x, f);
    assert Same(f, y, x);
    assert Class(t, x, f) == Class(u, x, f);
    assert Class(t, x, f)[|Class(t, x, f)|-1] == x && Class(u, x, f)[|Class(u, x, f)|-1] == y;
  }

  lemma CancelSuffix(a: seq<nat>, b: seq<nat>, c: seq<nat>)
    requires a + c == b + c
    ensures a == b
  {
    assert |a + c| == |b + c|;
    assert a == (a + c)[..|a|] && b == (b + c)[..|b|];
  }

  /** Ascending order and class order leave only one possible result. */
  lemma {:induction false} StableSortUnique(t: seq<nat>, u: seq<nat>, f: Cmp)
    requires TotalPreorder(f) && Ascends(t, f) && Ascends(u, f)
    requires forall k :: Class(t, k, f) == Class(u, k, f)
    ensures t == u
    decreases |t|
  {
    if t == [] {
      if u != [] { LastAgrees(u, t, f); }
    } else {
      LastAgrees(t, u, f);
      var (t', u', x) := (t[..|t|-1], u[..|u|-1], t[|t|-1]);
      forall k ensures Class(t', k, f) == Class(u', k, f) {
        assert Class(t, k, f) == Class(u, k, f);
        CancelSuffix(Class(t', k, f), Class(u', k, f), if Same(f, x, k) then [x] else []);
      }
      StableSortUnique(t', u', f);
      assert t == t' + [x] && u == u' + [x];
    }
  }
}

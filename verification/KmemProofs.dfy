/** Every step of the slab allocator keeps its invariant, hence every run does. */
module KmemProofs {
  import opened Seqs
  import opened KmemState

  // ---------------------------------------------------------------- totals

  lemma {:induction false} TotalConcat(m: map<nat, Slab>, a: seq<nat>, b: seq<nat>, w: Measure)
    ensures Total(m, a + b, w) == Total(m, a, w) + Total(m, b, w)
  {
    if a == [] {
      assert a + b == b;
    } else {
      TotalConcat(m, a[1..], b, w);
      assert (a + b)[1..] == a[1..] + b;
    }
  }

  lemma {:induction false} TotalFrame(m: map<nat, Slab>, m': map<nat, Slab>, ids: seq<nat>, w: Measure)
    requires forall id :: id in ids ==> Share(m, id, w) == Share(m', id, w)
    ensures Total(m, ids, w) == Total(m', ids, w)
  {
    if ids != [] { TotalFrame(m, m', ids[1..], w); }
  }

  /** A slab's share of a total does not depend on where in the list it stands. */
  lemma TotalPull(m: map<nat, Slab>, ids: seq<nat>, id: nat, w: Measure)
    ensures Total(m, ids, w) == (if id in ids then Share(m, id, w) else 0) + Total(m, Delete(ids, id), w)
  {
    if id in ids {
      var k := Find(ids, id);
      TotalConcat(m, ids[..k], ids[k..], w);
      TotalConcat(m, ids[..k], ids[k+1..], w);
      assert ids == ids[..k] + ids[k..];
      assert ids[k..][1..] == ids[k+1..];
    }
  }

  /** When one slab changes and the lists are rearranged, the totals change by that slab's share. */
  lemma SumMove(s: Cache, s': Cache, id: nat, w: Measure)
    requires Linked(s) && Linked(s')
    requires id in s.slabs && id in s'.slabs
    requires forall i :: i != id ==> Share(s.slabs, i, w) == Share(s'.slabs, i, w)
    requires Delete(s.partial, id) == Delete(s'.partial, id)
    requires Delete(s.complete, id) == Delete(s'.complete, id)
    ensures Sum(s', w) == Sum(s, w) + Share(s'.slabs, id, w) - Share(s.slabs, id, w)
    ensures |s.partial| + |s.complete| == |s'.partial| + |s'.complete|
  {
    TotalPull(s.slabs, s.partial, id, w);
    TotalPull(s.slabs, s.complete, id, w);
    TotalPull(s'.slabs, s'.partial, id, w);
    TotalPull(s'.slabs, s'.complete, id, w);
    DeleteFacts(s.partial, id);
    DeleteFacts(s.complete, id);
    DeleteFacts(s'.partial, id);
    DeleteFacts(s'.complete, id);
    TotalFrame(s.slabs, s'.slabs, Delete(s.partial, id), w);
    TotalFrame(s.slabs, s'.slabs, Delete(s.complete, id), w);
  }

  /** The three totals at once. */
  lemma SumsMove(s: Cache, s': Cache, id: nat)
    requires Linked(s) && Linked(s')
    requires id in s.slabs && id in s'.slabs && s'.slabs == s.slabs[id := s'.slabs[id]]
    requires Delete(s.partial, id) == Delete(s'.partial, id)
    requires Delete(s.complete, id) == Delete(s'.complete, id)
    ensures forall w :: Sum(s', w) == Sum(s, w) + Share(s'.slabs, id, w) - Share(s.slabs, id, w)
    ensures |s.partial| + |s.complete| == |s'.partial| + |s'.complete|
  {
    forall w ensures Sum(s', w) == Sum(s, w) + Share(s'.slabs, id, w) - Share(s.slabs, id, w) {
      SumMove(s, s', id, w);
    }
    SumMove(s, s', id, Refs);
  }

  // ---------------------------------------------------------------- taking an object

  lemma {:induction false} MagUpdate(mags: seq<seq<Obj>>, c: nat, m: seq<Obj>, o: Obj)
    requires c < |mags|
    ensures MagCount(mags[c := m], o) == MagCount(mags, o) - multiset(mags[c])[o] + multiset(m)[o]
  {
    if c == 0 {
      assert mags[c := m][1..] == mags[1..];
    } else {
      MagUpdate(mags[1..], c - 1, m, o);
      assert mags[c := m][1..] == mags[1..][c - 1 := m];
    }
  }

  /** Taking moves one object from the free list to the magazine; every other count stays. */
  lemma TakePlaces(s: Cache, cpu: nat, o: Obj)
    requires HasFree(s) && cpu < |s.mags|
    ensures Places(Take(s, cpu), o) == Places(s, o)
  {
    var raw, x := TakeRaw(s, cpu), Obj(s.partial[0], s.slabs[s.partial[0]].free[0]);
    MagUpdate(s.mags, cpu, s.mags[cpu] + [x], o);
    PopFree(s.slabs, s.partial[0], o);
    assert Places(raw, o) == Places(s, o);
  }

  lemma PopFree(m: map<nat, Slab>, id: nat, o: Obj)
    requires id in m && m[id].free != []
    ensures var m' := m[id := Slab(m[id].objs, m[id].free[1..], m[id].ref + 1)];
      FreeCount(m', o) == FreeCount(m, o) - (if o == Obj(id, m[id].free[0]) then 1 else 0)
  {
    assert m[id].free == [m[id].free[0]] + m[id].free[1..];
  }

  lemma TakePlaced(s: Cache, cpu: nat)
    requires Placed(s) && HasFree(s) && cpu < |s.mags|
    ensures Placed(Take(s, cpu))
  {
    forall o ensures Places(Take(s, cpu), o) == if Live(Take(s, cpu), o) then 1 else 0 {
      TakePlaces(s, cpu, o);
    }
  }

  lemma TakeLinked(s: Cache, cpu: nat)
    requires Linked(s) && Sorted(s) && HasFree(s) && cpu < |s.mags|
    ensures var s' := Take(s, cpu);
      && Linked(s') && Sorted(s')
      && Delete(s.partial, s.partial[0]) == Delete(s'.partial, s.partial[0])
      && Delete(s.complete, s.partial[0]) == Delete(s'.complete, s.partial[0])
  {
    hide Delete, NoDup, CountTake;
    var id := s.partial[0];
    TailFacts(s.partial);
    assert id in s.partial;
    DeleteAbsent(s.partial[1..], id);
    DeleteAbsent(s.complete, id);
    PrependFacts(s.complete, id);
  }

  /** The two runs the partial list consists of. */
  lemma Runs(s: Cache) returns (used: seq<nat>, empty: seq<nat>)
    requires Ordered(s)
    ensures s.partial == used + empty
    ensures forall id :: id in used ==> !Empty(s.slabs, id)
    ensures forall id :: id in empty ==> Empty(s.slabs, id)
  {
    var k :| CutAt(s.slabs, s.partial, k);
    used, empty := s.partial[..k], s.partial[k..];
  }

  lemma FromRuns(s: Cache, used: seq<nat>, empty: seq<nat>)
    requires s.partial == used + empty
    requires forall id :: id in used ==> !Empty(s.slabs, id)
    requires forall id :: id in empty ==> Empty(s.slabs, id)
    ensures Ordered(s)
  {
    assert s.partial[..|used|] == used && s.partial[|used|..] == empty;
    assert CutAt(s.slabs, s.partial, |used|);
  }

  /** Taking the head off two adjoining runs leaves two adjoining runs. */
  lemma BehindHead(used: seq<nat>, empty: seq<nat>) returns (u: seq<nat>, e: seq<nat>)
    requires used + empty != [] && NoDup(used + empty)
    ensures used + empty == [(used + empty)[0]] + u + e && (used + empty)[1..] == u + e
    ensures forall id :: id in u ==> id in used
    ensures forall id :: id in e ==> id in empty
    ensures (used + empty)[0] !in u && (used + empty)[0] !in e
  {
    TailFacts(used + empty);
    if used == [] {
      u, e := [], empty[1..];
      assert used + empty == empty;
    } else {
      u, e := used[1..], empty;
      assert used + empty == [used[0]] + (u + e);
    }
    hide NoDup, Delete;
    assert (used + empty)[1..] == u + e;
  }

  lemma TakeOrdered(s: Cache, cpu: nat)
    requires Linked(s) && Ordered(s) && HasFree(s) && cpu < |s.mags|
    ensures Ordered(Take(s, cpu))
  {
    var s' := Take(s, cpu);
    var used, empty := Runs(s);
    var u, e := BehindHead(used, empty);
    if s'.partial == s.partial {
      FromRuns(s', [s.partial[0]] + u, e);
    } else {
      FromRuns(s', u, e);
    }
  }

  lemma TakeCounted(s: Cache, cpu: nat)
    requires Linked(s) && Sorted(s) && Counted(s) && HasFree(s) && cpu < |s.mags|
    ensures Counted(Take(s, cpu))
  {
    hide Linked, Sorted, Delete;
    TakeLinked(s, cpu);
    SumsMove(s, Take(s, cpu), s.partial[0]);
  }

  lemma TakeInv(s: Cache, cpu: nat)
    requires Inv(s) && HasFree(s) && cpu < |s.mags|
    ensures Inv(Take(s, cpu))
  {
    TakePlaced(s, cpu);
    TakeLinked(s, cpu);
    TakeOrdered(s, cpu);
    TakeCounted(s, cpu);
  }

  lemma {:induction false} RefillInv(s: Cache, cpu: nat, k: nat)
    requires Inv(s) && cpu < |s.mags|
    ensures Inv(Refill(s, cpu, k))
    decreases k
  {
    if k > 0 && HasFree(s) {
      TakeInv(s, cpu);
      RefillInv(Take(s, cpu), cpu, k - 1);
    }
  }

  // ---------------------------------------------------------------- giving an object back

  /** The flushed object leaves the magazine and joins its slab's free list. */
  lemma FlushPlaces(s: Cache, cpu: nat, o: Obj)
    requires CanFlush(s, cpu)
    ensures Places(FlushOne(s, cpu), o) == Places(s, o)
  {
    var s', x := FlushOne(s, cpu), s.mags[cpu][0];
    assert s.mags[cpu] == [x] + s'.mags[cpu];
    MagUpdate(s.mags, cpu, s'.mags[cpu], o);
  }

  lemma FlushPlaced(s: Cache, cpu: nat)
    requires Placed(s) && CanFlush(s, cpu)
    ensures Placed(FlushOne(s, cpu))
  {
    forall o ensures Places(FlushOne(s, cpu), o) == if Live(FlushOne(s, cpu), o) then 1 else 0 {
      FlushPlaces(s, cpu, o);
    }
  }

  lemma ShrinkPartialFacts(partial: seq<nat>, id: nat, sl: Slab)
    requires NoDup(partial)
    ensures var p := ShrinkPartial(partial, id, sl);
      && NoDup(p)
      && Delete(p, id) == Delete(partial, id)
      && (forall i :: i != id ==> (i in p <==> i in partial))
      && (id in p <==> id in partial || sl.ref == 0 || sl.ref == sl.objs - 1)
      && p == (if sl.ref == 0 then Delete(partial, id) + [id]
               else if sl.ref == sl.objs - 1 then [id] + Delete(partial, id)
               else partial)
  {
    DeleteFacts(partial, id);
    PrependFacts(Delete(partial, id), id);
    AppendFacts(Delete(partial, id), id);
  }

  lemma ShrinkCompleteFacts(complete: seq<nat>, id: nat, sl: Slab)
    requires NoDup(complete)
    requires id in complete ==> sl.ref == sl.objs - 1
    ensures var c := ShrinkComplete(complete, id, sl);
      && c == Delete(complete, id) && NoDup(c)
      && Delete(c, id) == c
      && (forall i :: i in c <==> i in complete && i != id)
  {
    DeleteFacts(complete, id);
    DeleteAbsent(Delete(complete, id), id);
    if id !in complete { DeleteAbsent(complete, id); }
  }

  lemma ShrinkLinked(s: Cache, o: Obj)
    requires Linked(s) && Sorted(s) && o.slab in s.slabs && 0 < s.slabs[o.slab].ref <= s.slabs[o.slab].objs
    ensures var s' := Shrink(s, o);
      && Linked(s') && Sorted(s')
      && Delete(s.partial, o.slab) == Delete(s'.partial, o.slab)
      && Delete(s.complete, o.slab) == Delete(s'.complete, o.slab)
  {
    hide Linked, Sorted, Delete, ShrinkPartial, ShrinkComplete, CountShrink;
    LinkedFacts(s);
    var id, sl := o.slab, Shrink(s, o).slabs[o.slab];
    OnComplete(s, id);
    ShrinkPartialFacts(s.partial, id, sl);
    ShrinkCompleteFacts(s.complete, id, sl);
    ShrinkLinks(s, o);
    ShrinkSorts(s, o);
    DeleteFacts(s.complete, id);
    DeleteAbsent(Delete(s.complete, id), id);
  }

  lemma LinkedFacts(s: Cache)
    requires Linked(s)
    ensures NoDup(s.partial) && NoDup(s.complete)
  {}

  lemma OnComplete(s: Cache, id: nat)
    requires Linked(s) && Sorted(s) && id in s.slabs
    ensures id in s.complete <==> s.slabs[id].ref == s.slabs[id].objs
    ensures id in s.partial <==> id !in s.complete
  {}

  /** The two lists after a shrink hold every slab once. */
  lemma ShrinkLinks(s: Cache, o: Obj)
    requires Linked(s) && Sorted(s) && o.slab in s.slabs && 0 < s.slabs[o.slab].ref <= s.slabs[o.slab].objs
    ensures Linked(Shrink(s, o))
  {
    hide Sorted, Delete, NoDup, ShrinkPartial, ShrinkComplete, CountShrink;
    var id, s' := o.slab, Shrink(s, o);
    OnComplete(s, id);
    ShrinkPartialFacts(s.partial, id, s'.slabs[id]);
    ShrinkCompleteFacts(s.complete, id, s'.slabs[id]);
  }

  lemma ShrinkSorts(s: Cache, o: Obj)
    requires Linked(s) && Sorted(s) && o.slab in s.slabs && 0 < s.slabs[o.slab].ref <= s.slabs[o.slab].objs
    ensures Sorted(Shrink(s, o))
  {
    hide Linked, Delete, NoDup, ShrinkPartial, ShrinkComplete, CountShrink;
    LinkedFacts(s);
    var id, s' := o.slab, Shrink(s, o);
    OnComplete(s, id);
    ShrinkCompleteFacts(s.complete, id, s'.slabs[id]);
  }

  lemma ShrinkRuns(used: seq<nat>, empty: seq<nat>, id: nat, sl: Slab) returns (u: seq<nat>, e: seq<nat>)
    requires NoDup(used + empty) && id !in empty
    ensures ShrinkPartial(used + empty, id, sl) == u + e
    ensures forall i :: i in u ==> i in used || i == id
    ensures forall i :: i in e ==> i in empty || i == id
    ensures id in u ==> sl.ref > 0
    ensures id in e ==> sl.ref == 0
  {
    hide ShrinkPartial, Delete, NoDup;
    ShrinkPartialFacts(used + empty, id, sl);
    ShrinkSplit(used, empty, id);
    var used' := Delete(used, id);
    if sl.ref == 0 {
      u, e := used', empty + [id];
    } else if sl.ref == sl.objs - 1 {
      u, e := [id] + used', empty;
    } else {
      u, e := used, empty;
    }
  }

  lemma ShrinkOrdered(s: Cache, o: Obj)
    requires Linked(s) && Ordered(s) && o.slab in s.slabs && 0 < s.slabs[o.slab].ref
    ensures Ordered(Shrink(s, o))
  {
    var s', id := Shrink(s, o), o.slab;
    var used, empty := Runs(s);
    var u, e := ShrinkRuns(used, empty, id, s'.slabs[id]);
    FromRuns(s', u, e);
  }

  lemma ShrinkSplit(used: seq<nat>, empty: seq<nat>, id: nat)
    requires NoDup(used + empty) && id !in empty
    ensures Delete(used + empty, id) == Delete(used, id) + empty
    ensures forall i :: i in Delete(used, id) ==> i in used
    ensures id !in Delete(used, id)
  {
    assert NoDup(used) by { assert forall i :: 0 <= i < |used| ==> used[i] == (used + empty)[i]; }
    DeleteFacts(used, id);
    if id in used { DeleteInFirst(used, empty, id); } else { DeleteAbsent(used, id); DeleteAbsent(used + empty, id); }
  }

  lemma FlushInv(s: Cache, cpu: nat)
    requires Inv(s) && CanFlush(s, cpu)
    ensures Inv(FlushOne(s, cpu))
  {
    FlushPlaced(s, cpu);
    var t, o := DropFirst(s, cpu), s.mags[cpu][0];
    assert o in s.mags[cpu] && SlabOk(s.slabs[o.slab]);
    ShrinkLinked(t, o);
    ShrinkOrdered(t, o);
    SumsMove(t, Shrink(t, o), o.slab);
  }

  lemma {:induction false} FlushAllInv(s: Cache, cpu: nat, k: nat)
    requires Inv(s) && cpu < |s.mags|
    ensures Inv(Flush(s, cpu, k))
    decreases k
  {
    hide Inv, FlushOne, CanFlush;
    if k > 0 && CanFlush(s, cpu) {
      FlushInv(s, cpu);
      FlushKeepsMags(s, cpu);
      FlushAllInv(FlushOne(s, cpu), cpu, k - 1);
    }
  }

  lemma FlushKeepsMags(s: Cache, cpu: nat)
    requires CanFlush(s, cpu)
    ensures |FlushOne(s, cpu).mags| == |s.mags|
  {
    hide ShrinkPartial, ShrinkComplete, CountShrink;
  }

  // ---------------------------------------------------------------- magazine and client

  lemma PopInv(s: Cache, cpu: nat)
    requires Inv(s) && cpu < |s.mags| && s.mags[cpu] != []
    ensures Inv(Pop(s, cpu))
  {
    var s', m := Pop(s, cpu), s.mags[cpu];
    assert m == m[..|m|-1] + [m[|m|-1]];
    forall o ensures Places(s', o) == if Live(s', o) then 1 else 0 {
      MagUpdate(s.mags, cpu, s'.mags[cpu], o);
      assert Places(s, o) == if Live(s, o) then 1 else 0;
    }
  }

  lemma PushInv(s: Cache, cpu: nat, x: Obj)
    requires Inv(s) && cpu < |s.mags| && x in s.held
    ensures Inv(Push(s, cpu, x))
  {
    var s' := Push(s, cpu, x);
    forall o ensures Places(s', o) == if Live(s', o) then 1 else 0 {
      MagUpdate(s.mags, cpu, s'.mags[cpu], o);
      assert Places(s, o) == if Live(s, o) then 1 else 0;
    }
  }

  // ---------------------------------------------------------------- slabs come and go

  lemma {:induction false} FreshCount(n: nat, i: nat)
    ensures multiset(seq(n, k requires 0 <= k => k))[i] == if i < n then 1 else 0
  {
    if n > 0 {
      FreshCount(n - 1, i);
      var f: seq<nat>, g: seq<nat> := seq(n, k requires 0 <= k => k), seq(n - 1, k requires 0 <= k => k);
      assert f == g + [n - 1];
    }
  }

  lemma GrowPlaced(s: Cache, id: nat, objs: nat)
    requires Placed(s) && id !in s.slabs && objs > 0
    ensures Placed(Grow(s, id, objs))
  {
    var s' := Grow(s, id, objs);
    forall o ensures Places(s', o) == if Live(s', o) then 1 else 0 {
      FreshCount(objs, o.idx);
      assert Places(s, o) == if Live(s, o) then 1 else 0;
    }
  }

  lemma GrowLinked(s: Cache, id: nat, objs: nat)
    requires Linked(s) && Sorted(s) && id !in s.slabs && objs > 0
    ensures Linked(Grow(s, id, objs)) && Sorted(Grow(s, id, objs))
  {
    AppendFacts(s.partial, id);
    hide NoDup, Delete;
  }

  lemma GrowOrdered(s: Cache, id: nat, objs: nat)
    requires Linked(s) && Ordered(s) && id !in s.slabs && objs > 0
    ensures Ordered(Grow(s, id, objs))
  {
    var s' := Grow(s, id, objs);
    var used, empty := Runs(s);
    hide NoDup, InRuns;
    assert s'.partial == used + (empty + [id]);
    assert Empty(s'.slabs, id);
    FromRuns(s', used, empty + [id]);
  }

  lemma GrowListed(s: Cache, id: nat, objs: nat)
    requires Listed(s) && id !in s.slabs && objs > 0
    ensures Listed(Grow(s, id, objs))
  {
    hide Linked, Sorted, Ordered;
    GrowLinked(s, id, objs);
    GrowOrdered(s, id, objs);
  }

  lemma GrowSum(s: Cache, id: nat, objs: nat, w: Measure)
    requires Linked(s) && id !in s.slabs
    ensures Sum(Grow(s, id, objs), w) == Sum(s, w) + Share(Grow(s, id, objs).slabs, id, w)
  {
    var s' := Grow(s, id, objs);
    TotalConcat(s'.slabs, s.partial, [id], w);
    TotalFrame(s.slabs, s'.slabs, s.partial, w);
    TotalFrame(s.slabs, s'.slabs, s.complete, w);
  }

  lemma GrowInv(s: Cache, id: nat, objs: nat)
    requires Inv(s) && id !in s.slabs && objs > 0
    ensures Inv(Grow(s, id, objs))
  {
    GrowPlaced(s, id, objs);
    GrowListed(s, id, objs);
    GrowSum(s, id, objs, Used);
    GrowSum(s, id, objs, Refs);
    GrowSum(s, id, objs, Objs);
  }

  lemma FreeLastPlaced(s: Cache)
    requires Placed(s) && LastIsEmpty(s)
    ensures Placed(FreeLast(s))
  {
    var s', id := FreeLast(s), s.partial[|s.partial|-1];
    forall o ensures Places(s', o) == if Live(s', o) then 1 else 0 {
      assert Places(s, o) == if Live(s, o) then 1 else 0;
      if o.slab == id && Live(s, o) { EmptySlabHasAll(s, o); }
    }
  }

  /** The free indices of a slab, as a set: distinct and in range. */
  lemma FreeSet(s: Cache, id: nat) returns (have: set<nat>)
    requires Placed(s) && id in s.slabs
    ensures have == set i | i in s.slabs[id].free
    ensures |have| == |s.slabs[id].free| && have <= Upto(s.slabs[id].objs)
  {
    var f := s.slabs[id].free;
    have := set i | i in f;
    UptoFacts(s.slabs[id].objs);
    forall i | i in f ensures i in Upto(s.slabs[id].objs) {
      var o := Obj(id, i);
      assert i in multiset(f);
      assert Places(s, o) == if Live(s, o) then 1 else 0;
    }
    forall i ensures multiset(f)[i] <= 1 { assert Places(s, Obj(id, i)) <= 1; }
    SingleMeansNoDup(f);
    NoDupCardinality(f);
  }

  /** A slab with no object taken has every object on its free list. */
  lemma EmptySlabHasAll(s: Cache, o: Obj)
    requires Placed(s) && Live(s, o) && s.slabs[o.slab].ref == 0
    ensures FreeCount(s.slabs, o) > 0
  {
    var n := s.slabs[o.slab].objs;
    var have := FreeSet(s, o.slab);
    UptoFacts(n);
    assert |Upto(n) - have| == |Upto(n)| - |have|;
    assert o.idx in Upto(n) && o.idx !in Upto(n) - have;
    assert o.idx in s.slabs[o.slab].free;
  }

  /** A slab whose object is elsewhere has a positive count. */
  lemma TakenMeansReferenced(s: Cache, o: Obj)
    requires Placed(s) && Live(s, o) && FreeCount(s.slabs, o) == 0
    ensures s.slabs[o.slab].ref > 0
  {
    if s.slabs[o.slab].ref == 0 { EmptySlabHasAll(s, o); }
  }

  function Upto(n: nat): set<nat> {
    if n == 0 then {} else Upto(n - 1) + {n - 1}
  }

  lemma {:induction false} UptoFacts(n: nat)
    ensures |Upto(n)| == n
    ensures forall i: nat :: i in Upto(n) <==> i < n
  {
    if n > 0 { UptoFacts(n - 1); }
  }

  lemma FreeLastSum(s: Cache, w: Measure)
    requires Linked(s) && LastIsEmpty(s)
    ensures Sum(FreeLast(s), w) == Sum(s, w) - Share(s.slabs, s.partial[|s.partial|-1], w)
    ensures Linked(FreeLast(s))
  {
    var s', p := FreeLast(s), s.partial[..|s.partial|-1];
    var id := s.partial[|s.partial|-1];
    assert s.partial == p + [id];
    assert id in s.partial && id !in p;
    TotalConcat(s.slabs, p, [id], w);
    TotalFrame(s.slabs, s'.slabs, p, w);
    TotalFrame(s.slabs, s'.slabs, s.complete, w);
  }

  lemma FreeLastInv(s: Cache)
    requires Inv(s) && LastIsEmpty(s)
    ensures Inv(FreeLast(s))
  {
    FreeLastPlaced(s);
    FreeLastOrdered(s);
    FreeLastSum(s, Used);
    FreeLastSum(s, Refs);
    FreeLastSum(s, Objs);
  }

  lemma FreeLastOrdered(s: Cache)
    requires Linked(s) && Ordered(s) && LastIsEmpty(s)
    ensures Ordered(FreeLast(s))
  {
    var used, empty := Runs(s);
    var id, n := s.partial[|s.partial|-1], |empty| - 1;
    LastOfRuns(used, empty);
    assert s.partial[..|s.partial|-1] == used + empty[..n];
    assert id !in s.partial[..|s.partial|-1];
    assert id !in empty[..n];
    FromRuns(FreeLast(s), used, empty[..n]);
  }

  lemma {:induction false} ReclaimInv(s: Cache)
    requires Inv(s)
    ensures Inv(Reclaim(s))
    ensures Reclaim(s).mags == s.mags && Reclaim(s).held == s.held && Reclaim(s).emergency == s.emergency
    decreases |s.partial|
  {
    if LastIsEmpty(s) {
      FreeLastInv(s);
      ReclaimInv(FreeLast(s));
    }
  }

  /** Placement and list order do not depend on the emergency tree or the counters. */
  lemma PlacedFrame(s: Cache, t: Cache)
    requires Placed(s)
    requires t.slabs == s.slabs && t.mags == s.mags && t.held == s.held
    ensures Placed(t)
  {
    forall o ensures Places(t, o) == if Live(t, o) then 1 else 0 {
      assert Places(s, o) == if Live(s, o) then 1 else 0;
    }
  }

  lemma EmergencyInv(s: Cache, a: nat)
    requires Inv(s)
    ensures Inv(EmergencyAlloc(s, a)) && Inv(EmergencyFree(s, a))
  {
    hide Placed, Linked, Sorted, Ordered;
    PlacedFrame(s, EmergencyAlloc(s, a));
    PlacedFrame(s, EmergencyFree(s, a));
    ListedFrame(s, EmergencyAlloc(s, a));
    ListedFrame(s, EmergencyFree(s, a));
  }

  lemma ListedFrame(s: Cache, t: Cache)
    requires Listed(s) && t.slabs == s.slabs && t.partial == s.partial && t.complete == s.complete
    ensures Listed(t)
  {}
}

/** Where every object goes at every step of every run, stated on magazines, free lists and history alone. */
module KmemMoves {
  import opened Seqs
  import opened KmemState
  import opened KmemProofs
  import opened KmemRuns
  import opened KmemAlloc

  function Least(a: int, b: int): int { if a < b then a else b }

  /** Every magazine but that of `cpu` is untouched. */
  ghost predicate OnlyMag(s: Cache, s': Cache, cpu: nat)
    requires cpu < |s.mags|
  {
    |s'.mags| == |s.mags| && forall c :: 0 <= c < |s.mags| && c != cpu ==> s'.mags[c] == s.mags[c]
  }

  // ---------------------------------------------------------------- magazines

  /** A refill appends to the magazine as many objects as are free, up to its demand. */
  lemma {:induction false} RefillAppends(s: Cache, cpu: nat, k: nat)
    requires cpu < |s.mags|
    ensures var r := Refill(s, cpu, k);
      s.mags[cpu] <= r.mags[cpu] && OnlyMag(s, r, cpu) && r.held == s.held && r.emergency == s.emergency
      && r.slabs.Keys == s.slabs.Keys
    decreases k
  {
    if k > 0 && HasFree(s) {
      TakeAppends(s, cpu);
      hide Take, HasFree;
      RefillAppends(Take(s, cpu), cpu, k - 1);
    }
  }

  lemma TakeAppends(s: Cache, cpu: nat)
    requires HasFree(s) && cpu < |s.mags|
    ensures var r := Take(s, cpu);
      s.mags[cpu] <= r.mags[cpu] && OnlyMag(s, r, cpu) && r.held == s.held && r.emergency == s.emergency
      && r.slabs.Keys == s.slabs.Keys
  {}

  /** A flush drops the oldest objects of the magazine and keeps the newest. */
  lemma {:induction false} FlushDrops(cfg: Config, s: Cache, cpu: nat, k: nat)
    requires Safe(cfg, s) && cpu < |s.mags|
    ensures var r := Flush(s, cpu, k);
      r.mags[cpu] == s.mags[cpu][Least(k, |s.mags[cpu]|)..] && OnlyMag(s, r, cpu)
      && r.held == s.held && r.emergency == s.emergency && r.slabs.Keys == s.slabs.Keys
    decreases k
  {
    hide Safe;
    if k > 0 && s.mags[cpu] != [] {
      FlushOneSafe(cfg, s, cpu);
      OneDropped(s, cpu);
      hide FlushOne, CanFlush;
      FlushDrops(cfg, FlushOne(s, cpu), cpu, k - 1);
    }
  }

  lemma OneDropped(s: Cache, cpu: nat)
    requires CanFlush(s, cpu)
    ensures var r := FlushOne(s, cpu);
      r.mags[cpu] == s.mags[cpu][1..] && OnlyMag(s, r, cpu) && r.held == s.held && r.emergency == s.emergency
      && r.slabs.Keys == s.slabs.Keys
  {
    hide ShrinkPartial, ShrinkComplete;
  }

  /** Magazine and client hands after a step, and the emergency objects and slabs that exist. */
  ghost predicate Moved(s: Cache, st: Step, s': Cache) {
    && |s'.mags| == |s.mags|
    && (forall a :: a in s'.emergency <==> st == DoEmergencyAlloc(a) || (a in s.emergency && st != DoEmergencyFree(a)))
    && (forall id :: id in s'.slabs <==>
          st == DoGrow(id) || (id in s.slabs && !(st.DoReclaim? && s.slabs[id].ref == 0)))
    && match st {
         case DoPop(cpu) => cpu < |s.mags| && OnlyMag(s, s', cpu) && exists o ::
           s.mags[cpu] == s'.mags[cpu] + [o] && s'.held == s.held + {o}
         case DoPush(cpu, o) => cpu < |s.mags| && OnlyMag(s, s', cpu)
           && s'.mags[cpu] == s.mags[cpu] + [o] && s'.held == s.held - {o}
         case DoRefill(cpu, k) => cpu < |s.mags| && OnlyMag(s, s', cpu) && s'.held == s.held
           && s.mags[cpu] <= s'.mags[cpu] && |s'.mags[cpu]| == |s.mags[cpu]| + Least(k, Spare(s))
         case DoFlush(cpu, k) => cpu < |s.mags| && OnlyMag(s, s', cpu) && s'.held == s.held
           && s'.mags[cpu] == s.mags[cpu][Least(k, |s.mags[cpu]|)..]
         case _ => s'.mags == s.mags && s'.held == s.held
       }
  }

  /** Every step of every run moves exactly the objects it names. */
  lemma StepMoves(cfg: Config, cpus: nat, trace: seq<Cache>, steps: seq<Step>, i: nat)
    requires Run(cfg, cpus, trace, steps) && i < |steps|
    ensures Moved(trace[i], steps[i], trace[i+1])
  {
    hide Moved, Safe, Apply, Enabled, Init;
    RunSafe(cfg, cpus, trace, steps, i);
    MoveIs(cfg, trace[i], steps[i]);
  }

  lemma MoveIs(cfg: Config, s: Cache, st: Step)
    requires Safe(cfg, s) && Enabled(cfg, s, st)
    ensures Moved(s, st, Apply(cfg, s, st))
  {
    hide Inv, Balanced, Bounded, Refill, Flush, Reclaim, Spare;
    match st
    case DoRefill(cpu, k) => RefillAppends(s, cpu, k); RefillGets(s, cpu, k);
    case DoFlush(cpu, k) => FlushDrops(cfg, s, cpu, k);
    case DoReclaim => ReclaimComplete(s); ReclaimBalanced(s); ReclaimEmergency(s);
    case DoPop(cpu) => PopMoves(s, cpu);
    case _ =>
  }

  lemma PopMoves(s: Cache, cpu: nat)
    requires cpu < |s.mags| && s.mags[cpu] != []
    ensures Moved(s, DoPop(cpu), Pop(s, cpu))
  {
    var m := s.mags[cpu];
    assert m == m[..|m|-1] + [m[|m|-1]];
  }

  lemma {:induction false} ReclaimEmergency(s: Cache)
    ensures Reclaim(s).emergency == s.emergency
    decreases |s.partial|
  {
    if LastIsEmpty(s) { ReclaimEmergency(FreeLast(s)); }
  }

  /** What is freed last is allocated first. */
  lemma PushThenPop(s: Cache, cpu: nat, o: Obj)
    requires cpu < |s.mags| && o in s.held
    ensures Pop(Push(s, cpu, o), cpu) == s
  {
    var t := Push(s, cpu, o);
    assert t.mags[cpu][..|t.mags[cpu]|-1] == s.mags[cpu];
    assert Pop(t, cpu).mags == s.mags;
  }

  // ---------------------------------------------------------------- slabs

  /** A fresh slab has every object free, in address order, and stands last. */
  lemma GrowsInOrder(cfg: Config, cpus: nat, trace: seq<Cache>, steps: seq<Step>, i: nat)
    requires Run(cfg, cpus, trace, steps) && i < |steps| && steps[i].DoGrow?
    ensures var (s, s', id) := (trace[i], trace[i+1], steps[i].id);
      && id in s'.slabs && s'.slabs[id].ref == 0 && |s'.slabs[id].free| == cfg.slabObjs
      && (forall k :: 0 <= k < cfg.slabObjs ==> s'.slabs[id].free[k] == k)
      && s'.partial == s.partial + [id] && s'.complete == s.complete
  {}

  /** A refill of one takes the first free object of the first partial slab. */
  lemma TakesFirst(s: Cache, cpu: nat)
    requires Inv(s) && cpu < |s.mags| && s.partial != []
    ensures var (r, id) := (Refill(s, cpu, 1), s.partial[0]);
      && id in s.slabs && id in r.slabs && s.slabs[id].free != []
      && r.mags[cpu] == s.mags[cpu] + [Obj(id, s.slabs[id].free[0])]
      && r.slabs[id] == Slab(s.slabs[id].objs, s.slabs[id].free[1..], s.slabs[id].ref + 1)
      && (forall x :: x != id && x in s.slabs ==> x in r.slabs && r.slabs[x] == s.slabs[x])
      && (s.slabs[id].ref + 1 < s.slabs[id].objs ==> r.partial == s.partial && r.complete == s.complete)
      && (s.slabs[id].ref + 1 == s.slabs[id].objs ==> r.partial == s.partial[1..] && r.complete == [id] + s.complete)
  {
    SpareFacts(s);
    assert SlabOk(s.slabs[s.partial[0]]);
    hide Inv;
    RefillOne(s, cpu);
    hide Refill;
  }

  /** `q` is `p` with `id` last and the others in their order. */
  ghost predicate ToTheEnd(p: seq<nat>, id: nat, q: seq<nat>) {
    if id in p then exists k :: 0 <= k < |p| && p[k] == id && q == p[..k] + p[k+1..] + [id] else q == p + [id]
  }

  /**
    A flush of one puts the oldest object of the magazine on top of its slab's free list.  The slab
    moves to the end of the partial list when it empties, to its head when it was full, and
    otherwise stays where it is.
   */
  lemma FlushesOnTop(cfg: Config, s: Cache, cpu: nat)
    requires Safe(cfg, s) && cpu < |s.mags| && s.mags[cpu] != []
    ensures var (r, o) := (Flush(s, cpu, 1), s.mags[cpu][0]); var id := o.slab;
      && id in s.slabs && id in r.slabs && s.slabs[id].ref > 0
      && r.slabs[id] == Slab(s.slabs[id].objs, [o.idx] + s.slabs[id].free, s.slabs[id].ref - 1)
      && (forall x :: x != id && x in s.slabs ==> x in r.slabs && r.slabs[x] == s.slabs[x])
      && (s.slabs[id].ref == 1 ==> ToTheEnd(s.partial, id, r.partial))
      && (1 < s.slabs[id].ref == s.slabs[id].objs ==> r.partial == [id] + s.partial)
      && (1 < s.slabs[id].ref < s.slabs[id].objs ==> r.partial == s.partial)
  {
    FlushOneSafe(cfg, s, cpu);
    var id := s.mags[cpu][0].slab;
    FlushOnce(s, cpu);
    ShrinkPlace(s, id);
    hide Safe, Flush, CanFlush;
  }

  lemma FlushOnce(s: Cache, cpu: nat)
    requires CanFlush(s, cpu)
    ensures Flush(s, cpu, 1) == FlushOne(s, cpu)
  {
    hide ShrinkPartial, ShrinkComplete;
    assert Flush(FlushOne(s, cpu), cpu, 0) == FlushOne(s, cpu);
  }

  lemma ShrinkPlace(s: Cache, id: nat)
    requires Inv(s) && id in s.slabs && s.slabs[id].ref > 0
    ensures var p := ShrinkPartial(s.partial, id, Slab(s.slabs[id].objs, [], s.slabs[id].ref - 1));
      && (s.slabs[id].ref == 1 ==> ToTheEnd(s.partial, id, p))
      && (1 < s.slabs[id].ref == s.slabs[id].objs ==> p == [id] + s.partial)
      && (1 < s.slabs[id].ref < s.slabs[id].objs ==> p == s.partial)
  {
    assert SlabOk(s.slabs[id]);
    hide Placed, Counted;
    OnComplete(s, id);
    if id !in s.partial { PrependFacts(s.partial, id); DeleteAbsent(s.partial, id); } else { DeletesThere(s.partial, id); }
    hide Delete;
  }

  lemma DeletesThere(p: seq<nat>, id: nat)
    requires id in p
    ensures ToTheEnd(p, id, Delete(p, id) + [id])
  {
    var k := Find(p, id);
    assert p[k] == id;
  }

  /** An object flushed to the slab at the head of the line, or to one that was full, is the next one taken. */
  lemma FlushThenRefill(cfg: Config, s: Cache, cpu: nat)
    requires Safe(cfg, s) && cpu < |s.mags| && s.mags[cpu] != []
    requires var id := s.mags[cpu][0].slab; id in s.slabs && s.slabs[id].ref > 1
    requires var id := s.mags[cpu][0].slab; s.slabs[id].ref == s.slabs[id].objs || (s.partial != [] && s.partial[0] == id)
    ensures var r := Refill(Flush(s, cpu, 1), cpu, 1);
      r.mags[cpu] == s.mags[cpu][1..] + [s.mags[cpu][0]] && r.slabs == s.slabs && r.partial == s.partial
  {
    hide Inv, Flush, Refill, Balanced, Bounded, ToTheEnd;
    FlushesOnTop(cfg, s, cpu);
    FlushDrops(cfg, s, cpu, 1);
    FlushAllInv(s, cpu, 1);
    var (t, id) := (Flush(s, cpu, 1), s.mags[cpu][0].slab);
    SlabFits(s, id);
    SlabFits(t, id);
    TakesFirst(t, cpu);
    RefillAppends(t, cpu, 1);
    assert Refill(t, cpu, 1).slabs[id].free == s.slabs[id].free;
  }

  lemma SlabFits(s: Cache, id: nat)
    requires Inv(s) && id in s.slabs
    ensures s.slabs[id].ref <= s.slabs[id].objs && |s.slabs[id].free| == s.slabs[id].objs - s.slabs[id].ref
  {
    assert SlabOk(s.slabs[id]);
  }

  // ---------------------------------------------------------------- high-water marks

  /** The marks after a step are the greater of the marks before it and the counters after it. */
  ghost predicate Marked(n: Counters, n': Counters) {
    && n'.objMax == Max(n.objMax, n'.objAlloc)
    && n'.slabMax == Max(n.slabMax, n'.slabAlloc)
    && n'.objEmergencyMax == Max(n.objEmergencyMax, n'.objEmergency)
  }

  lemma {:induction false} RefillMarks(s: Cache, cpu: nat, k: nat)
    requires Inv(s) && cpu < |s.mags|
    ensures var n' := Refill(s, cpu, k).n;
      && Marked(s.n, n') && n'.objEmergency == s.n.objEmergency
      && n'.objAlloc >= s.n.objAlloc && n'.slabAlloc >= s.n.slabAlloc
    decreases k
  {
    hide Inv, Take, HasFree;
    MarksNow(s);
    if k > 0 && HasFree(s) {
      TakeMarks(s, cpu);
      TakeInv(s, cpu);
      RefillMarks(Take(s, cpu), cpu, k - 1);
    }
  }

  lemma MarksNow(s: Cache)
    requires Inv(s)
    ensures Marked(s.n, s.n)
  {
    assert Counted(s);
  }

  lemma TakeMarks(s: Cache, cpu: nat)
    requires Inv(s) && HasFree(s) && cpu < |s.mags|
    ensures var n' := Take(s, cpu).n;
      && Marked(s.n, n') && n'.objEmergency == s.n.objEmergency
      && n'.objAlloc >= s.n.objAlloc && n'.slabAlloc >= s.n.slabAlloc
    ensures |Take(s, cpu).mags| == |s.mags|
  {
    assert Counted(s);
    hide Inv;
  }

  /** The counters only fall, and the marks stay. */
  ghost predicate Fell(n: Counters, n': Counters) {
    && n'.objAlloc <= n.objAlloc && n'.slabAlloc <= n.slabAlloc && n'.objEmergency <= n.objEmergency
    && n'.objMax == n.objMax && n'.slabMax == n.slabMax && n'.objEmergencyMax == n.objEmergencyMax
  }

  lemma {:induction false} FlushFalls(s: Cache, cpu: nat, k: nat)
    requires cpu < |s.mags|
    ensures Fell(s.n, Flush(s, cpu, k).n)
    decreases k
  {
    if k > 0 && CanFlush(s, cpu) {
      OneDropped(s, cpu);
      assert Fell(s.n, FlushOne(s, cpu).n);
      hide FlushOne, CanFlush;
      FlushFalls(FlushOne(s, cpu), cpu, k - 1);
    }
  }

  lemma {:induction false} ReclaimFalls(s: Cache)
    ensures Fell(s.n, Reclaim(s).n)
    decreases |s.partial|
  {
    if LastIsEmpty(s) { ReclaimFalls(FreeLast(s)); }
  }

  lemma StepMarks(cfg: Config, s: Cache, st: Step)
    requires Safe(cfg, s) && Enabled(cfg, s, st)
    ensures Marked(s.n, Apply(cfg, s, st).n)
  {
    assert Counted(s);
    hide Inv, Refill, Flush, Reclaim;
    match st
    case DoRefill(cpu, k) => RefillMarks(s, cpu, k);
    case DoFlush(cpu, k) => FlushFalls(s, cpu, k);
    case DoReclaim => ReclaimFalls(s);
    case _ =>
  }

  /** Each mark is the greatest value its counter has had in the run so far. */
  ghost predicate IsPeak(trace: seq<Cache>, i: nat, mark: int, count: Cache -> int)
    requires i < |trace|
  {
    && (forall j :: 0 <= j <= i ==> count(trace[j]) <= mark)
    && exists j :: 0 <= j <= i && count(trace[j]) == mark
  }

  function Objects(s: Cache): int { s.n.objAlloc }
  function SlabsUsed(s: Cache): int { s.n.slabAlloc }
  function Emergencies(s: Cache): int { s.n.objEmergency }

  lemma PeakStep(trace: seq<Cache>, i: nat, mark: int, count: Cache -> int)
    requires 0 < i < |trace| && IsPeak(trace, i - 1, mark, count)
    ensures IsPeak(trace, i, Max(mark, count(trace[i])), count)
  {
    var j :| 0 <= j <= i - 1 && count(trace[j]) == mark;
    var k := if mark < count(trace[i]) then i else j;
    assert count(trace[k]) == Max(mark, count(trace[i]));
  }

  lemma {:induction false} RunMarks(cfg: Config, cpus: nat, trace: seq<Cache>, steps: seq<Step>, i: nat)
    requires Run(cfg, cpus, trace, steps) && i < |trace|
    ensures IsPeak(trace, i, trace[i].n.objMax, Objects)
    ensures IsPeak(trace, i, trace[i].n.slabMax, SlabsUsed)
    ensures IsPeak(trace, i, trace[i].n.objEmergencyMax, Emergencies)
  {
    if i == 0 {
      assert Objects(trace[0]) == 0 && SlabsUsed(trace[0]) == 0 && Emergencies(trace[0]) == 0;
    } else {
      hide IsPeak, Apply, Enabled, Safe;
      RunMarks(cfg, cpus, trace, steps, i - 1);
      RunSafe(cfg, cpus, trace, steps, i - 1);
      StepMarks(cfg, trace[i-1], steps[i-1]);
      PeakStep(trace, i, trace[i-1].n.objMax, Objects);
      PeakStep(trace, i, trace[i-1].n.slabMax, SlabsUsed);
      PeakStep(trace, i, trace[i-1].n.objEmergencyMax, Emergencies);
    }
  }
}

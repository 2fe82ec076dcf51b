/** Whole runs of the slab allocator: safety of every reachable state, full reclaim, clean destroy. */
module KmemRuns {
  import opened Seqs
  import opened KmemState
  import opened KmemProofs

  // ---------------------------------------------------------------- runs

  /** One section of some thread; `cpu` is the processor whose magazine it uses. */
  datatype Step =
    | DoGrow(id: nat)
    | DoRefill(cpu: nat, k: nat)
    | DoPop(cpu: nat)
    | DoPush(cpu: nat, o: Obj)
    | DoFlush(cpu: nat, k: nat)
    | DoReclaim
    | DoEmergencyAlloc(a: nat)
    | DoEmergencyFree(a: nat)

  /** Fixed at cache creation: objects per slab and slots per magazine. */
  datatype Config = Config(slabObjs: nat, magSize: nat)

  /** What the code checks before the section, and what clients owe: free only what you hold. */
  predicate Enabled(cfg: Config, s: Cache, st: Step) {
    match st
    case DoGrow(id) => id !in s.slabs && cfg.slabObjs > 0
    case DoRefill(cpu, k) => cpu < |s.mags| && |s.mags[cpu]| + k <= cfg.magSize
    case DoPop(cpu) => cpu < |s.mags| && s.mags[cpu] != []
    case DoPush(cpu, o) => cpu < |s.mags| && |s.mags[cpu]| < cfg.magSize && o in s.held
    case DoFlush(cpu, k) => cpu < |s.mags|
    case DoReclaim => true
    case DoEmergencyAlloc(a) => a !in s.emergency
    case DoEmergencyFree(a) => a in s.emergency
  }

  ghost function Apply(cfg: Config, s: Cache, st: Step): Cache
    requires Enabled(cfg, s, st)
  {
    match st
    case DoGrow(id) => Grow(s, id, cfg.slabObjs)
    case DoRefill(cpu, k) => Refill(s, cpu, k)
    case DoPop(cpu) => Pop(s, cpu)
    case DoPush(cpu, o) => Push(s, cpu, o)
    case DoFlush(cpu, k) => Flush(s, cpu, k)
    case DoReclaim => Reclaim(s)
    case DoEmergencyAlloc(a) => EmergencyAlloc(s, a)
    case DoEmergencyFree(a) => EmergencyFree(s, a)
  }

  function Init(cpus: nat): Cache {
    Cache(map[], [], [], seq(cpus, _ => []), {}, {}, NoCounts)
  }

  /** `trace` lists the states of a run from creation, `steps` the sections taken between them. */
  ghost predicate Run(cfg: Config, cpus: nat, trace: seq<Cache>, steps: seq<Step>) {
    && |trace| == |steps| + 1
    && trace[0] == Init(cpus)
    && forall i :: 0 <= i < |steps| ==>
         Enabled(cfg, trace[i], steps[i]) && trace[i+1] == Apply(cfg, trace[i], steps[i])
  }

  // ---------------------------------------------------------------- conservation

  function Slots(mags: seq<seq<Obj>>): nat {
    if mags == [] then 0 else |mags[0]| + Slots(mags[1..])
  }

  /** Objects counted as allocated are exactly those cached in magazines or held by clients. */
  ghost predicate Balanced(s: Cache) {
    s.n.objAlloc == Slots(s.mags) + |s.held|
  }

  ghost predicate Bounded(cfg: Config, s: Cache) {
    forall c :: 0 <= c < |s.mags| ==> |s.mags[c]| <= cfg.magSize
  }

  ghost predicate Safe(cfg: Config, s: Cache) {
    Inv(s) && Balanced(s) && Bounded(cfg, s)
  }

  lemma {:induction false} SlotsUpdate(mags: seq<seq<Obj>>, c: nat, m: seq<Obj>)
    requires c < |mags|
    ensures Slots(mags[c := m]) == Slots(mags) - |mags[c]| + |m|
  {
    if c == 0 {
      assert mags[c := m][1..] == mags[1..];
    } else {
      SlotsUpdate(mags[1..], c - 1, m);
      assert mags[c := m][1..] == mags[1..][c - 1 := m];
    }
  }

  lemma {:induction false} RefillBalanced(s: Cache, cpu: nat, k: nat)
    requires cpu < |s.mags| && Balanced(s)
    ensures var r := Refill(s, cpu, k);
      && Balanced(r)
      && |r.mags| == |s.mags| && |r.mags[cpu]| <= |s.mags[cpu]| + k
      && (forall c :: 0 <= c < |s.mags| && c != cpu ==> r.mags[c] == s.mags[c])
    decreases k
  {
    if k > 0 && HasFree(s) {
      SlotsUpdate(s.mags, cpu, Take(s, cpu).mags[cpu]);
      RefillBalanced(Take(s, cpu), cpu, k - 1);
    }
  }

  lemma {:induction false} FlushBalanced(s: Cache, cpu: nat, k: nat)
    requires cpu < |s.mags| && Balanced(s)
    ensures var r := Flush(s, cpu, k);
      && Balanced(r)
      && |r.mags| == |s.mags| && |r.mags[cpu]| <= |s.mags[cpu]|
      && (forall c :: 0 <= c < |s.mags| && c != cpu ==> r.mags[c] == s.mags[c])
      && r.held == s.held && r.emergency == s.emergency
    decreases k
  {
    if k > 0 && CanFlush(s, cpu) {
      SlotsUpdate(s.mags, cpu, s.mags[cpu][1..]);
      FlushBalanced(FlushOne(s, cpu), cpu, k - 1);
    }
  }

  lemma {:induction false} ReclaimBalanced(s: Cache)
    ensures Reclaim(s).n.objAlloc == s.n.objAlloc && Reclaim(s).mags == s.mags && Reclaim(s).held == s.held
    decreases |s.partial|
  {
    if LastIsEmpty(s) { ReclaimBalanced(FreeLast(s)); }
  }

  /** A magazine object is live, counted once, and in nobody's hands. */
  lemma MagObject(s: Cache, cpu: nat, o: Obj)
    requires Placed(s) && cpu < |s.mags| && o in s.mags[cpu]
    ensures Live(s, o) && o !in s.held && FreeCount(s.slabs, o) == 0
    ensures MagCount(s.mags, o) == 1 && multiset(s.mags[cpu])[o] == 1
    ensures s.slabs[o.slab].ref > 0
  {
    MagUpdate(s.mags, cpu, [], o);
    assert o in multiset(s.mags[cpu]);
    assert Places(s, o) == if Live(s, o) then 1 else 0;
    TakenMeansReferenced(s, o);
  }

  lemma StepSafe(cfg: Config, s: Cache, st: Step)
    requires Safe(cfg, s) && Enabled(cfg, s, st)
    ensures Safe(cfg, Apply(cfg, s, st))
    ensures |Apply(cfg, s, st).mags| == |s.mags|
  {
    hide Inv, Slots, Refill, Flush, Reclaim, NewSlab;
    match st
    case DoGrow(id) => GrowInv(s, id, cfg.slabObjs);
    case DoRefill(cpu, k) => RefillInv(s, cpu, k); RefillBalanced(s, cpu, k);
    case DoPop(cpu) => PopKeeps(cfg, s, cpu);
    case DoPush(cpu, o) => PushKeeps(cfg, s, cpu, o);
    case DoFlush(cpu, k) => FlushAllInv(s, cpu, k); FlushBalanced(s, cpu, k);
    case DoReclaim => ReclaimInv(s); ReclaimBalanced(s);
    case DoEmergencyAlloc(a) => EmergencyInv(s, a);
    case DoEmergencyFree(a) => EmergencyInv(s, a);
  }

  lemma PopKeeps(cfg: Config, s: Cache, cpu: nat)
    requires Safe(cfg, s) && cpu < |s.mags| && s.mags[cpu] != []
    ensures Safe(cfg, Pop(s, cpu))
  {
    hide Listed, Counted, Slots, Places;
    PopInv(s, cpu);
    MagObject(s, cpu, s.mags[cpu][|s.mags[cpu]|-1]);
    SlotsUpdate(s.mags, cpu, Pop(s, cpu).mags[cpu]);
  }

  lemma PushKeeps(cfg: Config, s: Cache, cpu: nat, o: Obj)
    requires Safe(cfg, s) && cpu < |s.mags| && |s.mags[cpu]| < cfg.magSize && o in s.held
    ensures Safe(cfg, Push(s, cpu, o))
  {
    hide Inv, Slots;
    PushInv(s, cpu, o);
    SlotsUpdate(s.mags, cpu, s.mags[cpu] + [o]);
  }

  lemma {:induction false} NoSlots(n: nat, o: Obj)
    ensures MagCount(seq(n, _ => []), o) == 0 && Slots(seq(n, _ => [])) == 0
  {
    if n > 0 {
      NoSlots(n - 1, o);
      var a: seq<seq<Obj>>, b: seq<seq<Obj>> := seq(n, _ => []), seq(n - 1, _ => []);
      assert a[1..] == b;
    }
  }

  lemma InitSafe(cfg: Config, cpus: nat)
    ensures Safe(cfg, Init(cpus))
  {
    var s := Init(cpus);
    forall o ensures Places(s, o) == if Live(s, o) then 1 else 0 { NoSlots(cpus, o); }
    NoSlots(cpus, Obj(0, 0));
    FromRuns(s, [], []);
  }

  /** Every state of every run, for any number of processors and slabs, is safe. */
  lemma {:induction false} RunSafe(cfg: Config, cpus: nat, trace: seq<Cache>, steps: seq<Step>, i: nat)
    requires Run(cfg, cpus, trace, steps) && i < |trace|
    ensures Safe(cfg, trace[i]) && |trace[i].mags| == cpus
  {
    if i == 0 {
      InitSafe(cfg, cpus);
    } else {
      RunSafe(cfg, cpus, trace, steps, i - 1);
      StepSafe(cfg, trace[i-1], steps[i-1]);
    }
  }

  /** An allocation never hands out an object some client already holds, nor a dead one. */
  lemma NeverHandedOutTwice(cfg: Config, cpus: nat, trace: seq<Cache>, steps: seq<Step>, i: nat)
    requires Run(cfg, cpus, trace, steps) && i < |steps| && steps[i].DoPop?
    ensures var m := trace[i].mags[steps[i].cpu]; var o := m[|m|-1];
      && o !in trace[i].held && trace[i+1].held == trace[i].held + {o}
      && Live(trace[i+1], o)
      && MagCount(trace[i+1].mags, o) == 0 && FreeCount(trace[i+1].slabs, o) == 0
  {
    var s, s' := trace[i], trace[i+1];
    RunSafe(cfg, cpus, trace, steps, i);
    RunSafe(cfg, cpus, trace, steps, i + 1);
    var o := s.mags[steps[i].cpu][|s.mags[steps[i].cpu]|-1];
    MagObject(s, steps[i].cpu, o);
    assert Places(s', o) == 1;
  }

  /** A non-empty magazine can always be flushed, one object at a time. */
  lemma FlushOneSafe(cfg: Config, s: Cache, cpu: nat)
    requires Safe(cfg, s) && cpu < |s.mags| && s.mags[cpu] != []
    ensures CanFlush(s, cpu) && Safe(cfg, FlushOne(s, cpu))
  {
    hide Linked, Sorted, Ordered, Counted, SlabOk, Places;
    MagObject(s, cpu, s.mags[cpu][0]);
    FlushInv(s, cpu);
    SlotsUpdate(s.mags, cpu, s.mags[cpu][1..]);
  }

  // ---------------------------------------------------------------- reclaim finds every empty slab

  lemma {:induction false} ReclaimComplete(s: Cache)
    requires Inv(s)
    ensures var r := Reclaim(s);
      && (forall id :: id in r.slabs <==> id in s.slabs && s.slabs[id].ref > 0)
      && (forall id :: id in r.slabs ==> r.slabs[id] == s.slabs[id])
      && r.complete == s.complete && r.partial <= s.partial
    decreases |s.partial|
  {
    if LastIsEmpty(s) {
      FreeLastInv(s);
      ReclaimComplete(FreeLast(s));
    } else {
      NoEmptyLeft(s);
    }
  }

  /** If the last partial slab is in use then so is every slab. */
  lemma NoEmptyLeft(s: Cache)
    requires Inv(s) && !LastIsEmpty(s)
    ensures forall id :: id in s.slabs ==> s.slabs[id].ref > 0
  {
    var used, empty := Runs(s);
    if s.partial != [] { LastOfRuns(used, empty); }
    forall id | id in s.slabs ensures s.slabs[id].ref > 0 {
      if id in s.partial { assert id in used; }
    }
  }

  // ---------------------------------------------------------------- destroy

  /** A full flush empties the magazine: no object in it lacks a referenced slab. */
  lemma {:induction false} FlushEmpties(s: Cache, cpu: nat, k: nat)
    requires Inv(s) && cpu < |s.mags| && k >= |s.mags[cpu]|
    ensures Flush(s, cpu, k).mags[cpu] == []
    decreases k
  {
    hide Linked, Sorted, Ordered, Counted, SlabOk, Places;
    if s.mags[cpu] != [] {
      MagObject(s, cpu, s.mags[cpu][0]);
      FlushInv(s, cpu);
      FlushEmpties(FlushOne(s, cpu), cpu, k - 1);
    }
  }

  /** `spl_magazine_destroy`: flush every magazine in processor order. */
  ghost function FlushAll(s: Cache, c: nat): Cache
    requires c <= |s.mags|
    decreases |s.mags| - c
  {
    if c == |s.mags| then s else FlushAll(Flush(s, c, |s.mags[c]|), c + 1)
  }

  lemma {:induction false} FlushAllEmpties(s: Cache, c: nat)
    requires Inv(s) && Balanced(s) && c <= |s.mags|
    requires forall d :: 0 <= d < c ==> s.mags[d] == []
    ensures var r := FlushAll(s, c);
      && Inv(r) && Balanced(r) && r.held == s.held && r.emergency == s.emergency
      && |r.mags| == |s.mags| && (forall d :: 0 <= d < |r.mags| ==> r.mags[d] == [])
    decreases |s.mags| - c
  {
    if c < |s.mags| {
      FlushAllInv(s, c, |s.mags[c]|);
      FlushBalanced(s, c, |s.mags[c]|);
      FlushEmpties(s, c, |s.mags[c]|);
      FlushAllEmpties(Flush(s, c, |s.mags[c]|), c + 1);
    }
  }

  lemma {:induction false} EmptyMags(mags: seq<seq<Obj>>)
    requires forall d :: 0 <= d < |mags| ==> mags[d] == []
    ensures Slots(mags) == 0
  {
    if mags != [] { EmptyMags(mags[1..]); }
  }

  lemma {:induction false} TotalBound(m: map<nat, Slab>, ids: seq<nat>, id: nat)
    requires id in ids && id in m
    ensures Total(m, ids, Refs) >= m[id].ref
  {
    TotalNonNegative(m, ids[1..]);
    if ids[0] != id { TotalBound(m, ids[1..], id); }
  }

  lemma {:induction false} TotalNonNegative(m: map<nat, Slab>, ids: seq<nat>)
    ensures Total(m, ids, Refs) >= 0
  {
    if ids != [] { TotalNonNegative(m, ids[1..]); }
  }

  /** Flushing and reclaiming a cache none of whose objects is outstanding meets every final assertion. */
  lemma DestroyClean(cfg: Config, s: Cache)
    requires Safe(cfg, s) && s.held == {} && s.emergency == {}
    ensures var r := Reclaim(FlushAll(s, 0));
      && r.n.slabAlloc == 0 && r.n.objAlloc == 0
      && r.n.slabTotal == 0 && r.n.objTotal == 0 && r.n.objEmergency == 0
      && r.complete == [] && r.partial == [] && r.slabs == map[]
  {
    FlushAllEmpties(s, 0);
    var f := FlushAll(s, 0);
    EmptyMags(f.mags);
    assert f.n.objAlloc == 0;
    forall id | id in f.slabs ensures f.slabs[id].ref == 0 {
      TotalNonNegative(f.slabs, f.partial);
      TotalNonNegative(f.slabs, f.complete);
      if id in f.partial { TotalBound(f.slabs, f.partial, id); } else { TotalBound(f.slabs, f.complete, id); }
    }
    var r := Reclaim(f);
    ReclaimComplete(f);
    ReclaimInv(f);
    assert r.slabs == map[];
    EndsIn(r.partial);
    EndsIn(r.complete);
  }

  /** An outstanding object makes at least one of those assertions fail. */
  lemma DestroyDirty(cfg: Config, s: Cache)
    requires Safe(cfg, s) && (s.held != {} || s.emergency != {})
    ensures var r := Reclaim(FlushAll(s, 0)); r.n.objAlloc != 0 || r.n.objEmergency != 0
  {
    FlushAllEmpties(s, 0);
    var f := FlushAll(s, 0);
    ReclaimInv(f);
    ReclaimBalanced(f);
    if s.held != {} {
      var o :| o in s.held;
      assert |f.held| > 0;
    } else {
      var a :| a in s.emergency;
      assert |f.emergency| > 0;
    }
  }
}

/**
  One pass of `spl_kmem_cache_alloc`.  The pass is one section on an available object, or a refill
  that may ask the cache to grow; the lock is dropped around that call, so other threads may run
  before its emergency section does.
 */
module KmemAlloc {
  import opened Options
  import opened Seqs
  import opened KmemState
  import opened KmemProofs
  import opened KmemRuns

  /** What one pass returns: a slab object, emergency pages, null, or another turn of the loop. */
  datatype AllocResult = Got(o: Obj) | GotPages(a: nat) | Failed | Restart

  /**
    What `spl_cache_grow` meets: the cache's flag bits, whether memory for the growth request was
    there, and what the page allocator returned for an emergency object.
   */
  datatype GrowCall = GrowCall(reaping: bool, growing: bool, memory: bool, deadlocked: bool, pages: Option<nat>)

  /** The emergency object `spl_cache_grow` returns when its emergency section runs in `u`, if any. */
  function GrowPages(u: Cache, g: GrowCall): Option<nat> {
    if !g.reaping && (g.growing || g.memory) && g.deadlocked
       && u.partial == [] && g.pages.Some? && g.pages.value !in u.emergency
    then g.pages else None
  }

  /** How many objects a refill of an empty magazine asks for. */
  function Demand(cfg: Config): nat { (cfg.magSize + 1) / 2 }

  /** The refill found the partial list empty before its demand was met, and called `spl_cache_grow`. */
  ghost predicate Asks(cfg: Config, s: Cache, cpu: nat)
    requires cpu < |s.mags|
  {
    |Refill(s, cpu, Demand(cfg)).mags[cpu]| < |s.mags[cpu]| + Demand(cfg)
  }

  /**
    The result of a pass that begins in `s` on processor `cpu`.  If the cache is asked to grow, `u`
    is the state in which the emergency section runs.
   */
  ghost function Pass(cfg: Config, s: Cache, cpu: nat, noSleep: bool, u: Cache, g: GrowCall): AllocResult
    requires cpu < |s.mags|
  {
    var m := s.mags[cpu];
    if m != [] then Got(m[|m|-1])
    else if Asks(cfg, s, cpu) && GrowPages(u, g).Some? then GotPages(GrowPages(u, g).value)
    else if noSleep then Failed
    else Restart
  }

  // ---------------------------------------------------------------- when the cache is asked to grow

  /** Objects on the free lists, read off the counters. */
  function Spare(s: Cache): int { s.n.objTotal - s.n.objEmergency - s.n.objAlloc }

  lemma {:induction false} OpenSlabs(m: map<nat, Slab>, ids: seq<nat>)
    requires forall id :: id in ids ==> id in m && m[id].ref < m[id].objs
    ensures Total(m, ids, Objs) >= Total(m, ids, Refs) + |ids|
  {
    if ids != [] { OpenSlabs(m, ids[1..]); }
  }

  lemma {:induction false} FullSlabs(m: map<nat, Slab>, ids: seq<nat>)
    requires forall id :: id in ids ==> id in m && m[id].ref == m[id].objs
    ensures Total(m, ids, Objs) == Total(m, ids, Refs)
  {
    if ids != [] { FullSlabs(m, ids[1..]); }
  }

  /** Free objects are on partial slabs only, and every partial slab has one. */
  lemma SpareFacts(s: Cache)
    requires Inv(s)
    ensures Spare(s) >= |s.partial| && (s.partial == [] ==> Spare(s) == 0)
    ensures HasFree(s) <==> s.partial != []
  {
    hide NoDup, Ordered;
    forall id | id in s.partial ensures id in s.slabs && s.slabs[id].ref < s.slabs[id].objs {
      assert SlabOk(s.slabs[id]);
    }
    OpenSlabs(s.slabs, s.partial);
    FullSlabs(s.slabs, s.complete);
    if s.partial != [] { EndsIn(s.partial); }
  }

  /** A refill gets as many objects as are free, up to its demand. */
  lemma {:induction false} RefillGets(s: Cache, cpu: nat, k: nat)
    requires Inv(s) && cpu < |s.mags|
    ensures |Refill(s, cpu, k).mags[cpu]| == |s.mags[cpu]| + if Spare(s) < k then Spare(s) else k
    decreases k
  {
    hide Inv, Spare, Take, HasFree;
    SpareFacts(s);
    if k > 0 && HasFree(s) {
      TakeInv(s, cpu);
      TakeSpares(s, cpu);
      RefillGets(Take(s, cpu), cpu, k - 1);
    }
  }

  lemma TakeSpares(s: Cache, cpu: nat)
    requires HasFree(s) && cpu < |s.mags|
    ensures Spare(Take(s, cpu)) == Spare(s) - 1 && |Take(s, cpu).mags| == |s.mags|
    ensures |Take(s, cpu).mags[cpu]| == |s.mags[cpu]| + 1
  {}

  /** The cache is asked to grow exactly when the counters show fewer free objects than the demand. */
  lemma AsksIff(cfg: Config, s: Cache, cpu: nat)
    requires Inv(s) && cpu < |s.mags|
    ensures Asks(cfg, s, cpu) <==> Spare(s) < Demand(cfg)
  {
    RefillGets(s, cpu, Demand(cfg));
  }

  // ---------------------------------------------------------------- when an allocation fails

  /**
    A caller that may not sleep gets nothing exactly when the magazine was empty and no emergency
    object came back, because enough objects were free for the cache not to be asked or because the
    call returned none.  Other threads may have moved the state from `s` to `u` meanwhile.
   */
  lemma NoSleepFails(cfg: Config, s: Cache, cpu: nat, u: Cache, g: GrowCall)
    requires Safe(cfg, s) && cpu < |s.mags|
    ensures Pass(cfg, s, cpu, true, u, g) == Failed <==>
      s.mags[cpu] == [] && (Spare(s) >= Demand(cfg) || GrowPages(u, g) == None)
  {
    AsksIff(cfg, s, cpu);
  }

  /**
    Emergency pages are handed out exactly when the magazine was empty, too few objects were free,
    the cache is marked deadlocked and not reaping, a growth request is under way or could be made,
    no slab has room by then, and the page allocator found pages that are not in the tree already.
   */
  lemma EmergencyIff(cfg: Config, s: Cache, cpu: nat, noSleep: bool, u: Cache, g: GrowCall, a: nat)
    requires Safe(cfg, s) && cpu < |s.mags|
    ensures Pass(cfg, s, cpu, noSleep, u, g) == GotPages(a) <==>
      && s.mags[cpu] == [] && s.n.objTotal - s.n.objEmergency - s.n.objAlloc < (cfg.magSize + 1) / 2
      && g.deadlocked && !g.reaping && (g.growing || g.memory)
      && u.partial == [] && g.pages == Some(a) && a !in u.emergency
  {
    AsksIff(cfg, s, cpu);
  }

  /**
    A caller that may sleep never fails.  It takes another turn only if the refill left it
    something to find or the cache had no free object at all.
   */
  lemma SleepRestarts(cfg: Config, s: Cache, cpu: nat, u: Cache, g: GrowCall)
    requires Safe(cfg, s) && cpu < |s.mags| && cfg.magSize > 0
    ensures var r := Pass(cfg, s, cpu, false, u, g); var t := Refill(s, cpu, Demand(cfg));
      && r != Failed
      && (r == Restart && Spare(s) > 0 ==> t.mags[cpu] != [] && Pass(cfg, t, cpu, false, u, g).Got?)
  {
    AsksIff(cfg, s, cpu);
    RefillGets(s, cpu, Demand(cfg));
  }

  /** The state after one slab of four objects was added to a cache with one processor. */
  function Grown(): Cache { Grow(Init(1), 0, 4) }

  /** The refill fills the magazine from a fresh slab, and the caller still gets nothing. */
  lemma NoSleepWitness(u: Cache, g: GrowCall)
    ensures var cfg := Config(4, 2);
      && Run(cfg, 1, [Init(1), Grown()], [DoGrow(0)])
      && Grown().mags[0] == [] && Refill(Grown(), 0, Demand(cfg)).mags[0] == [Obj(0, 0)]
      && Pass(cfg, Grown(), 0, true, u, g) == Failed
      && Pass(cfg, Grown(), 0, false, u, g) == Restart
  {
    hide Take, Refill, HasFree;
    GrownRefills();
  }

  lemma GrownRefills()
    ensures Refill(Grown(), 0, 1).mags == [[Obj(0, 0)]]
  {
    hide Refill, Take, HasFree, Grow;
    GrownTakes();
    RefillOne(Grown(), 0);
  }

  lemma GrownTakes()
    ensures HasFree(Grown()) && |Grown().mags| == 1 && Take(Grown(), 0).mags == [[Obj(0, 0)]]
  {
    var s := Grown();
    assert s.partial == [0] && s.mags == [[]] && s.slabs[0].free[0] == 0;
    assert s.mags[0] + [Obj(0, 0)] == [Obj(0, 0)];
    assert TakeRaw(s, 0).mags == [[Obj(0, 0)]];
  }

  lemma RefillOne(s: Cache, cpu: nat)
    requires cpu < |s.mags| && HasFree(s)
    ensures Refill(s, cpu, 1) == Take(s, cpu)
  {
    hide Take, HasFree;
    assert Refill(s, cpu, 1) == Refill(Take(s, cpu), cpu, 0);
  }

  /** With no slab at all and the deadlock flag set, the same caller is handed emergency pages. */
  lemma EmergencyWitness()
    ensures var cfg := Config(4, 2); var g := GrowCall(false, true, false, true, Some(7));
      && Run(cfg, 1, [Init(1), EmergencyAlloc(Init(1), 7)], [DoEmergencyAlloc(7)])
      && Pass(cfg, Init(1), 0, true, Init(1), g) == GotPages(7)
  {
    assert !HasFree(Init(1));
  }
}

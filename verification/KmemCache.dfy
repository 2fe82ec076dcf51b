/**
  The operations of `spl-kmem-cache.c`, with the source's loops, proved to compute the steps of
  `KmemState`.  Each method is what one thread does while it holds the cache lock or runs with
  interrupts disabled on processor `cpu`.
 */
module KmemCache {
  import opened Options
  import opened Seqs
  import Layout = SlabLayout
  import opened KmemState
  import opened KmemProofs
  import opened KmemRuns
  import opened KmemAlloc
  import opened KmemMoves

  /** A per-CPU magazine: a fixed buffer whose first `avail` slots are in use. */
  class Magazine {
    const size: nat
    const refill: nat
    const objs: array<Obj>
    var avail: nat

    ghost predicate Valid() reads this {
      2 <= size == objs.Length && refill == (size + 1) / 2 && avail <= size
    }

    constructor (size: nat)
      requires size >= 2
      ensures Valid() && avail == 0 && this.size == size && fresh(objs)
    {
      this.size := size;
      refill := (size + 1) / 2;
      objs := new Obj[size](_ => Obj(0, 0));
      avail := 0;
    }

    /** The `memmove` at the end of a flush. */
    method Shift(count: nat)
      requires Valid() && count <= avail
      modifies this, objs
      ensures Valid() && objs[..avail] == old(objs[..avail])[count..]
    {
      avail := avail - count;
      forall k | 0 <= k < avail { objs[k] := objs[k + count]; }
    }

    method Append(o: Obj)
      requires Valid() && avail < size
      modifies this, objs
      ensures Valid() && objs[..avail] == old(objs[..avail]) + [o]
    {
      objs[avail] := o;
      avail := avail + 1;
    }
  }

  /** Outcome of `spl_emergency_alloc`. */
  datatype EmergencyResult = Inserted | SlabExists | NoMemory | Duplicate

  /** A freed pointer: an object of some slab, or pages handed out in an emergency. */
  datatype Ptr = SlabObj(o: Obj) | Pages(a: nat)

  class KmemCache {
    const slabObjs: nat
    const magSize: nat
    const mags: seq<Magazine>
    var slabs: map<nat, Slab>
    var partial: seq<nat>
    var complete: seq<nat>
    var emergency: set<nat>
    var n: Counters
    var reaping: bool
    var growing: bool
    var deadlocked: bool
    ghost var slots: seq<seq<Obj>>
    ghost var held: set<Obj>

    ghost predicate Shaped() {
      && (forall i, j :: 0 <= i < j < |mags| ==> mags[i] != mags[j] && mags[i].objs != mags[j].objs)
      && (forall i :: 0 <= i < |mags| ==> mags[i].size == magSize)
      && slabObjs > 0
    }

    /** `slots` is what the magazines hold. */
    ghost predicate Filled()
      reads this, mags, set m | m in mags :: m.objs
    {
      && |slots| == |mags|
      && (forall i :: 0 <= i < |mags| ==> mags[i].Valid() && slots[i] == mags[i].objs[..mags[i].avail])
    }

    ghost function View(): Cache reads this {
      Cache(slabs, partial, complete, slots, emergency, held, n)
    }

    ghost function Cfg(): Config { Config(slabObjs, magSize) }

    ghost predicate Valid()
      reads this, mags, set m | m in mags :: m.objs
    {
      Shaped() && Filled() && Safe(Cfg(), View())
    }

    // -------------------------------------------------------------- giving objects back

    /** `spl_cache_shrink`. */
    method ShrinkObj(o: Obj)
      requires o.slab in slabs && slabs[o.slab].ref > 0
      modifies `slabs, `partial, `complete, `n
      ensures View() == Shrink(old(View()), o)
    {
      hide Delete;
      var id, sl := o.slab, slabs[o.slab];
      sl := Slab(sl.objs, [o.idx] + sl.free, sl.ref - 1);
      slabs := slabs[id := sl];
      n := n.(objAlloc := n.objAlloc - 1);
      if sl.ref == sl.objs - 1 {
        partial := Unlink(partial, id);
        complete := Unlink(complete, id);
        partial := [id] + partial;
      }
      if sl.ref == 0 {
        partial := Unlink(partial, id);
        complete := Unlink(complete, id);
        partial := partial + [id];
        n := n.(slabAlloc := n.slabAlloc - 1);
      }
    }

    /** The loop of `__spl_cache_flush`; the magazine itself is adjusted afterwards. */
    method ShrinkFirst(cpu: nat, count: nat)
      requires Valid() && cpu < |mags| && count <= mags[cpu].avail
      modifies `slabs, `partial, `complete, `n, `slots
      ensures Safe(Cfg(), View()) && View() == Flush(old(View()), cpu, count)
      ensures slots == old(slots)[cpu := old(slots)[cpu][count..]]
    {
      hide Safe, Shrink;
      var skm := mags[cpu];
      ghost var was, goal := slots[cpu], Flush(View(), cpu, count);
      for i := 0 to count
        invariant Safe(Cfg(), View())
        invariant slots == old(slots)[cpu := was[i..]]
        invariant Flush(View(), cpu, count - i) == goal
      {
        FlushOneSafe(Cfg(), View(), cpu);
        slots := slots[cpu := slots[cpu][1..]];
        ShrinkObj(skm.objs[i]);
      }
    }

    /** `__spl_cache_flush`: shrink the first objects, at most `flush`, then close the gap. */
    method FlushMag(cpu: nat, flush: nat)
      requires Valid() && cpu < |mags|
      modifies `slabs, `partial, `complete, `n, `slots, mags[cpu], mags[cpu].objs
      ensures Valid() && View() == Flush(old(View()), cpu, flush)
    {
      hide Safe, Flush;
      var skm := mags[cpu];
      var count := if flush < skm.avail then flush else skm.avail;
      FlushClip(View(), cpu, flush);
      ShrinkFirst(cpu, count);
      skm.Shift(count);
    }

    // -------------------------------------------------------------- taking objects

    /** `spl_cache_obj` from the first partial slab, into the magazine of `cpu`. */
    method TakeObj(cpu: nat)
      requires Shaped() && Filled() && cpu < |mags| && mags[cpu].avail < magSize && HasFree(View())
      modifies `slabs, `n, `slots, mags[cpu], mags[cpu].objs
      ensures Filled() && View() == TakeRaw(old(View()), cpu)
      ensures mags[cpu].avail == old(mags[cpu].avail) + 1 && slabs.Keys == old(slabs).Keys
    {
      hide CountTake;
      var id, sl := partial[0], slabs[partial[0]];
      var o := Obj(id, sl.free[0]);
      sl := Slab(sl.objs, sl.free[1..], sl.ref + 1);
      slabs := slabs[id := sl];
      CountObj(sl.ref);
      mags[cpu].Append(o);
      slots := slots[cpu := slots[cpu] + [o]];
    }

    /** The counters of `spl_cache_obj`. */
    method CountObj(ref: nat)
      modifies `n
      ensures n == CountTake(old(n), ref)
    {
      n := n.(objAlloc := n.objAlloc + 1);
      if n.objAlloc > n.objMax { n := n.(objMax := n.objAlloc); }
      if ref == 1 {
        n := n.(slabAlloc := n.slabAlloc + 1);
        if n.slabAlloc > n.slabMax { n := n.(slabMax := n.slabAlloc); }
      }
    }

    /**
      The inner loop of `spl_cache_refill`: consume the first partial slab until it is full or
      the refill is met, then move it to the complete list if it is full.
     */
    method DrainHead(cpu: nat, refill: int, count0: nat) returns (rest: int, count: nat)
      requires Valid() && cpu < |mags| && partial != []
      requires 0 < refill && mags[cpu].avail + refill <= magSize && count0 + refill <= mags[cpu].refill
      modifies `slabs, `partial, `complete, `n, `slots, mags[cpu], mags[cpu].objs
      ensures Valid() && rest < refill && mags[cpu].avail + rest <= magSize && count + rest <= mags[cpu].refill
      ensures Refill(View(), cpu, if rest > 0 then rest else 0) == Refill(old(View()), cpu, refill)
      ensures mags[cpu].avail == old(mags[cpu].avail) + refill - if rest > 0 then rest else 0
    {
      hide Safe, TakeRaw;
      var id, skm := partial[0], mags[cpu];
      ghost var goal := Refill(View(), cpu, refill);
      HeadOpen(Cfg(), View());
      rest, count := refill, count0;
      while true
        invariant Shaped() && Filled() && partial == old(partial)
        invariant id in slabs && Safe(Cfg(), Retire(View()))
        invariant 0 <= rest <= refill && skm.avail + rest <= magSize && count + rest <= skm.refill
        invariant skm.avail + rest == old(skm.avail) + refill
        invariant rest == refill ==> slabs[id].ref < slabs[id].objs
        invariant Refill(Retire(View()), cpu, rest) == goal
        decreases rest
      {
        if slabs[id].ref >= slabs[id].objs { break; }
        rest := rest - 1;
        if rest < 0 { break; }
        count := count + 1;
        assert skm.avail < skm.size && count < skm.size;
        TakeOneSafe(Cfg(), View(), cpu);
        TakeObj(cpu);
      }
      if slabs[id].ref == slabs[id].objs {
        partial := partial[1..];
        complete := [id] + complete;
      }
    }

    /**
      `spl_cache_refill` up to the point where it finds the partial list empty: then the lock is
      dropped and the cache must grow.
     */
    method RefillMag(cpu: nat) returns (grow: bool)
      requires Valid() && cpu < |mags|
      modifies `slabs, `partial, `complete, `n, `slots, mags[cpu], mags[cpu].objs
      ensures Valid() && View() == Refill(old(View()), cpu, Want(old(mags[cpu].avail)))
      ensures grow <==> |slots[cpu]| < |old(slots)[cpu]| + Want(old(mags[cpu].avail))
      ensures grow ==> partial == []
      ensures var want := Least((magSize + 1) / 2, magSize - |old(slots)[cpu]|); var spare := Spare(old(View()));
        |slots[cpu]| == |old(slots)[cpu]| + Least(want, spare) && (grow <==> spare < want)
    {
      hide Safe, Take, Spare;
      var skm := mags[cpu];
      RefillCounts(Cfg(), View(), cpu, Want(skm.avail));
      var refill: int := if skm.refill < skm.size - skm.avail then skm.refill else skm.size - skm.avail;
      var count: nat := 0;
      ghost var goal := Refill(View(), cpu, refill);
      while refill > 0
        invariant Valid()
        invariant Refill(View(), cpu, if refill > 0 then refill else 0) == goal
        invariant skm.avail + refill <= skm.size && count + refill <= skm.refill
        invariant skm.avail + (if refill > 0 then refill else 0) == old(skm.avail) + Want(old(skm.avail))
      {
        if partial == [] { return true; }
        refill, count := DrainHead(cpu, refill, count);
      }
      grow := false;
    }

    // -------------------------------------------------------------- slabs

    /** `spl_slab_alloc`: every object of a new slab, appended to its free list in order. */
    method SlabAlloc() returns (sl: Slab)
      ensures sl == NewSlab(slabObjs)
    {
      var free: seq<nat> := [];
      for i := 0 to slabObjs
        invariant free == seq(i, k requires 0 <= k => k)
      {
        free := free + [i];
      }
      sl := Slab(slabObjs, free, 0);
    }

    /** `spl_cache_grow_work`; `memory` is the name of the slab whose memory was obtained, if any. */
    method GrowWork(memory: Option<nat>)
      requires Valid() && (memory.Some? ==> memory.value !in slabs)
      modifies `slabs, `partial, `n, `growing, `deadlocked
      ensures Valid() && !growing && !deadlocked
      ensures View() == if memory.Some? then Grow(old(View()), memory.value, slabObjs) else old(View())
    {
      hide Inv;
      if memory.Some? {
        var id := memory.value;
        StepSafe(Cfg(), View(), DoGrow(id));
        var sl := SlabAlloc();
        slabs := slabs[id := sl];
        n := n.(slabTotal := n.slabTotal + 1, objTotal := n.objTotal + sl.objs);
        partial := partial + [id];
      }
      growing, deadlocked := false, false;
    }

    /** `spl_slab_reclaim`: walk the partial list backwards and free slabs until one is in use. */
    method SlabReclaim()
      requires Valid()
      modifies `slabs, `partial, `n
      ensures Valid() && View() == Reclaim(old(View()))
      ensures forall id :: id in slabs <==> id in old(slabs) && old(slabs)[id].ref > 0
    {
      hide Inv, Shaped;
      StepSafe(Cfg(), View(), DoReclaim);
      ReclaimComplete(View());
      PartialLinked(View());
      ReclaimLoop();
    }

    /** The scan of `spl_slab_reclaim`. */
    method ReclaimLoop()
      requires LinkedPartial(View())
      modifies `slabs, `partial, `n
      ensures View() == Reclaim(old(View()))
    {
      hide Reclaim, LinkedPartial;
      ghost var goal := Reclaim(View());
      ReclaimStep(View());
      while partial != []
        invariant Reclaim(View()) == goal && LinkedPartial(View()) && (partial == [] ==> View() == goal)
        decreases |partial|
      {
        ReclaimStep(View());
        var id := partial[|partial|-1];
        if slabs[id].ref > 0 { break; }
        n := n.(objTotal := n.objTotal - slabs[id].objs, slabTotal := n.slabTotal - 1);
        partial := partial[..|partial|-1];
        slabs := slabs - {id};
        ReclaimStep(View());
      }
    }

    // -------------------------------------------------------------- clients

    /** The cache's flag bits, and what the memory and page allocators answer. */
    ghost function Call(memory: bool, pages: Option<nat>): GrowCall reads this {
      GrowCall(reaping, growing, memory, deadlocked, pages)
    }

    /**
      `spl_cache_grow`.  It returns zero only with an emergency object; a wait for reaping or for
      the new slab ends in an error, so that the magazine is looked at again.  A growth request
      that outlasts the wait marks the cache as deadlocked.
     */
    method CacheGrow(memory: bool, timedOut: bool, pages: Option<nat>) returns (r: Option<nat>)
      requires Valid()
      modifies `growing, `deadlocked, `emergency, `n
      ensures Valid() && r == GrowPages(old(View()), old(Call(memory, pages)))
      ensures r.Some? <==> old(deadlocked) && !reaping && (old(growing) || memory) && partial == []
                           && pages.Some? && pages.value !in old(emergency)
      ensures r.Some? ==> r == pages && emergency == old(emergency) + {r.value}
      ensures View() == if r.Some? then EmergencyAlloc(old(View()), r.value) else old(View())
      ensures deadlocked == (old(deadlocked) || (!reaping && (old(growing) || memory) && timedOut))
      ensures growing == (old(growing) || (!reaping && memory))
    {
      hide Valid;
      if reaping { return None; }
      var asked := AskForSlab(memory);
      if !asked { return None; }
      if deadlocked {
        var e, a := EmergencyAllocObj(pages);
        r := if e == Inserted then Some(a) else None;
      } else {
        WaitForSlab(timedOut);
        r := None;
      }
    }

    /** The growth request, unless one is already under way. */
    method AskForSlab(memory: bool) returns (asked: bool)
      requires Valid()
      modifies `growing
      ensures Valid() && View() == old(View())
      ensures growing == (old(growing) || memory) && asked == growing
    {
      hide Safe;
      if !growing {
        growing := true;
        if !memory {
          growing := false;
          return false;
        }
      }
      asked := true;
    }

    /** The wait for the new slab, which may time out. */
    method WaitForSlab(timedOut: bool)
      requires Valid()
      modifies `deadlocked
      ensures Valid() && View() == old(View()) && deadlocked == (old(deadlocked) || (timedOut && growing))
    {
      hide Safe;
      if timedOut && growing { deadlocked := true; }
    }

    /**
      One pass of `spl_kmem_cache_alloc`, with nothing between the refill and the emergency
      section.  A caller that may not sleep gets nothing when the refill just filled the magazine,
      and emergency pages when it could not and the cache is marked deadlocked.
     */
    method Alloc(cpu: nat, noSleep: bool, memory: bool, timedOut: bool, pages: Option<nat>) returns (r: AllocResult)
      requires Valid() && cpu < |mags|
      modifies this, mags[cpu], mags[cpu].objs
      ensures Valid()
      ensures var s := old(View()); var t := Refill(s, cpu, Demand(Cfg()));
        && r == Pass(Cfg(), s, cpu, noSleep, t, old(Call(memory, pages)))
        && View() == (if r.Got? then Pop(s, cpu) else if r.GotPages? then EmergencyAlloc(t, r.a) else t)
      ensures r == Failed <==>
        && noSleep && old(slots)[cpu] == []
        && (Spare(old(View())) >= Demand(Cfg()) || GrowPages(old(View()).(partial := []), old(Call(memory, pages))) == None)
      ensures r.Got? ==> r.o !in old(held) && held == old(held) + {r.o} && Live(View(), r.o)
      ensures r.GotPages? ==> r.a !in old(emergency) && emergency == old(emergency) + {r.a}
      ensures r.GotPages? <==>
        && old(slots)[cpu] == [] && old(n).objTotal - old(n).objEmergency - old(n).objAlloc < (magSize + 1) / 2
        && old(deadlocked) && !old(reaping) && (old(growing) || memory)
        && pages.Some? && pages.value !in old(emergency)
      ensures r.GotPages? ==> pages == Some(r.a)
      ensures r == Restart ==> !noSleep
      ensures r.Got? <==> old(slots)[cpu] != []
    {
      hide Inv, Refill;
      AsksIff(Cfg(), View(), cpu);
      if mags[cpu].avail > 0 {
        var o := PopMag(cpu);
        return Got(o);
      }
      RefillKeeps(View(), cpu, Demand(Cfg()));
      var grow := RefillMag(cpu);
      if grow {
        var p := CacheGrow(memory, timedOut, pages);
        if p.Some? { return GotPages(p.value); }
      }
      r := if noSleep then Failed else Restart;
    }

    /** The fast path of `spl_kmem_cache_alloc`. */
    method PopMag(cpu: nat) returns (o: Obj)
      requires Valid() && cpu < |mags| && slots[cpu] != []
      modifies `slots, `held, mags[cpu]
      ensures Valid() && View() == Pop(old(View()), cpu) && o == old(slots)[cpu][|old(slots)[cpu]|-1]
      ensures o !in old(held) && Live(View(), o)
    {
      hide Inv;
      var skm := mags[cpu];
      PopSafe(Cfg(), View(), cpu);
      skm.avail := skm.avail - 1;
      o := skm.objs[skm.avail];
      slots := slots[cpu := slots[cpu][..|slots[cpu]|-1]];
      held := held + {o};
    }

    // -------------------------------------------------------------- emergency objects

    /** `spl_emergency_alloc`; `pages` is what the page allocator returned, if anything. */
    method EmergencyAllocObj(pages: Option<nat>) returns (r: EmergencyResult, a: nat)
      requires Valid()
      modifies `emergency, `n
      ensures Valid()
      ensures r == (if partial != [] then SlabExists else if pages == None then NoMemory
                    else if pages.value in old(emergency) then Duplicate else Inserted)
      ensures r == Inserted ==> pages == Some(a) && a !in old(emergency) && View() == EmergencyAlloc(old(View()), a)
      ensures r != Inserted ==> View() == old(View())
    {
      hide Inv;
      a := 0;
      if partial != [] { return SlabExists, a; }
      if pages == None { return NoMemory, a; }
      a := pages.value;
      if a in emergency { return Duplicate, a; }
      StepSafe(Cfg(), View(), DoEmergencyAlloc(a));
      emergency := emergency + {a};
      n := n.(objTotal := n.objTotal + 1, objEmergency := n.objEmergency + 1);
      if n.objEmergency > n.objEmergencyMax { n := n.(objEmergencyMax := n.objEmergency); }
      r := Inserted;
    }

    /** `spl_emergency_free`. */
    method EmergencyFreeObj(a: nat) returns (found: bool)
      requires Valid()
      modifies `emergency, `n
      ensures Valid() && found == (a in old(emergency)) && View() == EmergencyFree(old(View()), a)
    {
      hide Inv;
      found := a in emergency;
      if found {
        StepSafe(Cfg(), View(), DoEmergencyFree(a));
        emergency := emergency - {a};
        n := n.(objEmergency := n.objEmergency - 1, objTotal := n.objTotal - 1);
      }
    }

    /** The end of `spl_kmem_cache_free`: the magazine has room. */
    method PushMag(cpu: nat, o: Obj)
      requires Valid() && cpu < |mags| && mags[cpu].avail < magSize && o in held
      modifies `slots, `held, mags[cpu], mags[cpu].objs
      ensures Valid() && View() == Push(old(View()), cpu, o)
    {
      hide Inv;
      StepSafe(Cfg(), View(), DoPush(cpu, o));
      mags[cpu].Append(o);
      slots := slots[cpu := slots[cpu] + [o]];
      held := held - {o};
    }

    /**
      `spl_kmem_cache_free` of something the caller holds.  Emergency pages never have a virtual
      address, so such addresses skip the tree.
     */
    method Free(cpu: nat, p: Ptr, virtual: bool)
      requires Valid() && cpu < |mags|
      requires p.SlabObj? ==> p.o in held
      requires p.Pages? ==> p.a in emergency && !virtual
      modifies this, mags[cpu], mags[cpu].objs
      ensures Valid()
      ensures p.Pages? ==> View() == EmergencyFree(old(View()), p.a)
      ensures p.SlabObj? ==> var s := old(View());
        View() == if |s.mags[cpu]| < magSize then Push(s, cpu, p.o)
                  else Reclaim(Push(Flush(s, cpu, (magSize + 1) / 2), cpu, p.o))
    {
      hide Inv, Flush, Reclaim;
      if !virtual {
        EmergencyCounted(View());
        var any := n.objEmergency > 0;
        if any && p.Pages? {
          var found := EmergencyFreeObj(p.a);
          if found { return; }
        }
      }
      var skm, reclaim := mags[cpu], false;
      if skm.avail >= skm.size {
        FlushShrinks(Cfg(), View(), cpu, skm.refill);
        FlushMag(cpu, skm.refill);
        reclaim := true;
      }
      PushMag(cpu, p.o);
      if reclaim { SlabReclaim(); }
    }

    /**
      `spl_kmem_cache_reap_now` without a reclaim callback: unless another reap is in progress,
      flush the local magazine if `expire` says so, and free every empty slab.
     */
    method ReapNow(cpu: nat, expire: bool)
      requires Valid() && cpu < |mags|
      modifies `slabs, `partial, `complete, `n, `slots, `reaping, mags[cpu], mags[cpu].objs
      ensures Valid() && reaping == old(reaping)
      ensures View() == if reaping then old(View())
                        else Reclaim(if expire then Flush(old(View()), cpu, |old(slots)[cpu]|) else old(View()))
      ensures !reaping ==> (expire ==> slots[cpu] == []) && forall id :: id in slabs ==> slabs[id].ref > 0
    {
      hide Inv, Flush, Reclaim;
      if reaping { return; }
      reaping := true;
      if expire {
        FlushEmpties(View(), cpu, mags[cpu].avail);
        FlushMag(cpu, mags[cpu].avail);
      }
      ReclaimBalanced(View());
      ReclaimComplete(View());
      SlabReclaim();
      reaping := false;
    }

    // -------------------------------------------------------------- create and destroy

    constructor (cpus: nat, slabObjs: nat, magSize: nat)
      requires slabObjs > 0 && magSize >= 2
      ensures Valid() && View() == Init(cpus)
      ensures this.slabObjs == slabObjs && this.magSize == magSize && fresh(mags)
      ensures !reaping && !growing && !deadlocked
    {
      var ms: seq<Magazine> := [];
      for i := 0 to cpus
        invariant |ms| == i
        invariant forall k :: 0 <= k < i ==> fresh(ms[k]) && fresh(ms[k].objs)
        invariant forall k :: 0 <= k < i ==> ms[k].Valid() && ms[k].avail == 0 && ms[k].size == magSize
        invariant forall j, k :: 0 <= j < k < i ==> ms[j] != ms[k] && ms[j].objs != ms[k].objs
      {
        var m := new Magazine(magSize);
        ms := ms + [m];
      }
      this.slabObjs, this.magSize, mags := slabObjs, magSize, ms;
      slabs, partial, complete, emergency, n := map[], [], [], {}, NoCounts;
      reaping, growing, deadlocked := false, false, false;
      held, slots := {}, seq(cpus, _ => []);
      InitSafe(Config(slabObjs, magSize), cpus);
    }

    /**
      `spl_kmem_cache_destroy` after the last caller left: empty every magazine, free every slab.
      The source's closing assertions hold exactly when no client kept anything.
     */
    method Destroy() returns (clean: bool)
      requires Valid()
      modifies `slabs, `partial, `complete, `n, `slots, mags, set m | m in mags :: m.objs
      ensures View() == Reclaim(FlushAll(old(View()), 0))
      ensures clean <==> held == {} && emergency == {}
      ensures clean <==> n.slabAlloc == 0 && n.objAlloc == 0 && n.slabTotal == 0 && n.objTotal == 0
                         && n.objEmergency == 0 && complete == []
    {
      hide Valid, Safe, FlushAll, Reclaim;
      ghost var s := View();
      ValidSafe();
      FlushMags();
      SlabReclaim();
      clean := n.slabAlloc == 0 && n.objAlloc == 0 && n.slabTotal == 0 && n.objTotal == 0
               && n.objEmergency == 0 && complete == [];
      if held == {} && emergency == {} { DestroyClean(Cfg(), s); } else { DestroyDirty(Cfg(), s); }
    }

    lemma ValidSafe()
      requires Valid()
      ensures Safe(Cfg(), View())
    {}

    /** `spl_magazine_destroy`: empty every magazine. */
    method FlushMags()
      requires Valid()
      modifies `slabs, `partial, `complete, `n, `slots, mags, set m | m in mags :: m.objs
      ensures Valid() && View() == FlushAll(old(View()), 0)
    {
      hide Valid, Flush;
      ghost var s := View();
      ValidSlots();
      for c := 0 to |mags|
        invariant Valid() && |slots| == |mags| && FlushAll(View(), c) == FlushAll(s, 0)
      {
        ValidSlots();
        FlushMag(c, mags[c].avail);
      }
    }

    lemma ValidSlots()
      requires Valid()
      ensures |slots| == |mags| && forall c :: 0 <= c < |mags| ==> |slots[c]| == mags[c].avail
    {
      hide Safe;
    }

    /** How many objects a refill asks for. */
    function Want(avail: nat): nat
      requires avail <= magSize
    {
      var r := (magSize + 1) / 2;
      if r < magSize - avail then r else magSize - avail
    }
  }

  /** `spl_magazine_size`: the tunable if set, otherwise by the size of an object with its header. */
  function MagazineSize(tunable: nat, cell: nat): (r: nat)
    ensures 2 <= r <= 256
  {
    if tunable > 0 then if tunable < 2 then 2 else if tunable < 256 then tunable else 256
    else if cell > 256 * Layout.PAGE then 4
    else if cell > 32 * Layout.PAGE then 16
    else if cell > Layout.PAGE then 64
    else if cell > Layout.PAGE / 4 then 128
    else 256
  }

  /**
    A tunable between 2 and 256 is taken as it is and any other clipped.  Otherwise larger cells
    never get larger magazines, and a full magazine of cells above 1 KB, 4 KB, 128 KB or 1 MB holds
    more than 128 KB, 256 KB, 2 MB or 4 MB.
   */
  lemma MagazineTable(tunable: nat, cell: nat, larger: nat)
    requires cell <= larger
    ensures tunable > 0 ==> MagazineSize(tunable, cell) == if tunable < 2 then 2 else if tunable > 256 then 256 else tunable
    ensures MagazineSize(0, larger) <= MagazineSize(0, cell)
    ensures MagazineSize(0, cell) == 256 <==> cell <= 0x400
    ensures MagazineSize(0, cell) == 128 <==> 0x400 < cell <= 0x1000
    ensures MagazineSize(0, cell) == 64 <==> 0x1000 < cell <= 0x2_0000
    ensures MagazineSize(0, cell) == 16 <==> 0x2_0000 < cell <= 0x10_0000
    ensures MagazineSize(0, cell) == 4 <==> 0x10_0000 < cell
    ensures var bytes := MagazineSize(0, cell) * cell;
      && (cell > 0x400 ==> bytes > 0x2_0000) && (cell > 0x1000 ==> bytes > 0x4_0000)
      && (cell > 0x2_0000 ==> bytes > 0x20_0000) && (cell > 0x10_0000 ==> bytes > 0x40_0000)
  {}

  /**
    `spl_kmem_cache_create` of a cache with its objects on the slab: null when the object size is
    refused or a magazine cannot be allocated, otherwise an empty cache of the computed shape.
   */
  method Create(cpus: nat, c: Layout.Config, magazine: nat, memory: bool) returns (r: KmemCache?)
    requires Layout.Sane(c) && Layout.SlabSize(c) != Layout.DividesByZero
    ensures r == null <==> !memory || Layout.SlabSize(c) == Layout.Refused
    ensures r != null ==> fresh(r) && fresh(r.mags) && r.Valid() && r.View() == Init(cpus)
    ensures r != null ==> r.slabObjs == Layout.SlabSize(c).objs && r.magSize == MagazineSize(magazine, Layout.CellSize(c))
    ensures r != null ==> 2 <= r.magSize <= 256 && !r.reaping && !r.growing && !r.deadlocked
    ensures r != null && Layout.NoWrap(c) ==>
      Layout.HeaderSize(c) + r.slabObjs * Layout.CellSize(c) <= Layout.SlabSize(c).size
      < Layout.HeaderSize(c) + (r.slabObjs + 1) * Layout.CellSize(c)
  {
    hide Layout.SlabSize, Layout.NoWrap, Layout.HeaderSize, Layout.CellSize;
    var sh := Layout.SlabSize(c);
    if sh == Layout.Refused || !memory { return null; }
    Layout.SizeFits(c);
    r := new KmemCache(cpus, sh.objs, MagazineSize(magazine, Layout.CellSize(c)));
  }

  lemma RefillCounts(cfg: Config, s: Cache, cpu: nat, k: nat)
    requires Safe(cfg, s) && cpu < |s.mags|
    ensures |Refill(s, cpu, k).mags[cpu]| == |s.mags[cpu]| + Least(k, Spare(s))
  {
    RefillGets(s, cpu, k);
  }

  /** A limit beyond the magazine's contents flushes the whole magazine. */
  lemma {:induction false} FlushClip(s: Cache, cpu: nat, k: nat)
    requires cpu < |s.mags|
    ensures k >= |s.mags[cpu]| ==> Flush(s, cpu, k) == Flush(s, cpu, |s.mags[cpu]|)
    decreases k
  {
    if k > |s.mags[cpu]| && CanFlush(s, cpu) {
      FlushClip(FlushOne(s, cpu), cpu, k - 1);
    }
  }

  /** The first partial slab has a free object, and is not full. */
  lemma HeadOpen(cfg: Config, s: Cache)
    requires Safe(cfg, s) && s.partial != []
    ensures HasFree(s) && s.slabs[s.partial[0]].ref < s.slabs[s.partial[0]].objs
  {
    EndsIn(s.partial);
  }

  /** Taking one object keeps every invariant, while the magazine has room. */
  lemma TakeOneSafe(cfg: Config, s: Cache, cpu: nat)
    requires s.partial != [] && s.partial[0] in s.slabs && Safe(cfg, Retire(s))
    requires s.slabs[s.partial[0]].ref < s.slabs[s.partial[0]].objs
    requires cpu < |s.mags| && |s.mags[cpu]| < cfg.magSize
    ensures HasFree(s) && Safe(cfg, Take(s, cpu))
  {
    hide Linked, Sorted, Ordered, Counted, Places;
    TakeInv(s, cpu);
    SlotsUpdate(s.mags, cpu, Take(s, cpu).mags[cpu]);
  }

  /** A refill leaves clients and emergency objects alone. */
  lemma {:induction false} RefillKeeps(s: Cache, cpu: nat, k: nat)
    requires cpu < |s.mags|
    ensures var r := Refill(s, cpu, k); r.held == s.held && r.emergency == s.emergency
    decreases k
  {
    if k > 0 && HasFree(s) { RefillKeeps(Take(s, cpu), cpu, k - 1); }
  }

  ghost predicate LinkedPartial(s: Cache) {
    NoDup(s.partial) && forall id :: id in s.partial ==> id in s.slabs
  }

  lemma ReclaimStep(s: Cache)
    requires LinkedPartial(s)
    ensures s.partial == [] ==> Reclaim(s) == s
    ensures s.partial != [] ==> var id := s.partial[|s.partial|-1];
      && id in s.slabs && (s.slabs[id].ref > 0 ==> Reclaim(s) == s)
      && (s.slabs[id].ref == 0 ==> LastIsEmpty(s) && Reclaim(s) == Reclaim(FreeLast(s)) && LinkedPartial(FreeLast(s)))
  {
    if LastIsEmpty(s) {
      var p := s.partial[..|s.partial|-1];
      assert s.partial == p + [s.partial[|s.partial|-1]];
    }
  }

  lemma PartialLinked(s: Cache)
    requires Inv(s)
    ensures LinkedPartial(s)
  {}

  /** Popping a magazine keeps every invariant and yields an object nobody holds. */
  lemma PopSafe(cfg: Config, s: Cache, cpu: nat)
    requires Safe(cfg, s) && cpu < |s.mags| && s.mags[cpu] != []
    ensures Safe(cfg, Pop(s, cpu))
    ensures s.mags[cpu][|s.mags[cpu]|-1] !in s.held && Live(Pop(s, cpu), s.mags[cpu][|s.mags[cpu]|-1])
  {
    StepSafe(cfg, s, DoPop(cpu));
    MagObject(s, cpu, s.mags[cpu][|s.mags[cpu]|-1]);
  }

  lemma EmergencyCounted(s: Cache)
    requires Inv(s)
    ensures s.n.objEmergency > 0 <==> s.emergency != {}
  {}

  /** Flushing `k` objects makes room for `k` more. */
  lemma FlushShrinks(cfg: Config, s: Cache, cpu: nat, k: nat)
    requires Safe(cfg, s) && cpu < |s.mags| && k > 0 && s.mags[cpu] != []
    ensures |Flush(s, cpu, k).mags[cpu]| < |s.mags[cpu]| && Flush(s, cpu, k).held == s.held
  {
    hide Inv;
    FlushOneSafe(cfg, s, cpu);
    FlushBalanced(FlushOne(s, cpu), cpu, k - 1);
  }
}

/**
  The slab allocator of `spl-kmem-cache.c` as a state machine.

  A state records what the cache lock protects (slabs, the partial and complete lists, the
  emergency tree, the counters), the per-CPU magazines, and the objects clients hold.  Each step
  is one lock-held or interrupt-disabled section of the source, on one object where the source
  loops; the loops themselves are `Refill`, `Flush` and `Reclaim` below.
 */
module KmemState {
  import opened Seqs

  /** An object is named by the slab its header points back to and its index there. */
  datatype Obj = Obj(slab: nat, idx: nat)

  datatype Slab = Slab(objs: nat, free: seq<nat>, ref: nat)

  datatype Counters = Counters(
    slabTotal: int, slabAlloc: int, slabMax: int,
    objTotal: int, objAlloc: int, objMax: int,
    objEmergency: int, objEmergencyMax: int)

  datatype Cache = Cache(
    slabs: map<nat, Slab>,
    partial: seq<nat>,
    complete: seq<nat>,
    mags: seq<seq<Obj>>,
    emergency: set<nat>,
    held: set<Obj>,
    n: Counters)

  const NoCounts := Counters(0, 0, 0, 0, 0, 0, 0, 0)

  function Max(a: int, b: int): int { if a > b then a else b }

  // ---------------------------------------------------------------- steps

  /** A fresh slab: every object free, in address order. */
  function NewSlab(objs: nat): Slab {
    Slab(objs, seq(objs, i requires 0 <= i => i), 0)
  }

  /** `spl_cache_grow_work`: append a fresh slab to the partial list. */
  function Grow(s: Cache, id: nat, objs: nat): Cache {
    s.(slabs := s.slabs[id := NewSlab(objs)],
       partial := s.partial + [id],
       n := s.n.(slabTotal := s.n.slabTotal + 1, objTotal := s.n.objTotal + objs))
  }

  predicate HasFree(s: Cache) {
    && s.partial != []
    && s.partial[0] in s.slabs
    && s.slabs[s.partial[0]].free != []
  }

  function CountTake(n: Counters, ref: nat): Counters {
    var alloc := n.objAlloc + 1;
    var used := if ref == 1 then n.slabAlloc + 1 else n.slabAlloc;
    n.(objAlloc := alloc, objMax := Max(n.objMax, alloc),
       slabAlloc := used, slabMax := if ref == 1 then Max(n.slabMax, used) else n.slabMax)
  }

  /** `spl_cache_obj` on the first partial slab, without relinking the slab. */
  function TakeRaw(s: Cache, cpu: nat): Cache
    requires HasFree(s) && cpu < |s.mags|
  {
    var id := s.partial[0];
    var sl := s.slabs[id];
    s.(slabs := s.slabs[id := Slab(sl.objs, sl.free[1..], sl.ref + 1)],
       mags := s.mags[cpu := s.mags[cpu] + [Obj(id, sl.free[0])]],
       n := CountTake(s.n, sl.ref + 1))
  }

  /** Move the first partial slab to the complete list once it is full. */
  function Retire(s: Cache): Cache
    requires s.partial != [] && s.partial[0] in s.slabs
  {
    var sl := s.slabs[s.partial[0]];
    if sl.ref == sl.objs then
      s.(partial := s.partial[1..], complete := [s.partial[0]] + s.complete)
    else s
  }

  /** One object from the first partial slab into the magazine of `cpu`. */
  function Take(s: Cache, cpu: nat): Cache
    requires HasFree(s) && cpu < |s.mags|
  {
    Retire(TakeRaw(s, cpu))
  }

  /** The body of `spl_cache_refill`: up to `k` objects, stopping when no slab has room. */
  function Refill(s: Cache, cpu: nat, k: nat): (r: Cache)
    requires cpu < |s.mags|
    ensures |r.mags| == |s.mags|
    decreases k
  {
    if k == 0 || !HasFree(s) then s else Refill(Take(s, cpu), cpu, k - 1)
  }

  /** `spl_kmem_cache_alloc` on a non-empty magazine: the last slot goes to the client. */
  function Pop(s: Cache, cpu: nat): Cache
    requires cpu < |s.mags| && s.mags[cpu] != []
  {
    var m := s.mags[cpu];
    s.(mags := s.mags[cpu := m[..|m|-1]], held := s.held + {m[|m|-1]})
  }

  /** `spl_kmem_cache_free` into a magazine with room. */
  function Push(s: Cache, cpu: nat, o: Obj): Cache
    requires cpu < |s.mags|
  {
    s.(mags := s.mags[cpu := s.mags[cpu] + [o]], held := s.held - {o})
  }

  /** Where `spl_cache_shrink` links a slab: at the head when it was full, at the tail when it empties. */
  ghost function ShrinkPartial(partial: seq<nat>, id: nat, sl: Slab): seq<nat> {
    var p := if sl.ref == sl.objs - 1 then [id] + Delete(partial, id) else partial;
    if sl.ref == 0 then Delete(p, id) + [id] else p
  }

  ghost function ShrinkComplete(complete: seq<nat>, id: nat, sl: Slab): seq<nat> {
    var c := if sl.ref == sl.objs - 1 then Delete(complete, id) else complete;
    if sl.ref == 0 then Delete(c, id) else c
  }

  function CountShrink(n: Counters, ref: nat): Counters {
    n.(objAlloc := n.objAlloc - 1, slabAlloc := if ref == 0 then n.slabAlloc - 1 else n.slabAlloc)
  }

  /** `spl_cache_shrink`: give `o` back to its slab and relink the slab. */
  ghost function Shrink(s: Cache, o: Obj): Cache
    requires o.slab in s.slabs && s.slabs[o.slab].ref > 0
  {
    var was := s.slabs[o.slab];
    var sl := Slab(was.objs, [o.idx] + was.free, was.ref - 1);
    s.(slabs := s.slabs[o.slab := sl],
       partial := ShrinkPartial(s.partial, o.slab, sl),
       complete := ShrinkComplete(s.complete, o.slab, sl),
       n := CountShrink(s.n, sl.ref))
  }

  /** Drop the first slot of a magazine. */
  function DropFirst(s: Cache, cpu: nat): Cache
    requires cpu < |s.mags| && s.mags[cpu] != []
  {
    s.(mags := s.mags[cpu := s.mags[cpu][1..]])
  }

  /** One round of `__spl_cache_flush`: the oldest object of the magazine goes back to its slab. */
  ghost function FlushOne(s: Cache, cpu: nat): Cache
    requires CanFlush(s, cpu)
  {
    Shrink(DropFirst(s, cpu), s.mags[cpu][0])
  }

  predicate CanFlush(s: Cache, cpu: nat) {
    && cpu < |s.mags| && s.mags[cpu] != []
    && s.mags[cpu][0].slab in s.slabs && s.slabs[s.mags[cpu][0].slab].ref > 0
  }

  /** `__spl_cache_flush` with limit `k`. */
  ghost function Flush(s: Cache, cpu: nat, k: nat): (r: Cache)
    requires cpu < |s.mags|
    ensures |r.mags| == |s.mags|
    decreases k
  {
    if k == 0 || !CanFlush(s, cpu) then s else Flush(FlushOne(s, cpu), cpu, k - 1)
  }

  predicate LastIsEmpty(s: Cache) {
    && s.partial != []
    && s.partial[|s.partial|-1] in s.slabs
    && s.slabs[s.partial[|s.partial|-1]].ref == 0
  }

  /** `spl_slab_free` on the last partial slab. */
  function FreeLast(s: Cache): Cache
    requires LastIsEmpty(s)
  {
    var id := s.partial[|s.partial|-1];
    s.(slabs := s.slabs - {id},
       partial := s.partial[..|s.partial|-1],
       n := s.n.(slabTotal := s.n.slabTotal - 1, objTotal := s.n.objTotal - s.slabs[id].objs))
  }

  /** `spl_slab_reclaim`: scan the partial list backwards, stop at the first slab in use. */
  function Reclaim(s: Cache): Cache
    decreases |s.partial|
  {
    if LastIsEmpty(s) then Reclaim(FreeLast(s)) else s
  }

  /** `spl_emergency_alloc` once pages at `a` were obtained. */
  function EmergencyAlloc(s: Cache, a: nat): Cache {
    if a in s.emergency then s
    else
      var k := s.n.objEmergency + 1;
      s.(emergency := s.emergency + {a},
         n := s.n.(objTotal := s.n.objTotal + 1, objEmergency := k,
                   objEmergencyMax := Max(s.n.objEmergencyMax, k)))
  }

  /** `spl_emergency_free`. */
  function EmergencyFree(s: Cache, a: nat): Cache {
    if a in s.emergency then
      s.(emergency := s.emergency - {a},
         n := s.n.(objTotal := s.n.objTotal - 1, objEmergency := s.n.objEmergency - 1))
    else s
  }

  // ---------------------------------------------------------------- invariant: places

  predicate Live(s: Cache, o: Obj) {
    o.slab in s.slabs && o.idx < s.slabs[o.slab].objs
  }

  function FreeCount(m: map<nat, Slab>, o: Obj): nat {
    if o.slab in m then multiset(m[o.slab].free)[o.idx] else 0
  }

  function MagCount(mags: seq<seq<Obj>>, o: Obj): nat {
    if mags == [] then 0 else multiset(mags[0])[o] + MagCount(mags[1..], o)
  }

  /** How many places `o` is in: free-list entries, magazine slots and client hands. */
  function Places(s: Cache, o: Obj): nat {
    FreeCount(s.slabs, o) + MagCount(s.mags, o) + (if o in s.held then 1 else 0)
  }

  predicate SlabOk(sl: Slab) {
    sl.objs > 0 && |sl.free| + sl.ref == sl.objs
  }

  /** Every live object is in exactly one place, and nothing else is anywhere. */
  ghost predicate Placed(s: Cache) {
    && (forall id :: id in s.slabs ==> SlabOk(s.slabs[id]))
    && (forall o :: Places(s, o) == if Live(s, o) then 1 else 0)
  }

  // ---------------------------------------------------------------- invariant: lists

  /** The two lists together hold every slab exactly once. */
  ghost predicate Linked(s: Cache) {
    && NoDup(s.partial) && NoDup(s.complete)
    && (forall id :: id in s.partial ==> id in s.slabs)
    && (forall id :: id in s.complete ==> id in s.slabs)
    && (forall id :: id in s.slabs ==> (id in s.partial <==> id !in s.complete))
  }

  /** A slab is on the complete list exactly when all its objects are taken. */
  ghost predicate Sorted(s: Cache) {
    forall id :: id in s.slabs ==> (id in s.complete <==> s.slabs[id].ref == s.slabs[id].objs)
  }

  /** The partial list is a run of slabs in use followed by a run of empty ones. */
  ghost predicate Ordered(s: Cache) {
    InRuns(s.slabs, s.partial)
  }

  ghost predicate InRuns(m: map<nat, Slab>, partial: seq<nat>) {
    exists k :: CutAt(m, partial, k)
  }

  ghost predicate CutAt(m: map<nat, Slab>, partial: seq<nat>, k: int) {
    && 0 <= k <= |partial|
    && (forall id :: id in partial[..k] ==> !Empty(m, id))
    && (forall id :: id in partial[k..] ==> Empty(m, id))
  }

  predicate Empty(m: map<nat, Slab>, id: nat) {
    id in m && m[id].ref == 0
  }

  ghost predicate Listed(s: Cache) {
    Linked(s) && Sorted(s) && Ordered(s)
  }

  // ---------------------------------------------------------------- invariant: counters

  /** What is summed over a list of slabs: slabs in use, objects taken, or objects in all. */
  datatype Measure = Used | Refs | Objs

  function Share(m: map<nat, Slab>, id: nat, w: Measure): int {
    if id !in m then 0
    else match w
      case Used => if m[id].ref > 0 then 1 else 0
      case Refs => m[id].ref
      case Objs => m[id].objs
  }

  function Total(m: map<nat, Slab>, ids: seq<nat>, w: Measure): int {
    if ids == [] then 0 else Share(m, ids[0], w) + Total(m, ids[1..], w)
  }

  function Sum(s: Cache, w: Measure): int {
    Total(s.slabs, s.partial, w) + Total(s.slabs, s.complete, w)
  }

  /** The counters agree with the lists. */
  ghost predicate Counted(s: Cache) {
    && s.n.slabTotal == |s.partial| + |s.complete|
    && s.n.slabAlloc == Sum(s, Used)
    && s.n.objAlloc == Sum(s, Refs)
    && s.n.objTotal == Sum(s, Objs) + |s.emergency|
    && s.n.objEmergency == |s.emergency|
    && s.n.objMax >= s.n.objAlloc && s.n.slabMax >= s.n.slabAlloc
    && s.n.objEmergencyMax >= s.n.objEmergency
  }

  ghost predicate Inv(s: Cache) {
    Placed(s) && Listed(s) && Counted(s)
  }
}

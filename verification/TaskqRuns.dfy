/** Whole runs of the task queue: what waiters may conclude, and what threads may not do. */
module TaskqRuns {
  import opened Seqs
  import opened TaskqState
  import opened TaskqProofs

  /** A queue as `taskq_create` leaves it: `n` workers, and an entry pool that may be pre-populated. */
  predicate Created(s: Tq) {
    && s.pend == [] && s.prio == [] && s.delay == [] && s.active == [] && s.runner == map[]
    && s.nextId == 1 && s.lowestId == 1 && s.prealloc == {} && s.limbo == {} && s.live
    && s.pool.nalloc == s.pool.free <= s.pool.minalloc
    && NoDup(s.crew.threads) && s.crew.nthreads == |s.crew.threads| <= s.crew.maxthreads
    && s.crew.nactive == 0 && s.crew.nspawn == 0 && s.crew.requests == 0 && s.crew.lost == 0
    && s.log == Log([], [], {}, {})
  }

  ghost predicate Run(trace: seq<Tq>, steps: seq<Step>) {
    && |trace| == |steps| + 1
    && Created(trace[0])
    && forall i :: 0 <= i < |steps| ==> Enabled(trace[i], steps[i]) && trace[i+1] == Apply(trace[i], steps[i])
  }

  lemma CreatedInv(s: Tq)
    requires Created(s)
    ensures Inv(s)
  {
    assert Owned(s) == {};
  }

  /** What may change between two states of a run, in one direction only. */
  ghost predicate Later(s: Tq, s': Tq) {
    && s.nextId <= s'.nextId && s.lowestId <= s'.lowestId
    && s.log.finished <= s'.log.finished && s.log.cancelled <= s'.log.cancelled
    && s.log.started <= s'.log.started
    && s.crew.lost <= s'.crew.lost && s.crew.maxthreads == s'.crew.maxthreads
  }

  lemma StepInv(s: Tq, st: Step)
    requires Inv(s) && Enabled(s, st)
    ensures Inv(Apply(s, st)) && Later(s, Apply(s, st))
  {
    hide Inv, Later, Assign, ExpireTask, StartNext, FinishTask, CancelTask, DropEntry, RequestThread, ServeRequest,
         AddThread, DropThread;
    match st
    case Dispatch(q, src) => DispatchInv(s, q, src);
    case Expire(id) => ExpireInv(s, id);
    case Start(t) => StartInv(s, t);
    case Finish(t) => FinishInv(s, t);
    case Cancel(id) => CancelInv(s, id);
    case CancelDone(id) => DropEntryInv(s, id);
    case Spawn(queued) => RequestInv(s, queued);
    case SpawnFail => ServeInv(s);
    case ThreadStart(t) => AddThreadInv(s, t);
    case ThreadExit(t) => DropThreadInv(s, t);
    case Deactivate => DeactivateInv(s);
  }

  lemma ServeInv(s: Tq)
    requires Inv(s) && s.crew.requests > 0
    ensures Inv(ServeRequest(s)) && Later(s, ServeRequest(s))
  {
    hide IdInv;
    QuietInv(s, ServeRequest(s));
  }

  lemma DeactivateInv(s: Tq)
    requires Inv(s)
    ensures Inv(s.(live := false)) && Later(s, s.(live := false))
  {
    hide IdInv;
    QuietInv(s, s.(live := false));
  }

  lemma DispatchInv(s: Tq, q: Queue, src: Source)
    requires Inv(s) && Enabled(s, Dispatch(q, src))
    ensures Inv(Assign(s, q, src)) && Later(s, Assign(s, q, src))
  {
    hide IdInv, PoolInv;
    AssignIds(s, q, src);
    AssignPool(s, q, src);
  }

  lemma ExpireInv(s: Tq, id: nat)
    requires Inv(s) && id in s.delay
    ensures Inv(ExpireTask(s, id)) && Later(s, ExpireTask(s, id))
  {
    hide Placed, Logged, IsLowest, Insert, Delete, Ascending, PoolInv;
    ExpireIds(s, id);
    Where(s, id);
    InsertFacts(s.prio, id);
    DeleteMembers(s.delay, id);
    StartExpirePool(s, ExpireTask(s, id));
  }

  lemma StartInv(s: Tq, t: nat)
    requires Inv(s) && Enabled(s, Start(t))
    ensures Inv(StartNext(s, t)) && Later(s, StartNext(s, t))
  {
    hide Placed, Logged, IsLowest, Insert, Ascending, PoolInv, CrewInv;
    StartIds(s, t);
    StartCrew(s, t);
    StartPlaced(s, t);
    InsertFacts(s.active, NextTask(s));
    TailOrNone(s.prio);
    TailOrNone(s.pend);
    StartExpirePool(s, StartNext(s, t));
  }

  lemma FinishInv(s: Tq, t: nat)
    requires Inv(s) && t in s.runner
    ensures Inv(FinishTask(s, t)) && Later(s, FinishTask(s, t))
  {
    hide Placed, Logged, IsLowest, Delete, Ascending, PoolInv, CrewInv, LowestOf;
    RunsActive(s, t);
    FinishIds(s, t);
    FinishCrew(s, t);
    DeleteMembers(s.active, s.runner[t]);
    Where(s, s.runner[t]);
    LeavePool(s, FinishTask(s, t), s.runner[t], false);
  }

  lemma RunsActive(s: Tq, t: nat)
    requires CrewInv(s) && t in s.runner
    ensures s.runner[t] in s.active
  {}

  lemma CancelInv(s: Tq, id: nat)
    requires Inv(s) && Enabled(s, Cancel(id))
    ensures Inv(CancelTask(s, id)) && Later(s, CancelTask(s, id))
  {
    hide Placed, Logged, IsLowest, DropIf, Ascending, PoolInv, LowestOf, TaskDone;
    CancelIds(s, id);
    Where(s, id);
    CancelLists(s, id);
    LeavePool(s, CancelTask(s, id), id, id in s.delay);
  }

  lemma DropEntryInv(s: Tq, id: nat)
    requires Inv(s) && id in s.limbo
    ensures Inv(DropEntry(s, id)) && Later(s, DropEntry(s, id))
  {
    hide IdInv;
    QuietInv(s, DropEntry(s, id));
  }

  lemma RequestInv(s: Tq, queued: bool)
    requires Inv(s) && s.crew.nthreads + s.crew.nspawn < s.crew.maxthreads
    ensures Inv(RequestThread(s, queued)) && Later(s, RequestThread(s, queued))
  {
    hide IdInv;
    QuietInv(s, RequestThread(s, queued));
  }

  lemma AddThreadInv(s: Tq, t: nat)
    requires Inv(s) && Enabled(s, ThreadStart(t))
    ensures Inv(AddThread(s, t)) && Later(s, AddThread(s, t))
    ensures s.crew.nthreads < s.crew.maxthreads
  {
    hide IdInv, NoDup;
    ThreadStartCrew(s, t);
    QuietInv(s, AddThread(s, t));
  }

  lemma DropThreadInv(s: Tq, t: nat)
    requires Inv(s) && Idle(s, t)
    ensures Inv(DropThread(s, t)) && Later(s, DropThread(s, t))
  {
    hide IdInv, NoDup;
    ExitCrew(s, t);
    QuietInv(s, DropThread(s, t));
  }

  /** Sections that leave lists and ids alone. */
  lemma QuietInv(s: Tq, s': Tq)
    requires Inv(s) && CrewInv(s')
    requires s' == s.(crew := s'.crew, pool := s'.pool, limbo := s'.limbo, live := s'.live)
    requires s'.pool.nalloc - s'.pool.free == s.pool.nalloc - s.pool.free - |s.limbo| + |s'.limbo|
    requires s'.limbo <= s.limbo && s'.pool.free <= s'.pool.minalloc
    requires s.crew.lost <= s'.crew.lost && s.crew.maxthreads == s'.crew.maxthreads
    ensures Inv(s') && Later(s, s')
  {
    forall id: nat ensures Places(s', id) == if 1 <= id < s'.nextId then 1 else 0 {
      assert Places(s, id) == if 1 <= id < s.nextId then 1 else 0;
    }
    OwnedFrame(s, s');
    LowestFrame(s, s', s.lowestId);
  }

  // ---------------------------------------------------------------- every reachable state

  /** Every state of every run satisfies the id, pool and thread invariants. */
  lemma {:induction false} RunInv(trace: seq<Tq>, steps: seq<Step>, i: nat)
    requires Run(trace, steps) && i < |trace|
    ensures Inv(trace[i])
  {
    if i == 0 {
      CreatedInv(trace[0]);
    } else {
      RunInv(trace, steps, i - 1);
      StepInv(trace[i-1], steps[i-1]);
    }
  }

  /** Nothing that must only grow ever shrinks; in particular the lowest id never decreases. */
  lemma {:induction false} RunLater(trace: seq<Tq>, steps: seq<Step>, i: nat, j: nat)
    requires Run(trace, steps) && i <= j < |trace|
    ensures Later(trace[i], trace[j])
    decreases j - i
  {
    hide Inv, Apply;
    if i < j {
      RunLater(trace, steps, i, j - 1);
      RunInv(trace, steps, j - 1);
      StepInv(trace[j-1], steps[j-1]);
    }
  }

  lemma RunLowest(trace: seq<Tq>, steps: seq<Step>, i: nat, j: nat)
    requires Run(trace, steps) && i <= j < |trace|
    ensures Sorted(trace[i]) && IsLowest(trace[i], trace[i].lowestId) && trace[i].lowestId <= trace[j].lowestId
  {
    RunInv(trace, steps, i);
    RunLater(trace, steps, i, j);
  }

  /** Each assigned id is in one place only, starts at most once, and pending tasks start in id order. */
  lemma RunPlaces(trace: seq<Tq>, steps: seq<Step>, i: nat, id: nat)
    requires Run(trace, steps) && i < |trace| && 1 <= id < trace[i].nextId
    ensures Places(trace[i], id) == 1
    ensures multiset(trace[i].log.started)[id] <= 1
    ensures id in trace[i].log.started <==> id in trace[i].active || id in trace[i].log.finished
    ensures Ascending(trace[i].log.startedPend)
  {
    RunInv(trace, steps, i);
    NoDupCounts(trace[i].log.started, id);
  }

  lemma {:induction false} NoDupCounts(s: seq<nat>, x: nat)
    requires NoDup(s)
    ensures multiset(s)[x] <= 1
  {
    if s != [] {
      TailFacts(s);
      NoDupCounts(s[1..], x);
      assert s == [s[0]] + s[1..];
      assert s[0] in s[1..] <==> s[0] in multiset(s[1..]);
    }
  }

  // ---------------------------------------------------------------- what waiting means

  /** A done id is done for good: it is in no list of any later state. */
  lemma DoneForGood(trace: seq<Tq>, steps: seq<Step>, i: nat, j: nat, id: nat)
    requires Run(trace, steps) && i <= j < |trace| && Done(trace[i], id)
    ensures Done(trace[j], id) && !Outstanding(trace[j], id)
  {
    RunLater(trace, steps, i, j);
    RunInv(trace, steps, j);
    Where(trace[j], id);
  }

  /** `taskq_wait_id` passes when the id is in no list; an assigned id is then done for good. */
  lemma WaitId(trace: seq<Tq>, steps: seq<Step>, i: nat, j: nat, id: nat)
    requires Run(trace, steps) && i <= j < |trace|
    requires 1 <= id < trace[i].nextId && !Outstanding(trace[i], id)
    ensures Done(trace[j], id) && !Outstanding(trace[j], id)
  {
    RunInv(trace, steps, i);
    Where(trace[i], id);
    DoneForGood(trace, steps, i, j, id);
  }

  /**
    `taskq_wait_outstanding` called in state `h` and passing in state `i`: every id up to the one
    given, or every id assigned by then if none is given, is done for good.  Its comment promises
    only the ids below.
   */
  lemma WaitOutstanding(trace: seq<Tq>, steps: seq<Step>, h: nat, i: nat, j: nat, arg: nat, id: nat)
    requires Run(trace, steps) && h <= i <= j < |trace|
    requires (if arg != 0 then arg else trace[h].nextId - 1) < trace[i].lowestId
    requires 1 <= id && if arg != 0 then id <= arg else id < trace[h].nextId
    ensures Done(trace[j], id) && !Outstanding(trace[j], id)
  {
    RunInv(trace, steps, i);
    WaitId(trace, steps, i, j, id);
  }

  /** The cached lowest id decides whether every id up to `n` is done, for any `n`. */
  lemma AllDoneBelow(s: Tq, n: nat)
    requires Inv(s)
    ensures n < s.lowestId <==> forall k: nat :: 1 <= k <= n ==> Done(s, k)
  {
    LowestBelowNext(s);
    forall k: nat | 1 <= k <= n && n < s.lowestId ensures Done(s, k) { Where(s, k); }
    if s.lowestId <= n { Where(s, s.lowestId); }
  }

  /** With every lower id done, the check still blocks exactly when `id` is the lowest outstanding id. */
  lemma WaitsForItself(s: Tq, id: nat)
    requires Inv(s) && 1 <= id
    ensures (forall k: nat :: 1 <= k < id ==> Done(s, k)) && !(id < s.lowestId) <==> s.lowestId == id
  {
    AllDoneBelow(s, id - 1);
  }

  /** `taskq_wait` passes exactly when the queue is empty; all ids assigned by then are done for good. */
  lemma WaitAll(trace: seq<Tq>, steps: seq<Step>, i: nat, j: nat, id: nat)
    requires Run(trace, steps) && i <= j < |trace|
    ensures trace[i].lowestId == trace[i].nextId <==>
            trace[i].pend == [] && trace[i].prio == [] && trace[i].delay == [] && trace[i].active == []
    ensures trace[i].lowestId == trace[i].nextId && 1 <= id < trace[i].nextId ==>
            Done(trace[j], id) && !Outstanding(trace[j], id)
  {
    hide Inv, Run;
    RunInv(trace, steps, i);
    EmptyIff(trace[i]);
    if trace[i].lowestId == trace[i].nextId && 1 <= id < trace[i].nextId {
      WaitId(trace, steps, i, j, id);
    }
  }

  lemma EmptyIff(s: Tq)
    requires Inv(s)
    ensures s.lowestId == s.nextId <==> s.pend == [] && s.prio == [] && s.delay == [] && s.active == []
    ensures s.lowestId == s.nextId ==> forall id :: !Outstanding(s, id)
  {
    hide Placed, Sorted, Logged, PoolInv, CrewInv;
    BelowNext(s);
    if s.pend != [] { assert Outstanding(s, s.pend[0]); }
    if s.prio != [] { assert Outstanding(s, s.prio[0]); }
    if s.delay != [] { assert Outstanding(s, s.delay[0]); }
    if s.active != [] { assert Outstanding(s, s.active[0]); }
  }

  // ---------------------------------------------------------------- workers and entries

  /** Workers are never more than allowed, nor busier than present; entries are conserved. */
  lemma RunCrew(trace: seq<Tq>, steps: seq<Step>, i: nat)
    requires Run(trace, steps) && i < |trace|
    ensures var c := trace[i].crew;
      && 0 <= c.nactive <= c.nthreads && c.nthreads + c.nspawn <= c.maxthreads
      && c.nspawn == c.requests + c.lost
    ensures var p := trace[i].pool;
      && p.nalloc == p.free + |Owned(trace[i])| + |trace[i].limbo| && p.free <= p.minalloc
  {
    var s := trace[i];
    RunInv(trace, steps, i);
    NoDupCardinality(s.crew.threads);
    var all := set t | t in s.crew.threads;
    assert s.runner.Keys <= all;
    SubsetSize(s.runner.Keys, all);
  }

  /** A spawned worker never finds too many threads, so the early exit is never taken. */
  lemma SpawnedThreadStays(trace: seq<Tq>, steps: seq<Step>, i: nat)
    requires Run(trace, steps) && i < |steps| && steps[i].ThreadStart?
    ensures trace[i].crew.nthreads < trace[i].crew.maxthreads
    ensures trace[i+1].crew.threads == trace[i].crew.threads + [steps[i].thread]
  {
    RunInv(trace, steps, i);
    ThreadStartCrew(trace[i], steps[i].thread);
  }

  /** `taskq_destroy` waits for `nspawn` to reach zero; one refused spawn request prevents that forever. */
  lemma LostSpawnBlocksDestroy(trace: seq<Tq>, steps: seq<Step>, i: nat, j: nat)
    requires Run(trace, steps) && i <= j < |trace|
    ensures trace[i].crew.lost > 0 ==> trace[j].crew.nspawn > 0
    ensures trace[j].crew.nspawn == 0 <==> trace[j].crew.lost == 0 && trace[j].crew.requests == 0
  {
    RunInv(trace, steps, j);
    RunLater(trace, steps, i, j);
  }

  /** With the queue drained, every entry is back in the free list unless a cancel is still in flight. */
  lemma DrainedPool(trace: seq<Tq>, steps: seq<Step>, i: nat)
    requires Run(trace, steps) && i < |trace| && trace[i].lowestId == trace[i].nextId
    ensures trace[i].pool.nalloc == trace[i].pool.free <==> trace[i].limbo == {}
  {
    hide Run;
    RunInv(trace, steps, i);
    EmptyIff(trace[i]);
    assert Owned(trace[i]) == {};
  }

  // ---------------------------------------------------------------- destroy

  /** `taskq_destroy` frees what is on the free list. */
  function Drain(s: Tq): Tq { s.(pool := s.pool.(free := 0, nalloc := s.pool.nalloc - s.pool.free)) }

  /** The closing assertions of `taskq_destroy`. */
  predicate Closed(s: Tq) {
    && s.crew.nthreads == 0 && s.pool.nalloc == 0 && s.crew.nspawn == 0
    && s.crew.threads == [] && s.active == [] && s.pool.free == 0
    && s.pend == [] && s.prio == [] && s.delay == []
  }

  /**
    Once no thread is left or promised, the closing assertions hold exactly when no task is
    outstanding and no cancel is still waiting for its timer.
   */
  lemma DestroyIff(s: Tq)
    requires Inv(s) && s.crew.nspawn == 0 && s.crew.threads == []
    ensures Closed(Drain(s)) <==> s.lowestId == s.nextId && s.limbo == {}
  {
    EmptyIff(s);
    assert s.runner == map[] by { assert forall t :: t !in s.runner; }
    if s.lowestId == s.nextId { assert Owned(s) == {}; }
    hide IdInv, Lowest;
  }

  // ---------------------------------------------------------------- witnesses

  /** A dynamic queue with worker 7, room for another, and no pooled entries. */
  function OneWorker(): Tq {
    Tq([], [], [], [], map[], 1, 1, {}, {}, true, true, Pool(0, 0, 0), Crew([7], 1, 0, 0, 2, 0, 0), Log([], [], {}, {}))
  }

  /** A queue with nothing outstanding whose only worker is idle. */
  predicate AtRest(s: Tq) {
    && s.pend == [] && s.prio == [] && s.delay == [] && s.active == [] && s.runner == map[] && s.prealloc == {}
    && s.crew.threads == [7] && s.lowestId == s.nextId && s.pool == Pool(0, 0, 0) && s.live
  }

  /** The worker runs the one task queued at rest. */
  lemma TaskStarts(s: Tq)
    requires AtRest(s)
    ensures Enabled(Assign(s, Pend, Fresh), Start(7))
    ensures StartNext(Assign(s, Pend, Fresh), 7) ==
      s.(nextId := s.nextId + 1, active := [s.nextId], runner := map[7 := s.nextId],
        pool := Pool(0, 1, 0), crew := s.crew.(nactive := s.crew.nactive + 1),
        log := s.log.(started := s.log.started + [s.nextId], startedPend := s.log.startedPend + [s.nextId]))
  {
    var (a, id) := (Assign(s, Pend, Fresh), s.nextId);
    assert a.pend == [id];
    var b := StartNext(a, 7);
    assert b.active == [id] && b.pend == [];
  }

  /** When it is done the queue is at rest again. */
  lemma TaskFinishes(s: Tq, id: nat)
    requires s.pend == [] && s.prio == [] && s.delay == [] && s.active == [id] && s.runner == map[7 := id]
    requires s.lowestId == id && s.prealloc == {} && s.pool == Pool(0, 1, 0)
    ensures FinishTask(s, 7) == s.(active := [], runner := map[], pool := Pool(0, 0, 0), lowestId := s.nextId,
      crew := s.crew.(nactive := s.crew.nactive - 1), log := s.log.(finished := s.log.finished + {id}))
  {
    DeleteOnly(id);
    hide Delete;
    assert s.runner - {7} == map[];
  }

  lemma RunStarts()
    ensures Run([OneWorker()], []) && AtRest(OneWorker())
  {}

  lemma RunExtends(trace: seq<Tq>, steps: seq<Step>, st: Step) returns (t: seq<Tq>, p: seq<Step>)
    requires Run(trace, steps) && Enabled(trace[|trace|-1], st)
    ensures t == trace + [Apply(trace[|trace|-1], st)] && p == steps + [st] && Run(t, p) && |p| == |steps| + 1
  {
    hide Apply, Enabled, Created;
    t, p := trace + [Apply(trace[|trace|-1], st)], steps + [st];
  }

  lemma DeleteOnly(x: nat)
    ensures Delete([x], x) == []
  {
    DeleteFacts([x], x);
  }

  /** Task 1 is done and task 2 is queued: the wait for task 2 does not pass, though all lower ids are done. */
  lemma WaitOutstandingWitness()
    ensures exists trace: seq<Tq>, steps ::
      && Run(trace, steps) && |steps| == 4
      && (forall k: nat :: 1 <= k < 2 ==> Done(trace[4], k)) && !(2 < trace[4].lowestId)
  {
    hide Run, StartNext, FinishTask;
    var s := OneWorker();
    RunStarts();
    var trace: seq<Tq>, steps: seq<Step> := [s], [];
    trace, steps := RunExtends(trace, steps, Dispatch(Pend, Fresh));
    var a := Assign(s, Pend, Fresh);
    TaskStarts(s);
    trace, steps := RunExtends(trace, steps, Start(7));
    var b := StartNext(a, 7);
    TaskFinishes(b, 1);
    trace, steps := RunExtends(trace, steps, Finish(7));
    var c := FinishTask(b, 7);
    trace, steps := RunExtends(trace, steps, Dispatch(Pend, Fresh));
    assert Done(trace[4], 1);
  }

  /** The request for a second thread is refused while the first is busy; the drained queue never gets rid of it. */
  lemma LostSpawnWitness()
    ensures exists trace: seq<Tq>, steps ::
      && Run(trace, steps) && |steps| == 5
      && trace[2].crew.nactive == trace[2].crew.nthreads && steps[2] == Spawn(false)
      && trace[5].lowestId == trace[5].nextId && !trace[5].live
      && trace[5].crew.lost > 0 && trace[5].crew.requests == 0 && trace[5].crew.nspawn > 0
  {
    hide Run, StartNext, FinishTask;
    var s := OneWorker();
    RunStarts();
    var trace: seq<Tq>, steps: seq<Step> := [s], [];
    trace, steps := RunExtends(trace, steps, Dispatch(Pend, Fresh));
    var a := Assign(s, Pend, Fresh);
    TaskStarts(s);
    trace, steps := RunExtends(trace, steps, Start(7));
    var b := StartNext(a, 7);
    trace, steps := RunExtends(trace, steps, Spawn(false));
    var c := RequestThread(b, false);
    TaskFinishes(c, 1);
    trace, steps := RunExtends(trace, steps, Finish(7));
    trace, steps := RunExtends(trace, steps, Deactivate);
  }

  lemma CancelOnly(s: Tq, id: nat)
    requires s.pend == [] && s.prio == [] && s.delay == [id] && s.active == [] && s.limbo == {} && s.lowestId == id
    ensures CancelTask(s, id) == s.(delay := [], limbo := {id}, lowestId := s.nextId,
      log := s.log.(cancelled := s.log.cancelled + {id}))
  {
    DeleteOnly(id);
    hide Delete;
  }

  /** A delayed task is cancelled, and the queue destroyed before its timer is known to be dead. */
  lemma DestroyWitness()
    ensures exists trace: seq<Tq>, steps ::
      && Run(trace, steps) && |steps| == 4
      && trace[4].crew.nspawn == 0 && trace[4].crew.threads == [] && trace[4].lowestId == trace[4].nextId
      && !Closed(Drain(trace[4]))
  {
    hide Run, CancelTask, Delete;
    var s := OneWorker();
    RunStarts();
    var trace: seq<Tq>, steps: seq<Step> := [s], [];
    trace, steps := RunExtends(trace, steps, Dispatch(Delay, Fresh));
    var a := Assign(s, Delay, Fresh);
    CancelOnly(a, 1);
    trace, steps := RunExtends(trace, steps, Cancel(1));
    var b := CancelTask(a, 1);
    trace, steps := RunExtends(trace, steps, Deactivate);
    var c := b.(live := false);
    DeleteOnly(7);
    trace, steps := RunExtends(trace, steps, ThreadExit(7));
    var d := DropThread(c, 7);
    assert Drain(d).pool.nalloc == 1;
  }
}

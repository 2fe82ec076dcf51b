/**
  The operations of `spl-taskq.c` with the source's loops, one method per lock-held section,
  proved to compute the steps of `TaskqState`.
 */
module Taskq {
  import opened Options
  import opened Seqs
  import S = TaskqState
  import P = TaskqProofs
  import R = TaskqRuns

  /** How a dispatch leaves its first lock-held section. */
  datatype DispatchResult = Assigned(id: nat) | Refused | Unlocked

  datatype Flags = Flags(noQueue: bool, noAlloc: bool, noSleep: bool, isNew: bool)

  class Taskq {
    var pend: seq<nat>
    var prio: seq<nat>
    var delay: seq<nat>
    var active: seq<nat>
    var runner: map<nat, nat>
    var nextId: nat
    var lowestId: nat
    var prealloc: set<nat>
    var live: bool
    var dynamic: bool
    var maxalloc: int
    var pool: S.Pool
    var crew: S.Crew
    ghost var limbo: set<nat>
    ghost var log: S.Log

    ghost function View(): S.Tq reads this {
      S.Tq(pend, prio, delay, active, runner, nextId, lowestId, prealloc, limbo, live, dynamic,
           pool, crew, log)
    }

    ghost predicate Valid() reads this { S.Inv(View()) }

    // -------------------------------------------------------------- ordered lists

    /** The loop of `task_expire` and `taskq_insert_in_order`: search from the tail, insert after. */
    static method InsertInOrder(s: seq<nat>, x: nat) returns (r: seq<nat>)
      ensures r == S.Insert(s, x)
    {
      var k := |s|;
      assert s[..k] == s;
      while k > 0 && s[k-1] >= x
        invariant 0 <= k <= |s|
        invariant S.Slot(s[..k], x) == S.Slot(s, x)
      {
        assert s[..k][..k-1] == s[..k-1];
        k := k - 1;
      }
      r := s[..k] + [x] + s[k..];
    }

    /** `taskq_find_list`: stops at the first larger id, which is right only because the list is sorted. */
    static method FindList(s: seq<nat>, id: nat) returns (found: bool)
      requires S.Ascending(s)
      ensures found <==> id in s
    {
      for i := 0 to |s|
        invariant id !in s[..i]
      {
        if s[i] == id { return true; }
        if s[i] > id {
          assert forall j :: i <= j < |s| ==> s[j] > id;
          assert s == s[..i] + s[i..];
          return false;
        }
        assert s[..i+1] == s[..i] + [s[i]];
      }
      assert s[..|s|] == s;
      found := false;
    }

    /** `taskq_find` over the delay, priority, pending and active lists, in that order. */
    method Find(id: nat) returns (found: bool, isActive: bool)
      requires Valid()
      ensures found <==> S.Outstanding(View(), id)
      ensures isActive <==> id in active
    {
      P.Where(View(), id);
      isActive := false;
      found := FindList(delay, id);
      if found { return; }
      found := FindList(prio, id);
      if found { return; }
      found := FindList(pend, id);
      if found { return; }
      found := id in active;
      isActive := found;
    }

    /** `taskq_lowest_id`. */
    method LowestId() returns (m: nat)
      ensures m == S.LowestOf(pend, prio, delay, active, nextId)
    {
      m := nextId;
      if pend != [] { m := S.Min(m, pend[0]); }
      if prio != [] { m := S.Min(m, prio[0]); }
      if delay != [] { m := S.Min(m, delay[0]); }
      if active != [] { m := S.Min(m, active[0]); }
    }

    /** When the lowest outstanding task left the queue, find the next one. */
    method Settle(id: nat)
      modifies `lowestId
      ensures View() == S.Settle(old(View()), id)
    {
      hide S.LowestOf;
      if lowestId == id { lowestId := LowestId(); }
    }

    // -------------------------------------------------------------- entries

    /** `task_done`. */
    method TaskDone()
      modifies `pool
      ensures pool == S.TaskDone(old(pool))
    {
      if pool.nalloc <= pool.minalloc {
        pool := pool.(free := pool.free + 1);
      } else {
        pool := pool.(nalloc := pool.nalloc - 1);
      }
    }

    // -------------------------------------------------------------- dispatch

    /** The common tail of the dispatch functions: give the entry the next id and queue it. */
    method Enqueue(q: S.Queue, src: S.Source) returns (id: nat)
      requires Valid() && S.Enabled(View(), S.Dispatch(q, src))
      modifies `pend, `prio, `delay, `nextId, `prealloc, `pool
      ensures Valid() && id == old(nextId) && View() == S.Assign(old(View()), q, src)
      ensures pend == if q == S.Pend then old(pend) + [old(nextId)] else old(pend)
      ensures prio == if q == S.Prio then old(prio) + [old(nextId)] else old(prio)
      ensures delay == if q == S.Delay then old(delay) + [old(nextId)] else old(delay)
    {
      hide S.Inv, R.Later;
      R.DispatchInv(View(), q, src);
      TakeEntry(src);
      id := nextId;
      if src == S.Caller { prealloc := prealloc + {id}; }
      LinkTail(q, id);
      nextId := nextId + 1;
    }

    /** Account for the entry of a new task. */
    method TakeEntry(src: S.Source)
      requires src == S.Pooled ==> pool.free > 0
      modifies `pool
      ensures pool == S.Draw(old(pool), src)
    {
      match src {
        case Pooled => pool := pool.(free := pool.free - 1);
        case Fresh => pool := pool.(nalloc := pool.nalloc + 1);
        case Caller =>
      }
    }

    method LinkTail(q: S.Queue, id: nat)
      modifies `pend, `prio, `delay
      ensures pend == if q == S.Pend then old(pend) + [id] else old(pend)
      ensures prio == if q == S.Prio then old(prio) + [id] else old(prio)
      ensures delay == if q == S.Delay then old(delay) + [id] else old(delay)
    {
      match q {
        case Prio => prio := prio + [id];
        case Pend => pend := pend + [id];
        case Delay => delay := delay + [id];
      }
    }

    /**
      The first lock-held section of `taskq_dispatch` and `taskq_dispatch_delay`, including the
      part of `task_alloc` that does not drop the lock.
     */
    method TryDispatch(q: S.Queue, f: Flags) returns (r: DispatchResult)
      requires Valid()
      modifies `pend, `prio, `delay, `nextId, `prealloc, `pool
      ensures Valid()
      ensures r == (if !old(live) || (f.noQueue && q != S.Delay && old(crew.nactive) == old(crew.nthreads)) then Refused
                    else if old(pool.free) > 0 && !f.isNew then Assigned(old(nextId))
                    else if f.noAlloc || (f.noSleep && old(pool.nalloc) >= maxalloc) then Refused else Unlocked)
      ensures View() == if r.Assigned? then S.Assign(old(View()), q, S.Pooled) else old(View())
      ensures pend == if r.Assigned? && q == S.Pend then old(pend) + [old(nextId)] else old(pend)
      ensures prio == if r.Assigned? && q == S.Prio then old(prio) + [old(nextId)] else old(prio)
      ensures delay == if r.Assigned? && q == S.Delay then old(delay) + [old(nextId)] else old(delay)
    {
      if !live { return Refused; }
      if f.noQueue && q != S.Delay && crew.nactive == crew.nthreads { return Refused; }
      if pool.free > 0 && !f.isNew {
        var id := Enqueue(q, S.Pooled);
        return Assigned(id);
      }
      if f.noAlloc { return Refused; }
      if pool.nalloc >= maxalloc && f.noSleep { return Refused; }
      r := Unlocked;
    }

    /** The section after the lock was reacquired: `got` says whether memory was found. */
    method AfterAlloc(q: S.Queue, got: bool) returns (r: DispatchResult)
      requires Valid()
      modifies `pend, `prio, `delay, `nextId, `prealloc, `pool
      ensures Valid() && r == if got then Assigned(old(nextId)) else Refused
      ensures View() == if got then S.Assign(old(View()), q, S.Fresh) else old(View())
      ensures pend == if got && q == S.Pend then old(pend) + [old(nextId)] else old(pend)
      ensures prio == if got && q == S.Prio then old(prio) + [old(nextId)] else old(prio)
      ensures delay == if got && q == S.Delay then old(delay) + [old(nextId)] else old(delay)
    {
      if !got { return Refused; }
      var id := Enqueue(q, S.Fresh);
      r := Assigned(id);
    }

    /** `taskq_dispatch_ent`. */
    method DispatchEnt(front: bool) returns (r: DispatchResult)
      requires Valid()
      modifies `pend, `prio, `delay, `nextId, `prealloc, `pool
      ensures Valid() && r == if old(live) then Assigned(old(nextId)) else Refused
      ensures var q := if front then S.Prio else S.Pend;
        View() == if old(live) then S.Assign(old(View()), q, S.Caller) else old(View())
      ensures prio == if old(live) && front then old(prio) + [old(nextId)] else old(prio)
      ensures pend == if old(live) && !front then old(pend) + [old(nextId)] else old(pend)
      ensures delay == old(delay)
    {
      if !live { return Refused; }
      var id := Enqueue(if front then S.Prio else S.Pend, S.Caller);
      r := Assigned(id);
    }

    /** `taskq_thread_spawn`; `queued` says whether the private queue accepted the request. */
    method ThreadSpawn(queued: bool) returns (spawning: int)
      requires Valid()
      modifies `crew
      ensures Valid()
      ensures S.Enabled(old(View()), S.Spawn(queued)) ==>
                View() == S.RequestThread(old(View()), queued) && spawning == crew.nspawn
      ensures !S.Enabled(old(View()), S.Spawn(queued)) ==> View() == old(View()) && spawning == 0
      ensures var may := dynamic && live && old(crew).nthreads + old(crew).nspawn < crew.maxthreads;
        crew.nspawn == old(crew).nspawn + (if may then 1 else 0) && spawning == if may then crew.nspawn else 0
    {
      hide S.Inv, R.Later;
      if !dynamic { return 0; }
      if crew.nthreads + crew.nspawn < crew.maxthreads && live {
        R.RequestInv(View(), queued);
        crew := crew.(nspawn := crew.nspawn + 1);
        if queued { crew := crew.(requests := crew.requests + 1); } else { crew := crew.(lost := crew.lost + 1); }
        return crew.nspawn;
      }
      spawning := 0;
    }

    // -------------------------------------------------------------- timers, workers, cancellation

    /** `task_expire` on a task that was not cancelled. */
    method TimerExpired(id: nat)
      requires Valid() && id in delay
      modifies `delay, `prio
      ensures Valid() && View() == S.ExpireTask(old(View()), id)
    {
      hide S.Inv, R.Later;
      R.ExpireInv(View(), id);
      delay := Unlink(delay, id);
      prio := InsertInOrder(prio, id);
    }

    /** A worker takes the next task: `taskq_next_ent` and the first half of the loop of `taskq_thread`. */
    method PickUp(t: nat) returns (id: nat)
      requires Valid() && S.Idle(View(), t)
      modifies `prio, `pend, `active, `runner, `crew, `log
      ensures Valid()
      ensures old(prio) == [] && old(pend) == [] ==> id == 0 && View() == old(View())
      ensures old(prio) != [] || old(pend) != [] ==>
                id == P.NextTask(old(View())) && View() == S.StartNext(old(View()), t)
      ensures old(prio) != [] ==> id == old(prio)[0] && prio == old(prio)[1..] && pend == old(pend)
      ensures old(prio) == [] && old(pend) != [] ==> id == old(pend)[0] && pend == old(pend)[1..] && prio == []
    {
      hide S.Inv, R.Later;
      if prio == [] && pend == [] { return 0; }
      R.StartInv(View(), t);
      id := StartTask(t);
    }

    method StartTask(t: nat) returns (id: nat)
      requires prio != [] || pend != []
      modifies `prio, `pend, `active, `runner, `crew, `log
      ensures id == P.NextTask(old(View())) && View() == S.StartNext(old(View()), t)
    {
      hide S.Insert;
      ghost var l := S.StartNext(View(), t).log;
      id := TakeNext();
      active := InsertInOrder(active, id);
      runner, log := runner[t := id], l;
      crew := crew.(nactive := crew.nactive + 1);
    }

    /** `taskq_next_ent` and the unlinking of what it found: priority before pending. */
    method TakeNext() returns (id: nat)
      requires prio != [] || pend != []
      modifies `prio, `pend
      ensures id == if old(prio) != [] then old(prio)[0] else old(pend)[0]
      ensures prio == if old(prio) != [] then old(prio)[1..] else old(prio)
      ensures pend == if old(prio) != [] then old(pend) else old(pend)[1..]
    {
      if prio != [] {
        id := prio[0];
        prio := prio[1..];
      } else {
        id := pend[0];
        pend := pend[1..];
      }
    }

    /**
      The second half of the loop of `taskq_thread`: the task function returned.  After more than
      `sequential` tasks in a row the worker asks for another thread, and counts anew if it may.
     */
    method Complete(t: nat, inRow: nat, sequential: nat, queued: bool) returns (row: nat)
      requires Valid() && t in runner
      modifies `active, `runner, `crew, `pool, `lowestId, `log
      ensures Valid()
      ensures var done := S.FinishTask(old(View()), t);
        var spawn := inRow + 1 > sequential && S.Enabled(done, S.Spawn(queued));
        && View() == (if spawn then S.RequestThread(done, queued) else done)
        && row == if spawn then 0 else inRow + 1
      ensures var may := dynamic && live && old(crew).nthreads + old(crew).nspawn < crew.maxthreads;
        crew.nspawn == old(crew).nspawn + if inRow + 1 > sequential && may then 1 else 0
    {
      hide S.Inv, R.Later, S.Settle, S.Retire;
      R.FinishInv(View(), t);
      CrewAfter(View(), t);
      var id := runner[t];
      RetireTask(t);
      Settle(id);
      row := inRow + 1;
      if row > sequential {
        SpawnsPositive(View());
        var spawning := ThreadSpawn(queued);
        if spawning != 0 { row := 0; }
      }
    }

    method RetireTask(t: nat)
      requires t in runner
      modifies `active, `runner, `crew, `pool, `log
      ensures View() == S.Retire(old(View()), t)
    {
      hide S.TaskDone, Delete;
      var id := runner[t];
      var rest := Unlink(active, id);
      crew := crew.(nactive := crew.nactive - 1);
      active, runner := rest, runner - {t};
      log := log.(finished := log.finished + {id});
      if id !in prealloc { TaskDone(); }
    }

    /** Unlink a queued task from the list it is on; `timer` says it was delayed. */
    method Unqueue(id: nat) returns (timer: bool)
      requires S.Enabled(View(), S.Cancel(id))
      modifies `pend, `prio, `delay
      ensures timer <==> id in old(delay)
      ensures delay == S.DropIf(old(delay), id, timer)
      ensures prio == S.DropIf(old(prio), id, !timer && id in old(prio))
      ensures pend == S.DropIf(old(pend), id, !timer && id !in old(prio))
    {
      timer := id in delay;
      if timer {
        delay := Unlink(delay, id);
      } else if id in prio {
        prio := Unlink(prio, id);
      } else {
        pend := Unlink(pend, id);
      }
    }

    /**
      `taskq_cancel_id` up to where it may drop the lock.  `ENOENT` is reported as neither found
      nor busy; an active task must be waited for.
     */
    method CancelId(id: nat) returns (cancelled: bool, busy: bool, timer: bool)
      requires Valid()
      modifies `pend, `prio, `delay, `pool, `lowestId, `log, `limbo
      ensures Valid()
      ensures busy <==> id in old(active)
      ensures cancelled <==> S.Outstanding(old(View()), id) && id !in old(active)
      ensures timer <==> cancelled && id in old(delay)
      ensures View() == if cancelled then S.CancelTask(old(View()), id) else old(View())
    {
      hide S.Inv, R.Later, S.LowestOf, S.Settle, S.TaskDone, S.DropIf;
      var found;
      OnePlace(View(), id);
      found, busy := Find(id);
      cancelled, timer := found && !busy, false;
      if cancelled {
        R.CancelInv(View(), id);
        timer := CancelQueued(id);
      }
    }

    method CancelQueued(id: nat) returns (timer: bool)
      requires S.Enabled(View(), S.Cancel(id))
      modifies `pend, `prio, `delay, `pool, `lowestId, `log, `limbo
      ensures timer <==> id in old(delay)
      ensures View() == S.CancelTask(old(View()), id)
    {
      hide S.LowestOf, S.TaskDone, S.DropIf;
      timer := Unqueue(id);
      log := log.(cancelled := log.cancelled + {id});
      if timer { limbo := limbo + {id}; }
      if !timer && id !in prealloc { TaskDone(); }
      assert View() == S.Withdraw(old(View()), id);
      hide S.Withdraw;
      Settle(id);
    }

    /** The rest of `taskq_cancel_id` for a delayed task, after `del_timer_sync`. */
    method CancelFinish(ghost id: nat)
      requires Valid() && id in limbo
      modifies `pool, `limbo
      ensures Valid() && View() == S.DropEntry(old(View()), id)
    {
      hide S.Inv, R.Later;
      R.DropEntryInv(View(), id);
      TaskDone();
      limbo := limbo - {id};
    }

    // -------------------------------------------------------------- waiting

    /** `taskq_wait_id_check`. */
    method WaitIdCheck(id: nat) returns (pass: bool)
      requires Valid()
      ensures pass <==> !S.Outstanding(View(), id)
      ensures 1 <= id < nextId ==> (pass <==> S.Done(View(), id))
    {
      P.Where(View(), id);
      var found, isActive := Find(id);
      pass := !found;
    }

    /** `taskq_wait_outstanding_check`: one comparison with the cached id covers every id up to `id`. */
    method WaitOutstandingCheck(id: nat) returns (pass: bool)
      requires Valid()
      ensures pass <==> forall k: nat :: 1 <= k <= id ==> S.Done(View(), k)
      ensures id >= nextId ==> !pass
    {
      pass := id < lowestId;
      P.LowestBelowNext(View());
      R.AllDoneBelow(View(), id);
    }

    /** `taskq_wait_check`. */
    method WaitCheck() returns (pass: bool)
      requires Valid()
      ensures pass <==> forall k: nat :: 1 <= k < nextId ==> S.Done(View(), k)
    {
      pass := lowestId == nextId;
      P.LowestBelowNext(View());
      R.AllDoneBelow(View(), nextId - 1);
    }

    // -------------------------------------------------------------- threads

    /** The head of `taskq_thread` for a dynamically spawned worker. */
    method ThreadBegin(t: nat) returns (kept: bool)
      requires Valid() && S.Enabled(View(), S.ThreadStart(t))
      modifies `crew
      ensures Valid() && kept && View() == S.AddThread(old(View()), t)
    {
      hide S.Inv, R.Later;
      R.AddThreadInv(View(), t);
      crew := crew.(nspawn := crew.nspawn - 1, requests := crew.requests - 1);
      if crew.nthreads >= crew.maxthreads { return false; }
      crew := crew.(nthreads := crew.nthreads + 1, threads := crew.threads + [t]);
      kept := true;
    }

    /** `taskq_thread_should_stop`; `allowed` is the module parameter. */
    method ShouldStop(t: nat, allowed: bool) returns (stop: bool)
      requires Valid() && t in crew.threads
      ensures stop <==> allowed && dynamic && t != crew.threads[0] && |crew.threads| > 1 && crew.nspawn == 0
                        && active == [] && pend == [] && prio == []
    {
      if !dynamic { return false; }
      if crew.threads[0] == t { return false; }
      stop := crew.nspawn == 0 && crew.nactive == 0 && crew.nthreads > 1 && pend == [] && prio == [] && allowed;
    }

    /** The end of `taskq_thread`. */
    method ThreadEnd(t: nat)
      requires Valid() && S.Idle(View(), t)
      modifies `crew
      ensures Valid() && View() == S.DropThread(old(View()), t)
    {
      hide S.Inv, R.Later;
      R.DropThreadInv(View(), t);
      var rest := Unlink(crew.threads, t);
      crew := crew.(nthreads := crew.nthreads - 1, threads := rest);
    }

    /** `taskq_create` once its workers are up: each did one decrement of `nspawn`, which is then reset. */
    constructor (workers: seq<nat>, maxthreads: nat, minalloc: nat, maxalloc: int, prepopulate: bool, dynamic: bool)
      requires NoDup(workers) && |workers| <= maxthreads
      ensures Valid() && R.Created(View())
      ensures crew.threads == workers && crew.maxthreads == maxthreads && this.dynamic == dynamic
      ensures pool.minalloc == minalloc && pool.free == if prepopulate then minalloc else 0
    {
      pend, prio, delay, active, runner := [], [], [], [], map[];
      nextId, lowestId, prealloc, live, this.dynamic := 1, 1, {}, true, dynamic;
      this.maxalloc, pool := maxalloc, S.Pool(0, 0, minalloc);
      crew := S.Crew([], 0, 0, 0, maxthreads, 0, 0);
      limbo, log := {}, S.Log([], [], {}, {});
      new;
      if prepopulate { Prepopulate(); }
      StartWorkers(workers);
      R.CreatedInv(View());
    }

    /**
      The end of `taskq_destroy`, once every thread has left: free the pooled entries.  The closing
      assertions hold exactly when nothing was dispatched or is still being cancelled.
     */
    method DestroyTail() returns (clean: bool)
      requires Valid() && crew.nspawn == 0 && crew.threads == []
      modifies `pool
      ensures View() == R.Drain(old(View()))
      ensures clean <==> R.Closed(View())
      ensures clean <==> old(lowestId) == old(nextId) && limbo == {}
    {
      hide S.Inv;
      R.DestroyIff(View());
      ghost var had := pool;
      while pool.free > 0
        invariant pool == had.(free := pool.free, nalloc := had.nalloc - had.free + pool.free) && pool.free <= had.free
      {
        pool := pool.(free := pool.free - 1, nalloc := pool.nalloc - 1);
      }
      clean := crew.nthreads == 0 && pool.nalloc == 0 && crew.nspawn == 0 && crew.threads == [] && active == []
               && pool.free == 0 && pend == [] && prio == [] && delay == [];
    }

    /** The threads of an idle queue leave one by one. */
    method StopThreads()
      requires Valid() && runner == map[]
      modifies `crew
      ensures Valid() && View() == old(View()).(crew := old(crew).(threads := [], nthreads := 0))
    {
      while crew.threads != []
        invariant Valid()
        invariant View() == old(View()).(crew := old(crew).(threads := crew.threads, nthreads := |crew.threads|))
        decreases |crew.threads|
      {
        hide S.Inv;
        FirstLeaves(View());
        ThreadEnd(crew.threads[0]);
      }
    }

    /** Fill the free list up to its minimum, one entry at a time. */
    method Prepopulate()
      requires pool.free == pool.nalloc == 0
      modifies `pool
      ensures pool.free == pool.nalloc == pool.minalloc == old(pool).minalloc
    {
      for i := 0 to pool.minalloc
        invariant pool.free == pool.nalloc == i && pool.minalloc == old(pool).minalloc
      {
        pool := pool.(nalloc := pool.nalloc + 1);
        TaskDone();
      }
    }

    method StartWorkers(workers: seq<nat>)
      requires crew.threads == [] && crew.nthreads == 0
      modifies `crew
      ensures crew == old(crew).(threads := workers, nthreads := |workers|, nspawn := 0)
    {
      for i := 0 to |workers|
        invariant crew == old(crew).(threads := workers[..i], nthreads := i, nspawn := crew.nspawn)
      {
        if dynamic { crew := crew.(nspawn := crew.nspawn - 1); }
        crew := crew.(nthreads := crew.nthreads + 1, threads := crew.threads + [workers[i]]);
      }
      crew := crew.(nspawn := 0);
    }
  }

  /** The threads that could be created, in order. */
  function Running(workers: seq<Option<nat>>): seq<nat> {
    if workers == [] then []
    else (if workers[0].Some? then [workers[0].value] else []) + Running(workers[1..])
  }

  lemma {:induction false} RunningLength(workers: seq<Option<nat>>)
    ensures |Running(workers)| <= |workers|
  {
    if workers != [] { RunningLength(workers[1..]); }
  }

  /** The loop of `taskq_create`: count the threads that came up, note whether one did not. */
  method StartAll(workers: seq<Option<nat>>) returns (up: seq<nat>, failed: bool)
    ensures up == Running(workers) && (failed <==> None in workers)
  {
    hide Running;
    up, failed := [], false;
    assert workers[0..] == workers;
    for i := 0 to |workers|
      invariant up + Running(workers[i..]) == Running(workers)
      invariant failed <==> exists k :: 0 <= k < i && workers[k] == None
    {
      RunningNext(workers, i, up);
      if workers[i].Some? { up := up + [workers[i].value]; } else { failed := true; }
    }
    RunningNone();
    assert workers[|workers|..] == [];
  }

  lemma RunningNext(workers: seq<Option<nat>>, i: nat, up: seq<nat>)
    requires i < |workers|
    ensures up + Running(workers[i..]) ==
      up + (if workers[i].Some? then [workers[i].value] else []) + Running(workers[i+1..])
  {
    assert workers[i..][1..] == workers[i+1..];
  }

  lemma RunningNone()
    ensures Running([]) == []
  {}

  /**
    `taskq_create`: `workers` are the threads asked for, `None` where creation failed.  If any
    failed the queue is destroyed again, which meets every closing assertion.
   */
  method Create(workers: seq<Option<nat>>, maxthreads: nat, minalloc: nat, maxalloc: int, prepopulate: bool, dynamic: bool)
    returns (r: Taskq?)
    requires NoDup(Running(workers)) && |workers| <= maxthreads
    ensures r == null <==> None in workers
    ensures r != null ==> fresh(r) && r.Valid() && R.Created(r.View()) && r.crew.threads == Running(workers)
    ensures r != null ==> r.dynamic == dynamic && r.crew.maxthreads == maxthreads && r.pool.minalloc == minalloc
  {
    hide S.Inv, Running, NoDup, R.Drain, R.Closed;
    var up, failed := StartAll(workers);
    RunningLength(workers);
    var tq := new Taskq(up, maxthreads, minalloc, maxalloc, prepopulate, dynamic);
    if failed {
      tq.StopThreads();
      var clean := tq.DestroyTail();
      assert clean;
      return null;
    }
    r := tq;
  }

  lemma CrewAfter(s: S.Tq, t: nat)
    requires t in s.runner
    ensures var d := S.FinishTask(s, t);
      d.crew == s.crew.(nactive := s.crew.nactive - 1) && d.live == s.live && d.dynamic == s.dynamic
  {}

  lemma SpawnsPositive(s: S.Tq)
    requires S.Inv(s)
    ensures s.crew.nspawn >= 0
  {}

  /** Taking the first thread off the list leaves the rest. */
  lemma FirstLeaves(s: S.Tq)
    requires S.Inv(s) && s.crew.threads != [] && s.runner == map[]
    ensures S.Idle(s, s.crew.threads[0])
    ensures S.DropThread(s, s.crew.threads[0]) ==
      s.(crew := s.crew.(threads := s.crew.threads[1..], nthreads := |s.crew.threads[1..]|))
  {
    TailFacts(s.crew.threads);
    hide Delete;
  }

  lemma OnePlace(s: S.Tq, id: nat)
    requires S.Inv(s)
    ensures id in s.delay ==> id !in s.prio && id !in s.pend && id !in s.active
    ensures id in s.prio ==> id !in s.pend && id !in s.active
    ensures id in s.pend ==> id !in s.active
  {
    P.Where(s, id);
  }
}

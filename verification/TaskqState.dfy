/**
  The task queue of `spl-taskq.c` as a state machine over its lock-held sections.

  Tasks are their ids; an id is assigned once and never reused.  Besides the fields of `taskq_t`
  the state keeps what the properties speak of: which ids started, finished or were cancelled,
  which entries the caller allocated, and which cancelled entries still await their timer.
 */
module TaskqState {
  import opened Seqs

  datatype Pool = Pool(free: nat, nalloc: int, minalloc: nat)

  datatype Crew = Crew(
    threads: seq<nat>, nthreads: int, nactive: int,
    nspawn: int, maxthreads: nat,
    requests: nat, lost: nat)

  datatype Log = Log(started: seq<nat>, startedPend: seq<nat>, finished: set<nat>, cancelled: set<nat>)

  datatype Tq = Tq(
    pend: seq<nat>, prio: seq<nat>, delay: seq<nat>, active: seq<nat>,
    runner: map<nat, nat>,
    nextId: nat, lowestId: nat,
    prealloc: set<nat>, limbo: set<nat>,
    live: bool, dynamic: bool,
    pool: Pool, crew: Crew, log: Log)

  // ---------------------------------------------------------------- lists

  predicate Ascending(s: seq<nat>) {
    forall i, j :: 0 <= i < j < |s| ==> s[i] < s[j]
  }

  /** Where `list_for_each_prev` stops: after the last entry below `x`. */
  function Slot(s: seq<nat>, x: nat): (k: nat)
    ensures k <= |s|
  {
    if s == [] then 0 else if s[|s|-1] < x then |s| else Slot(s[..|s|-1], x)
  }

  function Insert(s: seq<nat>, x: nat): seq<nat> { s[..Slot(s, x)] + [x] + s[Slot(s, x)..] }

  function Min(a: nat, b: nat): nat { if a < b then a else b }

  function HeadOr(s: seq<nat>, m: nat): nat { if s == [] then m else Min(m, s[0]) }

  /** `taskq_lowest_id`: only the list heads are examined. */
  function LowestOf(pend: seq<nat>, prio: seq<nat>, delay: seq<nat>, active: seq<nat>, nextId: nat): nat {
    HeadOr(active, HeadOr(delay, HeadOr(prio, HeadOr(pend, nextId))))
  }

  function Lowest(s: Tq): nat { LowestOf(s.pend, s.prio, s.delay, s.active, s.nextId) }

  predicate Outstanding(s: Tq, id: nat) {
    id in s.pend || id in s.prio || id in s.delay || id in s.active
  }

  predicate Done(s: Tq, id: nat) {
    id in s.log.finished || id in s.log.cancelled
  }

  // ---------------------------------------------------------------- pool

  /** `task_done`: keep the entry if the pool is small, else free it. */
  function TaskDone(p: Pool): Pool {
    if p.nalloc <= p.minalloc then p.(free := p.free + 1) else p.(nalloc := p.nalloc - 1)
  }

  /** Where the entry of a new task comes from. */
  datatype Source = Pooled | Fresh | Caller

  function Draw(p: Pool, src: Source): Pool
    requires src == Pooled ==> p.free > 0
  {
    match src
    case Pooled => p.(free := p.free - 1)
    case Fresh => p.(nalloc := p.nalloc + 1)
    case Caller => p
  }

  // ---------------------------------------------------------------- steps

  datatype Queue = Pend | Prio | Delay

  datatype Step =
    | Dispatch(q: Queue, src: Source)
    | Expire(id: nat)
    | Start(thread: nat)
    | Finish(thread: nat)
    | Cancel(id: nat)
    | CancelDone(id: nat)
    | Spawn(queued: bool)
    | SpawnFail
    | ThreadStart(thread: nat)
    | ThreadExit(thread: nat)
    | Deactivate

  /** A worker is free to take work. */
  predicate Idle(s: Tq, t: nat) { t in s.crew.threads && t !in s.runner }

  /**
    When each section runs.  A dispatch that had to allocate does not look at `TASKQ_ACTIVE` again
    after it reacquires the lock, so only caller-allocated entries are guarded by it.
   */
  predicate Enabled(s: Tq, st: Step) {
    match st
    case Dispatch(q, src) =>
      && (src == Pooled ==> s.pool.free > 0)
      && (src == Caller ==> s.live && q != Delay)
    case Expire(id) => id in s.delay
    case Start(t) => Idle(s, t) && (s.prio != [] || s.pend != [])
    case Finish(t) => t in s.runner
    case Cancel(id) => id in s.delay || id in s.prio || id in s.pend
    case CancelDone(id) => id in s.limbo
    case Spawn(queued) => s.dynamic && s.live && s.crew.nthreads + s.crew.nspawn < s.crew.maxthreads
    case SpawnFail => s.crew.requests > 0
    case ThreadStart(t) => s.crew.requests > 0 && t !in s.crew.threads && t !in s.runner
    case ThreadExit(t) => Idle(s, t)
    case Deactivate => true
  }

  function Assign(s: Tq, q: Queue, src: Source): Tq
    requires src == Pooled ==> s.pool.free > 0
  {
    var id := s.nextId;
    s.(pend := if q == Pend then s.pend + [id] else s.pend,
       prio := if q == Prio then s.prio + [id] else s.prio,
       delay := if q == Delay then s.delay + [id] else s.delay,
       nextId := id + 1,
       prealloc := if src == Caller then s.prealloc + {id} else s.prealloc,
       pool := Draw(s.pool, src))
  }

  ghost function ExpireTask(s: Tq, id: nat): Tq {
    s.(delay := Delete(s.delay, id), prio := Insert(s.prio, id))
  }

  /** The next task to run: priority before pending, lowest id first. */
  function StartNext(s: Tq, t: nat): Tq
    requires s.prio != [] || s.pend != []
  {
    var id := if s.prio != [] then s.prio[0] else s.pend[0];
    s.(prio := if s.prio != [] then s.prio[1..] else s.prio,
       pend := if s.prio != [] then s.pend else s.pend[1..],
       active := Insert(s.active, id),
       runner := s.runner[t := id],
       crew := s.crew.(nactive := s.crew.nactive + 1),
       log := s.log.(started := s.log.started + [id],
                     startedPend := if s.prio != [] then s.log.startedPend else s.log.startedPend + [id]))
  }

  /** Recompute the lowest id only if the task that left had it. */
  function Settle(s: Tq, id: nat): Tq {
    if s.lowestId == id then s.(lowestId := Lowest(s)) else s
  }

  /** A worker's task is done: it leaves the active list, and its entry goes back to the pool. */
  ghost function Retire(s: Tq, t: nat): Tq
    requires t in s.runner
  {
    var id := s.runner[t];
    s.(active := Delete(s.active, id),
       runner := s.runner - {t},
       pool := if id in s.prealloc then s.pool else TaskDone(s.pool),
       crew := s.crew.(nactive := s.crew.nactive - 1),
       log := s.log.(finished := s.log.finished + {id}))
  }

  ghost function FinishTask(s: Tq, t: nat): Tq
    requires t in s.runner
  {
    Settle(Retire(s, t), s.runner[t])
  }

  ghost function DropIf(s: seq<nat>, id: nat, here: bool): seq<nat> {
    if here then Delete(s, id) else s
  }

  /** Cancelling a delayed task leaves its entry in limbo until the timer is known to be dead. */
  ghost function Withdraw(s: Tq, id: nat): Tq {
    var delayed := id in s.delay;
    s.(delay := DropIf(s.delay, id, delayed),
       prio := DropIf(s.prio, id, !delayed && id in s.prio),
       pend := DropIf(s.pend, id, !delayed && id !in s.prio),
       limbo := if delayed then s.limbo + {id} else s.limbo,
       pool := if delayed || id in s.prealloc then s.pool else TaskDone(s.pool),
       log := s.log.(cancelled := s.log.cancelled + {id}))
  }

  ghost function CancelTask(s: Tq, id: nat): Tq { Settle(Withdraw(s, id), id) }

  /** The timer of a cancelled task is dead; its entry goes back to the pool. */
  function DropEntry(s: Tq, id: nat): Tq {
    s.(limbo := s.limbo - {id}, pool := TaskDone(s.pool))
  }

  /** `taskq_thread_spawn`: the request is counted whether or not it was accepted. */
  function RequestThread(s: Tq, queued: bool): Tq {
    s.(crew := s.crew.(nspawn := s.crew.nspawn + 1,
                       requests := if queued then s.crew.requests + 1 else s.crew.requests,
                       lost := if queued then s.crew.lost else s.crew.lost + 1))
  }

  function ServeRequest(s: Tq): Tq {
    s.(crew := s.crew.(nspawn := s.crew.nspawn - 1,
                       requests := if s.crew.requests > 0 then s.crew.requests - 1 else 0))
  }

  /** A spawned thread takes its place, unless there are too many already. */
  function AddThread(s: Tq, t: nat): Tq {
    var r := ServeRequest(s);
    if s.crew.nthreads >= s.crew.maxthreads then r
    else r.(crew := r.crew.(nthreads := s.crew.nthreads + 1, threads := s.crew.threads + [t]))
  }

  ghost function DropThread(s: Tq, t: nat): Tq {
    s.(crew := s.crew.(nthreads := s.crew.nthreads - 1, threads := Delete(s.crew.threads, t)))
  }

  ghost function Apply(s: Tq, st: Step): Tq
    requires Enabled(s, st)
  {
    match st
    case Dispatch(q, src) => Assign(s, q, src)
    case Expire(id) => ExpireTask(s, id)
    case Start(t) => StartNext(s, t)
    case Finish(t) => FinishTask(s, t)
    case Cancel(id) => CancelTask(s, id)
    case CancelDone(id) => DropEntry(s, id)
    case Spawn(queued) => RequestThread(s, queued)
    case SpawnFail => ServeRequest(s)
    case ThreadStart(t) => AddThread(s, t)
    case ThreadExit(t) => DropThread(s, t)
    case Deactivate => s.(live := false)
  }

  // ---------------------------------------------------------------- invariants

  function Occ(s: seq<nat>, id: nat): nat { multiset(s)[id] }

  /** The number of places an id is in. */
  function Places(s: Tq, id: nat): nat {
    Occ(s.pend, id) + Occ(s.prio, id) + Occ(s.delay, id) + Occ(s.active, id)
    + (if id in s.log.finished then 1 else 0) + (if id in s.log.cancelled then 1 else 0)
  }

  /** Every assigned id is in exactly one place and no other id is anywhere. */
  ghost predicate Placed(s: Tq) {
    && s.nextId >= 1
    && forall id: nat :: Places(s, id) == if 1 <= id < s.nextId then 1 else 0
  }

  ghost predicate Sorted(s: Tq) {
    Ascending(s.pend) && Ascending(s.prio) && Ascending(s.delay) && Ascending(s.active)
  }

  /** `m` is the minimum of the outstanding ids and the next id. */
  ghost predicate IsLowest(s: Tq, m: nat) {
    && m <= s.nextId
    && (m == s.nextId || Outstanding(s, m))
    && forall id :: Outstanding(s, id) ==> m <= id
  }

  /** Started ids are the active and the finished ones, each started once; pending tasks start in order. */
  ghost predicate Logged(s: Tq) {
    && NoDup(s.log.started)
    && (forall id :: id in s.log.started <==> id in s.active || id in s.log.finished)
    && Ascending(s.log.startedPend)
    && (forall a, b :: a in s.log.startedPend && b in s.pend ==> a < b)
    && (forall a :: a in s.log.startedPend ==> a < s.nextId)
  }

  ghost predicate IdInv(s: Tq) {
    Placed(s) && Sorted(s) && IsLowest(s, s.lowestId) && Logged(s)
  }

  function Members(s: seq<nat>): set<nat> { set x | x in s }

  /** Outstanding tasks whose entry belongs to the pool. */
  function Owned(s: Tq): set<nat> {
    Members(s.pend) + Members(s.prio) + Members(s.delay) + Members(s.active) - s.prealloc
  }

  /** Every pool entry is free, in use, or in limbo, and the free list stays within its minimum. */
  ghost predicate PoolInv(s: Tq) {
    && s.pool.nalloc == s.pool.free + |Owned(s)| + |s.limbo|
    && s.pool.free <= s.pool.minalloc
    && (forall id :: id in s.prealloc ==> id < s.nextId)
    && (forall id :: id in s.delay ==> id !in s.prealloc)
    && s.limbo <= s.log.cancelled
  }

  /** Workers and the tasks they run, and the bound on workers present or promised. */
  ghost predicate CrewInv(s: Tq) {
    && NoDup(s.crew.threads) && s.crew.nthreads == |s.crew.threads|
    && s.crew.nactive == |s.runner| == |s.active|
    && (forall t :: t in s.runner ==> t in s.crew.threads && s.runner[t] in s.active)
    && (forall t, u :: t in s.runner && u in s.runner && t != u ==> s.runner[t] != s.runner[u])
    && s.crew.nspawn == s.crew.requests + s.crew.lost
    && s.crew.nthreads + s.crew.nspawn <= s.crew.maxthreads
  }

  ghost predicate Inv(s: Tq) {
    IdInv(s) && PoolInv(s) && CrewInv(s)
  }
}

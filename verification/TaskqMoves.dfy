/** Where every task is after every step of every run, stated by list membership and history alone. */
module TaskqMoves {
  import opened Seqs
  import opened TaskqState
  import opened TaskqProofs
  import opened TaskqRuns

  // ---------------------------------------------------------------- one step

  /** The step hands out `id` and puts it on list `q`. */
  ghost predicate Gives(s: Tq, st: Step, q: Queue, id: nat) { st.Dispatch? && st.q == q && id == s.nextId }

  /** The step gives `id` to a worker. */
  ghost predicate Starts(st: Step, s': Tq, id: nat) {
    st.Start? && st.thread in s'.runner && s'.runner[st.thread] == id
  }

  /** The step ends the worker's task `id`. */
  ghost predicate Ends(s: Tq, st: Step, id: nat) {
    st.Finish? && st.thread in s.runner && s.runner[st.thread] == id
  }

  /** The only ways into and out of each list, the two ends of a task's life, and the two special kinds of entry. */
  ghost predicate Moved(s: Tq, st: Step, s': Tq, id: nat) {
    && (id in s'.pend <==> Gives(s, st, Pend, id) || (id in s.pend && st != Cancel(id) && !Starts(st, s', id)))
    && (id in s'.prio <==> Gives(s, st, Prio, id) || st == Expire(id) || (id in s.prio && st != Cancel(id) && !Starts(st, s', id)))
    && (id in s'.delay <==> Gives(s, st, Delay, id) || (id in s.delay && st != Cancel(id) && st != Expire(id)))
    && (id in s'.active <==> Starts(st, s', id) || (id in s.active && !Ends(s, st, id)))
    && (id in s'.log.finished <==> id in s.log.finished || Ends(s, st, id))
    && (id in s'.log.cancelled <==> id in s.log.cancelled || st == Cancel(id))
    && (id in s'.limbo <==> (st == Cancel(id) && id in s.delay) || (id in s.limbo && st != CancelDone(id)))
    && (id in s'.prealloc <==> id in s.prealloc || (st.Dispatch? && st.src == Caller && id == s.nextId))
    && (s'.live <==> s.live && !st.Deactivate?)
  }

  lemma MoveIs(s: Tq, st: Step, id: nat)
    requires Inv(s) && Enabled(s, st)
    ensures Moved(s, st, Apply(s, st), id)
  {
    hide Inv, Moved, Assign, ExpireTask, StartNext, FinishTask, CancelTask, DropEntry, RequestThread, ServeRequest,
         AddThread, DropThread;
    match st
    case Dispatch(q, src) => DispatchMoves(s, q, src, id);
    case Expire(x) => ExpireMoves(s, x, id);
    case Start(t) => StartMoves(s, t, id);
    case Finish(t) => FinishMoves(s, t, id);
    case Cancel(x) => CancelMoves(s, x, id);
    case _ => QuietMoves(s, st, id);
  }

  lemma QuietMoves(s: Tq, st: Step, id: nat)
    requires Enabled(s, st) && !st.Dispatch? && !st.Expire? && !st.Start? && !st.Finish? && !st.Cancel?
    ensures Moved(s, st, Apply(s, st), id)
  {}

  lemma DispatchMoves(s: Tq, q: Queue, src: Source, id: nat)
    requires Enabled(s, Dispatch(q, src))
    ensures Moved(s, Dispatch(q, src), Assign(s, q, src), id)
  {}

  lemma ExpireMoves(s: Tq, x: nat, id: nat)
    requires Inv(s) && x in s.delay
    ensures Moved(s, Expire(x), ExpireTask(s, x), id)
  {
    hide Insert, Delete, PoolInv, CrewInv, Placed, Logged, IsLowest, Ascending;
    Where(s, x);
    InsertFacts(s.prio, x);
    DeleteMembers(s.delay, x);
  }

  lemma StartMoves(s: Tq, t: nat, id: nat)
    requires Inv(s) && Enabled(s, Start(t))
    ensures Moved(s, Start(t), StartNext(s, t), id)
  {
    hide Insert, PoolInv, CrewInv, Placed, Logged, IsLowest, Ascending;
    var x := NextTask(s);
    Where(s, x);
    InsertFacts(s.active, x);
    TailOrNone(s.prio);
    TailOrNone(s.pend);
  }

  lemma FinishMoves(s: Tq, t: nat, id: nat)
    requires Inv(s) && t in s.runner
    ensures Moved(s, Finish(t), FinishTask(s, t), id)
  {
    hide Delete, PoolInv, CrewInv, Placed, Logged, IsLowest, Ascending, LowestOf, TaskDone;
    DeleteMembers(s.active, s.runner[t]);
  }

  lemma CancelMoves(s: Tq, x: nat, id: nat)
    requires Inv(s) && Enabled(s, Cancel(x))
    ensures Moved(s, Cancel(x), CancelTask(s, x), id)
  {
    hide Delete, PoolInv, CrewInv, Placed, Logged, IsLowest, Ascending, LowestOf, TaskDone;
    Where(s, x);
    DeleteMembers(s.delay, x);
    DeleteMembers(s.prio, x);
    DeleteMembers(s.pend, x);
  }

  // ---------------------------------------------------------------- every step of every run

  lemma RunStep(trace: seq<Tq>, steps: seq<Step>, i: nat)
    requires Run(trace, steps) && i < |steps|
    ensures Inv(trace[i]) && Enabled(trace[i], steps[i]) && trace[i+1] == Apply(trace[i], steps[i])
  {
    RunInv(trace, steps, i);
  }

  /** Every step of every run moves exactly the tasks it names. */
  lemma StepMoves(trace: seq<Tq>, steps: seq<Step>, i: nat, id: nat)
    requires Run(trace, steps) && i < |steps|
    ensures Moved(trace[i], steps[i], trace[i+1], id)
  {
    hide Apply, Enabled, Inv, Moved, Created;
    RunStep(trace, steps, i);
    MoveIs(trace[i], steps[i], id);
  }

  /** A dispatch hands out the next id and appends it to the list that was asked for, and to no other. */
  lemma DispatchAppends(trace: seq<Tq>, steps: seq<Step>, i: nat)
    requires Run(trace, steps) && i < |steps| && steps[i].Dispatch?
    ensures var (s, s', q) := (trace[i], trace[i+1], steps[i].q);
      && s'.nextId == s.nextId + 1 && s'.active == s.active && s'.runner == s.runner && s'.log == s.log
      && s'.pend == (if q == Pend then s.pend + [s.nextId] else s.pend)
      && s'.prio == (if q == Prio then s.prio + [s.nextId] else s.prio)
      && s'.delay == if q == Delay then s.delay + [s.nextId] else s.delay
  {
    hide Inv;
    RunStep(trace, steps, i);
  }

  /** A worker takes the lowest priority task, and the lowest pending one only if there is no priority task. */
  lemma StartTakesFirst(trace: seq<Tq>, steps: seq<Step>, i: nat)
    requires Run(trace, steps) && i < |steps| && steps[i].Start?
    ensures var (s, s', t) := (trace[i], trace[i+1], steps[i].thread);
      && t in s'.runner && s'.log.started == s.log.started + [s'.runner[t]]
      && (s.prio != [] ==> s'.runner[t] in s.prio && forall x :: x in s.prio ==> s'.runner[t] <= x)
      && (s.prio == [] ==> s'.runner[t] in s.pend && forall x :: x in s.pend ==> s'.runner[t] <= x)
  {
    hide Placed, Logged, IsLowest, PoolInv, CrewInv, Insert;
    RunStep(trace, steps, i);
    TailOrNone(trace[i].prio);
    TailOrNone(trace[i].pend);
  }

  // ---------------------------------------------------------------- lives

  function ListOf(s: Tq, q: Queue): seq<nat> {
    match q
    case Pend => s.pend
    case Prio => s.prio
    case Delay => s.delay
  }

  /** Step `k` takes `id` off list `q`. */
  ghost predicate Leaves(trace: seq<Tq>, steps: seq<Step>, k: nat, q: Queue, id: nat)
    requires |trace| == |steps| + 1 && k < |steps|
  {
    || steps[k] == Cancel(id)
    || (if q == Delay then steps[k] == Expire(id) else Starts(steps[k], trace[k+1], id))
  }

  /** A task stays on its list until the step that takes it off. */
  lemma {:induction false} Stays(trace: seq<Tq>, steps: seq<Step>, i: nat, j: nat, q: Queue, id: nat)
    requires Run(trace, steps) && i <= j < |trace| && id in ListOf(trace[i], q)
    ensures id in ListOf(trace[j], q) || exists k :: i <= k < j && Leaves(trace, steps, k, q, id)
    decreases j - i
  {
    hide Enabled, Apply, Created, Starts;
    if i < j {
      Stays(trace, steps, i, j - 1, q, id);
      StepMoves(trace, steps, j - 1, id);
      if id in ListOf(trace[j-1], q) && id !in ListOf(trace[j], q) { assert Leaves(trace, steps, j - 1, q, id); }
    }
  }

  /** A task a worker has taken is running or finished from then on. */
  lemma {:induction false} RunsOn(trace: seq<Tq>, steps: seq<Step>, i: nat, j: nat, id: nat)
    requires Run(trace, steps) && i <= j < |trace| && (id in trace[i].active || id in trace[i].log.finished)
    ensures id in trace[j].active || id in trace[j].log.finished
    decreases j - i
  {
    hide Enabled, Apply, Created, Starts, Ends, Gives;
    if i < j {
      RunsOn(trace, steps, i, j - 1, id);
      StepMoves(trace, steps, j - 1, id);
    }
  }

  lemma StartedRuns(trace: seq<Tq>, steps: seq<Step>, k: nat, j: nat, id: nat)
    requires Run(trace, steps) && k < j < |trace| && Starts(steps[k], trace[k+1], id)
    ensures id in trace[j].active || id in trace[j].log.finished
  {
    hide Enabled, Apply, Created, Starts, Ends, Gives;
    StepMoves(trace, steps, k, id);
    RunsOn(trace, steps, k + 1, j, id);
  }

  lemma CancelledStays(trace: seq<Tq>, steps: seq<Step>, k: nat, j: nat, id: nat)
    requires Run(trace, steps) && k < j < |trace| && steps[k] == Cancel(id)
    ensures id in trace[j].log.cancelled
  {
    hide Enabled, Apply, Created, Starts, Ends, Gives;
    StepMoves(trace, steps, k, id);
    RunLater(trace, steps, k + 1, j);
  }

  /** A task off its waiting list was started or cancelled, and is running or done. */
  lemma OffTheList(trace: seq<Tq>, steps: seq<Step>, i: nat, j: nat, q: Queue, id: nat)
    requires Run(trace, steps) && i <= j < |trace| && q != Delay && id in ListOf(trace[i], q) && id !in ListOf(trace[j], q)
    ensures id in trace[j].active || Done(trace[j], id)
  {
    hide Enabled, Apply, Created, Starts, ListOf;
    Stays(trace, steps, i, j, q, id);
    var k :| i <= k < j && Leaves(trace, steps, k, q, id);
    if steps[k] == Cancel(id) { CancelledStays(trace, steps, k, j, id); } else { StartedRuns(trace, steps, k, j, id); }
  }

  /** When a worker takes a pending task, every task dispatched with priority before is running, finished or cancelled. */
  lemma PriorityFirst(trace: seq<Tq>, steps: seq<Step>, i: nat, k: nat, id: nat)
    requires Run(trace, steps) && i < k < |steps| && steps[i].Dispatch? && steps[i].q == Prio && id == trace[i].nextId
    requires steps[k].Start? && steps[k].thread in trace[k+1].runner && trace[k+1].runner[steps[k].thread] in trace[k].pend
    ensures id in trace[k].active || id in trace[k].log.finished || id in trace[k].log.cancelled
  {
    hide Enabled, Apply, Created, Inv;
    DispatchAppends(trace, steps, i);
    StartTakesFirst(trace, steps, k);
    RunInv(trace, steps, k);
    NotBoth(trace[k], trace[k+1].runner[steps[k].thread]);
    assert id in ListOf(trace[i+1], Prio);
    OffTheList(trace, steps, i + 1, k, Prio, id);
  }

  lemma NotBoth(s: Tq, id: nat)
    requires Inv(s)
    ensures id in s.pend ==> id !in s.prio
    ensures id in s.log.cancelled || id in s.delay ==> id !in s.log.started
  {
    Where(s, id);
  }

  /**
    A delayed task stays on the delay list until its timer expires or it is cancelled, and no worker
    has taken it unless its timer expired.
   */
  lemma DelayedUntilExpired(trace: seq<Tq>, steps: seq<Step>, i: nat, j: nat, id: nat)
    requires Run(trace, steps) && i < j < |trace| && steps[i].Dispatch? && steps[i].q == Delay && id == trace[i].nextId
    ensures id in trace[j].delay || exists k :: i < k < j && (steps[k] == Expire(id) || steps[k] == Cancel(id))
    ensures id in trace[j].log.started ==> exists k :: i < k < j && steps[k] == Expire(id)
  {
    hide Enabled, Apply, Created, Inv, Starts;
    DispatchAppends(trace, steps, i);
    assert id in ListOf(trace[i+1], Delay);
    Stays(trace, steps, i + 1, j, Delay, id);
    RunInv(trace, steps, j);
    NotBoth(trace[j], id);
    if id !in trace[j].delay {
      var k :| i + 1 <= k < j && Leaves(trace, steps, k, Delay, id);
      assert steps[k] == Expire(id) || steps[k] == Cancel(id);
      if steps[k] == Cancel(id) { CancelledStays(trace, steps, k, j, id); }
    }
  }

  /** A task whose timer expired waits with the priority tasks until it is taken or cancelled. */
  lemma ExpiredHasPriority(trace: seq<Tq>, steps: seq<Step>, k: nat, j: nat, id: nat)
    requires Run(trace, steps) && k < j < |trace| && steps[k] == Expire(id)
    ensures id in trace[j].prio || id in trace[j].active || Done(trace[j], id)
  {
    hide Enabled, Apply, Created, Starts;
    StepMoves(trace, steps, k, id);
    assert id in ListOf(trace[k+1], Prio);
    if id !in trace[j].prio { OffTheList(trace, steps, k + 1, j, Prio, id); }
  }

  // ---------------------------------------------------------------- counters

  /** How often each kind of step happened. */
  datatype Counts = Counts(
    dispatched: nat, started: nat, ended: nat,
    queued: nat, lost: nat, failed: nat, arrived: nat, left: nat)

  function Tally(steps: seq<Step>): Counts {
    if steps == [] then Counts(0, 0, 0, 0, 0, 0, 0, 0) else
      var (c, st) := (Tally(steps[..|steps|-1]), steps[|steps|-1]);
      match st
      case Dispatch(_, _) => c.(dispatched := c.dispatched + 1)
      case Start(_) => c.(started := c.started + 1)
      case Finish(_) => c.(ended := c.ended + 1)
      case Spawn(queued) => if queued then c.(queued := c.queued + 1) else c.(lost := c.lost + 1)
      case SpawnFail => c.(failed := c.failed + 1)
      case ThreadStart(_) => c.(arrived := c.arrived + 1)
      case ThreadExit(_) => c.(left := c.left + 1)
      case _ => c
  }

  /** The counters are what the history adds up to, from the `n` workers the queue was created with. */
  ghost predicate Balanced(s: Tq, n: int, c: Counts) {
    && s.nextId == 1 + c.dispatched
    && s.crew.nactive == c.started - c.ended
    && s.crew.nthreads == n + c.arrived - c.left
    && s.crew.nspawn == c.queued + c.lost - c.failed - c.arrived
    && s.crew.requests == c.queued - c.failed - c.arrived
    && s.crew.lost == c.lost
  }

  lemma BalanceStep(s: Tq, st: Step, n: int, steps: seq<Step>)
    requires Inv(s) && Enabled(s, st) && Balanced(s, n, Tally(steps))
    ensures Balanced(Apply(s, st), n, Tally(steps + [st]))
  {
    hide Inv, Apply, Enabled;
    assert (steps + [st])[..|steps|] == steps;
    CountersAfter(s, st);
  }

  lemma CountersAfter(s: Tq, st: Step)
    requires Inv(s) && Enabled(s, st)
    ensures var (s', c, c') := (Apply(s, st), s.crew, Apply(s, st).crew);
      && s'.nextId == s.nextId + (if st.Dispatch? then 1 else 0)
      && c'.nactive == c.nactive + (if st.Start? then 1 else if st.Finish? then -1 else 0)
      && c'.nthreads == c.nthreads + (if st.ThreadStart? then 1 else if st.ThreadExit? then -1 else 0)
      && c'.nspawn == c.nspawn + (if st.Spawn? then 1 else if st.SpawnFail? || st.ThreadStart? then -1 else 0)
      && c'.requests == c.requests + (if st.Spawn? && st.queued then 1 else if st.SpawnFail? || st.ThreadStart? then -1 else 0)
      && c'.lost == c.lost + if st.Spawn? && !st.queued then 1 else 0
  {
    hide Inv, NoDup, Insert, Delete, DropIf, LowestOf, TaskDone, Draw;
    if st.ThreadStart? { AddThreadInv(s, st.thread); }
  }

  lemma RunBegins(trace: seq<Tq>, steps: seq<Step>)
    requires Run(trace, steps)
    ensures |trace| == |steps| + 1 && Balanced(trace[0], trace[0].crew.nthreads, Tally([]))
  {}

  /** In every state of every run the counters are what the history adds up to. */
  lemma {:induction false} RunBalance(trace: seq<Tq>, steps: seq<Step>, i: nat)
    requires Run(trace, steps) && i < |trace|
    ensures Balanced(trace[i], trace[0].crew.nthreads, Tally(steps[..i]))
  {
    hide *;
    RunBegins(trace, steps);
    if i == 0 {
      assert steps[..0] == [];
    } else {
      RunBalance(trace, steps, i - 1);
      RunStep(trace, steps, i - 1);
      BalanceStep(trace[i-1], steps[i-1], trace[0].crew.nthreads, steps[..i-1]);
      assert steps[..i-1] + [steps[i-1]] == steps[..i];
    }
  }

  /** The step gives an entry back to the pool: a task ends, or a cancelled one is no longer awaited. */
  ghost predicate Returns(s: Tq, st: Step) {
    || (st.Finish? && st.thread in s.runner && s.runner[st.thread] !in s.prealloc)
    || (st.Cancel? && st.id !in s.delay && st.id !in s.prealloc)
    || st.CancelDone?
  }

  /**
    The pool takes entries from where a dispatch says, keeps a returned entry while it has no more
    than its minimum and frees it otherwise, and changes at no other step.
   */
  lemma PoolMoves(trace: seq<Tq>, steps: seq<Step>, i: nat)
    requires Run(trace, steps) && i < |steps|
    ensures var (p, p', st) := (trace[i].pool, trace[i+1].pool, steps[i]);
      && p'.minalloc == p.minalloc
      && p'.nalloc == p.nalloc + (if st.Dispatch? && st.src == Fresh then 1
                                  else if Returns(trace[i], st) && p.nalloc > p.minalloc then -1 else 0)
      && p'.free == p.free + (if st.Dispatch? && st.src == Pooled then -1
                              else if Returns(trace[i], st) && p.nalloc <= p.minalloc then 1 else 0)
  {
    hide Inv, Insert, Delete, DropIf, LowestOf;
    RunStep(trace, steps, i);
  }
}

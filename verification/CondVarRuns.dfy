/** What a signal, a broadcast and `__cv_destroy` achieve, over whole runs of the condition variable. */
module CondVarRuns {
  import opened Options
  import opened Seqs
  import opened CondVar

  // ---------------------------------------------------------------- a signal reaches a sleeper

  /** `u` stopped sleeping after state `i`, by state `m` at the latest. */
  ghost predicate Stirred(trace: seq<State>, i: nat, m: nat, u: nat) {
    exists j :: i < j <= m && j < |trace| && !Sleeping(trace[j], u)
  }

  /** Of those who slept in state `i`, one has stirred by state `m`; for a broadcast, all have. */
  ghost predicate Woken(trace: seq<State>, i: nat, m: nat, all: bool)
    requires i < |trace|
  {
    if all then forall u: nat :: Sleeping(trace[i], u) ==> Stirred(trace, i, m, u)
    else (exists u: nat :: Sleeping(trace[i], u)) ==> exists u: nat :: Sleeping(trace[i], u) && Stirred(trace, i, m, u)
  }

  /** The signaler `t` is inside with the mutex, and nobody sleeps who did not sleep in `s`. */
  ghost predicate Held(s: State, w: State, t: nat) {
    && w.mutex == Some(t) && t in w.pc && (w.pc[t].Signaling? || w.pc[t].Waking? || w.pc[t] == Signaled)
    && (forall u: nat :: Sleeping(w, u) ==> Sleeping(s, u) && w.pc[u] == Asleep)
  }

  /** A thread that has the mutex and is outside: whoever sleeps is counted. */
  lemma SleepersCounted(s: State, t: nat)
    requires Inv(s) && s.mutex == Some(t) && t !in s.pc
    ensures forall u: nat :: Sleeping(s, u) ==> s.pc[u] == Asleep
  {
    forall u: nat | Sleeping(s, u) ensures s.pc[u] == Asleep { assert At(s, u, s.pc[u]); }
  }

  lemma HeldStarts(s: State, t: nat, all: bool)
    requires Inv(s) && Enabled(s, Signal(t, all)) && s.mutex == Some(t)
    ensures Held(s, Apply(s, Signal(t, all)), t)
  {
    SleepersCounted(s, t);
    hide Inv;
  }

  /** While it is inside, the mutex is not passed on and nobody falls asleep. */
  lemma HeldStays(s: State, w: State, t: nat, st: Step)
    requires Inv(w) && Held(s, w, t) && Enabled(w, st) && st != SignalDone(t)
    ensures Held(s, Apply(w, st), t)
  {
    hide Counts, QueueOk, Gone, WakeOne, WakeAll, Delete;
    WakeFrames(w);
    WakeGrows(w);
    forall u: nat | u in w.pc ensures At(w, u, w.pc[u]) {}
  }

  lemma WakeGrows(s: State)
    ensures s.awake <= WakeOne(s).awake && s.awake <= WakeAll(s).awake
  {}

  /** How far the signaler has come, and what that means for those who slept. */
  ghost predicate Delivering(trace: seq<State>, i: nat, m: nat, t: nat, all: bool)
    requires i < |trace| && m < |trace|
  {
    && Held(trace[i], trace[m], t)
    && (trace[m].pc[t].Signaling? ==> trace[m].pc[t].all == all)
    && (trace[m].pc[t].Waking? ==> trace[m].pc[t].all == all)
    && (trace[m].pc[t] == Signaled ==> Woken(trace, i, m, all))
  }

  lemma StirredLater(trace: seq<State>, i: nat, m: nat, u: nat)
    requires Stirred(trace, i, m, u)
    ensures Stirred(trace, i, m + 1, u)
  {
    var j :| i < j <= m && j < |trace| && !Sleeping(trace[j], u);
    assert i < j <= m + 1;
  }

  lemma WokenLater(trace: seq<State>, i: nat, m: nat, all: bool)
    requires i < |trace| && Woken(trace, i, m, all)
    ensures Woken(trace, i, m + 1, all)
  {
    forall u: nat | Stirred(trace, i, m, u) ensures Stirred(trace, i, m + 1, u) { StirredLater(trace, i, m, u); }
    hide Stirred;
  }

  /** Nobody sleeps in a state after `i`, so everybody stirred. */
  lemma NobodySleeps(trace: seq<State>, i: nat, m: nat, all: bool)
    requires i < m < |trace| && forall u: nat :: !Sleeping(trace[m], u)
    ensures Woken(trace, i, m, all)
  {
    forall u: nat ensures Stirred(trace, i, m, u) { assert !Sleeping(trace[m], u); }
  }

  lemma OneStirred(trace: seq<State>, i: nat, m: nat, u: nat)
    requires i < m < |trace| && Sleeping(trace[i], u) && !Sleeping(trace[m], u)
    ensures Woken(trace, i, m, false)
  {
    assert Stirred(trace, i, m, u);
  }

  /** No counted waiter means no sleeper, while the signaler has the mutex. */
  lemma NoneCounted(s: State, w: State, t: nat)
    requires Inv(w) && Held(s, w, t) && w.waiters == 0
    ensures forall u: nat :: !Sleeping(w, u)
  {
    hide QueueOk, MutexOk, Gone;
    assert Counted(w.pc) == {};
    forall u: nat ensures !Sleeping(w, u) { assert u !in Counted(w.pc); }
  }

  lemma LookDelivers(trace: seq<State>, steps: seq<Step>, i: nat, m: nat, t: nat, all: bool)
    requires Run(trace, steps) && i < m < |steps| && Delivering(trace, i, m, t, all) && steps[m] == Look(t)
    requires Held(trace[i], trace[m+1], t)
    ensures Delivering(trace, i, m + 1, t, all)
  {
    hide Inv, Woken, Held, WakeOne, WakeAll;
    RunInv(trace, steps, m);
    if trace[m].waiters == 0 {
      NoneCounted(trace[i], trace[m], t);
      NobodySleeps(trace, i, m, all);
      WokenLater(trace, i, m, all);
    } else {
      RunInv(trace, steps, m);
      CountsWaiters(trace[m]);
    }
  }

  lemma CountsWaiters(s: State)
    requires Inv(s)
    ensures s.waiters >= 0
  {}

  /** The effect of a wake-up on one sleeper at least, or on all. */
  lemma WakeReaches(s: State, t: nat)
    requires Inv(s) && t in s.pc && s.pc[t].Waking?
    ensures var w := Apply(s, Wake(t));
      && (s.pc[t].all ==> forall u: nat :: !Sleeping(w, u))
      && (!s.pc[t].all && (exists u: nat :: Sleeping(s, u)) ==> exists u: nat :: Sleeping(s, u) && !Sleeping(w, u))
  {
    hide Inv, Sleeping;
    WakeMeans(s, t);
    WakeSleepers(s, t);
  }

  lemma WakeSleepers(s: State, t: nat)
    requires t in s.pc && s.pc[t].Waking?
    ensures var w := Apply(s, Wake(t)); forall u: nat :: Sleeping(w, u) <==> Sleeping(s, u) && u !in w.awake
  {
    WakeFrames(s);
    WakeGrows(s);
    hide WakeOne, WakeAll;
  }

  lemma WakeDelivers(trace: seq<State>, steps: seq<Step>, i: nat, m: nat, t: nat, all: bool)
    requires Run(trace, steps) && i < m < |steps| && Delivering(trace, i, m, t, all) && steps[m] == Wake(t)
    requires Held(trace[i], trace[m+1], t)
    ensures Delivering(trace, i, m + 1, t, all)
  {
    hide Inv, Sleeping, Run, Woken;
    RunAt(trace, steps, m);
    RunInv(trace, steps, m);
    WakeReaches(trace[m], t);
    WakeEnds(trace[m], t);
    if all || forall u: nat :: !Sleeping(trace[m], u) {
      StaysAwake(trace[m], t);
      NobodySleeps(trace, i, m + 1, all);
    } else {
      var u: nat :| Sleeping(trace[m], u) && !Sleeping(trace[m+1], u);
      OneStirred(trace, i, m + 1, u);
    }
  }

  lemma RunAt(trace: seq<State>, steps: seq<Step>, m: nat)
    requires Run(trace, steps) && m < |steps|
    ensures |trace| == |steps| + 1 && Enabled(trace[m], steps[m]) && trace[m+1] == Apply(trace[m], steps[m])
  {}

  lemma WakeEnds(s: State, t: nat)
    requires t in s.pc && s.pc[t].Waking?
    ensures var w := Apply(s, Wake(t)); t in w.pc && w.pc[t] == Signaled
  {
    WakeFrames(s);
    hide WakeOne, WakeAll;
  }

  lemma StaysAwake(s: State, t: nat)
    requires t in s.pc && s.pc[t].Waking?
    ensures var w := Apply(s, Wake(t)); (forall u: nat :: !Sleeping(s, u)) ==> forall u: nat :: !Sleeping(w, u)
  {
    hide Sleeping;
    WakeSleepers(s, t);
  }

  /** A step of another thread leaves the signaler where it is. */
  lemma OthersDeliver(trace: seq<State>, steps: seq<Step>, i: nat, m: nat, t: nat, all: bool)
    requires Run(trace, steps) && i < m < |steps| && Delivering(trace, i, m, t, all)
    requires steps[m] != Look(t) && steps[m] != Wake(t) && steps[m] != SignalDone(t)
    requires Held(trace[i], trace[m+1], t)
    ensures Delivering(trace, i, m + 1, t, all)
  {
    hide Inv, Sleeping, Woken, WakeOne, WakeAll, Delete;
    WakeFrames(trace[m]);
    if trace[m].pc[t] == Signaled { WokenLater(trace, i, m, all); }
    assert trace[m+1].pc[t] == trace[m].pc[t];
  }

  lemma {:induction false} Delivers(trace: seq<State>, steps: seq<Step>, i: nat, m: nat, t: nat, all: bool)
    requires Run(trace, steps) && i < m < |trace| && steps[i] == Signal(t, all) && trace[i].mutex == Some(t)
    requires forall j :: i < j < m ==> steps[j] != SignalDone(t)
    ensures Delivering(trace, i, m, t, all)
    decreases m
  {
    hide Inv, Held, Woken, Apply, Enabled;
    RunInv(trace, steps, i);
    RunInv(trace, steps, m - 1);
    if m == i + 1 {
      HeldStarts(trace[i], t, all);
      SignalBegins(trace[i], t, all);
    } else {
      Delivers(trace, steps, i, m - 1, t, all);
      HeldStays(trace[i], trace[m-1], t, steps[m-1]);
      if steps[m-1] == Look(t) {
        LookDelivers(trace, steps, i, m - 1, t, all);
      } else if steps[m-1] == Wake(t) {
        WakeDelivers(trace, steps, i, m - 1, t, all);
      } else {
        OthersDeliver(trace, steps, i, m - 1, t, all);
      }
    }
  }

  lemma SignalBegins(s: State, t: nat, all: bool)
    requires Enabled(s, Signal(t, all))
    ensures var w := Apply(s, Signal(t, all)); t in w.pc && w.pc[t] == Signaling(all)
  {}

  /**
    A signal sent with the mutex held, in any interleaving: by the time `__cv_signal` returns, one of
    the threads that slept when it was called has stirred, if there was one; and by the time
    `__cv_broadcast` returns, all of them have.
   */
  lemma SignalDelivered(trace: seq<State>, steps: seq<Step>, i: nat, k: nat, t: nat, all: bool)
    requires Run(trace, steps) && i < k < |steps|
    requires steps[i] == Signal(t, all) && trace[i].mutex == Some(t) && steps[k] == SignalDone(t)
    requires forall j :: i < j < k ==> steps[j] != SignalDone(t)
    ensures all ==> forall u: nat :: Sleeping(trace[i], u) ==> exists j :: i < j <= k + 1 && !Sleeping(trace[j], u)
    ensures (exists u: nat :: Sleeping(trace[i], u)) ==>
      exists u: nat, j :: Sleeping(trace[i], u) && i < j <= k + 1 && !Sleeping(trace[j], u)
  {
    hide Inv, Held, Apply, Sleeping;
    Delivers(trace, steps, i, k, t, all);
    assert trace[k].pc[t] == Signaled;
    forall u: nat | Stirred(trace, i, k, u) ensures exists j :: i < j <= k + 1 && !Sleeping(trace[j], u) {
      var j :| i < j <= k && j < |trace| && !Sleeping(trace[j], u);
      assert i < j <= k + 1;
    }
    if u: nat :| Sleeping(trace[i], u) {
      var v: nat :| Sleeping(trace[i], v) && Stirred(trace, i, k, v);
      var j :| i < j <= k && j < |trace| && !Sleeping(trace[j], v);
      assert Sleeping(trace[i], v) && i < j <= k + 1 && !Sleeping(trace[j], v);
    }
  }

  // ---------------------------------------------------------------- first come, first served

  ghost predicate Ahead(q: seq<nat>, u: nat, v: nat) {
    exists i, j :: 0 <= i < j < |q| && q[i] == u && q[j] == v
  }

  lemma RemoveAhead(q: seq<nat>, k: nat, u: nat, v: nat)
    requires Ahead(q, u, v) && k < |q| && q[k] != u && q[k] != v
    ensures Ahead(RemoveAt(q, k), u, v)
  {
    var i, j :| 0 <= i < j < |q| && q[i] == u && q[j] == v;
    var i', j' := if i < k then i else i - 1, if j < k then j else j - 1;
    assert RemoveAt(q, k)[i'] == u && RemoveAt(q, k)[j'] == v;
  }

  lemma DeleteAhead(q: seq<nat>, x: nat, u: nat, v: nat)
    requires Ahead(q, u, v) && x != u && x != v
    ensures Ahead(Delete(q, x), u, v)
  {
    hide Ahead, RemoveAt;
    var k := Find(q, x);
    if k < |q| { RemoveAhead(q, k, u, v); }
  }

  lemma AppendAhead(q: seq<nat>, x: nat, u: nat, v: nat)
    ensures Ahead(q, u, v) ==> Ahead(q + [x], u, v)
    ensures u in q ==> Ahead(q + [x], u, x)
  {
    var r := q + [x];
    if Ahead(q, u, v) {
      var i, j :| 0 <= i < j < |q| && q[i] == u && q[j] == v;
      assert r[i] == u && r[j] == v;
    }
    if u in q {
      var i :| 0 <= i < |q| && q[i] == u;
      assert r[i] == u && r[|q|] == x;
    }
  }

  /** Two sleepers keep their order while both sleep on. */
  lemma OrderKept(s: State, st: Step, u: nat, v: nat)
    requires Inv(s) && Enabled(s, st) && Ahead(s.queue, u, v)
    requires Sleeping(Apply(s, st), u) && Sleeping(Apply(s, st), v)
    ensures Ahead(Apply(s, st).queue, u, v)
  {
    hide Ahead, Inv, Delete;
    match st {
      case Prepare(t) => AppendAhead(s.queue, t, u, v);
      case Finish(t) => DeleteAhead(s.queue, t, u, v);
      case Wake(t) => WakeOrder(s, t, u, v);
      case _ =>
    }
  }

  lemma WakeOrder(s: State, t: nat, u: nat, v: nat)
    requires Enabled(s, Wake(t)) && Ahead(s.queue, u, v)
    requires u !in Apply(s, Wake(t)).awake && v !in Apply(s, Wake(t)).awake
    ensures Ahead(Apply(s, Wake(t)).queue, u, v)
  {
    assert u in s.queue;
    var k := FirstAsleep(s.queue, s.awake);
    if k < |s.queue| && !s.pc[t].all {
      hide Ahead, RemoveAt;
      RemoveAhead(s.queue, k, u, v);
    }
  }

  /** `u` has slept in every state after `a`, up to `m`. */
  ghost predicate SleepsFrom(trace: seq<State>, a: nat, m: nat, u: nat)
    requires m < |trace|
  {
    forall j :: a < j <= m ==> Sleeping(trace[j], u)
  }

  lemma {:induction false} QueueOrder(trace: seq<State>, steps: seq<Step>, a: nat, b: nat, m: nat, u: nat, v: nat)
    requires Run(trace, steps) && a < b < m < |trace| && steps[a] == Prepare(u) && steps[b] == Prepare(v)
    requires SleepsFrom(trace, a, m, u) && SleepsFrom(trace, b, m, v)
    ensures Ahead(trace[m].queue, u, v)
    decreases m
  {
    hide Inv, Ahead, Apply, Enabled;
    RunInv(trace, steps, m - 1);
    RunAt(trace, steps, m - 1);
    if m == b + 1 {
      SleeperQueued(trace[b], u);
      PrepareAppends(trace[b], v);
      AppendAhead(trace[b].queue, v, u, v);
    } else {
      QueueOrder(trace, steps, a, b, m - 1, u, v);
      OrderKept(trace[m-1], steps[m-1], u, v);
    }
  }

  lemma SleeperQueued(s: State, u: nat)
    requires Inv(s) && Sleeping(s, u)
    ensures u in s.queue
  {}

  lemma PrepareAppends(s: State, v: nat)
    requires Enabled(s, Prepare(v))
    ensures Apply(s, Prepare(v)).queue == s.queue + [v]
  {}

  /** A signal never overtakes: while a thread that came earlier sleeps, it leaves the later one asleep. */
  lemma FirstComeFirstServed(trace: seq<State>, steps: seq<Step>, a: nat, b: nat, m: nat, u: nat, v: nat, t: nat)
    requires Run(trace, steps) && a < b < m < |steps| && steps[a] == Prepare(u) && steps[b] == Prepare(v)
    requires SleepsFrom(trace, a, m, u) && SleepsFrom(trace, b, m, v)
    requires steps[m] == Wake(t) && trace[m].pc[t] == Waking(false)
    ensures Sleeping(trace[m+1], v)
  {
    hide Inv, Apply, Run;
    RunAt(trace, steps, m);
    RunInv(trace, steps, m);
    QueueOrder(trace, steps, a, b, m, u, v);
    NoOvertaking(trace[m], t, u, v);
  }

  lemma NoOvertaking(s: State, t: nat, u: nat, v: nat)
    requires Inv(s) && t in s.pc && s.pc[t] == Waking(false) && Sleeping(s, u) && Sleeping(s, v) && Ahead(s.queue, u, v)
    ensures Sleeping(Apply(s, Wake(t)), v)
  {
    hide Inv, Apply, Sleeping;
    WakeMeans(s, t);
    WakeSleepers(s, t);
    QueueNoDup(s);
    NotAwake(s, v);
    var i, j :| 0 <= i < j < |s.queue| && s.queue[i] == u && s.queue[j] == v;
    var k :| 0 <= k < |s.queue| && Sleeping(s, s.queue[k]) && Apply(s, Wake(t)).awake == s.awake + {s.queue[k]}
             && forall q :: 0 <= q < k ==> !Sleeping(s, s.queue[q]);
    assert k <= i;
  }

  lemma NotAwake(s: State, v: nat)
    requires Sleeping(s, v)
    ensures v !in s.awake
  {}

  lemma QueueNoDup(s: State)
    requires Inv(s)
    ensures NoDup(s.queue)
  {}

  // ---------------------------------------------------------------- destroy, and progress

  /** The destroyer's reads decide exactly whether a thread waits, and whether one is inside. */
  lemma DestroyReads(trace: seq<State>, steps: seq<Step>, i: nat)
    requires Run(trace, steps) && i < |steps|
    ensures steps[i] == ReadWaiters ==>
      (trace[i+1].phase == NoWaiters <==> forall t: nat :: !At(trace[i], t, Waiting) && !At(trace[i], t, Asleep))
    ensures steps[i] == ReadRefs ==> (trace[i+1].phase == Returned <==> trace[i].pc == map[])
  {
    hide Inv, Run, WakeOne, WakeAll, Delete;
    RunAt(trace, steps, i);
    RunInv(trace, steps, i);
    ReadsMean(trace[i]);
  }

  lemma ReadsMean(s: State)
    requires Inv(s)
    ensures s.waiters == 0 <==> forall t: nat :: !At(s, t, Waiting) && !At(s, t, Asleep)
    ensures !OwnerHolds(s) ==> (s.refs == 0 <==> s.pc == map[])
  {
    hide QueueOk, MutexOk, Gone;
    assert s.waiters == 0 <==> Counted(s.pc) == {};
    forall t: nat ensures t in Counted(s.pc) <==> At(s, t, Waiting) || At(s, t, Asleep) {}
    if |s.pc| == 0 { assert s.pc.Keys == {}; assert s.pc == map[]; }
  }

  /** The thread a step belongs to. */
  predicate Mine(st: Step, t: nat) {
    match st
    case Expired(u) => u == t
    case Prepare(u) => u == t
    case CountUp(u) => u == t
    case Release(u) => u == t
    case Resume(u) => u == t
    case Finish(u) => u == t
    case Leave(u) => u == t
    case Look(u) => u == t
    case Wake(u) => u == t
    case SignalDone(u) => u == t
    case _ => false
  }

  /** Nobody inside is stuck: whoever is not asleep in the scheduler can take a step. */
  lemma NobodyStuck(s: State, t: nat)
    requires t in s.pc
    ensures (exists st :: Mine(st, t) && Enabled(s, st)) <==> !(At(s, t, Asleep) && t !in s.awake)
  {
    var st := match s.pc[t]
      case Entered => Prepare(t)
      case Queued => CountUp(t)
      case Waiting => Release(t)
      case Asleep => Resume(t)
      case Uncounted => Finish(t)
      case Leaving => Leave(t)
      case Signaling(_) => Look(t)
      case Waking(_) => Wake(t)
      case Signaled => SignalDone(t);
    assert Mine(st, t);
  }

  // ---------------------------------------------------------------- the mutex while waiting

  /** From the scheduler call until it leaves, a waiter does not own the mutex. */
  ghost predicate LetGo(s: State) {
    forall t: nat :: At(s, t, Asleep) || At(s, t, Uncounted) || At(s, t, Leaving) ==> s.mutex != Some(t)
  }

  lemma StepLetGo(s: State, st: Step)
    requires LetGo(s) && MutexOk(s) && Enabled(s, st)
    ensures LetGo(Apply(s, st))
  {
    hide Delete, FirstAsleep, OnlyAwake;
    WakeFrames(s);
    hide WakeOne, WakeAll;
  }

  /** A waiter owns the mutex until it sleeps, and no longer: others can lock it, and signal. */
  lemma {:induction false} SleepersLetGo(trace: seq<State>, steps: seq<Step>, i: nat)
    requires Run(trace, steps) && i < |trace|
    ensures LetGo(trace[i]) && MutexOk(trace[i])
  {
    if i > 0 {
      hide LetGo, MutexOk, Apply, Enabled;
      SleepersLetGo(trace, steps, i - 1);
      StepLetGo(trace[i-1], steps[i-1]);
      StepMutex(trace[i-1], steps[i-1]);
    }
  }
}

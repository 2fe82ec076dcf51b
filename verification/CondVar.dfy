/**
  The condition variable of `spl-condvar.c` as an interleaving of atomic steps: any number of
  waiters and signalers, and one destroyer.
 */
module CondVar {
  import opened Options
  import opened Seqs

  /**
    Where a thread inside the condition variable stands.

    A waiter has taken its reference (`Entered`), is on the wait queue (`Queued`), is counted in
    `cv_waiters` (`Waiting`), has dropped the mutex and called the scheduler (`Asleep`), has left
    `cv_waiters` (`Uncounted`), and is off the queue (`Leaving`).  A signaler has taken its
    reference (`Signaling`), has seen a waiter (`Waking`), and is done (`Signaled`).
   */
  datatype Pc = Entered | Queued | Waiting | Asleep | Uncounted | Leaving | Signaling(all: bool) | Waking(all: bool) | Signaled

  /** `__cv_destroy`: not called, magic changed, owner's reference dropped, `cv_waiters` seen zero, returned. */
  datatype Phase = Idle | Marked | Dropped | NoWaiters | Returned

  /** `awake` holds the waiters set runnable since they queued; `pc` the threads inside. */
  datatype State = State(refs: int, waiters: int, queue: seq<nat>, awake: set<nat>, pc: map<nat, Pc>,
                         mutex: Option<nat>, phase: Phase)

  /** `__cv_init` */
  function Init(): State { State(1, 0, [], {}, map[], None, Idle) }

  datatype Step =
    | Lock(t: nat) | Unlock(t: nat)
    | Enter(t: nat) | Expired(t: nat) | Prepare(t: nat) | CountUp(t: nat) | Release(t: nat)
    | Spurious(t: nat) | Resume(t: nat) | Finish(t: nat) | Leave(t: nat)
    | Signal(t: nat, all: bool) | Look(t: nat) | Wake(t: nat) | SignalDone(t: nat)
    | Mark | Drop | ReadWaiters | ReadRefs

  predicate At(s: State, t: nat, p: Pc) { t in s.pc && s.pc[t] == p }

  /** On its way into the scheduler or in it. */
  predicate Resting(pc: map<nat, Pc>, t: nat) {
    t in pc && (pc[t] == Queued || pc[t] == Waiting || pc[t] == Asleep)
  }

  /** Queued or further, and not set runnable since. */
  predicate Sleeping(s: State, t: nat) { Resting(s.pc, t) && t !in s.awake }

  predicate Enabled(s: State, st: Step) {
    match st
    case Lock(t) => t !in s.pc && s.mutex == None
    case Unlock(t) => t !in s.pc && s.mutex == Some(t)
    case Enter(t) => t !in s.pc && s.phase == Idle && s.mutex == Some(t)
    case Expired(t) => At(s, t, Entered)
    case Prepare(t) => At(s, t, Entered)
    case CountUp(t) => At(s, t, Queued)
    case Release(t) => At(s, t, Waiting)
    case Spurious(t) => Sleeping(s, t)
    case Resume(t) => At(s, t, Asleep) && t in s.awake
    case Finish(t) => At(s, t, Uncounted)
    case Leave(t) => At(s, t, Leaving)
    case Signal(t, _) => t !in s.pc && s.phase == Idle
    case Look(t) => t in s.pc && s.pc[t].Signaling?
    case Wake(t) => t in s.pc && s.pc[t].Waking?
    case SignalDone(t) => At(s, t, Signaled)
    case Mark => s.phase == Idle
    case Drop => s.phase == Marked
    case ReadWaiters => s.phase == Dropped
    case ReadRefs => s.phase == NoWaiters
  }

  /** The first sleeper of the queue, if any: the one an exclusive wake-up sets runnable. */
  function FirstAsleep(queue: seq<nat>, awake: set<nat>): (k: nat)
    ensures k <= |queue|
    ensures forall i :: 0 <= i < k ==> queue[i] in awake
    ensures k < |queue| ==> queue[k] !in awake
  {
    if queue == [] || queue[0] !in awake then 0 else 1 + FirstAsleep(queue[1..], awake)
  }

  /** `wake_up`: one sleeper leaves the queue and is set runnable. */
  function WakeOne(s: State): State {
    var k := FirstAsleep(s.queue, s.awake);
    if k == |s.queue| then s else s.(queue := RemoveAt(s.queue, k), awake := s.awake + {s.queue[k]})
  }

  function OnlyAwake(queue: seq<nat>, awake: set<nat>): seq<nat> {
    if queue == [] then []
    else OnlyAwake(queue[..|queue|-1], awake) + if queue[|queue|-1] in awake then [queue[|queue|-1]] else []
  }

  /** `wake_up_all` */
  function WakeAll(s: State): State {
    s.(queue := OnlyAwake(s.queue, s.awake), awake := s.awake + (set t | t in s.queue))
  }

  function Move(s: State, t: nat, p: Pc): State { s.(pc := s.pc[t := p]) }

  function Out(s: State, t: nat): State { s.(pc := s.pc - {t}, refs := s.refs - 1) }

  ghost function Apply(s: State, st: Step): State
    requires Enabled(s, st)
  {
    match st
    case Lock(t) => s.(mutex := Some(t))
    case Unlock(t) => s.(mutex := None)
    case Enter(t) => Move(s, t, Entered).(refs := s.refs + 1)
    case Expired(t) => Out(s, t)
    case Prepare(t) => Move(s, t, Queued).(queue := s.queue + [t])
    case CountUp(t) => Move(s, t, Waiting).(waiters := s.waiters + 1)
    case Release(t) => Move(s, t, Asleep).(mutex := None)
    case Spurious(t) => s.(awake := s.awake + {t})
    case Resume(t) => Move(s, t, Uncounted).(waiters := s.waiters - 1)
    case Finish(t) => Move(s, t, Leaving).(queue := Delete(s.queue, t), awake := s.awake - {t})
    case Leave(t) => Out(s, t)
    case Signal(t, all) => Move(s, t, Signaling(all)).(refs := s.refs + 1)
    case Look(t) => Move(s, t, if s.waiters > 0 then Waking(s.pc[t].all) else Signaled)
    case Wake(t) => Move(if s.pc[t].all then WakeAll(s) else WakeOne(s), t, Signaled)
    case SignalDone(t) => Out(s, t)
    case Mark => s.(phase := Marked)
    case Drop => s.(phase := Dropped, refs := s.refs - 1)
    case ReadWaiters => s.(phase := if s.waiters == 0 then NoWaiters else Dropped)
    case ReadRefs => s.(phase := if s.refs == 0 then Returned else Dropped)
  }

  // ---------------------------------------------------------------- invariant

  /** The threads `cv_waiters` counts. */
  function Counted(pc: map<nat, Pc>): set<nat> { set t | t in pc && (pc[t] == Waiting || pc[t] == Asleep) }

  predicate OwnerHolds(s: State) { s.phase == Idle || s.phase == Marked }

  /** `cv_refs` is the owner's reference plus the threads inside; `cv_waiters` counts the waiting ones. */
  ghost predicate Counts(s: State) {
    s.refs == |s.pc| + (if OwnerHolds(s) then 1 else 0) && s.waiters == |Counted(s.pc)|
  }

  /** A sleeper is on the queue, so a wake-up can reach it; the rest of the queue is awake. */
  ghost predicate QueueFor(queue: seq<nat>, awake: set<nat>, pc: map<nat, Pc>) {
    && NoDup(queue)
    && (forall t :: Resting(pc, t) && t !in awake ==> t in queue)
    && (forall t :: t in queue ==> Resting(pc, t) || t in awake)
    && (forall t :: t in awake ==> Resting(pc, t) || (t in pc && pc[t] == Uncounted))
    && (forall t :: t in pc && pc[t] == Uncounted ==> t in awake)
  }

  ghost predicate QueueOk(s: State) { QueueFor(s.queue, s.awake, s.pc) }

  /** A waiter holds the mutex until it is counted and calls the scheduler. */
  ghost predicate MutexOk(s: State) {
    forall t: nat :: At(s, t, Entered) || At(s, t, Queued) || At(s, t, Waiting) ==> s.mutex == Some(t)
  }

  ghost predicate Gone(s: State) { s.phase == Returned ==> s.pc == map[] }

  ghost predicate Inv(s: State) { Counts(s) && QueueOk(s) && MutexOk(s) && Gone(s) }

  // ---------------------------------------------------------------- counting

  lemma MoveCounts(s: State, t: nat, p: Pc)
    requires t in s.pc
    ensures |Move(s, t, p).pc| == |s.pc|
    ensures var (was, will) := (s.pc[t] == Waiting || s.pc[t] == Asleep, p == Waiting || p == Asleep);
      |Counted(s.pc[t := p])| == |Counted(s.pc)| + (if will then 1 else 0) - (if was then 1 else 0)
  {
    assert s.pc[t := p].Keys == s.pc.Keys;
    CountedMove(s.pc, t, p);
    hide Counted;
  }

  lemma CountedMove(pc: map<nat, Pc>, t: nat, p: Pc)
    requires t in pc
    ensures Counted(pc[t := p]) == Counted(pc) - {t} + (if p == Waiting || p == Asleep then {t} else {})
    ensures t in Counted(pc) <==> pc[t] == Waiting || pc[t] == Asleep
  {}

  lemma EnterCounts(s: State, t: nat, p: Pc)
    requires Counts(s) && t !in s.pc && p != Waiting && p != Asleep
    ensures Counts(Move(s, t, p).(refs := s.refs + 1))
  {
    assert s.pc[t := p].Keys == s.pc.Keys + {t};
    assert Counted(s.pc[t := p]) == Counted(s.pc);
  }

  lemma OutCounts(s: State, t: nat)
    requires Counts(s) && t in s.pc && s.pc[t] != Waiting && s.pc[t] != Asleep
    ensures Counts(Out(s, t))
  {
    assert (s.pc - {t}).Keys == s.pc.Keys - {t};
    assert Counted(s.pc - {t}) == Counted(s.pc);
  }

  lemma WakeFrames(s: State)
    ensures var w := WakeOne(s); w.pc == s.pc && w.refs == s.refs && w.waiters == s.waiters && w.phase == s.phase && w.mutex == s.mutex
    ensures var w := WakeAll(s); w.pc == s.pc && w.refs == s.refs && w.waiters == s.waiters && w.phase == s.phase && w.mutex == s.mutex
  {}

  lemma InOutCounts(s: State, st: Step)
    requires Counts(s) && Enabled(s, st) && (st.Enter? || st.Signal? || st.Expired? || st.Leave? || st.SignalDone?)
    ensures Counts(Apply(s, st))
  {
    hide Counts, Out, Move;
    match st {
      case Enter(t) => EnterCounts(s, t, Entered);
      case Signal(t, all) => EnterCounts(s, t, Signaling(all));
      case Expired(t) => OutCounts(s, t);
      case Leave(t) => OutCounts(s, t);
      case SignalDone(t) => OutCounts(s, t);
    }
  }

  lemma MovingCounts(s: State, st: Step)
    requires Counts(s) && Enabled(s, st)
    requires st.Prepare? || st.CountUp? || st.Release? || st.Resume? || st.Finish? || st.Look? || st.Wake?
    ensures Counts(Apply(s, st))
  {
    hide WakeOne, WakeAll, Delete, Counted;
    match st {
      case Prepare(t) => MoveCounts(s, t, Queued);
      case CountUp(t) => MoveCounts(s, t, Waiting);
      case Release(t) => MoveCounts(s, t, Asleep);
      case Resume(t) => MoveCounts(s, t, Uncounted);
      case Finish(t) => MoveCounts(s, t, Leaving);
      case Look(t) => LookCounts(s, t);
      case Wake(t) => WakeFrames(s); MoveCounts(s, t, Signaled);
    }
  }

  lemma LookCounts(s: State, t: nat)
    requires Counts(s) && Enabled(s, Look(t))
    ensures Counts(Apply(s, Look(t)))
  {
    hide Counted;
    MoveCounts(s, t, if s.waiters > 0 then Waking(s.pc[t].all) else Signaled);
  }

  lemma StepCounts(s: State, st: Step)
    requires Counts(s) && Enabled(s, st)
    ensures Counts(Apply(s, st))
  {
    if st.Enter? || st.Signal? || st.Expired? || st.Leave? || st.SignalDone? {
      InOutCounts(s, st);
    } else if st.Prepare? || st.CountUp? || st.Release? || st.Resume? || st.Finish? || st.Look? || st.Wake? {
      MovingCounts(s, st);
    }
    hide Counted, Delete, WakeOne, WakeAll;
  }

  // ---------------------------------------------------------------- the queue

  lemma PrepareQueue(q: seq<nat>, awake: set<nat>, pc: map<nat, Pc>, t: nat)
    requires QueueFor(q, awake, pc) && t in pc && pc[t] == Entered
    ensures QueueFor(q + [t], awake, pc[t := Queued])
  {
    assert t !in q;
    AppendFacts(q, t);
    hide NoDup;
  }

  lemma FinishQueue(q: seq<nat>, awake: set<nat>, pc: map<nat, Pc>, t: nat)
    requires QueueFor(q, awake, pc) && t in pc && pc[t] == Uncounted
    ensures QueueFor(Delete(q, t), awake - {t}, pc[t := Leaving])
  {
    DeleteFacts(q, t);
    hide NoDup, Delete;
  }

  lemma ResumeQueue(q: seq<nat>, awake: set<nat>, pc: map<nat, Pc>, t: nat)
    requires QueueFor(q, awake, pc) && t in pc && pc[t] == Asleep && t in awake
    ensures QueueFor(q, awake, pc[t := Uncounted])
  {
    hide NoDup;
  }

  /** Moving on towards the scheduler, or being set runnable on the way. */
  lemma RestQueue(q: seq<nat>, awake: set<nat>, pc: map<nat, Pc>, t: nat, p: Pc)
    requires QueueFor(q, awake, pc) && Resting(pc, t) && (p == Waiting || p == Asleep)
    ensures QueueFor(q, awake, pc[t := p]) && QueueFor(q, awake + {t}, pc)
  {
    hide NoDup;
  }

  /** A thread that is neither resting nor resuming may come, go and move among the other places. */
  lemma OtherQueue(q: seq<nat>, awake: set<nat>, pc: map<nat, Pc>, t: nat, p: Pc)
    requires QueueFor(q, awake, pc) && !Resting(pc, t) && (t in pc ==> pc[t] != Uncounted)
    requires p != Queued && p != Waiting && p != Asleep && p != Uncounted
    ensures QueueFor(q, awake, pc[t := p]) && QueueFor(q, awake, pc - {t})
  {
    hide NoDup;
  }

  lemma WakeOneQueue(s: State)
    requires QueueOk(s)
    ensures QueueOk(WakeOne(s))
  {
    var k := FirstAsleep(s.queue, s.awake);
    if k < |s.queue| {
      RemovedAt(s.queue, k);
      hide RemoveAt, NoDup;
    }
  }

  lemma RemovedAt(q: seq<nat>, k: nat)
    requires NoDup(q) && k < |q|
    ensures NoDup(RemoveAt(q, k)) && forall t :: t in RemoveAt(q, k) <==> t in q && t != q[k]
  {
    SplitAt(q, k);
  }

  lemma {:induction false} OnlyAwakeFacts(queue: seq<nat>, awake: set<nat>)
    ensures forall t :: t in OnlyAwake(queue, awake) <==> t in queue && t in awake
    ensures NoDup(queue) ==> NoDup(OnlyAwake(queue, awake))
  {
    if queue != [] {
      var (q, t) := (queue[..|queue|-1], queue[|queue|-1]);
      OnlyAwakeFacts(q, awake);
      assert queue == q + [t];
      if NoDup(queue) { assert t !in q; }
    }
  }

  lemma WakeAllQueue(s: State)
    requires QueueOk(s)
    ensures QueueOk(WakeAll(s)) && forall t :: !Sleeping(WakeAll(s), t)
  {
    OnlyAwakeFacts(s.queue, s.awake);
    hide OnlyAwake, NoDup;
  }

  lemma StepQueue(s: State, st: Step)
    requires QueueOk(s) && Enabled(s, st)
    ensures QueueOk(Apply(s, st))
  {
    hide QueueFor, WakeOne, WakeAll, Delete;
    match st {
      case Prepare(t) => PrepareQueue(s.queue, s.awake, s.pc, t);
      case Finish(t) => FinishQueue(s.queue, s.awake, s.pc, t);
      case Enter(t) => OtherQueue(s.queue, s.awake, s.pc, t, Entered);
      case Signal(t, all) => OtherQueue(s.queue, s.awake, s.pc, t, Signaling(all));
      case Expired(t) => OtherQueue(s.queue, s.awake, s.pc, t, Entered);
      case Leave(t) => OtherQueue(s.queue, s.awake, s.pc, t, Entered);
      case SignalDone(t) => OtherQueue(s.queue, s.awake, s.pc, t, Entered);
      case Look(t) => OtherQueue(s.queue, s.awake, s.pc, t, Apply(s, st).pc[t]);
      case Wake(t) =>
        WakeOneQueue(s);
        WakeAllQueue(s);
        WakeFrames(s);
        var w := if s.pc[t].all then WakeAll(s) else WakeOne(s);
        OtherQueue(w.queue, w.awake, s.pc, t, Signaled);
      case CountUp(t) => RestQueue(s.queue, s.awake, s.pc, t, Waiting);
      case Release(t) => RestQueue(s.queue, s.awake, s.pc, t, Asleep);
      case Spurious(t) => RestQueue(s.queue, s.awake, s.pc, t, Asleep);
      case Resume(t) => ResumeQueue(s.queue, s.awake, s.pc, t);
      case _ =>
    }
  }

  lemma StepMutex(s: State, st: Step)
    requires MutexOk(s) && Enabled(s, st)
    ensures MutexOk(Apply(s, st))
  {
    hide WakeOne, WakeAll, Delete;
    WakeFrames(s);
    var s' := Apply(s, st);
    forall t: nat | At(s', t, Entered) || At(s', t, Queued) || At(s', t, Waiting) ensures s'.mutex == Some(t) {
      if t in s.pc { assert At(s, t, s.pc[t]); }
    }
  }

  lemma StepInv(s: State, st: Step)
    requires Inv(s) && Enabled(s, st)
    ensures Inv(Apply(s, st))
  {
    StepCounts(s, st);
    StepQueue(s, st);
    StepMutex(s, st);
    StepGone(s, st);
    hide Counts, QueueOk, MutexOk;
  }

  /** Once the destroyer has read both counters as zero nobody is inside, and nobody comes in. */
  lemma StepGone(s: State, st: Step)
    requires Counts(s) && Gone(s) && Enabled(s, st)
    ensures Gone(Apply(s, st))
  {
    hide WakeOne, WakeAll, Delete, Counted;
    WakeFrames(s);
    if st.ReadRefs? && s.refs == 0 { assert s.pc.Keys == {}; assert s.pc == map[]; }
  }

  // ---------------------------------------------------------------- runs

  ghost predicate Run(trace: seq<State>, steps: seq<Step>) {
    && |trace| == |steps| + 1 && trace[0] == Init()
    && forall i :: 0 <= i < |steps| ==> Enabled(trace[i], steps[i]) && trace[i+1] == Apply(trace[i], steps[i])
  }

  lemma InitInv()
    ensures Inv(Init())
  {
    assert Counted(map[]) == {};
  }

  lemma {:induction false} RunInv(trace: seq<State>, steps: seq<Step>, i: nat)
    requires Run(trace, steps) && i < |trace|
    ensures Inv(trace[i])
  {
    if i == 0 {
      InitInv();
    } else {
      RunInv(trace, steps, i - 1);
      StepInv(trace[i-1], steps[i-1]);
    }
  }

  /** In every interleaving the counters bound each other, strictly while the owner holds its reference. */
  lemma CountersBound(trace: seq<State>, steps: seq<Step>, i: nat)
    requires Run(trace, steps) && i < |trace|
    ensures var s := trace[i];
      && s.refs == |s.pc| + (if OwnerHolds(s) then 1 else 0)
      && 0 <= s.waiters <= |s.pc| <= s.refs && (OwnerHolds(s) ==> s.waiters < s.refs)
  {
    RunInv(trace, steps, i);
    SubsetSize(Counted(trace[i].pc), trace[i].pc.Keys);
  }

  lemma ReturnedStays(s: State, st: Step)
    requires Enabled(s, st) && s.phase == Returned
    ensures Apply(s, st).phase == Returned
  {
    hide WakeOne, WakeAll, Delete;
    WakeFrames(s);
  }

  /** After `__cv_destroy` returns no thread is inside, the final assertions hold, and it stays so. */
  lemma {:induction false} DestroyFinal(trace: seq<State>, steps: seq<Step>, i: nat, j: nat)
    requires Run(trace, steps) && i <= j < |trace| && trace[i].phase == Returned
    ensures var s := trace[j];
      && s.phase == Returned && s.pc == map[] && s.refs == 0 && s.waiters == 0 && s.queue == []
      && forall st :: Enabled(s, st) ==> st.Lock? || st.Unlock?
  {
    hide Inv, Apply, Enabled;
    if i < j {
      DestroyFinal(trace, steps, i, j - 1);
      ReturnedStays(trace[j-1], steps[j-1]);
    }
    RunInv(trace, steps, j);
    NobodyInside(trace[j]);
  }

  lemma NobodyInside(s: State)
    requires Inv(s) && s.phase == Returned
    ensures s.pc == map[] && s.refs == 0 && s.waiters == 0 && s.queue == []
    ensures forall st :: Enabled(s, st) ==> st.Lock? || st.Unlock?
  {
    assert Counted(s.pc) == {};
    EmptyQueue(s);
    hide QueueOk;
  }

  lemma EmptyQueue(s: State)
    requires QueueOk(s) && s.pc == map[]
    ensures s.queue == []
  {
    EndsIn(s.queue);
  }

  /**
    A signaler that sees no waiters misses a sleeper if and only if some thread is queued but not
    yet counted; it misses none if it holds the mutex the waiters use.
   */
  lemma SignalMisses(trace: seq<State>, steps: seq<Step>, i: nat, t: nat)
    requires Run(trace, steps) && i < |trace| && t in trace[i].pc && trace[i].pc[t].Signaling? && trace[i].waiters == 0
    ensures var s := trace[i];
      && ((exists u :: Sleeping(s, u)) <==> (exists u :: At(s, u, Queued) && u !in s.awake))
      && (s.mutex == Some(t) ==> forall u :: !Sleeping(s, u))
  {
    var s := trace[i];
    RunInv(trace, steps, i);
    assert Counted(s.pc) == {};
    forall u: nat ensures Sleeping(s, u) <==> At(s, u, Queued) && u !in s.awake {
      assert u !in Counted(s.pc);
    }
    if s.mutex == Some(t) {
      forall u: nat ensures !At(s, u, Queued) { assert At(s, u, Queued) ==> s.mutex == Some(u); }
    }
    hide Counted;
  }

  /** A wake-up sets the longest queued sleeper runnable, and nobody else; a broadcast, all of them. */
  lemma SignalWakes(trace: seq<State>, steps: seq<Step>, i: nat, t: nat)
    requires Run(trace, steps) && i < |trace| && t in trace[i].pc && trace[i].pc[t].Waking?
    ensures var (s, s') := (trace[i], Apply(trace[i], Wake(t)));
      && ((forall u :: !Sleeping(s, u)) ==> s'.awake == s.awake)
      && (s.pc[t].all ==> forall u :: Sleeping(s, u) ==> u in s'.awake)
      && (!s.pc[t].all && (exists u :: Sleeping(s, u)) ==>
        exists k :: 0 <= k < |s.queue| && Sleeping(s, s.queue[k]) && s'.awake == s.awake + {s.queue[k]}
                    && forall q :: 0 <= q < k ==> !Sleeping(s, s.queue[q]))
  {
    hide Inv, Run;
    RunInv(trace, steps, i);
    WakeMeans(trace[i], t);
  }

  lemma WakeMeans(s: State, t: nat)
    requires Inv(s) && t in s.pc && s.pc[t].Waking?
    ensures var s' := Apply(s, Wake(t));
      && ((forall u :: !Sleeping(s, u)) ==> s'.awake == s.awake)
      && (s.pc[t].all ==> forall u :: Sleeping(s, u) ==> u in s'.awake)
      && (!s.pc[t].all && (exists u :: Sleeping(s, u)) ==>
        exists k :: 0 <= k < |s.queue| && Sleeping(s, s.queue[k]) && s'.awake == s.awake + {s.queue[k]}
                    && forall q :: 0 <= q < k ==> !Sleeping(s, s.queue[q]))
  {
    hide Counts, MutexOk, Gone;
    var k := FirstAsleep(s.queue, s.awake);
    assert forall u :: u in s.queue && u !in s.awake ==> Sleeping(s, u);
    if k < |s.queue| {
      assert s.queue[k] in s.queue;
      assert Sleeping(s, s.queue[k]);
    }
    forall u: nat | Sleeping(s, u) ensures k < |s.queue| { assert u in s.queue; }
    if forall u: nat :: !Sleeping(s, u) { assert s.awake + (set u | u in s.queue) == s.awake; }
  }

  /** A run in which a thread without the mutex signals between queueing and counting. */
  function LostState(i: nat): State {
    var (m, q) := (Some(1), map[1 := Queued]);
    match i
    case 0 => Init()
    case 1 => State(1, 0, [], {}, map[], m, Idle)
    case 2 => State(2, 0, [], {}, map[1 := Entered], m, Idle)
    case 3 => State(2, 0, [1], {}, q, m, Idle)
    case 4 => State(3, 0, [1], {}, q[2 := Signaling(false)], m, Idle)
    case 5 => State(3, 0, [1], {}, q[2 := Signaled], m, Idle)
    case 6 => State(2, 0, [1], {}, q, m, Idle)
    case 7 => State(2, 1, [1], {}, map[1 := Waiting], m, Idle)
    case _ => State(2, 1, [1], {}, map[1 := Asleep], None, Idle)
  }

  function LostStep(i: nat): Step {
    [Lock(1), Enter(1), Prepare(1), Signal(2, false), Look(2), SignalDone(2), CountUp(1), Release(1)][i % 8]
  }

  lemma LostFollows(i: nat)
    requires i < 8
    ensures Enabled(LostState(i), LostStep(i)) && LostState(i + 1) == Apply(LostState(i), LostStep(i))
  {
    hide LostState, LostStep, Enabled, Apply;
    if i < 3 {
      LostBegin(i);
    } else if i < 6 {
      LostSignal(i);
    } else {
      LostSleep(i);
    }
  }

  lemma LostBegin(i: nat)
    requires i < 3
    ensures Enabled(LostState(i), LostStep(i)) && LostState(i + 1) == Apply(LostState(i), LostStep(i))
  {
    hide WakeOne, WakeAll, Delete;
  }

  lemma LostSignal(i: nat)
    requires 3 <= i < 6
    ensures Enabled(LostState(i), LostStep(i)) && LostState(i + 1) == Apply(LostState(i), LostStep(i))
  {
    hide WakeOne, WakeAll, Delete;
    assert map[1 := Queued][2 := Signaled] - {2} == map[1 := Queued];
  }

  lemma LostSleep(i: nat)
    requires 6 <= i < 8
    ensures Enabled(LostState(i), LostStep(i)) && LostState(i + 1) == Apply(LostState(i), LostStep(i))
  {
    hide WakeOne, WakeAll, Delete;
  }

  /** Without the mutex such a signal is lost: the waiter sleeps on. */
  lemma LostSignalWitness() returns (trace: seq<State>, steps: seq<Step>)
    ensures Run(trace, steps) && |steps| == 8 && steps[3] == Signal(2, false) && steps[5] == SignalDone(2)
    ensures Sleeping(trace[3], 1) && trace[8].pc == map[1 := Asleep] && Sleeping(trace[8], 1)
  {
    hide LostState, LostStep, Enabled, Apply, Sleeping;
    trace, steps := seq(9, i requires i >= 0 => LostState(i)), seq(8, i requires i >= 0 => LostStep(i));
    LostPoints();
    forall i: nat | i < 8 ensures Enabled(LostState(i), LostStep(i)) && LostState(i + 1) == Apply(LostState(i), LostStep(i)) {
      LostFollows(i);
    }
  }

  lemma LostPoints()
    ensures LostStep(3) == Signal(2, false) && LostStep(5) == SignalDone(2) && LostState(0) == Init()
    ensures Sleeping(LostState(3), 1) && LostState(8).pc == map[1 := Asleep] && Sleeping(LostState(8), 1)
  {}
}

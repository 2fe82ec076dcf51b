/** Every section of the task queue keeps the id, pool and thread invariants. */
module TaskqProofs {
  import opened Seqs
  import opened TaskqState

  // ---------------------------------------------------------------- ordered lists

  lemma {:induction false} SlotFacts(s: seq<nat>, x: nat)
    requires Ascending(s)
    ensures forall i :: 0 <= i < Slot(s, x) ==> s[i] < x
    ensures forall i :: Slot(s, x) <= i < |s| ==> s[i] >= x
  {
    if s != [] && s[|s|-1] >= x { SlotFacts(s[..|s|-1], x); }
  }

  lemma InsertCounts(s: seq<nat>, x: nat)
    ensures multiset(Insert(s, x)) == multiset(s) + multiset{x}
  {
    var k := Slot(s, x);
    assert s == s[..k] + s[k..];
  }

  lemma InsertAscending(s: seq<nat>, x: nat)
    requires Ascending(s) && x !in s
    ensures Ascending(Insert(s, x))
  {
    SlotFacts(s, x);
    var k := Slot(s, x);
    var t := Insert(s, x);
    assert forall i :: 0 <= i < k ==> t[i] == s[i];
    assert forall i :: k < i < |t| ==> t[i] == s[i-1];
    assert k == |s| || s[k] in s;
  }

  /** Ordered insertion keeps the order and adds exactly one entry. */
  lemma InsertFacts(s: seq<nat>, x: nat)
    requires Ascending(s) && x !in s
    ensures Ascending(Insert(s, x))
    ensures multiset(Insert(s, x)) == multiset(s) + multiset{x}
    ensures forall y :: y in Insert(s, x) <==> y == x || y in s
  {
    hide Insert, Ascending;
    InsertAscending(s, x);
    InsertCounts(s, x);
    forall y ensures y in Insert(s, x) <==> y == x || y in s {
      assert y in Insert(s, x) <==> y in multiset(Insert(s, x));
      assert y in s <==> y in multiset(s);
    }
  }

  lemma DeleteCounts(s: seq<nat>, x: nat)
    ensures multiset(Delete(s, x)) == if x in s then multiset(s) - multiset{x} else multiset(s)
    ensures Ascending(s) ==> Ascending(Delete(s, x))
  {
    hide Ascending;
    var k := Find(s, x);
    if k < |s| {
      SplitAt(s, k);
      RemoveAscends(s, k);
    }
  }

  lemma RemoveAscends(s: seq<nat>, k: nat)
    requires k < |s|
    ensures Ascending(s) ==> Ascending(RemoveAt(s, k))
  {
    var r := RemoveAt(s, k);
    if Ascending(s) {
      forall i, j | 0 <= i < j < |r| ensures r[i] < r[j] {
        assert r[i] == s[if i < k then i else i + 1] && r[j] == s[if j < k then j else j + 1];
      }
    }
  }

  lemma MemberCounts(s: seq<nat>, x: nat)
    ensures x in s <==> multiset(s)[x] > 0
  {
    assert x in s <==> x in multiset(s);
  }

  lemma TailCounts(s: seq<nat>)
    requires s != []
    ensures multiset(s[1..]) == multiset(s) - multiset{s[0]}
    ensures Ascending(s) ==> Ascending(s[1..]) && s[0] !in s[1..]
    ensures forall y :: y in s <==> y == s[0] || y in s[1..]
  {
    assert s == [s[0]] + s[1..];
  }

  // ---------------------------------------------------------------- places

  /** What an id's single place says about every list. */
  lemma Where(s: Tq, id: nat)
    requires Placed(s)
    ensures Outstanding(s, id) || Done(s, id) <==> 1 <= id < s.nextId
    ensures Outstanding(s, id) ==> !Done(s, id)
    ensures id in s.pend ==> id !in s.prio && id !in s.delay && id !in s.active
    ensures id in s.prio ==> id !in s.delay && id !in s.active
    ensures id in s.delay ==> id !in s.active
    ensures id in s.log.finished ==> id !in s.log.cancelled
  {
    MemberCounts(s.pend, id); MemberCounts(s.prio, id);
    MemberCounts(s.delay, id); MemberCounts(s.active, id);
    assert Places(s, id) == if 1 <= id < s.nextId then 1 else 0;
  }

  lemma AssignPlaced(s: Tq, q: Queue, src: Source)
    requires Placed(s) && Enabled(s, Dispatch(q, src))
    ensures Placed(Assign(s, q, src))
  {
    var s' := Assign(s, q, src);
    forall id: nat ensures Places(s', id) == if 1 <= id < s'.nextId then 1 else 0 {
      assert Places(s, id) == if 1 <= id < s.nextId then 1 else 0;
    }
  }

  lemma ExpirePlaced(s: Tq, id: nat)
    requires Placed(s) && Sorted(s) && id in s.delay
    ensures Placed(ExpireTask(s, id)) && Sorted(ExpireTask(s, id))
  {
    hide Insert, Delete, Ascending;
    var s' := ExpireTask(s, id);
    Where(s, id);
    InsertFacts(s.prio, id);
    DeleteCounts(s.delay, id);
    MemberCounts(s.delay, id);
    forall x: nat ensures Places(s', x) == if 1 <= x < s'.nextId then 1 else 0 {
      assert Places(s, x) == if 1 <= x < s.nextId then 1 else 0;
    }
  }

  /** The task a worker would take. */
  function NextTask(s: Tq): nat
    requires s.prio != [] || s.pend != []
  {
    if s.prio != [] then s.prio[0] else s.pend[0]
  }

  lemma StartPlaces(s: Tq, t: nat, x: nat)
    requires s.prio != [] || s.pend != []
    ensures Places(StartNext(s, t), x) == Places(s, x)
  {
    hide Insert, Occ;
    OccInsert(s.active, NextTask(s), x);
    if s.prio != [] { OccTail(s.prio, x); } else { OccTail(s.pend, x); }
  }

  lemma OccInsert(l: seq<nat>, id: nat, x: nat)
    ensures Occ(Insert(l, id), x) == Occ(l, x) + if x == id then 1 else 0
  {
    hide Insert;
    InsertCounts(l, id);
  }

  lemma OccTail(l: seq<nat>, x: nat)
    requires l != []
    ensures Occ(l, x) == Occ(l[1..], x) + if x == l[0] then 1 else 0
  {
    assert l == [l[0]] + l[1..];
  }

  lemma StartPlaced(s: Tq, t: nat)
    requires Placed(s) && Sorted(s) && Enabled(s, Start(t))
    ensures Placed(StartNext(s, t)) && Sorted(StartNext(s, t))
    ensures NextTask(s) !in s.active
  {
    hide Insert, Ascending, Places;
    Where(s, NextTask(s));
    InsertFacts(s.active, NextTask(s));
    if s.prio != [] { TailCounts(s.prio); } else { TailCounts(s.pend); }
    forall x: nat ensures Places(StartNext(s, t), x) == if 1 <= x < s.nextId then 1 else 0 {
      StartPlaces(s, t, x);
    }
  }

  lemma FinishPlaced(s: Tq, t: nat)
    requires Placed(s) && Sorted(s) && t in s.runner && s.runner[t] in s.active
    ensures Placed(FinishTask(s, t)) && Sorted(FinishTask(s, t))
  {
    hide LowestOf, Delete, Ascending;
    var s', id := FinishTask(s, t), s.runner[t];
    Where(s, id);
    DeleteCounts(s.active, id);
    MemberCounts(s.active, id);
    forall x: nat ensures Places(s', x) == if 1 <= x < s'.nextId then 1 else 0 {
      assert Places(s, x) == if 1 <= x < s.nextId then 1 else 0;
    }
  }

  lemma DropCounts(s: seq<nat>, id: nat, here: bool, x: nat)
    requires here ==> id in s
    ensures Occ(DropIf(s, id, here), x) + (if here && x == id then 1 else 0) == Occ(s, x)
  {
    if here {
      SplitAt(s, Find(s, id));
      assert multiset(s) == multiset(Delete(s, id)) + multiset{id};
    }
  }

  lemma DropFacts(s: seq<nat>, id: nat, here: bool)
    requires Ascending(s)
    ensures Ascending(DropIf(s, id, here))
    ensures forall y :: y in DropIf(s, id, here) <==> y in s && !(here && y == id)
  {
    DeleteCounts(s, id);
    DeleteMembers(s, id);
  }

  lemma CancelPlaces(s: Tq, id: nat, x: nat)
    requires Enabled(s, Cancel(id)) && id !in s.log.cancelled
    ensures Places(CancelTask(s, id), x) == Places(s, x)
  {
    hide LowestOf, TaskDone, DropIf, Occ;
    DropCounts(s.delay, id, id in s.delay, x);
    DropCounts(s.prio, id, id !in s.delay && id in s.prio, x);
    DropCounts(s.pend, id, id !in s.delay && id !in s.prio, x);
  }

  lemma CancelPlaced(s: Tq, id: nat)
    requires Placed(s) && Sorted(s) && Enabled(s, Cancel(id))
    ensures Placed(CancelTask(s, id)) && Sorted(CancelTask(s, id))
  {
    hide LowestOf, DropIf, Ascending, TaskDone, Places;
    Where(s, id);
    CancelLists(s, id);
    forall x: nat ensures Places(CancelTask(s, id), x) == if 1 <= x < s.nextId then 1 else 0 {
      CancelPlaces(s, id, x);
    }
  }

  // ---------------------------------------------------------------- the lowest id

  lemma HeadIsMin(s: seq<nat>, m: nat)
    requires Ascending(s)
    ensures HeadOr(s, m) <= m && (HeadOr(s, m) == m || HeadOr(s, m) in s)
    ensures forall id :: id in s ==> HeadOr(s, m) <= id
  {}

  /** Because the lists are sorted, their heads suffice. */
  lemma LowestCorrect(s: Tq)
    requires Sorted(s)
    ensures IsLowest(s, Lowest(s))
  {
    var a := HeadOr(s.pend, s.nextId);
    var b := HeadOr(s.prio, a);
    var c := HeadOr(s.delay, b);
    HeadIsMin(s.pend, s.nextId);
    HeadIsMin(s.prio, a);
    HeadIsMin(s.delay, b);
    HeadIsMin(s.active, c);
  }

  lemma LowestBelowNext(s: Tq)
    requires IsLowest(s, s.lowestId)
    ensures s.lowestId <= s.nextId
  {}

  lemma LowestFrame(s: Tq, s': Tq, m: nat)
    requires IsLowest(s, m) && s'.nextId == s.nextId
    requires forall id :: Outstanding(s', id) <==> Outstanding(s, id)
    ensures IsLowest(s', m)
  {}

  /** After `id` left the queue, settling restores the minimum. */
  lemma SettleLowest(s: Tq, r: Tq, id: nat)
    requires IsLowest(s, s.lowestId) && Outstanding(s, id) && Sorted(r)
    requires r.nextId == s.nextId && r.lowestId == s.lowestId
    requires forall x :: Outstanding(r, x) <==> Outstanding(s, x) && x != id
    ensures IsLowest(Settle(r, id), Settle(r, id).lowestId)
    ensures Settle(r, id).lowestId >= s.lowestId
    ensures s.lowestId == id && id < s.nextId ==> Settle(r, id).lowestId > id
  {
    if s.lowestId == id {
      LowestCorrect(r);
      LowestFrame(r, Settle(r, id), Lowest(r));
    } else {
      assert IsLowest(r, s.lowestId);
    }
  }

  // ---------------------------------------------------------------- one step at a time

  lemma AppendAscending(s: seq<nat>, x: nat)
    requires Ascending(s) && forall y :: y in s ==> y < x
    ensures Ascending(s + [x])
    ensures forall y :: y in s + [x] <==> y in s || y == x
  {
    assert forall i :: 0 <= i < |s| ==> s[i] in s;
  }

  lemma BelowNext(s: Tq)
    requires Placed(s)
    ensures forall id :: id in s.pend || id in s.prio || id in s.delay || id in s.active ==> id < s.nextId
  {
    forall id | id in s.pend || id in s.prio || id in s.delay || id in s.active ensures id < s.nextId {
      Where(s, id);
    }
  }

  lemma AssignIds(s: Tq, q: Queue, src: Source)
    requires IdInv(s) && Enabled(s, Dispatch(q, src))
    ensures IdInv(Assign(s, q, src)) && Assign(s, q, src).lowestId == s.lowestId
  {
    var s' := Assign(s, q, src);
    AssignPlaced(s, q, src);
    hide Placed, Ascending, NoDup;
    BelowNext(s);
    AppendAscending(if q == Pend then s.pend else if q == Prio then s.prio else s.delay, s.nextId);
    assert forall id: nat :: Outstanding(s', id) <==> Outstanding(s, id) || id == s.nextId;
  }

  lemma ExpireIds(s: Tq, id: nat)
    requires IdInv(s) && id in s.delay
    ensures IdInv(ExpireTask(s, id)) && ExpireTask(s, id).lowestId == s.lowestId
  {
    hide Insert, Delete, Ascending, NoDup;
    var s' := ExpireTask(s, id);
    ExpirePlaced(s, id);
    Where(s, id);
    InsertFacts(s.prio, id);
    DeleteMembers(s.delay, id);
    LowestFrame(s, s', s.lowestId);
  }

  lemma DeleteMembers(s: seq<nat>, x: nat)
    requires Ascending(s)
    ensures forall y :: y in Delete(s, x) <==> y in s && y != x
  {
    DeleteFacts(s, x);
  }

  lemma StartIds(s: Tq, t: nat)
    requires IdInv(s) && Enabled(s, Start(t))
    ensures IdInv(StartNext(s, t)) && StartNext(s, t).lowestId == s.lowestId
  {
    hide Insert, Ascending, Placed, NoDup;
    var s', id := StartNext(s, t), NextTask(s);
    StartPlaced(s, t);
    Where(s, id);
    InsertFacts(s.active, id);
    TailOrNone(s.prio);
    TailOrNone(s.pend);
    assert IsLowest(s', s.lowestId) by { LowestFrame(s, s', s.lowestId); }
    StartLogged(s, t);
  }

  lemma TailOrNone(s: seq<nat>)
    requires Ascending(s)
    ensures s != [] ==> Ascending(s[1..]) && (forall y :: y in s <==> y == s[0] || y in s[1..])
    ensures s != [] ==> forall y :: y in s[1..] ==> s[0] < y
  {
    if s != [] { TailCounts(s); }
  }

  lemma StartLogged(s: Tq, t: nat)
    requires Placed(s) && Sorted(s) && Logged(s) && Enabled(s, Start(t))
    ensures Logged(StartNext(s, t))
  {
    hide Insert, Placed, Ascending, NoDup, StartNext;
    var id := NextTask(s);
    StartParts(s, t);
    Where(s, id);
    InsertFacts(s.active, id);
    TailOrNone(s.prio);
    TailOrNone(s.pend);
    assert id !in s.log.started;
    AppendFacts(s.log.started, id);
    if s.prio == [] { AppendAscending(s.log.startedPend, id); }
  }

  lemma StartParts(s: Tq, t: nat)
    requires s.prio != [] || s.pend != []
    ensures var (s', id) := (StartNext(s, t), NextTask(s));
      && s'.active == Insert(s.active, id) && s'.nextId == s.nextId && s'.log.finished == s.log.finished
      && s'.pend == (if s.prio != [] then s.pend else s.pend[1..])
      && s'.log.started == s.log.started + [id]
      && s'.log.startedPend == if s.prio != [] then s.log.startedPend else s.log.startedPend + [id]
  {
    hide Insert;
  }

  lemma FinishIds(s: Tq, t: nat)
    requires IdInv(s) && t in s.runner && s.runner[t] in s.active
    ensures IdInv(FinishTask(s, t)) && FinishTask(s, t).lowestId >= s.lowestId
  {
    hide Delete, Ascending, Placed, NoDup, LowestOf;
    var s', id := FinishTask(s, t), s.runner[t];
    FinishPlaced(s, t);
    Where(s, id);
    DeleteMembers(s.active, id);
    var r := s'.(lowestId := s.lowestId);
    assert Settle(r, id) == s';
    SettleLowest(s, r, id);
  }

  lemma CancelIds(s: Tq, id: nat)
    requires IdInv(s) && Enabled(s, Cancel(id))
    ensures IdInv(CancelTask(s, id)) && CancelTask(s, id).lowestId >= s.lowestId
  {
    hide DropIf, Ascending, Placed, NoDup, LowestOf;
    var s' := CancelTask(s, id);
    CancelPlaced(s, id);
    Where(s, id);
    CancelLists(s, id);
    var r := s'.(lowestId := s.lowestId);
    SettleLowest(s, r, id);
  }

  /** What is left in each list after a cancel. */
  lemma CancelLists(s: Tq, id: nat)
    requires Sorted(s)
    ensures Sorted(CancelTask(s, id))
    ensures forall x :: x in CancelTask(s, id).delay <==> x in s.delay && x != id
    ensures forall x :: x in CancelTask(s, id).prio <==> x in s.prio && !(id !in s.delay && x == id)
    ensures forall x :: x in CancelTask(s, id).pend <==> x in s.pend && !(id !in s.delay && id !in s.prio && x == id)
  {
    hide DropIf, Ascending, LowestOf, TaskDone;
    DropFacts(s.delay, id, id in s.delay);
    DropFacts(s.prio, id, id !in s.delay && id in s.prio);
    DropFacts(s.pend, id, id !in s.delay && id !in s.prio);
  }

  // ---------------------------------------------------------------- the entry pool

  /** Membership in the owned set, spelled out. */
  lemma OwnedIs(s: Tq, id: nat)
    ensures id in Owned(s) <==> Outstanding(s, id) && id !in s.prealloc
  {}

  lemma OwnedFrame(s: Tq, s': Tq)
    requires s'.prealloc == s.prealloc && forall id :: Outstanding(s', id) <==> Outstanding(s, id)
    ensures Owned(s') == Owned(s)
  {
    forall id ensures id in Owned(s') <==> id in Owned(s) { OwnedIs(s, id); OwnedIs(s', id); }
  }

  lemma OwnedMinus(s: Tq, s': Tq, id: nat)
    requires s'.prealloc == s.prealloc
    requires forall x :: Outstanding(s', x) <==> Outstanding(s, x) && x != id
    ensures Owned(s') == Owned(s) - {id}
  {
    forall x ensures x in Owned(s') <==> x in Owned(s) - {id} { OwnedIs(s, x); OwnedIs(s', x); }
  }

  lemma AssignOutstanding(s: Tq, q: Queue, src: Source)
    requires Enabled(s, Dispatch(q, src))
    ensures forall x: nat :: Outstanding(Assign(s, q, src), x) <==> Outstanding(s, x) || x == s.nextId
  {}

  lemma AssignOwned(s: Tq, q: Queue, src: Source)
    requires Enabled(s, Dispatch(q, src)) && s.nextId !in s.prealloc && !Outstanding(s, s.nextId)
    ensures Owned(Assign(s, q, src)) == Owned(s) + (if src == Caller then {} else {s.nextId})
    ensures s.nextId !in Owned(s)
  {
    var s', id := Assign(s, q, src), s.nextId;
    AssignOutstanding(s, q, src);
    OwnedIs(s, id);
    hide Owned, Outstanding;
    var gain := if src == Caller then {} else {id};
    forall x: nat ensures x in Owned(s') <==> x in Owned(s) + gain { OwnedIs(s, x); OwnedIs(s', x); }
  }

  lemma AssignPool(s: Tq, q: Queue, src: Source)
    requires IdInv(s) && PoolInv(s) && Enabled(s, Dispatch(q, src))
    ensures PoolInv(Assign(s, q, src))
  {
    hide Owned, IdInv, Outstanding, Assign;
    NextIsNew(s);
    AssignOwned(s, q, src);
    AssignDelayed(s, q, src);
    AssignFields(s, q, src);
  }

  lemma NextIsNew(s: Tq)
    requires IdInv(s) && PoolInv(s)
    ensures !Outstanding(s, s.nextId) && s.nextId !in s.prealloc
  {
    BelowNext(s);
  }

  lemma AssignDelayed(s: Tq, q: Queue, src: Source)
    requires PoolInv(s) && Enabled(s, Dispatch(q, src)) && s.nextId !in s.prealloc && !Outstanding(s, s.nextId)
    ensures var s' := Assign(s, q, src);
      && (forall id :: id in s'.prealloc ==> id < s'.nextId)
      && (forall id :: id in s'.delay ==> id !in s'.prealloc)
  {
    hide Owned;
    AppendFacts(s.delay, s.nextId);
  }

  lemma AssignFields(s: Tq, q: Queue, src: Source)
    requires Enabled(s, Dispatch(q, src))
    ensures var s' := Assign(s, q, src);
      s'.pool == Draw(s.pool, src) && s'.limbo == s.limbo && s'.log == s.log
  {}

  lemma StartExpirePool(s: Tq, s': Tq)
    requires PoolInv(s) && s'.pool == s.pool && s'.prealloc == s.prealloc && s'.limbo == s.limbo
    requires s'.nextId == s.nextId && s'.log.cancelled == s.log.cancelled
    requires forall x :: Outstanding(s', x) <==> Outstanding(s, x)
    requires forall x :: x in s'.delay ==> x in s.delay
    ensures PoolInv(s')
  {
    OwnedFrame(s, s');
  }

  /** A task leaves the queue; its entry goes back unless the caller owns it or a timer still runs. */
  lemma LeavePool(s: Tq, s': Tq, id: nat, delayed: bool)
    requires PoolInv(s) && Outstanding(s, id) && id !in s.log.cancelled
    requires s'.prealloc == s.prealloc && s'.nextId == s.nextId
    requires forall x :: Outstanding(s', x) <==> Outstanding(s, x) && x != id
    requires forall x :: x in s'.delay ==> x in s.delay
    requires delayed ==> id in s.delay
    requires s'.limbo == if delayed then s.limbo + {id} else s.limbo
    requires s'.log.cancelled >= s.log.cancelled && (delayed ==> id in s'.log.cancelled)
    requires s'.pool == if delayed || id in s.prealloc then s.pool else TaskDone(s.pool)
    ensures PoolInv(s')
  {
    OwnedMinus(s, s', id);
    OwnedIs(s, id);
    if id in s.prealloc { assert Owned(s) - {id} == Owned(s); }
    assert id !in s.limbo;
  }

  // ---------------------------------------------------------------- workers

  lemma StartCrew(s: Tq, t: nat)
    requires IdInv(s) && CrewInv(s) && Enabled(s, Start(t))
    ensures CrewInv(StartNext(s, t))
  {
    hide Insert, Ascending, Placed;
    StartPlaced(s, t);
    InsertFacts(s.active, NextTask(s));
    InsertLength(s.active, NextTask(s));
  }

  lemma InsertLength(s: seq<nat>, x: nat)
    ensures |Insert(s, x)| == |s| + 1
  {}

  lemma FinishCrew(s: Tq, t: nat)
    requires IdInv(s) && CrewInv(s) && t in s.runner
    ensures CrewInv(FinishTask(s, t))
  {
    hide IdInv, FinishTask, NoDup, Delete;
    ActiveNoDup(s);
    FinishParts(s, t);
    var id := s.runner[t];
    DeleteFacts(s.active, id);
    assert |s.runner - {t}| == |s.runner| - 1 by { assert (s.runner - {t}).Keys == s.runner.Keys - {t}; }
  }

  lemma ActiveNoDup(s: Tq)
    requires IdInv(s)
    ensures NoDup(s.active)
  {
    hide Placed, IsLowest, Logged;
  }

  lemma FinishParts(s: Tq, t: nat)
    requires t in s.runner
    ensures var s' := FinishTask(s, t);
      && s'.active == Delete(s.active, s.runner[t]) && s'.runner == s.runner - {t}
      && s'.crew == s.crew.(nactive := s.crew.nactive - 1)
  {
    hide Delete, TaskDone, LowestOf;
  }

  lemma ExitCrew(s: Tq, t: nat)
    requires CrewInv(s) && Idle(s, t)
    ensures CrewInv(DropThread(s, t))
  {
    DeleteFacts(s.crew.threads, t);
  }

  lemma ThreadStartCrew(s: Tq, t: nat)
    requires CrewInv(s) && Enabled(s, ThreadStart(t))
    ensures CrewInv(AddThread(s, t))
    ensures s.crew.nthreads < s.crew.maxthreads
  {
    AppendFacts(s.crew.threads, t);
  }
}

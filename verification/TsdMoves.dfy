/** What every operation of every run does to entries, replies and destructor calls, stated without its definition. */
module TsdMoves {
  import opened Seqs
  import opened TsdState
  import opened TsdProofs
  import opened TsdRuns

  // ---------------------------------------------------------------- entries

  /** The operation makes a new entry: the key is in range, the value is not null and there is memory. */
  ghost predicate Makes(s: State, op: Op, id: Id) {
    && op.OpSet? && op.id == id && KeyOk(id.key) && id !in s.data && op.val != 0
    && (id.pid in s.pidList || op.mem1) && op.mem2
  }

  /** The operation ends an entry: it is set to null, its key is destroyed or its thread exits. */
  ghost predicate Drops(s: State, op: Op, id: Id) {
    id in s.data && (
      || (op.OpSet? && op.id == id && op.val == 0)
      || (op.OpDestroy? && op.key == id.key)
      || (op.OpExit? && op.pid == id.pid))
  }

  /** The value an entry holds when the operation is through with it. */
  ghost function Final(s: State, op: Op, id: Id): Info
    requires id in s.data
  {
    if op.OpSet? && op.id == id then s.data[id].(val := op.val) else s.data[id]
  }

  /** Entries after the operation: those made, and those that were there and not ended. */
  ghost predicate Moved(s: State, op: Op, s': State, id: Id) {
    && (id in s'.data <==> Makes(s, op, id) || (id in s.data && !Drops(s, op, id)))
    && (Makes(s, op, id) ==> id.key in s.keys && s'.data[id] == Info(s.keys[id.key], op.val, |s.born|))
    && (id in s.data && !Drops(s, op, id) ==> s'.data[id] == Final(s, op, id))
  }

  lemma MoveIs(s: State, op: Op, id: Id)
    requires Inv(s) && Enabled(s, op)
    ensures Moved(s, op, Apply(s, op), id)
  {
    hide Listed, Once, RanAll, DropFrom, Probe;
  }

  /** Every operation of every run makes, changes and ends exactly the entries it names. */
  lemma StepMoves(trace: seq<State>, ops: seq<Op>, i: nat, id: Id)
    requires Run(trace, ops) && i < |ops|
    ensures Moved(trace[i], ops[i], trace[i+1], id)
  {
    hide Moved, Apply, Enabled, Inv;
    RunInv(trace, ops, i);
    MoveIs(trace[i], ops[i], id);
  }

  /** When `tsd_set` fails, and how. */
  lemma SetReplies(s: State, id: Id, v: nat, mem1: bool, mem2: bool)
    requires SetNeeds(s, id, v)
    ensures var r := Set(s, id, v, mem1, mem2).1;
      && (r == Invalid <==> !(1 <= id.key <= 32768))
      && (r == NoMem <==> 1 <= id.key <= 32768 && id !in s.data && v != 0 && ((id.pid !in s.pidList && !mem1) || !mem2))
  {}

  // ---------------------------------------------------------------- lists in order of age

  function IdAt(at: nat, x: nat, byKey: bool): Id { if byKey then Id(at, x) else Id(x, at) }

  /** The entries of a list, newest first. */
  ghost predicate NewestFirst(data: map<Id, Info>, l: seq<nat>, at: nat, byKey: bool) {
    forall i, j :: 0 <= i < j < |l| && IdAt(at, l[i], byKey) in data && IdAt(at, l[j], byKey) in data ==>
      data[IdAt(at, l[i], byKey)].sn > data[IdAt(at, l[j], byKey)].sn
  }

  ghost predicate Aged(s: State) {
    && (forall k :: k in s.keyList ==> NewestFirst(s.data, s.keyList[k], k, true))
    && (forall p :: p in s.pidList ==> NewestFirst(s.data, s.pidList[p], p, false))
  }

  /** No new entries, and no serial number changed. */
  ghost predicate Fewer(data: map<Id, Info>, data': map<Id, Info>) {
    forall id :: id in data' ==> id in data && data'[id].sn == data[id].sn
  }

  lemma DeleteAged(data: map<Id, Info>, data': map<Id, Info>, l: seq<nat>, x: nat, at: nat, byKey: bool)
    requires NewestFirst(data, l, at, byKey) && Fewer(data, data')
    ensures NewestFirst(data', Delete(l, x), at, byKey)
  {
    hide IdAt;
    var (d, k) := (Delete(l, x), Find(l, x));
    forall i, j | 0 <= i < j < |d| && IdAt(at, d[i], byKey) in data' && IdAt(at, d[j], byKey) in data'
      ensures data'[IdAt(at, d[i], byKey)].sn > data'[IdAt(at, d[j], byKey)].sn
    {
      var i', j' := if i < k then i else i + 1, if j < k then j else j + 1;
      assert d[i] == l[i'] && d[j] == l[j'];
    }
  }

  lemma SameAged(data: map<Id, Info>, data': map<Id, Info>, l: seq<nat>, at: nat, byKey: bool)
    requires NewestFirst(data, l, at, byKey) && Fewer(data, data')
    ensures NewestFirst(data', l, at, byKey)
  {
    hide IdAt;
  }

  lemma FewerAged(s: State, s': State)
    requires Aged(s) && Fewer(s.data, s'.data)
    requires forall k :: k in s'.keyList ==>
      k in s.keyList && (s'.keyList[k] == s.keyList[k] || exists x :: s'.keyList[k] == Delete(s.keyList[k], x))
    requires forall p :: p in s'.pidList ==>
      p in s.pidList && (s'.pidList[p] == s.pidList[p] || exists x :: s'.pidList[p] == Delete(s.pidList[p], x))
    ensures Aged(s')
  {
    hide NewestFirst, Fewer, Delete;
    forall k | k in s'.keyList ensures NewestFirst(s'.data, s'.keyList[k], k, true) {
      SameAged(s.data, s'.data, s.keyList[k], k, true);
      if s'.keyList[k] != s.keyList[k] {
        var x :| s'.keyList[k] == Delete(s.keyList[k], x);
        DeleteAged(s.data, s'.data, s.keyList[k], x, k, true);
      }
    }
    forall p | p in s'.pidList ensures NewestFirst(s'.data, s'.pidList[p], p, false) {
      SameAged(s.data, s'.data, s.pidList[p], p, false);
      if s'.pidList[p] != s.pidList[p] {
        var x :| s'.pidList[p] == Delete(s.pidList[p], x);
        DeleteAged(s.data, s'.data, s.pidList[p], x, p, false);
      }
    }
  }

  lemma AddAged(s: State, id: Id, v: nat)
    requires Inv(s) && Aged(s) && id !in s.data && id.key in s.keyList && id.key in s.keys && id.pid in s.pidList
    ensures Aged(Add(s, id, v))
  {
    var s' := Add(s, id, v);
    forall k | k in s'.keyList ensures NewestFirst(s'.data, s'.keyList[k], k, true) {
      Prepended(s, s', s.keyList[k], s'.keyList[k], k, true, id);
    }
    forall p | p in s'.pidList ensures NewestFirst(s'.data, s'.pidList[p], p, false) {
      Prepended(s, s', s.pidList[p], s'.pidList[p], p, false, id);
    }
  }

  /** A list that gets the new entry gets it first; the others do not name it. */
  lemma Prepended(s: State, s': State, l: seq<nat>, l': seq<nat>, at: nat, byKey: bool, id: Id)
    requires Inv(s) && NewestFirst(s.data, l, at, byKey) && id !in s.data && id in s'.data && s'.data[id].sn == |s.born|
    requires s'.data == s.data[id := s'.data[id]] && forall x :: x in l ==> IdAt(at, x, byKey) in s.data
    requires l' == l || (l' == [if byKey then id.pid else id.key] + l && IdAt(at, l'[0], byKey) == id)
    ensures NewestFirst(s'.data, l', at, byKey)
  {
    assert Once(s.data, s.born, s.calls);
    hide Inv, IdAt;
  }

  lemma WriteAged(s: State, id: Id, v: nat)
    requires Aged(s) && id in s.data
    ensures Aged(Written(s, id, v))
  {
    hide NewestFirst;
    FewerAged(s, Written(s, id, v));
  }

  lemma RemoveAged(s: State, id: Id)
    requires Aged(s) && id in s.data
    ensures Aged(RemoveEntry(s, id))
  {
    hide NewestFirst, Delete, Aged;
    FewerAged(s, RemoveEntry(s, id));
  }

  lemma SetAged(s: State, id: Id, v: nat, mem1: bool, mem2: bool)
    requires Inv(s) && Aged(s) && SetNeeds(s, id, v)
    ensures Aged(Set(s, id, v, mem1, mem2).0)
  {
    hide Aged, Inv, Written, RemoveEntry, Add, WithPid;
    if KeyOk(id.key) {
      if id in s.data {
        WriteAged(s, id, v);
        WrittenHas(s, id, v);
        if v == 0 { RemoveAged(Written(s, id, v), id); }
      } else if v != 0 {
        WithPidAged(s, id.pid);
        WithPidInv(s, id.pid);
        if id.pid in s.pidList || mem1 {
          if mem2 { AddAged(WithPid(s, id.pid), id, v); }
        }
      }
    }
  }

  lemma WithPidAged(s: State, p: nat)
    requires Aged(s)
    ensures Aged(WithPid(s, p)) && WithPid(s, p).data == s.data && p in WithPid(s, p).pidList
    ensures WithPid(s, p).keyList == s.keyList && WithPid(s, p).keys == s.keys
  {}

  lemma CreateAged(s: State, dtor: nat, mem: bool)
    requires Aged(s)
    ensures Aged(Create(s, dtor, mem))
  {
    hide Probe;
  }

  lemma ApplyAged(s: State, op: Op)
    requires Inv(s) && Aged(s) && Enabled(s, op)
    ensures Aged(Apply(s, op))
  {
    hide Aged, Inv, Create, Set, RanAll, Delete;
    match op
    case OpCreate(dtor, mem) => CreateAged(s, dtor, mem);
    case OpSet(id, v, mem1, mem2) => SetAged(s, id, v, mem1, mem2);
    case OpDestroy(k) => FewerAged(s, Destroy(s, k));
    case OpExit(p) => FewerAged(s, Exit(s, p));
  }

  /** In every state of every run every list has its newest entry first. */
  lemma {:induction false} RunAged(trace: seq<State>, ops: seq<Op>, i: nat)
    requires Run(trace, ops) && i < |trace|
    ensures Aged(trace[i])
  {
    if i > 0 {
      hide Aged, Inv, Apply, Enabled;
      RunAged(trace, ops, i - 1);
      RunInv(trace, ops, i - 1);
      ApplyAged(trace[i-1], ops[i-1]);
    }
  }

  // ---------------------------------------------------------------- destructor calls

  ghost predicate OldestFirst(calls: seq<Info>) {
    forall i, j :: 0 <= i < j < |calls| ==> calls[i].sn < calls[j].sn
  }

  /** The entries are there, and in order of age. */
  ghost predicate InOrder(data: map<Id, Info>, ids: seq<Id>) {
    && (forall i :: 0 <= i < |ids| ==> ids[i] in data)
    && (forall i, j :: 0 <= i < j < |ids| ==> ids[i] in data && ids[j] in data && data[ids[i]].sn < data[ids[j]].sn)
  }

  /** `c` is one of the entries, and has a destructor. */
  ghost predicate Owed(data: map<Id, Info>, ids: seq<Id>, c: Info) {
    c.dtor != 0 && exists id :: id in ids && id in data && data[id] == c
  }

  /** The destructors of some entries in order of age: each of them that has one, in that order. */
  lemma {:induction false} RanExactly(data: map<Id, Info>, ids: seq<Id>)
    requires InOrder(data, ids)
    ensures OldestFirst(RanAll(data, ids))
    ensures forall c :: c in RanAll(data, ids) <==> Owed(data, ids, c)
  {
    if ids == [] {
    } else {
      OrderTail(data, ids);
      RanExactly(data, ids[1..]);
      RanOlder(data, ids);
      hide RanAll, InOrder, Owed;
      forall c ensures c in RanAll(data, ids) <==> Owed(data, ids, c) { OwedSplit(data, ids, c); }
    }
  }

  lemma OrderTail(data: map<Id, Info>, ids: seq<Id>)
    requires ids != [] && InOrder(data, ids)
    ensures InOrder(data, ids[1..]) && ids[0] in data
  {}

  lemma OwedSplit(data: map<Id, Info>, ids: seq<Id>, c: Info)
    requires ids != [] && ids[0] in data
    ensures Owed(data, ids, c) <==> (c.dtor != 0 && c == data[ids[0]]) || Owed(data, ids[1..], c)
  {
    assert ids == [ids[0]] + ids[1..] && ids[0] in ids;
    if Owed(data, ids[1..], c) {
      var id :| id in ids[1..] && id in data && data[id] == c;
      assert id in ids;
    }
  }

  lemma RanOlder(data: map<Id, Info>, ids: seq<Id>)
    requires ids != [] && InOrder(data, ids)
    requires forall c :: c in RanAll(data, ids[1..]) ==> Owed(data, ids[1..], c)
    ensures RanAll(data, ids) == Ran(data[ids[0]]) + RanAll(data, ids[1..])
    ensures forall c :: c in RanAll(data, ids[1..]) ==> data[ids[0]].sn < c.sn
  {
    forall c | c in RanAll(data, ids[1..]) ensures data[ids[0]].sn < c.sn {
      var id :| id in ids[1..] && id in data && data[id] == c;
      var j :| 0 <= j < |ids[1..]| && ids[1..][j] == id;
      assert ids[j+1] == id;
    }
  }

  lemma Backwards(data: map<Id, Info>, l: seq<nat>, ids: seq<Id>, at: nat, byKey: bool)
    requires NewestFirst(data, l, at, byKey) && |ids| == |l| && forall id :: id in ids ==> id in data
    requires forall i :: 0 <= i < |ids| ==> ids[i] == IdAt(at, l[|l| - 1 - i], byKey)
    ensures InOrder(data, ids)
  {
    hide IdAt;
    forall i, j | 0 <= i < j < |ids| ensures ids[i] in data && ids[j] in data && data[ids[i]].sn < data[ids[j]].sn {
      var a, b := |l| - 1 - i, |l| - 1 - j;
      assert ids[i] in ids && ids[j] in ids && ids[i] == IdAt(at, l[a], byKey) && ids[j] == IdAt(at, l[b], byKey);
    }
  }

  lemma KeyIdsInOrder(s: State, k: nat)
    requires Inv(s) && Aged(s) && k in s.keyList
    ensures InOrder(s.data, KeyIds(s, k)) && forall id :: id in KeyIds(s, k) <==> id in s.data && id.key == k
  {
    hide Anchored, Once, NewestFirst, InOrder, Listed;
    IdsOfKey(s, k);
    Backwards(s.data, s.keyList[k], KeyIds(s, k), k, true);
  }

  lemma PidIdsInOrder(s: State, p: nat)
    requires Inv(s) && Aged(s) && p in s.pidList
    ensures InOrder(s.data, PidIds(s, p)) && forall id :: id in PidIds(s, p) <==> id in s.data && id.pid == p
  {
    hide Anchored, Once, NewestFirst, InOrder, Listed;
    IdsOfPid(s, p);
    Backwards(s.data, s.pidList[p], PidIds(s, p), p, false);
  }

  /** The calls an operation makes: one for each entry it ends that has a destructor, oldest entry first. */
  ghost predicate CallsFor(s: State, op: Op, more: seq<Info>) {
    && OldestFirst(more)
    && forall c :: c in more <==> exists id :: Drops(s, op, id) && Final(s, op, id) == c && c.dtor != 0
  }

  lemma ManyCalls(s: State, op: Op, ids: seq<Id>)
    requires !op.OpSet? && InOrder(s.data, ids) && forall id :: id in ids <==> Drops(s, op, id)
    ensures CallsFor(s, op, RanAll(s.data, ids))
  {
    hide OldestFirst, InOrder, Drops;
    RanExactly(s.data, ids);
    DropsThere(s, op);
    forall c ensures c in RanAll(s.data, ids) <==> exists id :: Drops(s, op, id) && Final(s, op, id) == c && c.dtor != 0 {
      if c in RanAll(s.data, ids) {
        var id :| id in ids && id in s.data && s.data[id] == c;
        assert Drops(s, op, id) && Final(s, op, id) == c;
      }
      if exists id :: Drops(s, op, id) && Final(s, op, id) == c && c.dtor != 0 {
        var id :| Drops(s, op, id) && Final(s, op, id) == c && c.dtor != 0;
        assert id in ids && s.data[id] == c;
      }
    }
  }

  lemma DropsThere(s: State, op: Op)
    ensures forall id :: Drops(s, op, id) ==> id in s.data
  {}

  lemma NoCalls(s: State, op: Op)
    requires forall id :: !Drops(s, op, id)
    ensures CallsFor(s, op, [])
  {}

  lemma StepCalls(s: State, op: Op)
    requires Inv(s) && Aged(s) && Enabled(s, op)
    ensures s.calls <= Apply(s, op).calls && CallsFor(s, op, Apply(s, op).calls[|s.calls|..])
  {
    hide CallsFor, Aged, NewestFirst;
    var s' := Apply(s, op);
    match op
    case OpCreate(dtor, mem) =>
      NoCalls(s, op);
      hide Inv, Probe;
      assert s'.calls[|s.calls|..] == [];
    case OpSet(id, v, mem1, mem2) => SetCalls(s, op);
    case OpDestroy(k) =>
      if k in s.keyList {
        KeyIdsInOrder(s, k);
        ManyCalls(s, op, KeyIds(s, k));
        assert s'.calls[|s.calls|..] == RanAll(s.data, KeyIds(s, k));
      } else {
        assert forall id :: !Drops(s, op, id);
        NoCalls(s, op);
        assert s'.calls[|s.calls|..] == [];
      }
    case OpExit(p) =>
      if p in s.pidList {
        PidIdsInOrder(s, p);
        ManyCalls(s, op, PidIds(s, p));
        assert s'.calls[|s.calls|..] == RanAll(s.data, PidIds(s, p));
      } else {
        assert forall id :: !Drops(s, op, id);
        NoCalls(s, op);
        assert s'.calls[|s.calls|..] == [];
      }
  }

  lemma SetCalls(s: State, op: Op)
    requires Inv(s) && op.OpSet? && Enabled(s, op)
    ensures s.calls <= Apply(s, op).calls && CallsFor(s, op, Apply(s, op).calls[|s.calls|..])
  {
    hide Listed, Once, DropFrom;
    var more := Apply(s, op).calls[|s.calls|..];
    if op.id in s.data && op.val == 0 {
      var c := Final(s, op, op.id);
      assert Drops(s, op, op.id);
      assert more == Ran(c);
    } else {
      assert more == [];
    }
  }

  /** In every run, each operation calls the destructors of exactly the entries it ends, oldest first. */
  lemma DestructorOrder(trace: seq<State>, ops: seq<Op>, i: nat)
    requires Run(trace, ops) && i < |ops|
    ensures trace[i].calls <= trace[i+1].calls && CallsFor(trace[i], ops[i], trace[i+1].calls[|trace[i].calls|..])
  {
    hide CallsFor, Apply, Enabled, Inv, Aged;
    RunInv(trace, ops, i);
    RunAged(trace, ops, i);
    StepCalls(trace[i], ops[i]);
  }

  // ---------------------------------------------------------------- keys

  /** `x` comes between `c` and `k` when counting up from `c` and starting over at 1 after 32769. */
  predicate Between(c: nat, k: nat, x: nat) {
    if c < k then c < x < k else 1 <= x < k || c < x <= 32769
  }

  /** `k` is the first key behind the counter that is not in use. */
  ghost predicate NextFree(used: map<nat, seq<nat>>, c: nat, k: nat) {
    1 <= k <= 32769 && k != c && k !in used && forall x :: Between(c, k, x) ==> x in used
  }

  function Distance(c: nat, k: nat): int { if k > c then k - c else k - c + 32769 }

  lemma IterAt(c: nat, i: nat)
    requires 1 <= c <= PID_KEY && 1 <= i <= TSD_KEYS_MAX
    ensures Iter(c, i) == if c + i <= 32769 then c + i else c + i - 32769
  {}

  lemma NextFreeIs(used: map<nat, seq<nat>>, c: nat, k: nat)
    requires 1 <= c <= PID_KEY
    ensures NextFree(used, c, k) <==> k !in used && FirstFree(used, c, TSD_KEYS_MAX, k)
  {
    hide Iter;
    if NextFree(used, c, k) {
      var d := Distance(c, k);
      IterAt(c, d);
      forall i | 1 <= i < d ensures Iter(c, i) in used {
        IterAt(c, i);
        assert Between(c, k, Iter(c, i));
      }
      assert FreeAfter(used, c, d, k);
    }
    if k !in used && FirstFree(used, c, TSD_KEYS_MAX, k) {
      var j: nat :| 1 <= j <= TSD_KEYS_MAX && FreeAfter(used, c, j, k);
      IterAt(c, j);
      forall x | Between(c, k, x) ensures x in used {
        IterAt(c, Distance(c, x));
        assert Iter(c, Distance(c, x)) == x;
      }
    }
  }

  /** `tsd_create` takes the first key behind the counter that is free, and no other. */
  lemma CreateTakes(used: map<nat, seq<nat>>, c: nat, k: nat)
    requires 1 <= c <= PID_KEY
    ensures Probe(used, c, TSD_KEYS_MAX) == (true, k) <==> NextFree(used, c, k)
  {
    hide Iter, Probe, FreeAfter, AllUsed;
    ProbeMeans(used, c, TSD_KEYS_MAX);
    var (ok, k') := Probe(used, c, TSD_KEYS_MAX);
    NextFreeIs(used, c, k);
    if ok && NextFree(used, c, k) {
      var j: nat :| 1 <= j <= TSD_KEYS_MAX && FreeAfter(used, c, j, k);
      var j': nat :| 1 <= j' <= TSD_KEYS_MAX && FreeAfter(used, c, j', k');
      FreeUnique(used, c, j, k, j', k');
    }
    if !ok { AllButOne(used, c); }
  }

  /** Keys after an operation: the one created, and those that were there and not destroyed. */
  ghost predicate KeyMoved(s: State, op: Op, s': State, k: nat) {
    var made := op.OpCreate? && op.mem && NextFree(s.keyList, s.ctr, k);
    && (k in s'.keyList <==> made || (k in s.keyList && op != OpDestroy(k)))
    && (made ==> s'.ctr == k && k in s'.keys && s'.keys[k] == op.dtor)
    && (k in s.keyList && op != OpDestroy(k) ==> k in s.keys && k in s'.keys && s'.keys[k] == s.keys[k])
  }

  lemma KeyMoveIs(s: State, op: Op, k: nat)
    requires Inv(s) && Enabled(s, op)
    ensures KeyMoved(s, op, Apply(s, op), k)
  {
    hide Listed, Once, RanAll, Probe, NextFree;
    CreateTakes(s.keyList, s.ctr, k);
    FreeNotUsed(s.keyList, s.ctr, k);
  }

  lemma FreeNotUsed(used: map<nat, seq<nat>>, c: nat, k: nat)
    ensures NextFree(used, c, k) ==> k !in used
  {}

  /** In every run, keys are created in order behind the counter and go only when they are destroyed. */
  lemma KeysMove(trace: seq<State>, ops: seq<Op>, i: nat, k: nat)
    requires Run(trace, ops) && i < |ops|
    ensures KeyMoved(trace[i], ops[i], trace[i+1], k)
  {
    hide KeyMoved, Apply, Enabled, Inv;
    RunInv(trace, ops, i);
    KeyMoveIs(trace[i], ops[i], k);
  }

  // ---------------------------------------------------------------- threads

  /** The operation takes the last entry of a thread, or the thread exits. */
  ghost predicate Leaves(s: State, op: Op, p: nat) {
    || op == OpExit(p)
    || (op.OpSet? && op.id.pid == p && op.id in s.data && op.val == 0 && forall k :: Id(k, p) in s.data ==> k == op.id.key)
  }

  /** Thread entries after an operation: made by a set that needs one, even if the set then fails. */
  ghost predicate ThreadMoved(s: State, op: Op, s': State, p: nat) {
    var made := op.OpSet? && op.id.pid == p && KeyOk(op.id.key) && op.id !in s.data && op.val != 0 && op.mem1;
    p in s'.pidList <==> made || (p in s.pidList && !Leaves(s, op, p))
  }

  lemma LastKey(s: State, id: Id)
    requires Listed(s) && id in s.data && id.pid in s.pidList
    ensures Delete(s.pidList[id.pid], id.key) == [] <==> forall k :: Id(k, id.pid) in s.data ==> k == id.key
  {
    var (l, d) := (s.pidList[id.pid], Delete(s.pidList[id.pid], id.key));
    DeleteFacts(l, id.key);
    hide Delete;
    if d != [] { assert d[0] in d; assert d[0] in l; }
  }

  lemma ThreadMoveIs(s: State, op: Op, p: nat)
    requires Inv(s) && Enabled(s, op)
    ensures ThreadMoved(s, op, Apply(s, op), p)
  {
    hide Listed, Once, RanAll, Probe, Delete;
    if op.OpSet? { SetThreads(s, op, p); }
  }

  lemma SetThreads(s: State, op: Op, p: nat)
    requires Inv(s) && Enabled(s, op) && op.OpSet?
    ensures ThreadMoved(s, op, Apply(s, op), p)
  {
    hide Listed, Once, Delete;
    if op.id in s.data {
      LastKey(s, op.id);
      RemovedThread(Written(s, op.id, op.val), op.id, p);
    }
    hide RemoveEntry;
  }

  lemma RemovedThread(s: State, id: Id, p: nat)
    requires id in s.data && id.pid in s.pidList
    ensures p in RemoveEntry(s, id).pidList <==> p in s.pidList && !(p == id.pid && Delete(s.pidList[p], id.key) == [])
  {
    hide Delete;
  }

  /** In every run a thread has an entry from the first set that needs one until its last entry goes. */
  lemma ThreadsMove(trace: seq<State>, ops: seq<Op>, i: nat, p: nat)
    requires Run(trace, ops) && i < |ops|
    ensures ThreadMoved(trace[i], ops[i], trace[i+1], p)
  {
    hide ThreadMoved, Apply, Enabled, Inv;
    RunInv(trace, ops, i);
    ThreadMoveIs(trace[i], ops[i], p);
  }
}

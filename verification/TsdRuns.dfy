/** Key allocation, and whole runs of thread-specific data. */
module TsdRuns {
  import opened Seqs
  import opened TsdState
  import opened TsdProofs

  // ---------------------------------------------------------------- key allocation

  /** The counter runs through 1 .. TSD_KEYS_MAX + 1: its value after `i` steps. */
  function Iter(c: nat, i: nat): (k: nat)
    requires 1 <= c
    ensures 1 <= k <= PID_KEY
  {
    (c - 1 + i) % 32769 + 1
  }

  lemma IterNext(c: nat, i: nat)
    requires 1 <= c <= PID_KEY
    ensures Iter(c, 1) == NextKey(c) && Iter(NextKey(c), i) == Iter(c, i + 1)
    ensures Iter(c, 32769) == c
  {}

  /** What the search finds: the first free key after the counter, if one of the next `left` is free. */
  lemma {:induction false} ProbeMeans(used: map<nat, seq<nat>>, c: nat, left: nat)
    requires 1 <= c <= PID_KEY
    ensures var (ok, k) := Probe(used, c, left);
      && 1 <= k <= PID_KEY
      && (ok ==> k !in used && FirstFree(used, c, left, k))
      && (!ok ==> k == Iter(c, left + 1) && AllUsed(used, c, left))
    decreases left
  {
    hide Iter, FirstFree, AllUsed;
    var k := NextKey(c);
    IterNext(c, left);
    if left == 0 {
      NoneLeft(used, c);
    } else if k in used {
      ProbeMeans(used, k, left - 1);
      var (ok, r) := Probe(used, k, left - 1);
      if ok { FirstFreeLater(used, c, left, r); } else { AllUsedLater(used, c, left); }
    } else {
      FirstFreeNow(used, c, left);
    }
  }

  ghost predicate AllUsed(used: map<nat, seq<nat>>, c: nat, left: nat)
    requires 1 <= c
  {
    forall i :: 1 <= i <= left ==> Iter(c, i) in used
  }

  lemma NoneLeft(used: map<nat, seq<nat>>, c: nat)
    requires 1 <= c <= PID_KEY
    ensures AllUsed(used, c, 0) && Iter(c, 1) == NextKey(c)
  {
    IterNext(c, 0);
  }

  lemma AllUsedLater(used: map<nat, seq<nat>>, c: nat, left: nat)
    requires 1 <= c <= PID_KEY && left > 0 && NextKey(c) in used && AllUsed(used, NextKey(c), left - 1)
    ensures AllUsed(used, c, left)
  {
    forall i | 1 <= i <= left ensures Iter(c, i) in used {
      IterNext(c, i - 1);
      hide Iter;
    }
  }

  lemma FirstFreeNow(used: map<nat, seq<nat>>, c: nat, left: nat)
    requires 1 <= c <= PID_KEY && left > 0
    ensures FirstFree(used, c, left, NextKey(c))
  {
    IterNext(c, 0);
    assert FreeAfter(used, c, 1, NextKey(c));
  }

  ghost predicate FreeAfter(used: map<nat, seq<nat>>, c: nat, j: nat, k: nat)
    requires 1 <= c
  {
    k == Iter(c, j) && forall i :: 1 <= i < j ==> Iter(c, i) in used
  }

  ghost predicate FirstFree(used: map<nat, seq<nat>>, c: nat, left: nat, k: nat)
    requires 1 <= c
  {
    exists j :: 1 <= j <= left && FreeAfter(used, c, j, k)
  }

  lemma FirstFreeLater(used: map<nat, seq<nat>>, c: nat, left: nat, k: nat)
    requires 1 <= c <= PID_KEY && left > 0 && NextKey(c) in used && FirstFree(used, NextKey(c), left - 1, k)
    ensures FirstFree(used, c, left, k)
  {
    hide Iter;
    var j :| 1 <= j <= left - 1 && FreeAfter(used, NextKey(c), j, k);
    IterNext(c, j);
    forall i | 1 <= i < j + 1 ensures Iter(c, i) in used { if i == 1 { IterNext(c, 0); } else { IterNext(c, i - 1); } }
    assert FreeAfter(used, c, j + 1, k);
  }

  /** The next 32768 keys are all the keys but the counter itself. */
  lemma AllButOne(used: map<nat, seq<nat>>, c: nat)
    requires 1 <= c <= PID_KEY
    ensures AllUsed(used, c, TSD_KEYS_MAX) <==> forall k :: 1 <= k <= PID_KEY && k != c ==> k in used
  {
    if AllUsed(used, c, TSD_KEYS_MAX) {
      forall k | 1 <= k <= PID_KEY && k != c ensures k in used {
        var i := if k > c then k - c else k - c + 32769;
        IterReaches(c, k);
        assert Iter(c, i) in used;
      }
    } else {
      var i :| 1 <= i <= TSD_KEYS_MAX && Iter(c, i) !in used;
      IterMoves(c, i);
    }
  }

  lemma IterReaches(c: nat, k: nat)
    requires 1 <= c <= PID_KEY && 1 <= k <= PID_KEY && k != c
    ensures Iter(c, if k > c then k - c else k - c + 32769) == k
  {}

  lemma IterMoves(c: nat, i: nat)
    requires 1 <= c <= PID_KEY && 1 <= i <= TSD_KEYS_MAX
    ensures Iter(c, i) != c
  {}

  /** `tsd_create` fails if and only if every key but the counter is taken; the counter is then where it was. */
  lemma CreateFails(s: State)
    requires Anchored(s)
    ensures var (ok, k) := Probe(s.keyList, s.ctr, TSD_KEYS_MAX);
      && (!ok <==> forall k :: 1 <= k <= PID_KEY && k != s.ctr ==> k in s.keyList)
      && (!ok ==> Create(s, 0, true) == s)
  {
    ProbeMeans(s.keyList, s.ctr, TSD_KEYS_MAX);
    AllButOne(s.keyList, s.ctr);
    IterNext(s.ctr, 0);
    var (ok, k) := Probe(s.keyList, s.ctr, TSD_KEYS_MAX);
    if ok {
      var j :| 1 <= j <= TSD_KEYS_MAX && FreeAfter(s.keyList, s.ctr, j, k);
      assert Iter(s.ctr, j) !in s.keyList;
    }
    hide Probe;
  }

  /** The counter will run into the key past the maximum before it meets a free one. */
  ghost predicate RunsPast(used: map<nat, seq<nat>>, c: nat) {
    c <= TSD_KEYS_MAX && PID_KEY !in used && forall k :: c < k <= TSD_KEYS_MAX ==> k in used
  }

  lemma IterStraight(c: nat, i: nat)
    requires 1 <= c && c + i <= PID_KEY
    ensures Iter(c, i) == c + i
  {}

  lemma IterPast(c: nat, j: nat)
    requires 1 <= c <= PID_KEY && 1 <= j <= TSD_KEYS_MAX && Iter(c, j) == PID_KEY
    ensures c <= TSD_KEYS_MAX && j == PID_KEY - c
  {}

  /** `tsd_create` hands out the key past the maximum exactly when the counter runs into it. */
  lemma HandsOutPast(used: map<nat, seq<nat>>, c: nat)
    requires 1 <= c <= PID_KEY
    ensures Probe(used, c, TSD_KEYS_MAX) == (true, PID_KEY) <==> RunsPast(used, c)
  {
    hide Iter, Probe;
    ProbeMeans(used, c, TSD_KEYS_MAX);
    var (ok, r) := Probe(used, c, TSD_KEYS_MAX);
    if ok && r == PID_KEY {
      var j :| 1 <= j <= TSD_KEYS_MAX && FreeAfter(used, c, j, r);
      IterPast(c, j);
      forall k | c < k <= TSD_KEYS_MAX ensures k in used { IterStraight(c, k - c); }
    }
    if RunsPast(used, c) {
      PastIsFree(used, c);
      var j :| 1 <= j <= TSD_KEYS_MAX && FreeAfter(used, c, j, r);
      FreeUnique(used, c, j, r, PID_KEY - c, PID_KEY);
    }
  }

  lemma PastIsFree(used: map<nat, seq<nat>>, c: nat)
    requires 1 <= c && RunsPast(used, c)
    ensures FreeAfter(used, c, PID_KEY - c, PID_KEY) && !AllUsed(used, c, TSD_KEYS_MAX)
  {
    hide Iter;
    IterStraight(c, PID_KEY - c);
    forall i | 1 <= i < PID_KEY - c ensures Iter(c, i) in used { IterStraight(c, i); }
  }

  lemma FreeUnique(used: map<nat, seq<nat>>, c: nat, j: nat, k: nat, j': nat, k': nat)
    requires 1 <= c && 1 <= j && 1 <= j' && k !in used && k' !in used
    requires FreeAfter(used, c, j, k) && FreeAfter(used, c, j', k')
    ensures k == k'
  {
    hide Iter;
  }

  /** A created key is one `tsd_set` accepts unless the counter ran past the maximum. */
  lemma CreatedKeyUsable(s: State, dtor: nat, id: Id, v: nat)
    requires Anchored(s) && Probe(s.keyList, s.ctr, TSD_KEYS_MAX).0
    requires id.key == Create(s, dtor, true).ctr && id.pid <= PID_MAX_LIMIT && v != 0
    ensures id.key !in s.keyList && id.key in Create(s, dtor, true).keyList
    ensures Set(Create(s, dtor, true), id, v, true, true).1 == Ok <==> !RunsPast(s.keyList, s.ctr)
  {
    ProbeMeans(s.keyList, s.ctr, TSD_KEYS_MAX);
    HandsOutPast(s.keyList, s.ctr);
    hide Probe, RunsPast;
  }

  lemma CreateInv(s: State, dtor: nat, mem: bool)
    requires Inv(s)
    ensures Inv(Create(s, dtor, mem))
  {
    hide Probe, Once, Listed, Anchored;
    ProbeMeans(s.keyList, s.ctr, TSD_KEYS_MAX) by { AnchoredCtr(s); }
    var (ok, k) := Probe(s.keyList, s.ctr, TSD_KEYS_MAX);
    KeyAdded(s, k, dtor, ok);
  }

  lemma AnchoredCtr(s: State)
    requires Anchored(s)
    ensures 1 <= s.ctr <= PID_KEY
  {}

  /** A new key with no entries keeps lists and anchors. */
  lemma KeyAdded(s: State, k: nat, dtor: nat, add: bool)
    requires Listed(s) && Anchored(s) && 1 <= k <= PID_KEY && (add ==> k !in s.keyList)
    ensures var t := if add then s.(ctr := k, keys := s.keys[k := dtor], keyList := s.keyList[k := []]) else s.(ctr := k);
      Listed(t) && Anchored(t)
  {
    hide NoDup;
    NothingTwice();
  }

  lemma NothingTwice()
    ensures NoDup<nat>([])
  {}

  // ---------------------------------------------------------------- runs

  datatype Op =
    | OpCreate(dtor: nat, mem: bool)
    | OpSet(id: Id, val: nat, mem1: bool, mem2: bool)
    | OpDestroy(key: nat)
    | OpExit(pid: nat)

  predicate Enabled(s: State, op: Op) {
    op.OpSet? ==> SetNeeds(s, op.id, op.val)
  }

  ghost function Apply(s: State, op: Op): State
    requires Enabled(s, op)
  {
    match op
    case OpCreate(dtor, mem) => Create(s, dtor, mem)
    case OpSet(id, v, mem1, mem2) => Set(s, id, v, mem1, mem2).0
    case OpDestroy(k) => Destroy(s, k)
    case OpExit(p) => Exit(s, p)
  }

  lemma ApplyInv(s: State, op: Op)
    requires Enabled(s, op) && Inv(s)
    ensures Inv(Apply(s, op))
  {
    match op
    case OpCreate(dtor, mem) => CreateInv(s, dtor, mem);
    case OpSet(id, v, mem1, mem2) => SetInv(s, id, v, mem1, mem2);
    case OpDestroy(k) => DestroyInv(s, k);
    case OpExit(p) => ExitInv(s, p);
  }

  lemma FreshInv()
    ensures Inv(Fresh())
  {}

  ghost predicate Run(trace: seq<State>, ops: seq<Op>) {
    && |trace| == |ops| + 1 && trace[0] == Fresh()
    && forall i :: 0 <= i < |ops| ==> Enabled(trace[i], ops[i]) && trace[i+1] == Apply(trace[i], ops[i])
  }

  /** In every reachable state each entry is on both its lists and no others, and destructors ran once. */
  lemma {:induction false} RunInv(trace: seq<State>, ops: seq<Op>, i: nat)
    requires Run(trace, ops) && i < |trace|
    ensures Inv(trace[i])
  {
    if i == 0 {
      FreshInv();
    } else {
      RunInv(trace, ops, i - 1);
      ApplyInv(trace[i-1], ops[i-1]);
    }
  }

  /** In every reachable state an entry with a destructor is live or has had it run, never both, once. */
  lemma DestructorRunsOnce(trace: seq<State>, ops: seq<Op>, i: nat, sn: nat, a: nat, b: nat)
    requires Run(trace, ops) && i < |trace| && sn < |trace[i].born| && trace[i].born[sn] != 0
    ensures var s := trace[i];
      && (Live(s.data, sn) <==> !Called(s.calls, sn))
      && (a < |s.calls| && b < |s.calls| && s.calls[a].sn == s.calls[b].sn ==> a == b)
  {
    RunInv(trace, ops, i);
  }

  /** Operations that may change what a thread sees under a key. */
  predicate Touches(op: Op, id: Id) {
    match op
    case OpCreate(_, _) => false
    case OpSet(id', _, _, _) => id' == id
    case OpDestroy(k) => k == id.key
    case OpExit(p) => p == id.pid
  }

  lemma Untouched(s: State, op: Op, id: Id)
    requires Enabled(s, op) && Inv(s) && !Touches(op, id)
    ensures Get(Apply(s, op), id) == Get(s, id)
  {
    hide Inv;
  }

  lemma GetAfterSet(s: State, id: Id, v: nat, mem1: bool, mem2: bool)
    requires Inv(s) && SetNeeds(s, id, v)
    ensures var (s', r) := Set(s, id, v, mem1, mem2);
      && (r == Ok ==> Get(s', id) == v)
      && (r != Ok ==> Get(s', id) == Get(s, id))
  {
    hide Inv;
  }

  /** `tsd_get` returns the value last set, however many other operations ran since. */
  lemma {:induction false} GetLastSet(trace: seq<State>, ops: seq<Op>, i: nat, j: nat)
    requires Run(trace, ops) && i < j < |trace| && ops[i].OpSet?
    requires Set(trace[i], ops[i].id, ops[i].val, ops[i].mem1, ops[i].mem2).1 == Ok
    requires forall q :: i < q < j ==> !Touches(ops[q], ops[i].id)
    ensures Get(trace[j], ops[i].id) == ops[i].val
  {
    hide Set, Get, Inv;
    if j == i + 1 {
      RunInv(trace, ops, i);
      GetAfterSet(trace[i], ops[i].id, ops[i].val, ops[i].mem1, ops[i].mem2);
    } else {
      GetLastSet(trace, ops, i, j - 1);
      RunInv(trace, ops, j - 1);
      Untouched(trace[j-1], ops[j-1], ops[i].id);
    }
  }

  /** What is gone stays gone: after `tsd_destroy` or `tsd_exit` nothing is left under the key or thread. */
  lemma DestroyExact(s: State, k: nat, id: Id)
    requires Inv(s)
    ensures Get(Destroy(s, k), id) == if id.key == k then 0 else Get(s, id)
    ensures k !in Destroy(s, k).keyList
  {
    hide RanAll, Once;
  }

  lemma ExitExact(s: State, p: nat, id: Id)
    requires Inv(s)
    ensures Get(Exit(s, p), id) == if id.pid == p then 0 else Get(s, id)
    ensures p !in Exit(s, p).pidList
  {
    hide RanAll, Once;
  }

  // ---------------------------------------------------------------- keys in runs

  /** The state after `n` turns of creating a key and destroying it at once. */
  function Turned(n: nat): State { Fresh().(ctr := n + 1) }

  function TurnState(i: nat): State { if i % 2 == 0 then Turned(i / 2) else Create(Turned(i / 2), 0, true) }

  function TurnOp(i: nat): Op { if i % 2 == 0 then OpCreate(0, true) else OpDestroy(i / 2 + 2) }

  lemma TurnStep(n: nat)
    requires n < TSD_KEYS_MAX
    ensures var s := Create(Turned(n), 0, true);
      && s.ctr == n + 2 && s.keyList == map[n + 2 := []] && Destroy(s, n + 2) == Turned(n + 1)
  {
    var s := Create(Turned(n), 0, true);
    assert Probe(map[], n + 1, TSD_KEYS_MAX) == (true, n + 2);
    assert KeyIds(s, n + 2) == [];
    var t := Destroy(s, n + 2);
    assert t.data == map[] && t.keys == map[] && t.keyList == map[] && t.pidList == map[];
  }

  lemma TurnRun(n: nat)
    requires n <= 2 * TSD_KEYS_MAX
    ensures Run(seq(n + 1, i requires 0 <= i => TurnState(i)), seq(n, i requires 0 <= i => TurnOp(i)))
  {
    var (trace, ops) := (seq(n + 1, i requires 0 <= i => TurnState(i)), seq(n, i requires 0 <= i => TurnOp(i)));
    forall i | 0 <= i < n ensures Enabled(trace[i], ops[i]) && trace[i+1] == Apply(trace[i], ops[i]) {
      TurnStep(i / 2);
    }
  }

  /**
    Creating and destroying one key at a time brings the counter to the maximum; the next key
    created is then the unusable one, though no key is in use.
   */
  lemma UnusableKeyWitness(trace: seq<State>, ops: seq<Op>)
    requires trace == seq(65535, i requires 0 <= i => TurnState(i)) && ops == seq(65534, i requires 0 <= i => TurnOp(i))
    ensures Run(trace, ops) && var s := trace[65534]; var t := Create(s, 0, true);
      && s == Fresh().(ctr := TSD_KEYS_MAX) && t.ctr == TSD_KEYS_MAX + 1
      && Set(t, Id(t.ctr, 1), 1, true, true).1 == Invalid
  {
    TurnRun(65534);
    assert TurnState(65534) == Turned(32767);
    var (s, used) := (Turned(32767), map[]);
    assert Probe(used, s.ctr, TSD_KEYS_MAX) == (true, TSD_KEYS_MAX + 1);
  }

  function NoDtor(k: nat): nat { 0 }
  function NoThreads(k: nat): seq<nat> { [] }

  /** Keys `lo` to `hi` are in use, none has a destructor or an entry, and the counter is at `c`. */
  function KeysOnly(lo: nat, hi: nat, c: nat): State {
    State(map[], map k | lo <= k <= hi :: NoDtor(k), map k | lo <= k <= hi :: NoThreads(k), map[], c, [], [])
  }

  /** The state after `n` keys were created and none destroyed. */
  function Filled(n: nat): State {
    if n <= TSD_KEYS_MAX then KeysOnly(2, n + 1, n + 1) else KeysOnly(1, PID_KEY, 1)
  }

  lemma FillStep(n: nat)
    requires n <= TSD_KEYS_MAX
    ensures Create(Filled(n), 0, true) == Filled(n + 1)
  {
    var (s, t, k) := (Filled(n), Filled(n + 1), NextKey(n + 1));
    assert k !in s.keyList;
    assert Probe(s.keyList, s.ctr, TSD_KEYS_MAX) == (true, k);
    assert s.keys[k := 0] == t.keys;
    assert s.keyList[k := []] == t.keyList;
  }

  function FillState(i: nat): State {
    if i <= 32769 then Filled(i) else KeysOnly(2, PID_KEY, 1)
  }

  function FillOp(i: nat): Op { if i < 32769 then OpCreate(0, true) else OpDestroy(1) }

  /** With every key created and then key 1 destroyed, no key can be created though key 1 is free. */
  lemma CreateFailsWitness(trace: seq<State>, ops: seq<Op>)
    requires trace == seq(32771, i requires 0 <= i => FillState(i)) && ops == seq(32770, i requires 0 <= i => FillOp(i))
    ensures Run(trace, ops) && var s := trace[32770];
      1 !in s.keyList && !Probe(s.keyList, s.ctr, TSD_KEYS_MAX).0 && Create(s, 0, true) == s
  {
    hide FillState, FillOp, Probe, Apply, Create;
    forall i | 0 <= i < 32770 ensures Enabled(trace[i], ops[i]) && trace[i+1] == Apply(trace[i], ops[i]) {
      FillFollows(i);
    }
    FillEnds();
    CreateFails(trace[32770]);
  }

  lemma FillFollows(i: nat)
    requires i < 32770
    ensures Enabled(FillState(i), FillOp(i)) && FillState(i + 1) == Apply(FillState(i), FillOp(i))
  {
    hide Filled, Create, Destroy;
    if i < 32769 { FillStep(i); } else { FullDestroy(); }
  }

  lemma FillEnds()
    ensures FillState(0) == Fresh() && var s := FillState(32770);
      Anchored(s) && 1 !in s.keyList && forall k :: 1 <= k <= PID_KEY && k != s.ctr ==> k in s.keyList
  {
    var f := FillState(0);
    assert f.keys == map[] && f.keyList == map[];
  }

  lemma FullDestroy()
    ensures Destroy(FillState(32769), 1) == FillState(32770)
  {
    var s, t := FillState(32769), FillState(32770);
    assert KeyIds(s, 1) == [];
    assert s.keys - {1} == t.keys;
    assert s.keyList - {1} == t.keyList;
    assert Destroy(s, 1).data == t.data;
  }

  // ---------------------------------------------------------------- destructors on null

  ghost predicate NoNulls(s: State) { forall id :: id in s.data ==> s.data[id].val != 0 }

  /** `tsd_set` of null on a live entry whose key has a destructor. */
  predicate SetsNull(s: State, op: Op) {
    op.OpSet? && op.val == 0 && op.id in s.data && s.data[op.id].dtor != 0
  }

  lemma {:induction false} RanNonNull(data: map<Id, Info>, ids: seq<Id>)
    requires forall id :: id in data ==> data[id].val != 0
    ensures forall c :: c in RanAll(data, ids) ==> c.val != 0
  {
    if ids != [] { RanNonNull(data, ids[1..]); }
  }

  /** One step keeps null out of the table, and runs a destructor on null only by setting null. */
  lemma StepNulls(s: State, op: Op)
    requires Enabled(s, op) && Inv(s) && NoNulls(s)
    ensures var t := Apply(s, op);
      && NoNulls(t) && s.calls <= t.calls
      && (SetsNull(s, op) ==> t.calls == s.calls + [s.data[op.id].(val := 0)])
      && (!SetsNull(s, op) ==> forall c :: c in t.calls[|s.calls|..] ==> c.val != 0)
  {
    hide Listed, Once;
    match op
    case OpCreate(dtor, mem) => hide Probe;
    case OpSet(id, v, mem1, mem2) =>
    case OpDestroy(k) =>
      if k in s.keyList {
        RanNonNull(s.data, KeyIds(s, k));
        hide RanAll, KeyIds;
      }
    case OpExit(p) =>
      if p in s.pidList {
        RanNonNull(s.data, PidIds(s, p));
        hide RanAll, PidIds;
      }
  }

  /** No live entry of a reachable state holds null. */
  lemma {:induction false} RunNoNulls(trace: seq<State>, ops: seq<Op>, i: nat)
    requires Run(trace, ops) && i < |trace|
    ensures NoNulls(trace[i])
  {
    if i > 0 {
      RunNoNulls(trace, ops, i - 1);
      RunInv(trace, ops, i - 1);
      StepNulls(trace[i-1], ops[i-1]);
    }
  }

  /** In every run, a destructor is called on null by exactly the steps that set null over a value. */
  lemma NullCalls(trace: seq<State>, ops: seq<Op>, i: nat)
    requires Run(trace, ops) && i < |ops|
    ensures trace[i].calls <= trace[i+1].calls
    ensures SetsNull(trace[i], ops[i]) <==> exists c :: c in trace[i+1].calls[|trace[i].calls|..] && c.val == 0
  {
    RunInv(trace, ops, i);
    RunNoNulls(trace, ops, i);
    hide Inv, NoNulls;
    StepNulls(trace[i], ops[i]);
    var more := trace[i+1].calls[|trace[i].calls|..];
    if SetsNull(trace[i], ops[i]) {
      assert more == [trace[i].data[ops[i].id].(val := 0)];
      assert more[0].val == 0 && more[0] in more;
    }
  }

  /** Create a key, set a value, set null: the destructor runs on null. */
  lemma NullCallWitness()
    ensures var ops := [OpCreate(5, true), OpSet(Id(2, 1), 7, true, true), OpSet(Id(2, 1), 0, true, true)];
      exists trace: seq<State> :: Run(trace, ops) && trace[3].calls == [Info(5, 0, 0)]
  {
    var ops := [OpCreate(5, true), OpSet(Id(2, 1), 7, true, true), OpSet(Id(2, 1), 0, true, true)];
    var a := Create(Fresh(), 5, true);
    assert Probe(map[], 1, TSD_KEYS_MAX) == (true, 2);
    var b := Apply(a, ops[1]);
    assert b.data[Id(2, 1)] == Info(5, 7, 0);
    var c := Apply(b, ops[2]);
    assert Run([Fresh(), a, b, c], ops);
  }
}

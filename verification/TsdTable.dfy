/** The hash bins of `spl-tsd.c`, and the loops that drain a key or a thread. */
module TsdTable {
  import opened Options
  import opened Seqs
  import opened TsdState
  import opened TsdProofs

  datatype Entry = Entry(id: Id, info: Info)

  /** `hash_long` of the product of key and pid, as a function into the bins. */
  function Bin(hash: nat -> nat, n: nat, id: Id): (i: nat)
    requires n > 0
    ensures i < n
  {
    hash(id.key * id.pid) % n
  }

  /** What `tsd_hash_search` finds: key entries, thread entries and thread-specific entries. */
  function Expect(s: State, id: Id): Option<Info> {
    if id.pid == DTOR_PID then (if id.key in s.keys then Some(Info(s.keys[id.key], 0, 0)) else None)
    else if id.key == PID_KEY then (if id.pid in s.pidList then Some(Info(0, 0, 0)) else None)
    else if id in s.data then Some(s.data[id]) else None
  }

  ghost predicate Matches(all: map<Id, Info>, s: State) {
    forall id :: (if id in all then Some(all[id]) else None) == Expect(s, id)
  }

  function Seek(bin: seq<Entry>, id: Id): (j: nat)
    ensures j <= |bin|
    ensures forall i :: 0 <= i < j ==> bin[i].id != id
    ensures j < |bin| ==> bin[j].id == id
  {
    if bin == [] || bin[0].id == id then 0 else 1 + Seek(bin[1..], id)
  }

  /** Bin `i` holds, once each, the entries that hash there. */
  ghost predicate BinOk(hash: nat -> nat, n: nat, i: nat, bin: seq<Entry>, all: map<Id, Info>)
    requires n > 0
  {
    && (forall a, b :: 0 <= a < b < |bin| ==> bin[a].id != bin[b].id)
    && (forall j :: 0 <= j < |bin| ==>
      Bin(hash, n, bin[j].id) == i && bin[j].id in all && all[bin[j].id] == bin[j].info)
    && (forall id :: id in all && Bin(hash, n, id) == i ==> Seek(bin, id) < |bin|)
  }

  ghost predicate BinsOk(hash: nat -> nat, bins: seq<seq<Entry>>, all: map<Id, Info>) {
    |bins| > 0 && forall i :: 0 <= i < |bins| ==> BinOk(hash, |bins|, i, bins[i], all)
  }

  /** An entry stands in the bin that the product of its key and pid hashes to, and in no other. */
  lemma BinHolds(hash: nat -> nat, bins: seq<seq<Entry>>, all: map<Id, Info>, id: Id, i: nat)
    requires BinsOk(hash, bins, all) && i < |bins|
    ensures (exists j :: 0 <= j < |bins[i]| && bins[i][j].id == id) <==> id in all && i == hash(id.key * id.pid) % |bins|
    ensures forall j :: 0 <= j < |bins[i]| && bins[i][j].id == id ==> id in all && bins[i][j].info == all[id]
  {
    assert BinOk(hash, |bins|, i, bins[i], all);
    hide BinsOk;
    if id in all && i == hash(id.key * id.pid) % |bins| {
      var j := Seek(bins[i], id);
      assert bins[i][j].id == id;
    }
  }

  lemma SeekIs(bin: seq<Entry>, id: Id, j: nat)
    requires j <= |bin| && (forall i :: 0 <= i < j ==> bin[i].id != id) && (j < |bin| ==> bin[j].id == id)
    ensures Seek(bin, id) == j
  {}

  lemma SeekIn(bin: seq<Entry>, id: Id, j: nat)
    requires j < |bin| && bin[j].id == id
    ensures Seek(bin, id) < |bin|
  {}

  lemma BinGrows(hash: nat -> nat, n: nat, i: nat, bin: seq<Entry>, all: map<Id, Info>, e: Entry)
    requires n > 0 && BinOk(hash, n, i, bin, all) && e.id !in all
    ensures Bin(hash, n, e.id) != i ==> BinOk(hash, n, i, bin, all[e.id := e.info])
    ensures Bin(hash, n, e.id) == i ==> BinOk(hash, n, i, [e] + bin, all[e.id := e.info])
  {
    hide Bin, Seek;
    var (b, a) := ([e] + bin, all[e.id := e.info]);
    assert b[0] == e && forall j :: 0 < j < |b| ==> b[j] == bin[j-1];
    forall id | id in a && Bin(hash, n, id) == i && Bin(hash, n, e.id) == i ensures Seek(b, id) < |b| {
      if id == e.id { SeekIn(b, id, 0); } else { SeekIn(b, id, Seek(bin, id) + 1); }
    }
  }

  lemma BinShrinks(hash: nat -> nat, n: nat, i: nat, bin: seq<Entry>, all: map<Id, Info>, id: Id)
    requires n > 0 && BinOk(hash, n, i, bin, all) && id in all
    ensures Bin(hash, n, id) != i ==> BinOk(hash, n, i, bin, all - {id})
    ensures Bin(hash, n, id) == i ==>
      Seek(bin, id) < |bin| && BinOk(hash, n, i, RemoveAt(bin, Seek(bin, id)), all - {id})
  {
    hide Bin, Seek;
    if Bin(hash, n, id) == i {
      var k := Seek(bin, id);
      RemovedIds(bin, k);
      hide RemoveAt;
      forall a | a in all - {id} && Bin(hash, n, a) == i ensures Seek(RemoveAt(bin, k), a) < |RemoveAt(bin, k)| {
        StillFound(bin, k, a);
      }
    }
  }

  lemma RemovedIds(bin: seq<Entry>, k: nat)
    requires k < |bin|
    ensures var b := RemoveAt(bin, k);
      && |b| == |bin| - 1
      && (forall j :: 0 <= j < |b| ==> b[j] == bin[if j < k then j else j + 1])
  {}

  lemma StillFound(bin: seq<Entry>, k: nat, a: Id)
    requires k < |bin| && bin[k].id != a && Seek(bin, a) < |bin|
    ensures Seek(RemoveAt(bin, k), a) < |bin| - 1
  {
    var j := Seek(bin, a);
    SeekIn(RemoveAt(bin, k), a, if j < k then j else j - 1);
  }

  lemma BinWrites(hash: nat -> nat, n: nat, i: nat, bin: seq<Entry>, all: map<Id, Info>, e: Entry)
    requires n > 0 && BinOk(hash, n, i, bin, all) && e.id in all
    ensures Bin(hash, n, e.id) != i ==> BinOk(hash, n, i, bin, all[e.id := e.info])
    ensures Bin(hash, n, e.id) == i ==>
      Seek(bin, e.id) < |bin| && BinOk(hash, n, i, bin[Seek(bin, e.id) := e], all[e.id := e.info])
  {
    hide Bin, Seek;
    if Bin(hash, n, e.id) == i {
      var b := bin[Seek(bin, e.id) := e];
      assert forall j :: 0 <= j < |b| ==> b[j].id == bin[j].id;
      forall a | a in all && Bin(hash, n, a) == i ensures Seek(b, a) < |b| { SeekIn(b, a, Seek(bin, a)); }
    }
  }

  lemma Searched(hash: nat -> nat, bins: seq<seq<Entry>>, all: map<Id, Info>, id: Id)
    requires BinsOk(hash, bins, all)
    ensures var bin := bins[Bin(hash, |bins|, id)]; var j := Seek(bin, id);
      (if id in all then Some(all[id]) else None) == (if j < |bin| then Some(bin[j].info) else None)
  {
    var i := Bin(hash, |bins|, id);
    assert BinOk(hash, |bins|, i, bins[i], all);
    hide Bin, Seek;
  }

  // ---------------------------------------------------------------- draining

  /** The loop of `tsd_destroy`: unlink the entries of a key, newest first. */
  ghost function DrainKey(s: State, k: nat): State
    decreases if k in s.keyList then |s.keyList[k]| else 0
  {
    if k !in s.keyList || s.keyList[k] == [] then s
    else
      TailDelete(s.keyList[k]);
      DrainKey(Del(s, Id(k, s.keyList[k][0])), k)
  }

  /** The loop of `tsd_exit`. */
  ghost function DrainPid(s: State, p: nat): State
    decreases if p in s.pidList then |s.pidList[p]| else 0
  {
    if p !in s.pidList || s.pidList[p] == [] then s
    else
      TailDelete(s.pidList[p]);
      DrainPid(Del(s, Id(s.pidList[p][0], p)), p)
  }

  lemma TailDelete(l: seq<nat>)
    requires l != []
    ensures Delete(l, l[0]) == l[1..]
  {
    assert Seqs.Find(l, l[0]) == 0;
  }

  lemma DelKeeps(s: State, id: Id)
    requires Listed(s) && Anchored(s) && id in s.data
    ensures Listed(Del(s, id)) && Anchored(Del(s, id))
  {
    DeleteFacts(s.keyList[id.key], id.pid);
    DeleteFacts(s.pidList[id.pid], id.key);
    hide Delete, NoDup;
    assert Del(s, id).keyList.Keys == s.keyList.Keys;
  }

  /** One element deleted from every list. */
  ghost function DropAll(lists: map<nat, seq<nat>>, x: nat): map<nat, seq<nat>> {
    map q | q in lists :: Delete(lists[q], x)
  }

  /** Deleting it from one list beforehand makes no difference. */
  lemma DropTwice(lists: map<nat, seq<nat>>, at: nat, x: nat)
    requires at in lists && NoDup(lists[at])
    ensures DropAll(lists[at := Delete(lists[at], x)], x) == DropAll(lists, x)
  {
    hide Delete, NoDup;
    DeleteFacts(lists[at], x);
    DeleteAbsent(Delete(lists[at], x), x);
  }

  /** What the drained table looks like. */
  ghost function WithoutKey(s: State, k: nat): State
    requires k in s.keyList
  {
    s.(data := map id | id in s.data && id.key != k :: s.data[id], keyList := s.keyList[k := []],
       pidList := DropAll(s.pidList, k))
  }

  lemma WithoutKeyStep(s: State, k: nat)
    requires Listed(s) && Anchored(s) && k in s.keyList && s.keyList[k] != []
    ensures var s' := Del(s, Id(k, s.keyList[k][0]));
      k in s'.keyList && s'.keyList[k] == s.keyList[k][1..] && WithoutKey(s', k) == WithoutKey(s, k)
  {
    hide Delete, NoDup, Listed, Anchored, DropAll;
    var p := s.keyList[k][0];
    var s' := Del(s, Id(k, p));
    TailDelete(s.keyList[k]);
    FirstOfKey(s, k);
    EntryLists(s, Id(k, p));
    DropTwice(s.pidList, p, k);
    assert WithoutKey(s', k).data == WithoutKey(s, k).data;
  }

  lemma EntryLists(s: State, id: Id)
    requires Listed(s) && Anchored(s) && id in s.data
    ensures id.key in s.keyList && id.pid in s.pidList && NoDup(s.keyList[id.key]) && NoDup(s.pidList[id.pid])
  {}

  lemma WithoutKeyEnd(s: State, k: nat)
    requires Listed(s) && k in s.keyList && s.keyList[k] == []
    ensures WithoutKey(s, k) == s
  {
    forall p | p in s.pidList ensures Delete(s.pidList[p], k) == s.pidList[p] {
      assert Id(k, p) !in s.data;
      DeleteAbsent(s.pidList[p], k);
    }
    hide Delete;
    assert forall id :: id in s.data ==> id == Id(id.key, id.pid);
    assert WithoutKey(s, k).data == s.data;
    assert WithoutKey(s, k).pidList == s.pidList;
  }

  /** Draining unlinks exactly the entries of the key. */
  lemma {:induction false} DrainedKey(s: State, k: nat)
    requires Listed(s) && Anchored(s) && k in s.keyList
    ensures DrainKey(s, k) == WithoutKey(s, k)
    decreases |s.keyList[k]|
  {
    hide Listed, Anchored, WithoutKey, Delete;
    if s.keyList[k] == [] {
      WithoutKeyEnd(s, k);
    } else {
      FirstOfKey(s, k);
      WithoutKeyStep(s, k);
      DelKeeps(s, Id(k, s.keyList[k][0]));
      DrainedKey(Del(s, Id(k, s.keyList[k][0])), k);
    }
  }

  lemma FirstOfKey(s: State, k: nat)
    requires Listed(s) && k in s.keyList && s.keyList[k] != []
    ensures Id(k, s.keyList[k][0]) in s.data
  {}

  /** The same for a thread. */
  ghost function WithoutPid(s: State, p: nat): State
    requires p in s.pidList
  {
    s.(data := map id | id in s.data && id.pid != p :: s.data[id], pidList := s.pidList[p := []],
       keyList := DropAll(s.keyList, p))
  }

  lemma WithoutPidStep(s: State, p: nat)
    requires Listed(s) && Anchored(s) && p in s.pidList && s.pidList[p] != []
    ensures var s' := Del(s, Id(s.pidList[p][0], p));
      p in s'.pidList && s'.pidList[p] == s.pidList[p][1..] && WithoutPid(s', p) == WithoutPid(s, p)
  {
    hide Delete, NoDup, Listed, Anchored, DropAll;
    var k := s.pidList[p][0];
    var s' := Del(s, Id(k, p));
    TailDelete(s.pidList[p]);
    FirstOfPid(s, p);
    EntryLists(s, Id(k, p));
    DropTwice(s.keyList, k, p);
    assert WithoutPid(s', p).data == WithoutPid(s, p).data;
  }

  lemma WithoutPidEnd(s: State, p: nat)
    requires Listed(s) && p in s.pidList && s.pidList[p] == []
    ensures WithoutPid(s, p) == s
  {
    forall k | k in s.keyList ensures Delete(s.keyList[k], p) == s.keyList[k] {
      assert Id(k, p) !in s.data;
      DeleteAbsent(s.keyList[k], p);
    }
    hide Delete;
    assert forall id :: id in s.data ==> id == Id(id.key, id.pid);
    assert WithoutPid(s, p).data == s.data;
    assert WithoutPid(s, p).keyList == s.keyList;
  }

  /** Draining unlinks exactly the entries of the thread. */
  lemma {:induction false} DrainedPid(s: State, p: nat)
    requires Listed(s) && Anchored(s) && p in s.pidList
    ensures DrainPid(s, p) == WithoutPid(s, p)
    decreases |s.pidList[p]|
  {
    hide Listed, Anchored, WithoutPid, Delete;
    if s.pidList[p] == [] {
      WithoutPidEnd(s, p);
    } else {
      FirstOfPid(s, p);
      WithoutPidStep(s, p);
      DelKeeps(s, Id(s.pidList[p][0], p));
      DrainedPid(Del(s, Id(s.pidList[p][0], p)), p);
    }
  }

  lemma FirstOfPid(s: State, p: nat)
    requires Listed(s) && p in s.pidList && s.pidList[p] != []
    ensures Id(s.pidList[p][0], p) in s.data
  {}

  // ---------------------------------------------------------------- the work list

  /** `tsd_hash_dtor`: the calls made for a list of removed entries. */
  function RunWork(work: seq<Entry>): seq<Info> {
    if work == [] then []
    else (if work[0].id.pid != DTOR_PID then Ran(work[0].info) else []) + RunWork(work[1..])
  }

  lemma {:induction false} RanAllAppend(data: map<Id, Info>, a: seq<Id>, b: seq<Id>)
    ensures RanAll(data, a + b) == RanAll(data, a) + RanAll(data, b)
  {
    hide RanAll;
    if a == [] {
      RanNone(data);
      assert a + b == b;
    } else {
      RanAllAppend(data, a[1..], b);
      RanFirst(data, a);
      RanFirst(data, a + b);
      assert (a + b)[1..] == a[1..] + b && (a + b)[0] == a[0];
    }
  }

  lemma RanNone(data: map<Id, Info>)
    ensures RanAll(data, []) == []
  {}

  lemma RanFirst(data: map<Id, Info>, ids: seq<Id>)
    requires ids != []
    ensures RanAll(data, ids) == (if ids[0] in data then Ran(data[ids[0]]) else []) + RanAll(data, ids[1..])
  {}

  /** The newest entry of a key is the last to have its destructor run. */
  lemma KeyWorkStep(s: State, k: nat)
    requires Listed(s) && Anchored(s) && k in s.keyList && s.keyList[k] != []
    ensures var id := Id(k, s.keyList[k][0]); var s' := Del(s, id);
      && id in s.data && k in s'.keyList && s'.keyList[k] == s.keyList[k][1..]
      && RanAll(s.data, KeyIds(s, k)) == RanAll(s'.data, KeyIds(s', k)) + Ran(s.data[id])
  {
    hide Listed, Anchored, RanAll, Delete, NoDup, WithoutKey;
    var id := Id(k, s.keyList[k][0]);
    WithoutKeyStep(s, k);
    FirstOfKey(s, k);
    IdsOfKey(s, k);
    assert KeyIds(s, k) == KeyIds(Del(s, id), k) + [id];
    hide KeyIds;
    NewestLast(s.data, KeyIds(s, k), KeyIds(Del(s, id), k), id);
  }

  lemma PidWorkStep(s: State, p: nat)
    requires Listed(s) && Anchored(s) && p in s.pidList && s.pidList[p] != []
    ensures var id := Id(s.pidList[p][0], p); var s' := Del(s, id);
      && id in s.data && p in s'.pidList && s'.pidList[p] == s.pidList[p][1..]
      && RanAll(s.data, PidIds(s, p)) == RanAll(s'.data, PidIds(s', p)) + Ran(s.data[id])
  {
    hide Listed, Anchored, RanAll, Delete, NoDup, WithoutPid;
    var id := Id(s.pidList[p][0], p);
    WithoutPidStep(s, p);
    FirstOfPid(s, p);
    IdsOfPid(s, p);
    assert PidIds(s, p) == PidIds(Del(s, id), p) + [id];
    hide PidIds;
    NewestLast(s.data, PidIds(s, p), PidIds(Del(s, id), p), id);
  }

  lemma NewestLast(data: map<Id, Info>, ids: seq<Id>, rest: seq<Id>, id: Id)
    requires ids == rest + [id] && NoDup(ids) && forall a :: a in ids ==> a in data
    ensures RanAll(data, ids) == RanAll(data - {id}, rest) + Ran(data[id])
  {
    RanAllAppend(data, rest, [id]);
    assert RanAll(data, [id]) == Ran(data[id]) + RanAll(data, [id][1..]);
    assert forall i :: 0 <= i < |rest| ==> ids[i] == rest[i];
    assert id == ids[|rest|];
    RanAllSame(data, data - {id}, rest);
  }

  // ---------------------------------------------------------------- tearing down

  function Ids(work: seq<Entry>): seq<Id> { seq(|work|, i requires 0 <= i < |work| => work[i].id) }

  /** The thread-specific entries of a work list. */
  function DataIds(work: seq<Entry>, data: map<Id, Info>): seq<Id> {
    if work == [] then [] else (if work[0].id in data then [work[0].id] else []) + DataIds(work[1..], data)
  }

  lemma {:induction false} DataIdsFacts(work: seq<Entry>, data: map<Id, Info>)
    ensures forall id :: id in DataIds(work, data) <==> id in Ids(work) && id in data
    ensures NoDup(Ids(work)) ==> NoDup(DataIds(work, data))
  {
    if work != [] {
      var rest := DataIds(work[1..], data);
      DataIdsFacts(work[1..], data);
      assert Ids(work) == [work[0].id] + Ids(work[1..]);
      if NoDup(Ids(work)) {
        TailFacts(Ids(work));
        if work[0].id in data { PrependFacts(rest, work[0].id); } else { assert [] + rest == rest; }
      }
    }
  }

  /** Of a work list taken from the table, only thread-specific entries have destructors run. */
  lemma {:induction false} RunWorkData(work: seq<Entry>, s: State)
    requires Anchored(s) && forall i :: 0 <= i < |work| ==> Expect(s, work[i].id) == Some(work[i].info)
    ensures RunWork(work) == RanAll(s.data, DataIds(work, s.data))
  {
    if work != [] {
      var (e, rest) := (work[0], DataIds(work[1..], s.data));
      assert forall i :: 0 <= i < |work[1..]| ==> work[1..][i] == work[i+1];
      RunWorkData(work[1..], s);
      if e.id in s.data {
        assert ([e.id] + rest)[1..] == rest;
      } else {
        assert [] + rest == rest;
      }
    }
  }

  /** When every entry has been taken out, every destructor has run exactly once. */
  lemma TornDown(work: seq<Entry>, s: State)
    requires Inv(s) && NoDup(Ids(work)) && forall i :: 0 <= i < |work| ==> Expect(s, work[i].id) == Some(work[i].info)
    requires forall id :: Expect(s, id).Some? ==> id in Ids(work)
    ensures Once(map[], s.born, s.calls + RunWork(work))
  {
    AllData(work, s);
    RunWorkData(work, s);
    DataIdsFacts(work, s.data);
    hide Once, Listed, Anchored, DataIds, RunWork, RanAll, Expect;
    OnceDropAll(s.data, s.born, s.calls, DataIds(work, s.data));
    assert Minus(s.data, DataIds(work, s.data)) == map[];
  }

  lemma AllData(work: seq<Entry>, s: State)
    requires Anchored(s) && forall id :: Expect(s, id).Some? ==> id in Ids(work)
    ensures forall id :: id in s.data ==> id in DataIds(work, s.data)
  {
    DataIdsFacts(work, s.data);
    forall id | id in s.data ensures id in Ids(work) { assert Expect(s, id).Some?; }
    hide DataIds, Expect, Ids;
  }
}

/**
  Thread-specific data (`spl-tsd.c`): entries indexed by key and thread, the lists anchored at
  each key and each thread, the key counter, and the destructor calls made so far.
 */
module TsdState {
  import opened Seqs

  const TSD_KEYS_MAX: nat := 32768
  const PID_KEY: nat := TSD_KEYS_MAX + 1
  const PID_MAX_LIMIT: nat := 4194304
  const DTOR_PID: nat := PID_MAX_LIMIT + 1

  datatype Id = Id(key: nat, pid: nat)

  /** Destructor and value are addresses, zero when null; `sn` numbers the entries in order of creation. */
  datatype Info = Info(dtor: nat, val: nat, sn: nat)

  /**
    `keys` gives the destructor of each key entry, `keyList` the threads linked to it, `pidList` the
    keys linked to each thread entry, newest first.  `born` holds the destructor every thread-specific
    entry was created with, by serial number, and `calls` the destructor calls in order.
   */
  datatype State = State(data: map<Id, Info>, keys: map<nat, nat>, keyList: map<nat, seq<nat>>,
                         pidList: map<nat, seq<nat>>, ctr: nat, born: seq<nat>, calls: seq<Info>)

  datatype Reply = Ok | Invalid | NoMem

  function Fresh(): State { State(map[], map[], map[], map[], 1, [], []) }

  // ---------------------------------------------------------------- creating keys

  /** The counter test uses the value before the increment. */
  function NextKey(c: nat): nat { if c > TSD_KEYS_MAX then 1 else c + 1 }

  /** The search for a free key: the key found, if any, and the counter. */
  function Probe(used: map<nat, seq<nat>>, c: nat, left: nat): (bool, nat)
    decreases left
  {
    var k := NextKey(c);
    if left == 0 then (false, k) else if k in used then Probe(used, k, left - 1) else (true, k)
  }

  /** `tsd_hash_add_key` */
  function Create(s: State, dtor: nat, mem: bool): State {
    if !mem then s else
      var (ok, k) := Probe(s.keyList, s.ctr, TSD_KEYS_MAX);
      if ok then s.(ctr := k, keys := s.keys[k := dtor], keyList := s.keyList[k := []]) else s.(ctr := k)
  }

  // ---------------------------------------------------------------- entries

  ghost function DropFrom(lists: map<nat, seq<nat>>, at: nat, x: nat): map<nat, seq<nat>> {
    if at in lists then lists[at := Delete(lists[at], x)] else lists
  }

  /** `tsd_hash_del` on a thread-specific entry. */
  ghost function Del(s: State, id: Id): State {
    s.(data := s.data - {id}, keyList := DropFrom(s.keyList, id.key, id.pid), pidList := DropFrom(s.pidList, id.pid, id.key))
  }

  /** `tsd_hash_dtor` on a thread-specific entry. */
  function Ran(i: Info): seq<Info> { if i.dtor != 0 then [i] else [] }

  /** `tsd_remove_entry`: the thread entry goes with its last entry. */
  ghost function RemoveEntry(s: State, id: Id): State
    requires id in s.data
  {
    var s' := Del(s, id);
    var last := id.pid in s'.pidList && s'.pidList[id.pid] == [];
    s'.(pidList := if last then s'.pidList - {id.pid} else s'.pidList, calls := s.calls + Ran(s.data[id]))
  }

  /** `tsd_hash_add` once both anchors are there. */
  ghost function Add(s: State, id: Id, v: nat): State
    requires id.key in s.keyList && id.key in s.keys && id.pid in s.pidList
  {
    s.(data := s.data[id := Info(s.keys[id.key], v, |s.born|)], born := s.born + [s.keys[id.key]],
       keyList := s.keyList[id.key := [id.pid] + s.keyList[id.key]],
       pidList := s.pidList[id.pid := [id.key] + s.pidList[id.pid]])
  }

  function Written(s: State, id: Id, v: nat): State
    requires id in s.data
  {
    s.(data := s.data[id := s.data[id].(val := v)])
  }

  /** `tsd_hash_add_pid` unless the thread entry exists. */
  function WithPid(s: State, p: nat): State {
    if p in s.pidList then s else s.(pidList := s.pidList[p := []])
  }

  predicate KeyOk(k: nat) { 1 <= k <= TSD_KEYS_MAX }

  /** `tsd_set` */
  ghost function Set(s: State, id: Id, v: nat, mem1: bool, mem2: bool): (State, Reply)
    requires SetNeeds(s, id, v)
  {
    if !KeyOk(id.key) then (s, Invalid)
    else if id in s.data then
      (if v == 0 then RemoveEntry(Written(s, id, v), id) else Written(s, id, v), Ok)
    else if v == 0 then (s, Ok)
    else if id.pid !in s.pidList && !mem1 then (s, NoMem)
    else if !mem2 then (WithPid(s, id.pid), NoMem)
    else (Add(WithPid(s, id.pid), id, v), Ok)
  }

  /** What `tsd_set` asserts: a key that is to get a new entry has been created. */
  predicate SetNeeds(s: State, id: Id, v: nat) {
    id.pid <= PID_MAX_LIMIT && (KeyOk(id.key) && id !in s.data && v != 0 ==> id.key in s.keyList && id.key in s.keys)
  }

  /** `tsd_get` */
  function Get(s: State, id: Id): nat {
    if KeyOk(id.key) && id in s.data then s.data[id].val else 0
  }

  // ---------------------------------------------------------------- removing many

  /** Destructor calls for some entries, in order. */
  function RanAll(data: map<Id, Info>, ids: seq<Id>): seq<Info> {
    if ids == [] then [] else (if ids[0] in data then Ran(data[ids[0]]) else []) + RanAll(data, ids[1..])
  }

  /** The entries of a key, oldest first: the order in which the work list is run. */
  function KeyIds(s: State, k: nat): seq<Id>
    requires k in s.keyList
  {
    var l := s.keyList[k];
    seq(|l|, i requires 0 <= i < |l| => Id(k, l[|l| - 1 - i]))
  }

  function PidIds(s: State, p: nat): seq<Id>
    requires p in s.pidList
  {
    var l := s.pidList[p];
    seq(|l|, i requires 0 <= i < |l| => Id(l[|l| - 1 - i], p))
  }

  /** `tsd_destroy`: every entry of the key goes, and so does the key. */
  ghost function Destroy(s: State, k: nat): State {
    if k !in s.keyList then s else
      s.(data := map id | id in s.data && id.key != k :: s.data[id],
         keys := s.keys - {k}, keyList := s.keyList - {k},
         pidList := map p | p in s.pidList :: Delete(s.pidList[p], k),
         calls := s.calls + RanAll(s.data, KeyIds(s, k)))
  }

  /** `tsd_exit`: every entry of the thread goes, and so does the thread entry. */
  ghost function Exit(s: State, p: nat): State {
    if p !in s.pidList then s else
      s.(data := map id | id in s.data && id.pid != p :: s.data[id],
         pidList := s.pidList - {p},
         keyList := map k | k in s.keyList :: Delete(s.keyList[k], p),
         calls := s.calls + RanAll(s.data, PidIds(s, p)))
  }

  // ---------------------------------------------------------------- invariants

  /** The list at a key holds exactly the threads with an entry for it; the list at a thread, its keys. */
  ghost predicate Listed(s: State) {
    && (forall k, p :: k in s.keyList ==> (p in s.keyList[k] <==> Id(k, p) in s.data))
    && (forall k, p :: p in s.pidList ==> (k in s.pidList[p] <==> Id(k, p) in s.data))
    && (forall k :: k in s.keyList ==> NoDup(s.keyList[k]))
    && (forall p :: p in s.pidList ==> NoDup(s.pidList[p]))
  }

  /** Every entry has both its anchors and the destructor of its key. */
  ghost predicate Anchored(s: State) {
    && s.keys.Keys == s.keyList.Keys
    && (forall k :: k in s.keyList ==> 1 <= k <= PID_KEY)
    && (forall p :: p in s.pidList ==> p <= PID_MAX_LIMIT)
    && 1 <= s.ctr <= PID_KEY
    && forall id :: id in s.data ==>
      && KeyOk(id.key) && id.key in s.keyList && id.pid in s.pidList
      && s.data[id].dtor == s.keys[id.key]
  }

  /** Serial number `sn` belongs to a live entry. */
  ghost predicate Live(data: map<Id, Info>, sn: nat) { exists id :: id in data && data[id].sn == sn }

  ghost predicate Called(calls: seq<Info>, sn: nat) { exists i :: 0 <= i < |calls| && calls[i].sn == sn }

  /** Every entry ever created is live, or has had its destructor run exactly once. */
  ghost predicate Once(data: map<Id, Info>, born: seq<nat>, calls: seq<Info>) {
    && (forall id :: id in data ==> data[id].sn < |born| && born[data[id].sn] == data[id].dtor && !Called(calls, data[id].sn))
    && (forall a, b :: a in data && b in data && data[a].sn == data[b].sn ==> a == b)
    && (forall i, j :: 0 <= i < j < |calls| ==> calls[i].sn != calls[j].sn)
    && (forall i :: 0 <= i < |calls| ==> calls[i].sn < |born| && born[calls[i].sn] == calls[i].dtor != 0)
    && (forall sn :: 0 <= sn < |born| && born[sn] != 0 ==> Live(data, sn) || Called(calls, sn))
  }

  ghost predicate Inv(s: State) { Listed(s) && Anchored(s) && Once(s.data, s.born, s.calls) }
}

/** The thread-specific data table as an object: the operations of `spl-tsd.c` with their loops. */
module Tsd {
  import opened Options
  import opened Seqs
  import opened TsdState
  import opened TsdProofs
  import opened TsdTable
  import opened TsdRuns

  lemma MatchesAt(all: map<Id, Info>, s: State, id: Id)
    requires Matches(all, s)
    ensures (if id in all then Some(all[id]) else None) == Expect(s, id)
  {}

  lemma MatchesDel(all: map<Id, Info>, s: State, id: Id)
    requires Matches(all, s) && id in s.data && KeyOk(id.key) && id.pid <= PID_MAX_LIMIT
    ensures id in all && Matches(all - {id}, Del(s, id))
  {
    MatchesAt(all, s, id);
  }

  lemma MatchesAdd(all: map<Id, Info>, s: State, id: Id, v: nat)
    requires Matches(all, s) && id !in s.data && KeyOk(id.key) && id.pid <= PID_MAX_LIMIT
    requires id.key in s.keyList && id.key in s.keys && id.pid in s.pidList
    ensures id !in all && Matches(all[id := Info(s.keys[id.key], v, |s.born|)], Add(s, id, v))
  {
    MatchesAt(all, s, id);
  }

  lemma MatchesKey(all: map<Id, Info>, s: State, k: nat, dtor: nat)
    requires Matches(all, s) && k !in s.keys
    ensures Id(k, DTOR_PID) !in all
    ensures Matches(all[Id(k, DTOR_PID) := Info(dtor, 0, 0)], s.(keys := s.keys[k := dtor], keyList := s.keyList[k := []]))
  {
    MatchesAt(all, s, Id(k, DTOR_PID));
  }

  lemma MatchesPid(all: map<Id, Info>, s: State, p: nat)
    requires Matches(all, s) && p !in s.pidList && p <= PID_MAX_LIMIT
    ensures Id(PID_KEY, p) !in all
    ensures Matches(all[Id(PID_KEY, p) := Info(0, 0, 0)], WithPid(s, p))
  {
    MatchesAt(all, s, Id(PID_KEY, p));
  }

  lemma MatchesCtr(all: map<Id, Info>, s: State, c: nat)
    requires Matches(all, s)
    ensures Matches(all, s.(ctr := c))
  {
    assert forall id :: Expect(s.(ctr := c), id) == Expect(s, id);
  }

  lemma KeyEntry(s: State, k: nat)
    requires Anchored(s) && k in s.keyList
    ensures k in s.keys && Expect(s, Id(k, DTOR_PID)) == Some(Info(s.keys[k], 0, 0))
  {
    assert k in s.keys.Keys;
  }

  lemma KeyExpected(s: State, k: nat, c: nat)
    requires Anchored(s)
    ensures Expect(s.(ctr := c), Id(k, DTOR_PID)).Some? <==> k in s.keyList
  {
    assert k in s.keys.Keys <==> k in s.keyList.Keys;
  }

  lemma KeyIsNew(s: State, k: nat)
    requires Expect(s, Id(k, DTOR_PID)) == None
    ensures k !in s.keys
  {}

  lemma ProbeSteps(used: map<nat, seq<nat>>, c: nat, left: nat)
    ensures left == 0 ==> Probe(used, c, left) == (false, NextKey(c))
    ensures left > 0 ==> Probe(used, c, left) == if NextKey(c) in used then Probe(used, NextKey(c), left - 1) else (true, NextKey(c))
  {}

  lemma CreateIs(s: State, dtor: nat, mem: bool)
    ensures var (ok, k) := Probe(s.keyList, s.ctr, TSD_KEYS_MAX);
      Create(s, dtor, mem) == if !mem then s
        else if ok then s.(ctr := k, keys := s.keys[k := dtor], keyList := s.keyList[k := []]) else s.(ctr := k)
  {
    hide Probe;
  }

  lemma DataEntry(s: State, id: Id)
    requires Anchored(s) && id in s.data
    ensures Expect(s, id) == Some(s.data[id]) && id.pid in s.pidList
    ensures KeyOk(id.key) && id.pid <= PID_MAX_LIMIT && id.pid != DTOR_PID
  {}

  lemma MatchesDropPid(all: map<Id, Info>, s: State, p: nat)
    requires Matches(all, s) && p in s.pidList && p <= PID_MAX_LIMIT
    ensures Id(PID_KEY, p) in all && Matches(all - {Id(PID_KEY, p)}, s.(pidList := s.pidList - {p}))
  {
    MatchesAt(all, s, Id(PID_KEY, p));
  }

  lemma MatchesDropKey(all: map<Id, Info>, s: State, k: nat)
    requires Matches(all, s) && k in s.keys
    ensures Id(k, DTOR_PID) in all
    ensures Matches(all - {Id(k, DTOR_PID)}, s.(keys := s.keys - {k}, keyList := s.keyList - {k}))
  {
    MatchesAt(all, s, Id(k, DTOR_PID));
  }

  lemma MatchesCalls(all: map<Id, Info>, s: State, c: seq<Info>)
    requires Matches(all, s)
    ensures Matches(all, s.(calls := c))
  {
    assert forall id :: Expect(s.(calls := c), id) == Expect(s, id);
  }

  lemma MatchesWrite(all: map<Id, Info>, s: State, id: Id, v: nat)
    requires Matches(all, s) && id in s.data && KeyOk(id.key) && id.pid <= PID_MAX_LIMIT
    ensures id in all && Matches(all[id := s.data[id].(val := v)], Written(s, id, v))
  {
    MatchesAt(all, s, id);
  }

  /** A thread entry on the work list has no destructor. */
  lemma WorkOne(work: seq<Entry>, id: Id, i: Info)
    requires id.pid != DTOR_PID
    requires work == [Entry(id, i)] || work == [Entry(Id(PID_KEY, id.pid), Info(0, 0, 0)), Entry(id, i)]
    ensures RunWork(work) == Ran(i)
  {
    assert [Entry(id, i)][1..] == [];
    assert RunWork([Entry(id, i)]) == Ran(i);
    if |work| == 2 { assert work[1..] == [Entry(id, i)]; }
  }

  /** The entry after that of `k` on the circular list of a thread: the next older one, or the anchor. */
  function Neighbour(l: seq<nat>, k: nat, p: nat): Id {
    if |l| < 2 then Id(PID_KEY, p) else if l[0] == k then Id(l[1], p) else Neighbour(l[1..], k, p)
  }

  lemma {:induction false} NeighbourIs(l: seq<nat>, k: nat, p: nat)
    requires forall x :: x in l ==> KeyOk(x)
    ensures Neighbour(l, k, p).pid == p && (Neighbour(l, k, p).key == PID_KEY || KeyOk(Neighbour(l, k, p).key))
  {
    if |l| >= 2 {
      assert l[1] in l;
      NeighbourIs(l[1..], k, p);
    }
  }

  /** If the thread's list empties, the neighbour of the entry taken out was the anchor. */
  lemma AnchorFound(s: State, id: Id)
    requires Listed(s) && Anchored(s) && id in s.data
    ensures var next := Neighbour(s.pidList[id.pid], id.key, id.pid);
      && next.pid == id.pid
      && (Delete(s.pidList[id.pid], id.key) == [] ==> next.key == PID_KEY)
  {
    var l := s.pidList[id.pid];
    forall x | x in l ensures KeyOk(x) { assert Id(x, id.pid) in s.data; }
    NeighbourIs(l, id.key, id.pid);
    if Delete(l, id.key) == [] { DeleteFacts(l, id.key); }
  }

  lemma AddFields(s: State, id: Id, v: nat)
    requires id.key in s.keyList && id.key in s.keys && id.pid in s.pidList
    ensures var t := Add(s, id, v);
      && t.keyList == s.keyList[id.key := [id.pid] + s.keyList[id.key]]
      && t.pidList == s.pidList[id.pid := [id.key] + s.pidList[id.pid]]
      && t.ctr == s.ctr && |t.born| == |s.born| + 1 && t.calls == s.calls
  {}

  lemma WriteFields(s: State, id: Id, v: nat)
    requires id in s.data
    ensures var t := Written(s, id, v);
      t.keyList == s.keyList && t.pidList == s.pidList && t.ctr == s.ctr && t.born == s.born && t.calls == s.calls
  {}

  lemma RemoveFields(s: State, id: Id)
    requires id in s.data && id.pid in s.pidList
    ensures var t := Del(s, id);
      && id.pid in t.pidList && t.pidList[id.pid] == Delete(s.pidList[id.pid], id.key) && t.calls == s.calls
      && TsdState.RemoveEntry(s, id) == (if t.pidList[id.pid] == [] then t.(pidList := t.pidList - {id.pid}) else t).(calls := s.calls + Ran(s.data[id]))
  {
    hide Delete, Ran;
  }

  lemma DelFields(s: State, id: Id)
    ensures Del(s, id).calls == s.calls && Del(s, id).keys == s.keys
  {}

  lemma KeyWorkMove(s: State, k: nat, work: seq<Entry>)
    requires Listed(s) && Anchored(s) && k in s.keyList && s.keyList[k] != []
    ensures var id := Id(k, s.keyList[k][0]); var s' := Del(s, id);
      && id in s.data && Expect(s, id) == Some(s.data[id])
      && k in s'.keyList && s'.keyList[k] == s.keyList[k][1..] && DrainKey(s, k) == DrainKey(s', k)
      && RanAll(s.data, KeyIds(s, k)) + RunWork(work) ==
         RanAll(s'.data, KeyIds(s', k)) + RunWork([Entry(id, s.data[id])] + work)
  {
    hide *;
    var id := Id(k, s.keyList[k][0]);
    KeyWorkStep(s, k);
    DataEntry(s, id);
    DrainKeyUnfold(s, k);
    WorkMore(id, s.data[id], work);
    var r := RanAll(Del(s, id).data, KeyIds(Del(s, id), k));
    assert r + (Ran(s.data[id]) + RunWork(work)) == (r + Ran(s.data[id])) + RunWork(work);
  }

  lemma DelLists(s: State, id: Id)
    requires Anchored(s) && id in s.data
    ensures var t := Del(s, id);
      && id.key in s.keyList && t.keyList == s.keyList[id.key := Delete(s.keyList[id.key], id.pid)]
      && id.pid in s.pidList && t.pidList == s.pidList[id.pid := Delete(s.pidList[id.pid], id.key)]
      && t.ctr == s.ctr && t.born == s.born && t.calls == s.calls
  {
    hide Delete;
  }

  lemma DrainKeyUnfold(s: State, k: nat)
    requires k in s.keyList && s.keyList[k] != []
    ensures DrainKey(s, k) == DrainKey(Del(s, Id(k, s.keyList[k][0])), k)
  {}

  lemma PidWorkMove(s: State, p: nat, work: seq<Entry>)
    requires Listed(s) && Anchored(s) && p in s.pidList && s.pidList[p] != []
    ensures var id := Id(s.pidList[p][0], p); var s' := Del(s, id);
      && id in s.data && Expect(s, id) == Some(s.data[id])
      && p in s'.pidList && s'.pidList[p] == s.pidList[p][1..] && DrainPid(s, p) == DrainPid(s', p)
      && RanAll(s.data, PidIds(s, p)) + RunWork(work) ==
         RanAll(s'.data, PidIds(s', p)) + RunWork([Entry(id, s.data[id])] + work)
  {
    hide *;
    var id := Id(s.pidList[p][0], p);
    PidWorkStep(s, p);
    DataEntry(s, id);
    DrainPidUnfold(s, p);
    WorkMore(id, s.data[id], work);
    var r := RanAll(Del(s, id).data, PidIds(Del(s, id), p));
    assert r + (Ran(s.data[id]) + RunWork(work)) == (r + Ran(s.data[id])) + RunWork(work);
  }

  lemma DrainPidUnfold(s: State, p: nat)
    requires p in s.pidList && s.pidList[p] != []
    ensures DrainPid(s, p) == DrainPid(Del(s, Id(s.pidList[p][0], p)), p)
  {}

  lemma WorkMore(id: Id, i: Info, work: seq<Entry>)
    requires id.pid != DTOR_PID
    ensures RunWork([Entry(id, i)] + work) == Ran(i) + RunWork(work)
  {
    assert ([Entry(id, i)] + work)[1..] == work;
  }

  /** Key and thread entries have no destructor of their own to run. */
  lemma AnchorSkipped(e: Entry, work: seq<Entry>)
    requires e.id.pid == DTOR_PID || e.info.dtor == 0
    ensures RunWork([e] + work) == RunWork(work)
  {
    assert ([e] + work)[1..] == work;
  }

  lemma DestroyIs(s: State, k: nat)
    requires k in s.keyList
    ensures var d := WithoutKey(s, k);
      Destroy(s, k) == d.(keys := s.keys - {k}, keyList := d.keyList - {k}, calls := s.calls + RanAll(s.data, KeyIds(s, k)))
      && d.keys == s.keys
  {
    assert s.keyList[k := []] - {k} == s.keyList - {k};
  }

  lemma ExitIs(s: State, p: nat)
    requires p in s.pidList
    ensures var d := WithoutPid(s, p);
      Exit(s, p) == d.(pidList := d.pidList - {p}, calls := s.calls + RanAll(s.data, PidIds(s, p)))
  {
    assert s.pidList[p := []] - {p} == s.pidList - {p};
  }

  lemma KeyPresent(s: State, k: nat)
    requires Anchored(s)
    ensures Expect(s, Id(k, DTOR_PID)).Some? <==> k in s.keyList
  {
    assert k in s.keys.Keys <==> k in s.keyList.Keys;
  }

  lemma PidPresent(s: State, p: nat)
    requires p <= PID_MAX_LIMIT
    ensures Expect(s, Id(PID_KEY, p)).Some? <==> p in s.pidList
    ensures p in s.pidList ==> Expect(s, Id(PID_KEY, p)) == Some(Info(0, 0, 0))
  {}

  /** The entries taken out of the bins. */
  ghost predicate Taken(all0: map<Id, Info>, all: map<Id, Info>, work: seq<Entry>) {
    forall i :: 0 <= i < |work| ==> work[i].id in all0 && all0[work[i].id] == work[i].info && work[i].id !in all
  }

  /** What has been taken out, and what is still there. */
  ghost predicate Collected(all0: map<Id, Info>, all: map<Id, Info>, work: seq<Entry>) {
    && NoDup(Ids(work)) && Taken(all0, all, work)
    && (forall id :: id in all ==> id in all0 && all0[id] == all[id])
    && (forall id :: id in all0 ==> id in all || id in Ids(work))
  }

  lemma NoneCollected(all: map<Id, Info>)
    ensures Collected(all, all, [])
  {}

  lemma TakenMore(all0: map<Id, Info>, all: map<Id, Info>, work: seq<Entry>, e: Entry)
    requires Taken(all0, all, work) && e.id in all && e.id in all0 && all0[e.id] == e.info
    ensures Taken(all0, all - {e.id}, [e] + work) && e.id !in Ids(work)
  {
    var w := [e] + work;
    forall i | 0 <= i < |w| ensures w[i].id in all0 && all0[w[i].id] == w[i].info && w[i].id !in all - {e.id} {
      if i > 0 { assert w[i] == work[i-1]; }
    }
  }

  lemma CollectMore(all0: map<Id, Info>, all: map<Id, Info>, work: seq<Entry>, e: Entry)
    requires Collected(all0, all, work) && e.id in all && all[e.id] == e.info
    ensures Collected(all0, all - {e.id}, [e] + work)
  {
    hide Taken, Ids, NoDup;
    TakenMore(all0, all, work, e);
    IdsMore(e, work);
    PrependFacts(Ids(work), e.id);
  }

  lemma IdsMore(e: Entry, work: seq<Entry>)
    ensures Ids([e] + work) == [e.id] + Ids(work)
  {}

  lemma CollectedAll(all0: map<Id, Info>, work: seq<Entry>, s: State)
    requires Collected(all0, map[], work) && Matches(all0, s)
    ensures NoDup(Ids(work)) && forall i :: 0 <= i < |work| ==> Expect(s, work[i].id) == Some(work[i].info)
    ensures forall id :: Expect(s, id).Some? ==> id in Ids(work)
  {
    hide Expect;
    forall id ensures Expect(s, id).Some? ==> id in Ids(work) { MatchesAt(all0, s, id); }
    forall i | 0 <= i < |work| ensures Expect(s, work[i].id) == Some(work[i].info) { MatchesAt(all0, s, work[i].id); }
  }

  lemma FirstEntry(hash: nat -> nat, bins: seq<seq<Entry>>, all: map<Id, Info>, i: nat)
    requires BinsOk(hash, bins, all) && i < |bins| && bins[i] != []
    ensures var e := bins[i][0];
      && e.id in all && all[e.id] == e.info && Bin(hash, |bins|, e.id) == i
      && Seek(bins[i], e.id) == 0 && RemoveAt(bins[i], 0) == bins[i][1..]
  {
    assert BinOk(hash, |bins|, i, bins[i], all);
  }

  lemma AllOut(hash: nat -> nat, bins: seq<seq<Entry>>, all: map<Id, Info>)
    requires BinsOk(hash, bins, all) && forall i :: 0 <= i < |bins| ==> bins[i] == []
    ensures all == map[]
  {
    forall id ensures id !in all {
      var i := Bin(hash, |bins|, id);
      assert BinOk(hash, |bins|, i, bins[i], all);
    }
  }

  class Tsd {
    const hash: nat -> nat
    var bins: seq<seq<Entry>>
    var keyList: map<nat, seq<nat>>
    var pidList: map<nat, seq<nat>>
    var ctr: nat
    var serial: nat
    var calls: seq<Info>
    ghost var all: map<Id, Info>
    ghost var s: State

    /** The table is the state: its bins, lists and counters say what the state says. */
    ghost predicate Tied()
      reads this
    {
      && BinsOk(hash, bins, all) && Matches(all, s)
      && s.keyList == keyList && s.pidList == pidList && s.ctr == ctr && |s.born| == serial && s.calls == calls
    }

    ghost predicate Valid()
      reads this
    {
      Tied() && Inv(s)
    }

    lemma ValidFacts()
      requires Valid()
      ensures Tied() && Inv(s) && Listed(s) && Anchored(s)
    {}

    lemma TiedFacts()
      requires Tied()
      ensures BinsOk(hash, bins, all) && Matches(all, s)
      ensures s.keyList == keyList && s.pidList == pidList && s.ctr == ctr && |s.born| == serial && s.calls == calls
    {}

    lemma ValidMade()
      requires Tied() && Inv(s)
      ensures Valid()
    {}

    lemma TiedMade()
      requires BinsOk(hash, bins, all) && Matches(all, s)
      requires s.keyList == keyList && s.pidList == pidList && s.ctr == ctr && |s.born| == serial && s.calls == calls
      ensures Tied()
    {}

    /** `tsd_hash_table_init` */
    constructor (hash: nat -> nat, n: nat)
      requires n > 0
      ensures Valid() && s == Fresh()
    {
      this.hash := hash;
      bins, keyList, pidList, ctr, serial, calls := seq(n, i => []), map[], map[], 1, 0, [];
      all, s := map[], Fresh();
      new;
      FreshInv();
    }

    /** `tsd_hash_search` */
    method Search(id: Id) returns (r: Option<Info>)
      requires Tied()
      ensures r == Expect(s, id)
    {
      var bin := bins[Bin(hash, |bins|, id)];
      var j := 0;
      while j < |bin| && bin[j].id != id
        invariant j <= |bin| && forall i :: 0 <= i < j ==> bin[i].id != id
      {
        j := j + 1;
      }
      SeekIs(bin, id, j);
      Searched(hash, bins, all, id);
      MatchesAt(all, s, id);
      hide BinsOk, Matches, Expect;
      r := if j < |bin| then Some(bin[j].info) else None;
    }

    /** `hlist_add_head` */
    method BinInsert(e: Entry)
      requires BinsOk(hash, bins, all) && e.id !in all
      modifies `bins, `all
      ensures BinsOk(hash, bins, all) && all == old(all)[e.id := e.info]
    {
      forall i | 0 <= i < |bins| { BinGrows(hash, |bins|, i, bins[i], all, e); }
      hide BinOk, Bin;
      var i := Bin(hash, |bins|, e.id);
      bins, all := bins[i := [e] + bins[i]], all[e.id := e.info];
    }

    /** `hlist_del` */
    method BinRemove(id: Id)
      requires BinsOk(hash, bins, all) && id in all
      modifies `bins, `all
      ensures BinsOk(hash, bins, all) && all == old(all) - {id}
      ensures var i := Bin(hash, |old(bins)|, id);
        && Seek(old(bins)[i], id) < |old(bins)[i]|
        && bins == old(bins)[i := RemoveAt(old(bins)[i], Seek(old(bins)[i], id))]
    {
      forall i | 0 <= i < |bins| { BinShrinks(hash, |bins|, i, bins[i], all, id); }
      hide BinOk, Bin, Seek;
      var i := Bin(hash, |bins|, id);
      bins, all := bins[i := RemoveAt(bins[i], Seek(bins[i], id))], all - {id};
    }

    /** Writing through an entry found. */
    method BinUpdate(e: Entry)
      requires BinsOk(hash, bins, all) && e.id in all
      modifies `bins, `all
      ensures BinsOk(hash, bins, all) && all == old(all)[e.id := e.info]
    {
      forall i | 0 <= i < |bins| { BinWrites(hash, |bins|, i, bins[i], all, e); }
      hide BinOk, Bin, Seek;
      var i := Bin(hash, |bins|, e.id);
      bins, all := bins[i := bins[i][Seek(bins[i], e.id) := e]], all[e.id := e.info];
    }

    /** `tsd_hash_del` of a thread-specific entry: out of its bin and both its lists. */
    method HashDel(id: Id)
      requires Tied() && Listed(s) && Anchored(s) && id in s.data
      modifies `bins, `all, `keyList, `pidList, `s
      ensures Tied() && Listed(s) && Anchored(s) && s == Del(old(s), id)
    {
      hide *;
      TiedFacts();
      DelKeeps(s, id);
      DataEntry(s, id);
      DelLists(s, id);
      MatchesDel(all, s, id);
      BinRemove(id);
      var l := Unlink(keyList[id.key], id.pid);
      keyList := keyList[id.key := l];
      l := Unlink(pidList[id.pid], id.key);
      pidList := pidList[id.pid := l];
      s := Del(s, id);
      TiedMade();
    }

    /** `tsd_hash_add_key`: the search loop, then the key entry. */
    method AddKey(dtor: nat, mem: bool) returns (ok: bool, k: nat)
      requires Valid()
      modifies `bins, `all, `keyList, `ctr, `s
      ensures Valid() && s == Create(old(s), dtor, mem)
      ensures ok <==> mem && Probe(old(s.keyList), old(s.ctr), TSD_KEYS_MAX).0
      ensures ok ==> k == s.ctr
    {
      hide *;
      ValidFacts();
      CreateInv(s, dtor, mem);
      CreateIs(s, dtor, mem);
      if !mem { return false, 0; }
      ok := FindKey();
      TiedFacts();
      k := ctr;
      if ok {
        KeyIsNew(s, k);
        MatchesKey(all, s, k, dtor);
        BinInsert(Entry(Id(k, DTOR_PID), Info(dtor, 0, 0)));
        keyList := keyList[k := []];
        s := s.(keys := s.keys[k := dtor], keyList := s.keyList[k := []]);
        TiedMade();
      }
      ValidMade();
    }

    /** The loop of `tsd_hash_add_key`. */
    method FindKey() returns (ok: bool)
      requires Valid()
      modifies `ctr, `s
      ensures Tied() && s == old(s).(ctr := s.ctr) && (ok, s.ctr) == Probe(old(s.keyList), old(s.ctr), TSD_KEYS_MAX)
      ensures ok ==> Expect(s, Id(s.ctr, DTOR_PID)) == None
    {
      hide *;
      ValidFacts();
      TiedFacts();
      var checked, busy := 0, true;
      while busy
        invariant Tied() && s == old(s).(ctr := ctr) && s.keyList == keyList && checked <= TSD_KEYS_MAX
        invariant if busy then Probe(keyList, ctr, TSD_KEYS_MAX - checked) == Probe(keyList, old(ctr), TSD_KEYS_MAX)
                  else (true, ctr) == Probe(keyList, old(ctr), TSD_KEYS_MAX) && Expect(s, Id(s.ctr, DTOR_PID)) == None
        decreases TSD_KEYS_MAX - checked, busy
      {
        ProbeSteps(keyList, ctr, TSD_KEYS_MAX - checked);
        StepCounter();
        if checked >= TSD_KEYS_MAX { return false; }
        checked := checked + 1;
        var tmp := Search(Id(ctr, DTOR_PID));
        KeyExpected(old(s), ctr, ctr);
        busy := tmp.Some?;
      }
      ok := true;
    }

    /** The post-increment of the key counter and its test. */
    method StepCounter()
      requires Tied()
      modifies `ctr, `s
      ensures Tied() && s == old(s).(ctr := ctr) && ctr == NextKey(old(ctr))
    {
      hide Tied, Matches, BinsOk;
      TiedFacts();
      ghost var was := s;
      ctr := if ctr > TSD_KEYS_MAX then 1 else ctr + 1;
      s := s.(ctr := ctr);
      MatchesCtr(all, was, ctr);
      TiedMade();
    }

    /** `tsd_hash_add_pid` */
    method AddPid(p: nat)
      requires Valid() && p <= PID_MAX_LIMIT && p !in s.pidList
      modifies `bins, `all, `pidList, `s
      ensures Valid() && s == WithPid(old(s), p)
    {
      WithPidInv(s, p);
      MatchesPid(all, s, p);
      hide BinsOk, Matches, Inv;
      BinInsert(Entry(Id(PID_KEY, p), Info(0, 0, 0)));
      pidList := pidList[p := []];
      s := WithPid(s, p);
    }

    /** `tsd_hash_add` */
    method HashAdd(id: Id, v: nat)
      requires Valid() && KeyOk(id.key) && id.pid <= PID_MAX_LIMIT && id !in s.data
      requires id.key in s.keyList && id.pid in s.pidList
      modifies `bins, `all, `keyList, `pidList, `serial, `s
      ensures Valid() && id.key in old(s.keys) && s == Add(old(s), id, v)
    {
      hide *;
      ValidFacts();
      TiedFacts();
      KeyEntry(s, id.key);
      AddInv(s, id, v);
      MatchesAdd(all, s, id, v);
      AddFields(s, id, v);
      var anchor := Search(Id(id.key, DTOR_PID));
      BinInsert(Entry(id, Info(anchor.value.dtor, v, serial)));
      keyList := keyList[id.key := [id.pid] + keyList[id.key]];
      pidList := pidList[id.pid := [id.key] + pidList[id.pid]];
      serial := serial + 1;
      s := Add(s, id, v);
      TiedMade();
      ValidMade();
    }

    /** `tsd_hash_dtor` */
    method RunDtors(work: seq<Entry>)
      modifies `calls
      ensures calls == old(calls) + RunWork(work)
    {
      var rest := work;
      while rest != []
        invariant calls + RunWork(rest) == old(calls) + RunWork(work)
      {
        var e := rest[0];
        ghost var was := calls;
        if e.info.dtor != 0 && e.id.pid != DTOR_PID { calls := calls + [e.info]; }
        rest := rest[1..];
        assert calls + RunWork(rest) == was + ((if e.id.pid != DTOR_PID then Ran(e.info) else []) + RunWork(rest));
      }
    }

    /** `tsd_remove_entry` */
    method RemoveEntry(id: Id)
      requires Valid() && id in s.data
      modifies `bins, `all, `keyList, `pidList, `calls, `s
      ensures Valid() && s == TsdState.RemoveEntry(old(s), id)
    {
      hide *;
      ValidFacts();
      RemoveEntryInv(s, id);
      DataEntry(s, id);
      RemoveFields(s, id);
      AnchorFound(s, id);
      TiedFacts();
      var entry := Search(id);
      var next := Neighbour(pidList[id.pid], id.key, id.pid);
      HashDelValid(id);
      var work := [Entry(id, entry.value)];
      TiedFacts();
      if next.key == PID_KEY && pidList[next.pid] == [] {
        DropPidEntry(next.pid);
        work := [Entry(next, Info(0, 0, 0))] + work;
      }
      WorkOne(work, id, entry.value);
      FreeWork(work);
      ValidMade();
    }

    method HashDelValid(id: Id)
      requires Valid() && id in s.data
      modifies `bins, `all, `keyList, `pidList, `s
      ensures Tied() && s == Del(old(s), id)
    {
      HashDel(id);
    }

    /** The thread entry leaves its bin. */
    method DropPidEntry(p: nat)
      requires Tied() && p in s.pidList && p <= PID_MAX_LIMIT
      modifies `bins, `all, `pidList, `s
      ensures Tied() && s == old(s).(pidList := old(s).pidList - {p})
    {
      MatchesDropPid(all, s, p);
      hide BinsOk, Matches;
      BinRemove(Id(PID_KEY, p));
      pidList := pidList - {p};
      s := s.(pidList := s.pidList - {p});
    }

    /** The key entry leaves its bin. */
    method DropKeyEntry(k: nat)
      requires Tied() && k in s.keys
      modifies `bins, `all, `keyList, `s
      ensures Tied() && s == old(s).(keys := old(s).keys - {k}, keyList := old(s).keyList - {k})
    {
      MatchesDropKey(all, s, k);
      hide BinsOk, Matches;
      BinRemove(Id(k, DTOR_PID));
      keyList := keyList - {k};
      s := s.(keys := s.keys - {k}, keyList := s.keyList - {k});
    }

    /** Running the destructors of a work list leaves the table alone. */
    method FreeWork(work: seq<Entry>)
      requires Tied()
      modifies `calls, `s
      ensures Tied() && s == old(s).(calls := old(s).calls + RunWork(work))
    {
      RunDtors(work);
      MatchesCalls(all, s, calls);
      hide BinsOk, Matches;
      s := s.(calls := calls);
    }

    /** `tsd_set`, by thread `id.pid` */
    method SetValue(id: Id, v: nat, mem1: bool, mem2: bool) returns (r: Reply)
      requires Valid() && SetNeeds(s, id, v)
      modifies `bins, `all, `keyList, `pidList, `serial, `calls, `s
      ensures Valid() && (s, r) == Set(old(s), id, v, mem1, mem2)
    {
      SetInv(s, id, v, mem1, mem2);
      hide BinsOk, Matches, Inv, TsdState.RemoveEntry, Written, Add;
      if id.key == 0 || id.key > TSD_KEYS_MAX { return Invalid; }
      var entry := Search(id);
      if entry.Some? {
        WriteEntry(id, entry.value, v);
        if v == 0 { RemoveEntry(id); }
        return Ok;
      }
      if v == 0 { return Ok; }
      var anchor := Search(Id(PID_KEY, id.pid));
      if anchor == None {
        if !mem1 { return NoMem; }
        AddPid(id.pid);
      }
      if !mem2 { return NoMem; }
      HashAdd(id, v);
      return Ok;
    }

    /** `entry->he_value = value` */
    method WriteEntry(id: Id, i: Info, v: nat)
      requires Valid() && id in s.data && i == s.data[id]
      modifies `bins, `all, `s
      ensures Valid() && s == Written(old(s), id, v)
    {
      hide *;
      ValidFacts();
      TiedFacts();
      WriteInv(s, id, v);
      DataEntry(s, id);
      MatchesWrite(all, s, id, v);
      WriteFields(s, id, v);
      BinUpdate(Entry(id, i.(val := v)));
      s := Written(s, id, v);
      TiedMade();
      ValidMade();
    }

    /** `tsd_get`, by thread `id.pid` */
    method GetValue(id: Id) returns (v: nat)
      requires Valid() && id.pid <= PID_MAX_LIMIT
      ensures v == Get(s, id)
    {
      if id.key == 0 || id.key > TSD_KEYS_MAX { return 0; }
      var entry := Search(id);
      if entry == None { return 0; }
      return entry.value.val;
    }

    /** `tsd_destroy` in progress. */
    ghost predicate DrainingKey(s0: State, k: nat, work: seq<Entry>)
      reads this
    {
      && Tied() && Listed(s) && Anchored(s) && k in s0.keyList && k in s.keyList && s.calls == s0.calls && s.keys == s0.keys
      && DrainKey(s, k) == DrainKey(s0, k)
      && RanAll(s.data, KeyIds(s, k)) + RunWork(work) == RanAll(s0.data, KeyIds(s0, k))
    }

    /** One round of the loop of `tsd_destroy`. */
    method DrainKeyStep(ghost s0: State, k: nat, work: seq<Entry>) returns (work': seq<Entry>)
      requires DrainingKey(s0, k, work) && k in keyList && keyList[k] != []
      modifies `bins, `all, `keyList, `pidList, `s
      ensures DrainingKey(s0, k, work') && k in keyList && keyList[k] == old(keyList)[k][1..]
    {
      var id := Id(k, keyList[k][0]);
      hide *;
      DrainingKeyFacts(s0, k, work);
      TiedFacts();
      KeyWorkMove(s, k, work);
      DelFields(s, id);
      var e := Search(id);
      work' := [Entry(id, e.value)] + work;
      HashDel(id);
      TiedFacts();
      DrainingKeyMade(s0, k, work');
    }

    /** `tsd_destroy` */
    method DestroyKey(k: nat) returns (found: bool)
      requires Valid()
      modifies `bins, `all, `keyList, `pidList, `calls, `s
      ensures Valid() && s == TsdState.Destroy(old(s), k) && (found <==> k in old(s.keyList))
    {
      DestroyInv(s, k);
      var anchor := Search(Id(k, DTOR_PID));
      KeyPresent(s, k);
      if anchor == None { return false; }
      ghost var s0 := s;
      var work: seq<Entry> := [];
      hide *;
      ValidFacts();
      TiedFacts();
      DrainingKeyStarts(k);
      while keyList[k] != []
        invariant DrainingKey(s0, k, work) && k in keyList
        decreases |keyList[k]|
      {
        work := DrainKeyStep(s0, k, work);
      }
      DrainingKeyEnds(s0, k, work);
      DropKeyEntry(k);
      AnchorSkipped(Entry(Id(k, DTOR_PID), anchor.value), work);
      DestroyIs(s0, k);
      work := [Entry(Id(k, DTOR_PID), anchor.value)] + work;
      FreeWork(work);
      ValidMade();
      return true;
    }

    lemma DrainingKeyFacts(s0: State, k: nat, work: seq<Entry>)
      requires DrainingKey(s0, k, work)
      ensures Tied() && Listed(s) && Anchored(s) && k in s0.keyList && k in s.keyList && s.calls == s0.calls && s.keys == s0.keys
      ensures DrainKey(s, k) == DrainKey(s0, k)
      ensures RanAll(s.data, KeyIds(s, k)) + RunWork(work) == RanAll(s0.data, KeyIds(s0, k))
    {}

    lemma DrainingKeyMade(s0: State, k: nat, work: seq<Entry>)
      requires Tied() && Listed(s) && Anchored(s) && k in s0.keyList && k in s.keyList && s.calls == s0.calls && s.keys == s0.keys
      requires DrainKey(s, k) == DrainKey(s0, k)
      requires RanAll(s.data, KeyIds(s, k)) + RunWork(work) == RanAll(s0.data, KeyIds(s0, k))
      ensures DrainingKey(s0, k, work)
    {}

    lemma DrainingKeyStarts(k: nat)
      requires Tied() && Listed(s) && Anchored(s) && k in s.keyList
      ensures DrainingKey(s, k, [])
    {}

    lemma DrainingKeyEnds(s0: State, k: nat, work: seq<Entry>)
      requires DrainingKey(s0, k, work) && keyList[k] == [] && Listed(s0) && Anchored(s0)
      ensures Tied() && k in s.keyList && k in s0.keyList && s == WithoutKey(s0, k) && s.calls == s0.calls
      ensures RunWork(work) == RanAll(s0.data, KeyIds(s0, k))
    {
      DrainedKey(s0, k);
      assert RanAll(s.data, KeyIds(s, k)) == [];
    }

    /** `tsd_exit` in progress. */
    ghost predicate DrainingPid(s0: State, p: nat, work: seq<Entry>)
      reads this
    {
      && Tied() && Listed(s) && Anchored(s) && p in s0.pidList && p in s.pidList && s.calls == s0.calls && s.keys == s0.keys
      && DrainPid(s, p) == DrainPid(s0, p)
      && RanAll(s.data, PidIds(s, p)) + RunWork(work) == RanAll(s0.data, PidIds(s0, p))
    }

    /** One round of the loop of `tsd_exit`. */
    method DrainPidStep(ghost s0: State, p: nat, work: seq<Entry>) returns (work': seq<Entry>)
      requires DrainingPid(s0, p, work) && p in pidList && pidList[p] != []
      modifies `bins, `all, `keyList, `pidList, `s
      ensures DrainingPid(s0, p, work') && p in pidList && pidList[p] == old(pidList)[p][1..]
    {
      var id := Id(pidList[p][0], p);
      hide *;
      DrainingPidFacts(s0, p, work);
      TiedFacts();
      PidWorkMove(s, p, work);
      DelFields(s, id);
      var e := Search(id);
      work' := [Entry(id, e.value)] + work;
      HashDel(id);
      TiedFacts();
      DrainingPidMade(s0, p, work');
    }

    /** `tsd_exit` */
    method ExitThread(p: nat) returns (found: bool)
      requires Valid() && p <= PID_MAX_LIMIT
      modifies `bins, `all, `keyList, `pidList, `calls, `s
      ensures Valid() && s == TsdState.Exit(old(s), p) && (found <==> p in old(s.pidList))
    {
      ExitInv(s, p);
      var anchor := Search(Id(PID_KEY, p));
      PidPresent(s, p);
      if anchor == None { return false; }
      ghost var s0 := s;
      var work: seq<Entry> := [];
      hide *;
      ValidFacts();
      TiedFacts();
      DrainingPidStarts(p);
      while pidList[p] != []
        invariant DrainingPid(s0, p, work) && p in pidList
        decreases |pidList[p]|
      {
        work := DrainPidStep(s0, p, work);
      }
      DrainingPidEnds(s0, p, work);
      DropPidEntry(p);
      AnchorSkipped(Entry(Id(PID_KEY, p), anchor.value), work);
      ExitIs(s0, p);
      work := [Entry(Id(PID_KEY, p), anchor.value)] + work;
      FreeWork(work);
      ValidMade();
      return true;
    }

    lemma DrainingPidFacts(s0: State, p: nat, work: seq<Entry>)
      requires DrainingPid(s0, p, work)
      ensures Tied() && Listed(s) && Anchored(s) && p in s0.pidList && p in s.pidList && s.calls == s0.calls && s.keys == s0.keys
      ensures DrainPid(s, p) == DrainPid(s0, p)
      ensures RanAll(s.data, PidIds(s, p)) + RunWork(work) == RanAll(s0.data, PidIds(s0, p))
    {}

    lemma DrainingPidMade(s0: State, p: nat, work: seq<Entry>)
      requires Tied() && Listed(s) && Anchored(s) && p in s0.pidList && p in s.pidList && s.calls == s0.calls && s.keys == s0.keys
      requires DrainPid(s, p) == DrainPid(s0, p)
      requires RanAll(s.data, PidIds(s, p)) + RunWork(work) == RanAll(s0.data, PidIds(s0, p))
      ensures DrainingPid(s0, p, work)
    {}

    lemma DrainingPidStarts(p: nat)
      requires Tied() && Listed(s) && Anchored(s) && p in s.pidList
      ensures DrainingPid(s, p, [])
    {}

    lemma DrainingPidEnds(s0: State, p: nat, work: seq<Entry>)
      requires DrainingPid(s0, p, work) && pidList[p] == [] && Listed(s0) && Anchored(s0)
      ensures Tied() && p in s.pidList && p in s0.pidList && s == WithoutPid(s0, p) && s.calls == s0.calls
      ensures RunWork(work) == RanAll(s0.data, PidIds(s0, p))
    {
      DrainedPid(s0, p);
      assert RanAll(s.data, PidIds(s, p)) == [];
    }

    /** The inner loop of `tsd_hash_table_fini`. */
    method EmptyBin(i: nat, work0: seq<Entry>, ghost all0: map<Id, Info>) returns (work: seq<Entry>)
      requires i < |bins| && BinsOk(hash, bins, all) && Collected(all0, all, work0)
      modifies `bins, `all
      ensures |bins| == |old(bins)| && BinsOk(hash, bins, all) && Collected(all0, all, work)
      ensures bins == old(bins)[i := []]
    {
      hide *;
      work := work0;
      while bins[i] != []
        invariant |bins| == |old(bins)| && BinsOk(hash, bins, all) && Collected(all0, all, work)
        invariant bins == old(bins)[i := bins[i]]
        decreases |bins[i]|
      {
        var e := bins[i][0];
        FirstEntry(hash, bins, all, i);
        CollectMore(all0, all, work, e);
        BinRemove(e.id);
        work := [e] + work;
      }
    }

    /** `tsd_hash_table_fini`: empty every bin, then run the destructors that are left. */
    method Fini()
      requires Valid()
      modifies `bins, `all, `calls
      ensures forall i :: 0 <= i < |bins| ==> bins[i] == []
      ensures Once(map[], s.born, calls)
    {
      hide *;
      var work: seq<Entry> := [];
      ghost var all0 := all;
      ValidFacts();
      TiedFacts();
      NoneCollected(all);
      for i := 0 to |bins|
        invariant |bins| == |old(bins)| && BinsOk(hash, bins, all) && (forall q :: 0 <= q < i ==> bins[q] == [])
        invariant Collected(all0, all, work) && calls == old(calls)
      {
        work := EmptyBin(i, work, all0);
      }
      AllOut(hash, bins, all);
      CollectedAll(all0, work, s);
      TornDown(work, s);
      RunDtors(work);
    }
  }
}

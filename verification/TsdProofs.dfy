/** Every operation on thread-specific data keeps the three indexes and the destructor ledger consistent. */
module TsdProofs {
  import opened Seqs
  import opened TsdState

  // ---------------------------------------------------------------- the destructor ledger

  lemma LiveAdd(data: map<Id, Info>, id: Id, i: Info, sn: nat)
    requires id !in data
    ensures Live(data[id := i], sn) <==> Live(data, sn) || sn == i.sn
  {
    var d := data[id := i];
    if Live(data, sn) { var a :| a in data && data[a].sn == sn; assert a in d && d[a].sn == sn; }
    if sn == i.sn { assert id in d && d[id].sn == sn; }
  }

  lemma OnceAdd(data: map<Id, Info>, born: seq<nat>, calls: seq<Info>, id: Id, dtor: nat, v: nat)
    requires Once(data, born, calls) && id !in data
    ensures Once(data[id := Info(dtor, v, |born|)], born + [dtor], calls)
  {
    var d, b := data[id := Info(dtor, v, |born|)], born + [dtor];
    forall sn | 0 <= sn < |b| && b[sn] != 0 ensures Live(d, sn) || Called(calls, sn) {
      LiveAdd(data, id, Info(dtor, v, |born|), sn);
    }
  }

  lemma OnceWrite(data: map<Id, Info>, born: seq<nat>, calls: seq<Info>, id: Id, v: nat)
    requires Once(data, born, calls) && id in data
    ensures Once(data[id := data[id].(val := v)], born, calls)
  {
    var d := data[id := data[id].(val := v)];
    forall sn | Live(data, sn) ensures Live(d, sn) {
      var a :| a in data && data[a].sn == sn;
      assert a in d && d[a].sn == sn;
    }
  }

  lemma CalledAppend(calls: seq<Info>, more: seq<Info>, sn: nat)
    ensures Called(calls + more, sn) <==> Called(calls, sn) || Called(more, sn)
  {
    var t := calls + more;
    assert forall i :: 0 <= i < |calls| ==> t[i] == calls[i];
    assert forall i :: 0 <= i < |more| ==> t[|calls| + i] == more[i];
  }

  lemma OnceDrop(data: map<Id, Info>, born: seq<nat>, calls: seq<Info>, id: Id)
    requires Once(data, born, calls) && id in data
    ensures Once(data - {id}, born, calls + Ran(data[id]))
  {
    var d, c, x := data - {id}, calls + Ran(data[id]), data[id];
    assert forall i :: 0 <= i < |calls| ==> c[i] == calls[i];
    assert x.dtor != 0 ==> c[|calls|] == x;
    forall i | 0 <= i < |calls| ensures calls[i].sn != x.sn { assert !Called(calls, x.sn); }
    forall a | a in d ensures !Called(c, d[a].sn) { CalledAppend(calls, Ran(x), d[a].sn); }
    forall sn | 0 <= sn < |born| && born[sn] != 0 ensures Live(d, sn) || Called(c, sn) {
      CalledAppend(calls, Ran(x), sn);
      if Live(data, sn) {
        var a :| a in data && data[a].sn == sn;
        if a == id { assert Ran(x)[0].sn == sn; } else { assert a in d && d[a].sn == sn; }
      }
    }
  }

  function Minus(data: map<Id, Info>, ids: seq<Id>): map<Id, Info> {
    map id | id in data && id !in ids :: data[id]
  }

  lemma {:induction false} RanAllSame(data: map<Id, Info>, d: map<Id, Info>, ids: seq<Id>)
    requires forall id :: id in ids ==> id in data && id in d && d[id] == data[id]
    ensures RanAll(data, ids) == RanAll(d, ids)
  {
    if ids != [] { RanAllSame(data, d, ids[1..]); }
  }

  /** Removing any entries and running their destructors, in any order. */
  lemma {:induction false} OnceDropAll(data: map<Id, Info>, born: seq<nat>, calls: seq<Info>, ids: seq<Id>)
    requires Once(data, born, calls) && NoDup(ids) && forall id :: id in ids ==> id in data
    ensures Once(Minus(data, ids), born, calls + RanAll(data, ids))
    decreases |ids|
  {
    hide *;
    MinusStep(data, ids);
    if ids == [] {
      assert calls + [] == calls;
    } else {
      TailFacts(ids);
      OnceDrop(data, born, calls, ids[0]);
      var (d, c, rest) := (data - {ids[0]}, calls + Ran(data[ids[0]]), ids[1..]);
      OnceDropAll(d, born, c, rest);
      RanAllSame(data, d, rest);
      assert calls + (Ran(data[ids[0]]) + RanAll(data, rest)) == c + RanAll(data, rest);
    }
  }

  lemma MinusStep(data: map<Id, Info>, ids: seq<Id>)
    requires forall id :: id in ids ==> id in data
    ensures ids == [] ==> Minus(data, ids) == data && RanAll(data, ids) == []
    ensures ids != [] ==>
      && Minus(data - {ids[0]}, ids[1..]) == Minus(data, ids)
      && RanAll(data, ids) == Ran(data[ids[0]]) + RanAll(data, ids[1..])
  {
    if ids != [] { assert ids == [ids[0]] + ids[1..]; }
  }

  // ---------------------------------------------------------------- single entries

  lemma AddInv(s: State, id: Id, v: nat)
    requires Inv(s) && KeyOk(id.key) && id.key in s.keyList && id.pid in s.pidList && id !in s.data
    ensures Inv(Add(s, id, v))
  {
    OnceAdd(s.data, s.born, s.calls, id, s.keys[id.key], v);
    PrependFacts(s.keyList[id.key], id.pid);
    PrependFacts(s.pidList[id.pid], id.key);
    hide Once;
  }

  lemma WithPidInv(s: State, p: nat)
    requires Inv(s) && p <= PID_MAX_LIMIT
    ensures Inv(WithPid(s, p))
  {
    hide Once;
  }

  lemma WriteInv(s: State, id: Id, v: nat)
    requires Inv(s) && id in s.data
    ensures Inv(Written(s, id, v))
  {
    OnceWrite(s.data, s.born, s.calls, id, v);
    hide Once, NoDup;
    assert Written(s, id, v).data.Keys == s.data.Keys;
    ListedSame(s, Written(s, id, v));
    hide Listed;
  }

  lemma ListedSame(s: State, s': State)
    requires Listed(s) && s'.data.Keys == s.data.Keys && s'.keyList == s.keyList && s'.pidList == s.pidList
    ensures Listed(s')
  {
    assert forall id :: id in s'.data <==> id in s'.data.Keys;
    assert forall id :: id in s.data <==> id in s.data.Keys;
  }

  lemma RemoveListed(s: State, id: Id)
    requires Listed(s) && id in s.data && id.key in s.keyList && id.pid in s.pidList
    ensures Listed(RemoveEntry(s, id))
  {
    DeleteFacts(s.keyList[id.key], id.pid);
    DeleteFacts(s.pidList[id.pid], id.key);
    hide Delete, NoDup, Ran;
  }

  lemma RemoveAnchored(s: State, id: Id)
    requires Listed(s) && Anchored(s) && id in s.data
    ensures Anchored(RemoveEntry(s, id))
  {
    var (s', l) := (RemoveEntry(s, id), s.pidList[id.pid]);
    DeleteFacts(l, id.key);
    assert s'.keyList.Keys == s.keyList.Keys;
    forall a | a in s'.data ensures a.pid in s'.pidList {
      if a.pid == id.pid { assert a == Id(a.key, id.pid); assert a.key in Delete(l, id.key); }
    }
    hide Delete, Listed, Ran;
  }

  lemma RemoveEntryInv(s: State, id: Id)
    requires Inv(s) && id in s.data
    ensures Inv(RemoveEntry(s, id))
  {
    OnceDrop(s.data, s.born, s.calls, id);
    RemoveListed(s, id);
    RemoveAnchored(s, id);
    hide Once, Listed, Anchored, DropFrom, Ran;
  }

  lemma SetInv(s: State, id: Id, v: nat, mem1: bool, mem2: bool)
    requires Inv(s) && SetNeeds(s, id, v)
    ensures Inv(Set(s, id, v, mem1, mem2).0)
  {
    hide Inv, RemoveEntry, Written, Add;
    if id in s.data {
      WriteInv(s, id, v);
      WrittenHas(s, id, v);
      if v == 0 { RemoveEntryInv(Written(s, id, v), id); }
    } else {
      WithPidInv(s, id.pid);
      if KeyOk(id.key) && v != 0 { AddInv(WithPid(s, id.pid), id, v); }
    }
  }

  lemma WrittenHas(s: State, id: Id, v: nat)
    requires id in s.data
    ensures id in Written(s, id, v).data
  {}

  // ---------------------------------------------------------------- whole keys and threads

  lemma IdsOfKey(s: State, k: nat)
    requires Listed(s) && k in s.keyList
    ensures NoDup(KeyIds(s, k))
    ensures forall id :: id in KeyIds(s, k) <==> id in s.data && id.key == k
  {
    var ids, l := KeyIds(s, k), s.keyList[k];
    forall id ensures id in ids <==> id in s.data && id.key == k {
      if id in s.data && id.key == k {
        var i :| 0 <= i < |l| && l[i] == id.pid;
        assert ids[|l| - 1 - i] == id;
      }
      if id in ids {
        var i :| 0 <= i < |ids| && ids[i] == id;
        assert id.pid in l;
      }
    }
  }

  /** Deleting one element from every list. */
  lemma DropEverywhere(lists: map<nat, seq<nat>>, x: nat, at: nat)
    requires at in lists && NoDup(lists[at])
    ensures var l := (map q | q in lists :: Delete(lists[q], x))[at];
      NoDup(l) && forall y :: y in l <==> y in lists[at] && y != x
  {
    DeleteFacts(lists[at], x);
  }

  lemma DestroyListed(s: State, k: nat)
    requires Listed(s) && k in s.keyList
    ensures Listed(Destroy(s, k))
  {
    var s' := Destroy(s, k);
    forall p | p in s.pidList ensures NoDup(s'.pidList[p]) && forall x :: x in s'.pidList[p] <==> x in s.pidList[p] && x != k {
      DropEverywhere(s.pidList, k, p);
    }
    hide Delete, NoDup;
  }

  lemma DestroyParts(s: State, k: nat)
    requires Listed(s) && k in s.keyList
    ensures Destroy(s, k).data == Minus(s.data, KeyIds(s, k))
    ensures Destroy(s, k).born == s.born && Destroy(s, k).calls == s.calls + RanAll(s.data, KeyIds(s, k))
  {
    IdsOfKey(s, k);
    hide Listed, RanAll, KeyIds, Delete;
  }

  lemma DestroyAnchored(s: State, k: nat)
    requires Listed(s) && Anchored(s) && k in s.keyList
    ensures Anchored(Destroy(s, k))
  {
    hide Listed, RanAll, KeyIds, Delete;
  }

  lemma DestroyInv(s: State, k: nat)
    requires Inv(s)
    ensures Inv(Destroy(s, k))
  {
    if k in s.keyList {
      IdsOfKey(s, k);
      DestroyParts(s, k);
      DestroyListed(s, k);
      DestroyAnchored(s, k);
      hide Once, Listed, Anchored, Destroy, KeyIds;
      OnceDropAll(s.data, s.born, s.calls, KeyIds(s, k));
    }
  }

  lemma IdsOfPid(s: State, p: nat)
    requires Listed(s) && p in s.pidList
    ensures NoDup(PidIds(s, p))
    ensures forall id :: id in PidIds(s, p) <==> id in s.data && id.pid == p
  {
    var ids, l := PidIds(s, p), s.pidList[p];
    forall id ensures id in ids <==> id in s.data && id.pid == p {
      if id in s.data && id.pid == p {
        var i :| 0 <= i < |l| && l[i] == id.key;
        assert ids[|l| - 1 - i] == id;
      }
      if id in ids {
        var i :| 0 <= i < |ids| && ids[i] == id;
        assert id.key in l;
      }
    }
  }

  lemma ExitListed(s: State, p: nat)
    requires Listed(s) && p in s.pidList
    ensures Listed(Exit(s, p))
  {
    var s' := Exit(s, p);
    forall k | k in s.keyList ensures NoDup(s'.keyList[k]) && forall x :: x in s'.keyList[k] <==> x in s.keyList[k] && x != p {
      DropEverywhere(s.keyList, p, k);
    }
    hide Delete, NoDup;
  }

  lemma ExitParts(s: State, p: nat)
    requires Listed(s) && p in s.pidList
    ensures Exit(s, p).data == Minus(s.data, PidIds(s, p))
    ensures Exit(s, p).born == s.born && Exit(s, p).calls == s.calls + RanAll(s.data, PidIds(s, p))
  {
    IdsOfPid(s, p);
    hide Listed, RanAll, PidIds, Delete;
  }

  lemma ExitAnchored(s: State, p: nat)
    requires Listed(s) && Anchored(s) && p in s.pidList
    ensures Anchored(Exit(s, p))
  {
    hide Listed, RanAll, PidIds, Delete;
    assert Exit(s, p).keyList.Keys == s.keyList.Keys;
  }

  lemma ExitInv(s: State, p: nat)
    requires Inv(s)
    ensures Inv(Exit(s, p))
  {
    if p in s.pidList {
      IdsOfPid(s, p);
      ExitParts(s, p);
      ExitListed(s, p);
      ExitAnchored(s, p);
      hide Once, Listed, Anchored, Exit, PidIds;
      OnceDropAll(s.data, s.born, s.calls, PidIds(s, p));
    }
  }

}

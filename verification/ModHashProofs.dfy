/** The chained hash table is the finite map it stands for, in every run. */
module ModHashProofs {
  import Seqs
  import opened Options
  import opened ModHashState

  lemma ClassIndex(c: Config, n: nat, a: nat, b: nat)
    requires Respects(c) && n >= 1
    ensures c.cls(a) == c.cls(b) ==> Index(c, n, a) == Index(c, n, b)
  {}

  /** A class lives in one chain only. */
  lemma ElsewhereAbsent(c: Config, t: Table, m: map<nat, nat>, i: nat, k: nat)
    requires Respects(c) && Refines(c, t, m) && i < |t.chains|
    ensures HasClass(c, t.chains[i], c.cls(k)) ==> i == Index(c, |t.chains|, k)
  {
    if HasClass(c, t.chains[i], c.cls(k)) {
      var j :| 0 <= j < |t.chains[i]| && c.cls(t.chains[i][j].key) == c.cls(k);
      assert ChainOk(c, |t.chains|, i, t.chains[i], m);
      ClassIndex(c, |t.chains|, t.chains[i][j].key, k);
    }
  }

  /** Lookup agrees with the map. */
  lemma FindMeans(c: Config, t: Table, m: map<nat, nat>, k: nat)
    requires Respects(c) && Refines(c, t, m)
    ensures Find(c, t, k) == if c.cls(k) in m then Some(m[c.cls(k)]) else None
  {
    var i := Index(c, |t.chains|, k);
    assert ChainOk(c, |t.chains|, i, t.chains[i], m);
    if c.cls(k) in m {
      var i' :| 0 <= i' < |t.chains| && HasClass(c, t.chains[i'], c.cls(k));
      ElsewhereAbsent(c, t, m, i', k);
    }
  }

  // ---------------------------------------------------------------- linking

  lemma ChainGrows(c: Config, n: nat, i: nat, chain: seq<Entry>, m: map<nat, nat>, k: nat, v: nat)
    requires n >= 1 && ChainOk(c, n, i, chain, m) && c.cls(k) !in m
    ensures ChainOk(c, n, i, chain, m[c.cls(k) := v])
    ensures i == Index(c, n, k) ==> ChainOk(c, n, i, [Entry(k, v)] + chain, m[c.cls(k) := v])
  {
    var s := [Entry(k, v)] + chain;
    assert forall j :: 0 < j < |s| ==> s[j] == chain[j-1];
  }

  lemma ClassStays(c: Config, e: Entry, chain: seq<Entry>, k: nat)
    ensures HasClass(c, [e] + chain, c.cls(e.key))
    ensures HasClass(c, chain, k) ==> HasClass(c, [e] + chain, k)
  {
    var s := [e] + chain;
    assert s[0] == e;
    if HasClass(c, chain, k) {
      var j :| 0 <= j < |chain| && c.cls(chain[j].key) == k;
      assert s[j+1] == chain[j];
    }
  }

  lemma LinkRefines(c: Config, t: Table, m: map<nat, nat>, k: nat, v: nat)
    requires Refines(c, t, m) && c.cls(k) !in m
    ensures Refines(c, Link(c, t, k, v, true), m[c.cls(k) := v])
  {
    var (t', m', x) := (Link(c, t, k, v, true), m[c.cls(k) := v], Index(c, |t.chains|, k));
    forall i | 0 <= i < |t.chains| ensures ChainOk(c, |t.chains|, i, t'.chains[i], m') {
      ChainGrows(c, |t.chains|, i, t.chains[i], m, k, v);
    }
    forall k' | k' in m' ensures exists i :: 0 <= i < |t'.chains| && HasClass(c, t'.chains[i], k') {
      ClassStays(c, Entry(k, v), t.chains[x], k');
      if k' == c.cls(k) {
        assert HasClass(c, t'.chains[x], k');
      } else {
        var i :| 0 <= i < |t.chains| && HasClass(c, t.chains[i], k');
        assert HasClass(c, t'.chains[i], k');
      }
    }
  }

  // ---------------------------------------------------------------- unlinking

  lemma ChainShrinks(c: Config, n: nat, i: nat, chain: seq<Entry>, m: map<nat, nat>, k: nat)
    requires n >= 1 && ChainOk(c, n, i, chain, m)
    ensures !HasClass(c, chain, k) ==> ChainOk(c, n, i, chain, m - {k})
    ensures forall j :: 0 <= j < |chain| && c.cls(chain[j].key) == k ==> ChainOk(c, n, i, Seqs.RemoveAt(chain, j), m - {k})
  {
    forall j | 0 <= j < |chain| && c.cls(chain[j].key) == k ensures ChainOk(c, n, i, Seqs.RemoveAt(chain, j), m - {k}) {
      var s := Seqs.RemoveAt(chain, j);
      assert forall a :: 0 <= a < |s| ==> s[a] == chain[if a < j then a else a + 1];
    }
  }

  lemma ClassLeft(c: Config, chain: seq<Entry>, j: nat, k: nat)
    requires j < |chain| && HasClass(c, chain, k) && k != c.cls(chain[j].key)
    ensures HasClass(c, Seqs.RemoveAt(chain, j), k)
  {
    var a :| 0 <= a < |chain| && c.cls(chain[a].key) == k;
    var s := Seqs.RemoveAt(chain, j);
    assert s[if a < j then a else a - 1] == chain[a];
  }

  lemma UnlinkAt(c: Config, t: Table, m: map<nat, nat>, k: nat, x: nat, j: nat)
    requires Respects(c) && Refines(c, t, m) && x == Index(c, |t.chains|, k)
    requires j < |t.chains[x]| && c.cls(t.chains[x][j].key) == c.cls(k) && c.cls(k) in m
    ensures Stands(c, t.chains[x := Seqs.RemoveAt(t.chains[x], j)], t.stat.nelems - 1, m - {c.cls(k)})
  {
    var (t', m') := (t.chains[x := Seqs.RemoveAt(t.chains[x], j)], m - {c.cls(k)});
    hide Respects, ChainOk, HasClass, Seqs.RemoveAt;
    forall i | 0 <= i < |t.chains| ensures ChainOk(c, |t.chains|, i, t'[i], m') {
      ElsewhereAbsent(c, t, m, i, k);
      ChainShrinks(c, |t.chains|, i, t.chains[i], m, c.cls(k));
    }
    forall k' | k' in m' ensures exists i :: 0 <= i < |t'| && HasClass(c, t'[i], k') {
      var i :| 0 <= i < |t.chains| && HasClass(c, t.chains[i], k');
      if i == x { ClassLeft(c, t.chains[x], j, k'); }
      assert HasClass(c, t'[i], k');
    }
  }

  lemma UnlinkRefines(c: Config, t: Table, m: map<nat, nat>, k: nat)
    requires Respects(c) && Refines(c, t, m) && c.cls(k) in m
    ensures Refines(c, Unlinked(c, t, k), m - {c.cls(k)})
  {
    FindMeans(c, t, m, k);
    var x := Index(c, |t.chains|, k);
    UnlinkAt(c, t, m, k, x, Seek(c, t.chains[x], k));
    hide Respects, Stands;
  }

  // ---------------------------------------------------------------- refinement

  /** One operation on the table does what it does on the map: same contents, same reply. */
  ghost predicate Agrees(c: Config, t: Table, m: map<nat, nat>, op: Op)
    requires WellFormed(t)
  {
    var (t', reply) := Apply(c, t, op);
    var (m', answer) := MapApply(c, m, op);
    Refines(c, t', m') && reply == answer
  }

  lemma InsertRefines(c: Config, t: Table, m: map<nat, nat>, k: nat, v: nat, mem: bool)
    requires Respects(c) && Refines(c, t, m)
    ensures Agrees(c, t, m, Insert(k, v, mem))
  {
    FindMeans(c, t, m, k);
    hide Stands, Find, Respects, Link, Unlinked, Killed, Cleared;
    if mem && c.cls(k) !in m { LinkRefines(c, Counted(t, false), m, k, v); }
    LinkFails(c, Counted(t, false), m, k, v);
  }

  lemma RemoveRefines(c: Config, t: Table, m: map<nat, nat>, k: nat)
    requires Respects(c) && Refines(c, t, m)
    ensures Agrees(c, t, m, Remove(k))
  {
    FindMeans(c, t, m, k);
    hide Stands, Find, Respects, Link, Unlinked, Killed, Cleared;
    if c.cls(k) in m { UnlinkRefines(c, t, m, k); } else { UnlinkMisses(c, t, k); }
  }

  lemma ReplaceRefines(c: Config, t: Table, m: map<nat, nat>, k: nat, v: nat, mem: bool)
    requires Respects(c) && Refines(c, t, m)
    ensures Agrees(c, t, m, Replace(k, v, mem))
  {
    hide *;
    KillRefines(c, t, m, k);
    MapDrop(m, c.cls(k), v);
    var (t1, m1) := (Killed(c, t, k), m - {c.cls(k)});
    if mem { LinkRefines(c, t1, m1, k, v); } else { LinkFails(c, t1, m1, k, v); }
    ReplaceAs(c, t, m, k, v, mem);
  }

  lemma ReplaceAs(c: Config, t: Table, m: map<nat, nat>, k: nat, v: nat, mem: bool)
    requires WellFormed(t) && WellFormed(Killed(c, t, k))
    requires Refines(c, Link(c, Killed(c, t, k), k, v, mem), if mem then m[c.cls(k) := v] else m - {c.cls(k)})
    ensures Agrees(c, t, m, Replace(k, v, mem))
  {
    hide Stands, Find, Link, Killed;
  }

  lemma DestroyRefines(c: Config, t: Table, m: map<nat, nat>, k: nat)
    requires Respects(c) && Refines(c, t, m)
    ensures Agrees(c, t, m, Destroy(k))
  {
    FindMeans(c, t, m, k);
    hide Stands, Find, Respects, Link, Unlinked, Killed, Cleared;
    KillRefines(c, t, m, k);
    MapDrop(m, c.cls(k), 0);
  }

  /** Replies and contents of every operation, failed allocations included, are those of the map. */
  lemma StepRefines(c: Config, t: Table, m: map<nat, nat>, op: Op)
    requires Respects(c) && Refines(c, t, m)
    ensures Agrees(c, t, m, op)
  {
    match op {
      case Insert(k, v, mem) => InsertRefines(c, t, m, k, v, mem);
      case Remove(k) => RemoveRefines(c, t, m, k);
      case Replace(k, v, mem) => ReplaceRefines(c, t, m, k, v, mem);
      case Destroy(k) => DestroyRefines(c, t, m, k);
      case Lookup(k) => FindMeans(c, t, m, k); hide Find, Stands;
      case Clear => ClearRefines(c, t);
    }
  }

  lemma MapDrop(m: map<nat, nat>, k: nat, v: nat)
    ensures k !in m ==> m - {k} == m
    ensures (m - {k})[k := v] == m[k := v]
  {}

  lemma LinkFails(c: Config, t: Table, m: map<nat, nat>, k: nat, v: nat)
    requires WellFormed(t) && Refines(c, t, m)
    ensures Refines(c, Link(c, t, k, v, false), m)
  {}

  lemma UnlinkMisses(c: Config, t: Table, k: nat)
    requires WellFormed(t) && Find(c, t, k) == None
    ensures Unlinked(c, t, k) == t
  {}

  lemma ClearRefines(c: Config, t: Table)
    requires WellFormed(t)
    ensures Refines(c, Cleared(t), map[])
  {}

  lemma KillRefines(c: Config, t: Table, m: map<nat, nat>, k: nat)
    requires Respects(c) && Refines(c, t, m)
    ensures WellFormed(t) && WellFormed(Killed(c, t, k)) && Refines(c, Killed(c, t, k), m - {c.cls(k)})
  {
    FindMeans(c, t, m, k);
    hide Stands, Find, Respects;
    if c.cls(k) in m {
      UnlinkRefines(c, t, m, k);
    } else {
      MapDrop(m, c.cls(k), 0);
    }
  }
}

/** Whole runs of the chained hash table: the map, the ledger of keys and values, and the walk. */
module ModHashRuns {
  import opened Options
  import Seqs
  import opened ModHashState
  import opened ModHashProofs

  // ---------------------------------------------------------------- bags of keys and values

  /** The keys, or the values, of all entries. */
  function Bag(chains: seq<seq<Entry>>, p: Entry -> nat): multiset<nat> {
    if chains == [] then multiset{} else Bag(chains[..|chains|-1], p) + multiset(Proj(chains[|chains|-1], p))
  }

  lemma Exchange(a': multiset<nat>, x: multiset<nat>, a: multiset<nat>, y: multiset<nat>, z: multiset<nat>)
    requires a' + x == a + y
    ensures (a' + z) + x == (a + z) + y
    ensures y == z + x ==> a' == a + z
    ensures x == y + z ==> a == a' + z
  {
    assert forall q :: a'[q] + x[q] == (a' + x)[q] == (a + y)[q] == a[q] + y[q];
  }

  lemma {:induction false} BagUpdate(chains: seq<seq<Entry>>, i: nat, s: seq<Entry>, p: Entry -> nat)
    requires i < |chains|
    ensures Bag(chains[i := s], p) + multiset(Proj(chains[i], p)) == Bag(chains, p) + multiset(Proj(s, p))
  {
    var u, n := chains[i := s], |chains| - 1;
    if i == n {
      assert u[..n] == chains[..n];
    } else {
      assert u[..n] == chains[..n][i := s];
      BagUpdate(chains[..n], i, s, p);
      var (a', a) := (Bag(u[..n], p), Bag(chains[..n], p));
      Exchange(a', multiset(Proj(chains[i], p)), a, multiset(Proj(s, p)), multiset(Proj(chains[n], p)));
    }
  }

  lemma ProjConcat(a: seq<Entry>, b: seq<Entry>, p: Entry -> nat)
    ensures Proj(a + b, p) == Proj(a, p) + Proj(b, p)
  {}

  lemma ProjRemove(s: seq<Entry>, j: nat, p: Entry -> nat)
    requires j < |s|
    ensures multiset(Proj(s, p)) == multiset(Proj(Seqs.RemoveAt(s, j), p)) + multiset{p(s[j])}
  {
    assert s == s[..j] + ([s[j]] + s[j+1..]);
    ProjConcat(s[..j], [s[j]] + s[j+1..], p);
    ProjConcat([s[j]], s[j+1..], p);
    ProjConcat(s[..j], s[j+1..], p);
    assert Proj([s[j]], p) == [p(s[j])];
  }

  lemma {:induction false} BagFlat(chains: seq<seq<Entry>>, p: Entry -> nat)
    ensures multiset(Proj(Flat(chains), p)) == Bag(chains, p)
  {
    if chains != [] {
      var n := |chains| - 1;
      BagFlat(chains[..n], p);
      ProjConcat(Flat(chains[..n]), chains[n], p);
    }
  }

  lemma {:induction false} BagEmpty(chains: seq<seq<Entry>>, p: Entry -> nat)
    requires forall i :: 0 <= i < |chains| ==> chains[i] == []
    ensures Bag(chains, p) == multiset{}
  {
    if chains != [] { BagEmpty(chains[..|chains|-1], p); }
  }

  lemma LinkBag(c: Config, t: Table, k: nat, v: nat, p: Entry -> nat)
    requires WellFormed(t)
    ensures Bag(Link(c, t, k, v, true).chains, p) == Bag(t.chains, p) + multiset{p(Entry(k, v))}
  {
    var i, e := Index(c, |t.chains|, k), Entry(k, v);
    BagUpdate(t.chains, i, [e] + t.chains[i], p);
    ProjConcat([e], t.chains[i], p);
    assert Proj([e], p) == [p(e)];
    var (a', a, x) := (Bag(Link(c, t, k, v, true).chains, p), Bag(t.chains, p), multiset(Proj(t.chains[i], p)));
    Exchange(a', x, a, multiset{p(e)} + x, multiset{p(e)});
  }

  /** The entry a key leads to. */
  function Hit(c: Config, t: Table, k: nat): Entry
    requires WellFormed(t) && Find(c, t, k).Some?
  {
    Chain(c, t, k)[Seek(c, Chain(c, t, k), k)]
  }

  lemma UnlinkBag(c: Config, t: Table, k: nat, p: Entry -> nat)
    requires WellFormed(t) && Find(c, t, k).Some?
    ensures Bag(t.chains, p) == Bag(Unlinked(c, t, k).chains, p) + multiset{p(Hit(c, t, k))}
  {
    var i := Index(c, |t.chains|, k);
    var j := Seek(c, t.chains[i], k);
    BagUpdate(t.chains, i, Seqs.RemoveAt(t.chains[i], j), p);
    ProjRemove(t.chains[i], j, p);
    var (a', a) := (Bag(Unlinked(c, t, k).chains, p), Bag(t.chains, p));
    var (x, y) := (multiset(Proj(t.chains[i], p)), multiset(Proj(Seqs.RemoveAt(t.chains[i], j), p)));
    Exchange(a', x, a, y, multiset{p(t.chains[i][j])});
  }

  // ---------------------------------------------------------------- the ledger

  /** Keys and values taken in, and values handed back to callers of `mod_hash_remove`. */
  datatype Ledger = Ledger(keysIn: multiset<nat>, valsIn: multiset<nat>, valsOut: multiset<nat>)

  function Post(l: Ledger, op: Op, reply: Reply): Ledger {
    if (op.Insert? || op.Replace?) && reply == Done then
      l.(keysIn := l.keysIn + multiset{op.key}, valsIn := l.valsIn + multiset{op.val})
    else if op.Remove? && reply.Found? then
      l.(valsOut := l.valsOut + multiset{reply.val})
    else l
  }

  /** Every key is stored or destroyed; every value is stored, handed back or destroyed; each once. */
  ghost predicate Balanced(t: Table, l: Ledger) {
    && l.keysIn == Bag(t.chains, KeyOf) + multiset(t.kdead)
    && l.valsIn == Bag(t.chains, ValOf) + multiset(t.vdead) + l.valsOut
  }

  lemma LinkBalanced(c: Config, t: Table, l: Ledger, k: nat, v: nat, mem: bool)
    requires WellFormed(t) && Balanced(t, l)
    ensures var l' := if mem then l.(keysIn := l.keysIn + multiset{k}, valsIn := l.valsIn + multiset{v}) else l;
      WellFormed(Link(c, t, k, v, mem)) && Balanced(Link(c, t, k, v, mem), l')
  {
    LinkBag(c, t, k, v, KeyOf);
    LinkBag(c, t, k, v, ValOf);
    hide Bag;
  }

  lemma UnlinkLogs(c: Config, t: Table, k: nat)
    requires WellFormed(t) && Find(c, t, k).Some?
    ensures WellFormed(Unlinked(c, t, k)) && Find(c, t, k).value == ValOf(Hit(c, t, k))
    ensures Unlinked(c, t, k).kdead == t.kdead + [KeyOf(Hit(c, t, k))] && Unlinked(c, t, k).vdead == t.vdead
  {}

  lemma UnlinkBalanced(c: Config, t: Table, l: Ledger, k: nat)
    requires WellFormed(t) && Balanced(t, l) && Find(c, t, k).Some?
    ensures WellFormed(Unlinked(c, t, k))
    ensures Balanced(Unlinked(c, t, k), l.(valsOut := l.valsOut + multiset{Find(c, t, k).value}))
  {
    UnlinkLogs(c, t, k);
    UnlinkBag(c, t, k, KeyOf);
    UnlinkBag(c, t, k, ValOf);
    hide Bag, Unlinked, Find, Hit;
  }

  lemma KillBalanced(c: Config, t: Table, l: Ledger, k: nat)
    requires WellFormed(t) && Balanced(t, l)
    ensures WellFormed(Killed(c, t, k)) && Balanced(Killed(c, t, k), l)
  {
    if Find(c, t, k).Some? { UnlinkBalanced(c, t, l, k); }
    hide Bag;
  }

  lemma ClearBalanced(t: Table, l: Ledger)
    requires Balanced(t, l)
    ensures Balanced(Cleared(t), l)
  {
    BagFlat(t.chains, KeyOf);
    BagFlat(t.chains, ValOf);
    BagEmpty(Cleared(t).chains, KeyOf);
    BagEmpty(Cleared(t).chains, ValOf);
    hide Bag, Flat, Proj;
  }

  lemma StepBalanced(c: Config, t: Table, l: Ledger, op: Op)
    requires WellFormed(t) && Balanced(t, l)
    ensures var (t', reply) := Apply(c, t, op);
      WellFormed(t') && Balanced(t', Post(l, op, reply))
  {
    hide Balanced, Bag, Link, Unlinked, Killed;
    match op {
      case Insert(k, v, mem) =>
        CountBalanced(t, l);
        if Find(c, t, k) == None { LinkBalanced(c, Counted(t, false), l, k, v, mem); }
      case Remove(k) => if Find(c, t, k).Some? { UnlinkBalanced(c, t, l, k); } else { UnlinkMisses(c, t, k); }
      case Replace(k, v, mem) => KillBalanced(c, t, l, k); LinkBalanced(c, Killed(c, t, k), l, k, v, mem);
      case Destroy(k) => KillBalanced(c, t, l, k);
      case Lookup(k) => CountBalanced(t, l);
      case Clear => ClearBalanced(t, l);
    }
  }

  lemma CountBalanced(t: Table, l: Ledger)
    requires Balanced(t, l)
    ensures forall st :: Balanced(t.(stat := st), l)
  {}

  // ---------------------------------------------------------------- runs

  /** The table, the map and the ledger side by side. */
  datatype Sys = Sys(t: Table, m: map<nat, nat>, l: Ledger)

  /** A new table. */
  function Fresh(n: nat): Table { Table(seq(n, i => []), Stat(0, 0, 0, 0, 0), [], []) }

  function Start(n: nat): Sys { Sys(Fresh(n), map[], Ledger(multiset{}, multiset{}, multiset{})) }

  function Step(c: Config, s: Sys, op: Op): Sys
    requires WellFormed(s.t)
  {
    var (t', reply) := Apply(c, s.t, op);
    Sys(t', MapApply(c, s.m, op).0, Post(s.l, op, reply))
  }

  ghost predicate Run(c: Config, n: nat, trace: seq<Sys>, ops: seq<Op>) {
    && |trace| == |ops| + 1 && n >= 1 && trace[0] == Start(n)
    && forall i :: 0 <= i < |ops| ==> WellFormed(trace[i].t) && trace[i+1] == Step(c, trace[i], ops[i])
  }

  ghost predicate Inv(c: Config, s: Sys) { Refines(c, s.t, s.m) && Balanced(s.t, s.l) }

  lemma StartInv(c: Config, n: nat)
    requires n >= 1
    ensures Inv(c, Start(n))
  {
    BagEmpty(Fresh(n).chains, KeyOf);
    BagEmpty(Fresh(n).chains, ValOf);
  }

  /** In every run, failed allocations included, the table stands for the map and nothing is lost. */
  lemma {:induction false} RunInv(c: Config, n: nat, trace: seq<Sys>, ops: seq<Op>, i: nat)
    requires Respects(c) && Run(c, n, trace, ops) && i < |trace|
    ensures Inv(c, trace[i])
  {
    if i == 0 {
      StartInv(c, n);
    } else {
      var s, op := trace[i-1], ops[i-1];
      RunInv(c, n, trace, ops, i - 1);
      StepRefines(c, s.t, s.m, op);
      StepBalanced(c, s.t, s.l, op);
      hide Apply, Refines, Balanced, Respects, MapApply;
    }
  }

  /** Every reply of every run is the reply of the map. */
  lemma RunReplies(c: Config, n: nat, trace: seq<Sys>, ops: seq<Op>, i: nat)
    requires Respects(c) && Run(c, n, trace, ops) && i < |ops|
    ensures Apply(c, trace[i].t, ops[i]).1 == MapApply(c, trace[i].m, ops[i]).1
  {
    RunInv(c, n, trace, ops, i);
    StepRefines(c, trace[i].t, trace[i].m, ops[i]);
  }

  /** Keys are unique across all chains, and `mhs_nelems` is the size of the map. */
  lemma KeysUnique(c: Config, n: nat, trace: seq<Sys>, ops: seq<Op>, q: nat, i: nat, a: nat, j: nat, b: nat)
    requires Respects(c) && Run(c, n, trace, ops) && q < |trace|
    requires var ch := trace[q].t.chains; i < |ch| && a < |ch[i]| && j < |ch| && b < |ch[j]|
    ensures var ch := trace[q].t.chains;
      c.cls(ch[i][a].key) == c.cls(ch[j][b].key) ==> i == j && a == b
    ensures trace[q].t.stat.nelems == |trace[q].m|
  {
    RunInv(c, n, trace, ops, q);
    var t, m := trace[q].t, trace[q].m;
    assert HasClass(c, t.chains[i], c.cls(t.chains[i][a].key));
    assert HasClass(c, t.chains[j], c.cls(t.chains[j][b].key));
    ElsewhereAbsent(c, t, m, i, t.chains[j][b].key);
    ElsewhereAbsent(c, t, m, j, t.chains[j][b].key);
    assert ChainOk(c, |t.chains|, i, t.chains[i], m);
  }

  /** `mod_hash_replace` leaves the key with its new value if and only if the allocation succeeds. */
  lemma ReplaceKeeps(c: Config, t: Table, m: map<nat, nat>, k: nat, v: nat, mem: bool)
    requires Respects(c) && Refines(c, t, m)
    ensures var t' := Apply(c, t, Replace(k, v, mem)).0;
      WellFormed(t') && (Find(c, t', k) == Some(v) <==> mem) && (!mem ==> Find(c, t', k) == None)
  {
    var op := Replace(k, v, mem);
    StepRefines(c, t, m, op);
    FindMeans(c, Apply(c, t, op).0, MapApply(c, m, op).0, k);
    hide Apply, Find, Respects;
  }

  // ---------------------------------------------------------------- the walk

  /** What a callback that never terminates is shown: all chains but the last. */
  function Shown(t: Table): seq<Entry>
    requires WellFormed(t)
  {
    Flat(t.chains[..|t.chains|-1])
  }

  /** Each pair of the map once, and nothing else. */
  ghost predicate Enumerates(c: Config, w: seq<Entry>, m: map<nat, nat>) {
    && Distinct(c, w)
    && (forall j :: 0 <= j < |w| ==> c.cls(w[j].key) in m && m[c.cls(w[j].key)] == w[j].val)
    && (forall k :: k in m ==> HasClass(c, w, k))
  }

  /** The entries of the first `q` chains. */
  ghost predicate FlatOk(c: Config, t: Table, m: map<nat, nat>, q: nat)
    requires WellFormed(t) && q <= |t.chains|
  {
    var w := Flat(t.chains[..q]);
    && Distinct(c, w)
    && (forall j :: 0 <= j < |w| ==>
      c.cls(w[j].key) in m && m[c.cls(w[j].key)] == w[j].val && Index(c, |t.chains|, w[j].key) < q)
    && (forall k, i :: 0 <= i < q && HasClass(c, t.chains[i], k) ==> HasClass(c, w, k))
  }

  lemma ClassConcat(c: Config, a: seq<Entry>, b: seq<Entry>, k: nat)
    ensures HasClass(c, a + b, k) <==> HasClass(c, a, k) || HasClass(c, b, k)
  {
    var s := a + b;
    assert forall j :: 0 <= j < |a| ==> s[j] == a[j];
    assert forall j :: 0 <= j < |b| ==> s[|a| + j] == b[j];
  }

  lemma {:induction false} FlatEntries(c: Config, t: Table, m: map<nat, nat>, q: nat)
    requires Respects(c) && Refines(c, t, m) && q <= |t.chains|
    ensures FlatOk(c, t, m, q)
  {
    hide Respects, Refines, FlatOk;
    if q == 0 {
      FlatNone(c, t, m);
    } else {
      FlatEntries(c, t, m, q - 1);
      FlatStep(c, t, m, q);
    }
  }

  lemma FlatNone(c: Config, t: Table, m: map<nat, nat>)
    requires Refines(c, t, m)
    ensures FlatOk(c, t, m, 0)
  {
    assert Flat(t.chains[..0]) == [];
  }

  lemma FlatStep(c: Config, t: Table, m: map<nat, nat>, q: nat)
    requires Respects(c) && Refines(c, t, m) && 0 < q <= |t.chains| && FlatOk(c, t, m, q - 1)
    ensures FlatOk(c, t, m, q)
  {
    hide Respects, Distinct, HasClass, Index;
    var w, ch := Flat(t.chains[..q-1]), t.chains[q-1];
    assert t.chains[..q][..q-1] == t.chains[..q-1];
    assert Flat(t.chains[..q]) == w + ch;
    assert ChainOk(c, |t.chains|, q - 1, ch, m);
    hide Flat;
    FlatJoin(c, |t.chains|, q - 1, w, ch);
    forall k, i | 0 <= i < q && HasClass(c, t.chains[i], k) ensures HasClass(c, w + ch, k) {
      ClassConcat(c, w, ch, k);
    }
  }

  lemma FlatJoin(c: Config, n: nat, q: nat, w: seq<Entry>, ch: seq<Entry>)
    requires Respects(c) && n >= 1 && Distinct(c, w) && Distinct(c, ch)
    requires forall j :: 0 <= j < |w| ==> Index(c, n, w[j].key) < q
    requires forall j :: 0 <= j < |ch| ==> Index(c, n, ch[j].key) == q
    ensures Distinct(c, w + ch)
  {
    var s := w + ch;
    forall a, b | 0 <= a < b < |s| ensures c.cls(s[a].key) != c.cls(s[b].key) {
      ClassIndex(c, n, s[a].key, s[b].key);
    }
  }

  /** The walk visits every pair exactly once if and only if there are at least two chains or no pairs. */
  lemma WalkComplete(c: Config, t: Table, m: map<nat, nat>)
    requires Respects(c) && Refines(c, t, m)
    ensures Enumerates(c, Shown(t), m) <==> |t.chains| >= 2 || m == map[]
  {
    var n := |t.chains|;
    FlatEntries(c, t, m, n - 1);
    if n >= 2 {
      forall k | k in m ensures HasClass(c, Shown(t), k) {
        var i :| 0 <= i < n && HasClass(c, t.chains[i], k);
        assert ChainOk(c, n, i, t.chains[i], m);
        assert i < n - 1;
      }
    } else if m != map[] {
      var k :| k in m;
      assert Shown(t) == [];
      assert !HasClass(c, Shown(t), k);
    }
  }

  function Plain(): Config { Config(k => k, k => k) }

  lemma LinkOne(c: Config, t: Table)
    requires t.chains == [[]]
    ensures Link(c, t, 1, 5, true).chains == [[Entry(1, 5)]]
  {
    assert Index(c, 1, 1) == 0 && t.chains[0] == [];
    assert [Entry(1, 5)] + t.chains[0] == [Entry(1, 5)];
    assert Link(c, t, 1, 5, true).chains == t.chains[0 := [Entry(1, 5)]];
  }

  lemma OnePair(c: Config, t: Table)
    requires t.chains == [[Entry(1, 5)]]
    ensures Find(c, t, 1) == Some(5) && Find(c, Apply(c, t, Replace(1, 6, false)).0, 1) == None
  {
    assert Index(c, 1, 1) == 0;
    assert Seek(c, t.chains[0], 1) == 0;
    assert Seqs.RemoveAt(t.chains[0], 0) == [];
    assert Killed(c, t, 1).chains == [[]];
  }

  /** One chain with one pair: the walk shows nothing, and a replace without memory loses the pair. */
  lemma OneChainWitness()
    ensures var s0 := Start(1); var s1 := Step(Plain(), s0, Insert(1, 5, true));
      && Run(Plain(), 1, [s0, s1], [Insert(1, 5, true)])
      && s1.m == map[1 := 5] && Find(Plain(), s1.t, 1) == Some(5) && Shown(s1.t) == []
      && Find(Plain(), Apply(Plain(), s1.t, Replace(1, 6, false)).0, 1) == None
  {
    var c, s0 := Plain(), Start(1);
    var op := Insert(1, 5, true);
    assert s0.t.chains == [[]];
    assert Find(c, s0.t, 1) == None;
    var s1 := Step(c, s0, op);
    var t1 := Link(c, Counted(s0.t, false), 1, 5, true);
    LinkOne(c, Counted(s0.t, false));
    assert s1.t == t1;
    assert t1.chains[..0] == [];
    OnePair(c, t1);
  }
}

/** Which entries a table holds after every operation of every run, where, and what the statistics count. */
module ModHashMoves {
  import opened Options
  import Seqs
  import opened ModHashState
  import opened ModHashProofs
  import opened ModHashRuns

  // ---------------------------------------------------------------- entries

  ghost predicate Stored(t: Table, e: Entry) { exists i :: 0 <= i < |t.chains| && e in t.chains[i] }

  /** Some stored entry has a key that compares equal. */
  ghost predicate Present(c: Config, t: Table, k: nat) { exists e :: Stored(t, e) && c.cls(e.key) == c.cls(k) }

  /** `k` leads to the value of the one stored entry with an equal key. */
  lemma FindIs(c: Config, t: Table, m: map<nat, nat>, k: nat)
    requires Respects(c) && Refines(c, t, m)
    ensures Find(c, t, k).Some? <==> Present(c, t, k)
    ensures forall e :: Stored(t, e) && c.cls(e.key) == c.cls(k) ==> Find(c, t, k) == Some(e.val)
  {
    hide Respects;
    FindMeans(c, t, m, k);
    if Find(c, t, k).Some? {
      var e := Hit(c, t, k);
      assert Stored(t, e) && c.cls(e.key) == c.cls(k);
    }
    hide Find;
    forall e | Stored(t, e) && c.cls(e.key) == c.cls(k) ensures Find(c, t, k) == Some(e.val) {
      var i :| 0 <= i < |t.chains| && e in t.chains[i];
      assert ChainOk(c, |t.chains|, i, t.chains[i], m);
    }
  }

  lemma LinkStores(c: Config, t: Table, k: nat, v: nat, mem: bool, e: Entry)
    requires WellFormed(t)
    ensures Stored(Link(c, t, k, v, mem), e) <==> Stored(t, e) || (mem && e == Entry(k, v))
  {
    hide Index;
    var t' := Link(c, t, k, v, mem);
    var x := Index(c, |t.chains|, k);
    if Stored(t, e) {
      var i :| 0 <= i < |t.chains| && e in t.chains[i];
      assert e in t'.chains[i];
    }
    if mem { assert Entry(k, v) in t'.chains[x]; }
    if Stored(t', e) {
      var i :| 0 <= i < |t'.chains| && e in t'.chains[i];
      assert i != x ==> e in t.chains[i];
    }
  }

  /** What an unlinking does to the chain it works on, and only to that. */
  lemma UnlinkParts(c: Config, t: Table, k: nat)
    requires WellFormed(t)
    ensures Find(c, t, k) == None ==> Unlinked(c, t, k) == t
    ensures Find(c, t, k).Some? ==> var (x, t') := (Index(c, |t.chains|, k), Unlinked(c, t, k));
      var j := Seek(c, t.chains[x], k);
      && j < |t.chains[x]| && |t'.chains| == |t.chains|
      && t'.chains[x] == Seqs.RemoveAt(t.chains[x], j)
      && forall i :: 0 <= i < |t.chains| && i != x ==> t'.chains[i] == t.chains[i]
  {
    hide Index, Seek;
  }

  lemma ChainLoses(c: Config, chain: seq<Entry>, j: nat, e: Entry)
    requires Distinct(c, chain) && j < |chain|
    ensures e in Seqs.RemoveAt(chain, j) <==> e in chain && c.cls(e.key) != c.cls(chain[j].key)
  {
    var r := Seqs.RemoveAt(chain, j);
    if e in chain && c.cls(e.key) != c.cls(chain[j].key) {
      var a :| 0 <= a < |chain| && chain[a] == e;
      assert r[if a < j then a else a - 1] == e;
    }
    if e in r {
      var b :| 0 <= b < |r| && r[b] == e;
      assert r[b] == chain[if b < j then b else b + 1];
    }
  }

  lemma UnlinkStores(c: Config, t: Table, m: map<nat, nat>, k: nat, e: Entry)
    requires Respects(c) && Refines(c, t, m)
    ensures Stored(Unlinked(c, t, k), e) <==> Stored(t, e) && c.cls(e.key) != c.cls(k)
  {
    FindIs(c, t, m, k);
    UnlinkParts(c, t, k);
    if Find(c, t, k).Some? {
      var (x, t') := (Index(c, |t.chains|, k), Unlinked(c, t, k));
      var j := Seek(c, t.chains[x], k);
      assert ChainOk(c, |t.chains|, x, t.chains[x], m);
      ChainLoses(c, t.chains[x], j, e);
      forall i | 0 <= i < |t.chains| && i != x && e in t.chains[i] ensures c.cls(e.key) != c.cls(k) {
        if c.cls(e.key) == c.cls(k) { assert HasClass(c, t.chains[i], c.cls(k)); ElsewhereAbsent(c, t, m, i, k); }
      }
      hide Unlinked, Find, Seek, Index, Refines, Respects;
      OtherChains(c, t, t', x, k, e);
    }
  }

  lemma OtherChains(c: Config, t: Table, t': Table, x: nat, k: nat, e: Entry)
    requires x < |t.chains| == |t'.chains|
    requires e in t'.chains[x] <==> e in t.chains[x] && c.cls(e.key) != c.cls(k)
    requires forall i :: 0 <= i < |t.chains| && i != x ==> t'.chains[i] == t.chains[i]
    requires forall i :: 0 <= i < |t.chains| && i != x && e in t.chains[i] ==> c.cls(e.key) != c.cls(k)
    ensures Stored(t', e) <==> Stored(t, e) && c.cls(e.key) != c.cls(k)
  {
    if Stored(t', e) {
      var i :| 0 <= i < |t'.chains| && e in t'.chains[i];
      assert e in t.chains[i];
    }
    if Stored(t, e) && c.cls(e.key) != c.cls(k) {
      var i :| 0 <= i < |t.chains| && e in t.chains[i];
      assert e in t'.chains[i];
    }
  }

  /** What the operation stores, and what it leaves of what was stored. */
  ghost predicate Moved(c: Config, t: Table, op: Op, t': Table, e: Entry) {
    match op
    case Insert(k, v, mem) => Stored(t', e) <==> Stored(t, e) || (mem && !Present(c, t, k) && e == Entry(k, v))
    case Replace(k, v, mem) => Stored(t', e) <==> (Stored(t, e) && c.cls(e.key) != c.cls(k)) || (mem && e == Entry(k, v))
    case Remove(k) => Stored(t', e) <==> Stored(t, e) && c.cls(e.key) != c.cls(k)
    case Destroy(k) => Stored(t', e) <==> Stored(t, e) && c.cls(e.key) != c.cls(k)
    case Lookup(_) => Stored(t', e) <==> Stored(t, e)
    case Clear => !Stored(t', e)
  }

  /** What the caller is told. */
  ghost predicate Answered(c: Config, t: Table, op: Op, r: Reply) {
    match op
    case Insert(k, _, mem) => r == if Present(c, t, k) then Duplicate else if mem then Done else NoMem
    case Replace(_, _, mem) => r == if mem then Done else NoMem
    case Destroy(k) => r == if Present(c, t, k) then Done else NotFound
    case Clear => r == Done
    case _ =>
      if Present(c, t, op.key) then exists e :: Stored(t, e) && c.cls(e.key) == c.cls(op.key) && r == Found(e.val)
      else r == NotFound
  }

  lemma KilledStores(c: Config, t: Table, m: map<nat, nat>, k: nat, e: Entry)
    requires Respects(c) && Refines(c, t, m)
    ensures WellFormed(Killed(c, t, k)) && (Stored(Killed(c, t, k), e) <==> Stored(t, e) && c.cls(e.key) != c.cls(k))
  {
    UnlinkStores(c, t, m, k, e);
    UnlinkParts(c, t, k);
    hide Unlinked, Find, Refines, Respects;
  }

  lemma MoveIs(c: Config, t: Table, m: map<nat, nat>, op: Op, e: Entry)
    requires Respects(c) && Refines(c, t, m)
    ensures Moved(c, t, op, Apply(c, t, op).0, e) && Answered(c, t, op, Apply(c, t, op).1)
  {
    hide Link, Unlinked, Killed, Find, Respects, Present;
    match op
    case Insert(k, v, mem) =>
      FindIs(c, t, m, k);
      LinkStores(c, Counted(t, false), k, v, mem, e);
    case Remove(k) => FindIs(c, t, m, k); UnlinkStores(c, t, m, k, e); Answers(c, t, k);
    case Replace(k, v, mem) =>
      KilledStores(c, t, m, k, e);
      LinkStores(c, Killed(c, t, k), k, v, mem, e);
    case Destroy(k) => FindIs(c, t, m, k); KilledStores(c, t, m, k, e);
    case Lookup(k) => FindIs(c, t, m, k); Answers(c, t, k);
    case Clear =>
  }

  lemma Answers(c: Config, t: Table, k: nat)
    ensures Present(c, t, k) <==> exists e :: Stored(t, e) && c.cls(e.key) == c.cls(k)
  {}

  lemma RunOk(c: Config, n: nat, trace: seq<Sys>, ops: seq<Op>, i: nat)
    requires Respects(c) && Run(c, n, trace, ops) && i < |trace|
    ensures Refines(c, trace[i].t, trace[i].m) && WellFormed(trace[i].t)
    ensures i < |ops| ==> trace[i+1].t == Apply(c, trace[i].t, ops[i]).0
  {
    hide Refines, Respects, Apply, MapApply;
    RunInv(c, n, trace, ops, i);
    Formed(c, trace[i].t, trace[i].m);
  }

  lemma Formed(c: Config, t: Table, m: map<nat, nat>)
    requires Refines(c, t, m)
    ensures WellFormed(t)
  {}

  /** Every operation of every run adds and takes away exactly the entries it names, and says so. */
  lemma StepMoves(c: Config, n: nat, trace: seq<Sys>, ops: seq<Op>, i: nat, e: Entry)
    requires Respects(c) && Run(c, n, trace, ops) && i < |ops|
    ensures Moved(c, trace[i].t, ops[i], trace[i+1].t, e)
    ensures WellFormed(trace[i].t) && Answered(c, trace[i].t, ops[i], Apply(c, trace[i].t, ops[i]).1)
  {
    hide Refines, Respects, Apply, Run, Moved, Answered;
    RunIs(c, n, trace, ops);
    RunOk(c, n, trace, ops, i);
    MoveIs(c, trace[i].t, trace[i].m, ops[i], e);
  }

  // ---------------------------------------------------------------- chains

  lemma SameChains(c: Config, t: Table, op: Op)
    requires WellFormed(t)
    ensures |Apply(c, t, op).0.chains| == |t.chains|
  {
    hide Index, Seek;
  }

  lemma {:induction false} RunChains(c: Config, n: nat, trace: seq<Sys>, ops: seq<Op>, i: nat)
    requires Run(c, n, trace, ops) && i < |trace|
    ensures |trace[i].t.chains| == n
  {
    if i > 0 {
      hide Apply, MapApply;
      RunChains(c, n, trace, ops, i - 1);
      SameChains(c, trace[i-1].t, ops[i-1]);
    }
  }

  /**
    In every state of every run an entry is on the chain its hash selects among all but the last; so
    the last of two or more chains is never used.
   */
  lemma RunPlacement(c: Config, n: nat, trace: seq<Sys>, ops: seq<Op>, q: nat, i: nat, j: nat)
    requires Respects(c) && Run(c, n, trace, ops) && q < |trace|
    requires i < |trace[q].t.chains| && j < |trace[q].t.chains[i]|
    ensures n >= 2 ==> i == c.hash(trace[q].t.chains[i][j].key) % (n - 1) && i < n - 1
  {
    RunOk(c, n, trace, ops, q);
    RunChains(c, n, trace, ops, q);
    assert ChainOk(c, n, i, trace[q].t.chains[i], trace[q].m);
  }

  // ---------------------------------------------------------------- statistics

  /** How many operations found an equal key, found none, were duplicates, or had no memory. */
  datatype Counts = Counts(hits: nat, misses: nat, duplicates: nat, failures: nat)

  ghost predicate AllFormed(trace: seq<Sys>) { forall j :: 0 <= j < |trace| ==> WellFormed(trace[j].t) }

  /** One more operation and its reply. */
  function Count(n: Counts, op: Op, r: Reply): Counts {
    Counts(n.hits + (if (op.Insert? && r == Duplicate) || (op.Lookup? && r.Found?) then 1 else 0),
           n.misses + (if (op.Insert? && r != Duplicate) || (op.Lookup? && r == NotFound) then 1 else 0),
           n.duplicates + (if r == Duplicate then 1 else 0),
           n.failures + if r == NoMem then 1 else 0)
  }

  /** What the operations before `i` add up to, by their replies. */
  ghost function Tally(c: Config, trace: seq<Sys>, ops: seq<Op>, i: nat): Counts
    requires i <= |ops| < |trace| && AllFormed(trace)
  {
    if i == 0 then Counts(0, 0, 0, 0)
    else Count(Tally(c, trace, ops, i - 1), ops[i-1], Apply(c, trace[i-1].t, ops[i-1]).1)
  }

  predicate Shows(s: Stat, n: Counts) {
    s.hit == n.hits && s.miss == n.misses && s.coll == n.duplicates && s.nomem == n.failures
  }

  lemma StepStats(c: Config, t: Table, op: Op, n: Counts)
    requires WellFormed(t) && Shows(t.stat, n)
    ensures var (t', r) := Apply(c, t, op); Shows(t'.stat, Count(n, op, r))
  {
    hide Index, Seek;
  }

  lemma RunFormed(c: Config, n: nat, trace: seq<Sys>, ops: seq<Op>)
    requires Run(c, n, trace, ops)
    ensures AllFormed(trace)
  {
    hide Run;
    RunIs(c, n, trace, ops);
    forall j | 0 <= j < |trace| ensures WellFormed(trace[j].t) { RunChains(c, n, trace, ops, j); }
  }

  lemma RunIs(c: Config, n: nat, trace: seq<Sys>, ops: seq<Op>)
    requires Run(c, n, trace, ops)
    ensures n >= 1 && |trace| == |ops| + 1 && trace[0].t.stat == Stat(0, 0, 0, 0, 0)
  {}

  /** In every state of every run the statistics are what the replies add up to. */
  lemma {:induction false} RunStats(c: Config, n: nat, trace: seq<Sys>, ops: seq<Op>, i: nat)
    requires Run(c, n, trace, ops) && i < |trace|
    ensures AllFormed(trace) && |trace| == |ops| + 1 && Shows(trace[i].t.stat, Tally(c, trace, ops, i))
  {
    hide Apply, MapApply, Count, AllFormed, Run, Post;
    RunFormed(c, n, trace, ops);
    RunIs(c, n, trace, ops);
    if i > 0 {
      hide Shows;
      RunStats(c, n, trace, ops, i - 1);
      StepTable(c, n, trace, ops, i - 1);
      StepStats(c, trace[i-1].t, ops[i-1], Tally(c, trace, ops, i - 1));
    }
  }

  lemma StepTable(c: Config, n: nat, trace: seq<Sys>, ops: seq<Op>, i: nat)
    requires Run(c, n, trace, ops) && i < |ops|
    ensures WellFormed(trace[i].t) && trace[i+1].t == Apply(c, trace[i].t, ops[i]).0
  {
    hide Apply, MapApply;
  }
}

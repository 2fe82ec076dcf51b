/** `mod_hash_t` as an object: the operations of `spl-modhash.c` with their loops. */
module ModHash {
  import opened Options
  import Seqs
  import opened ModHashState
  import opened ModHashRuns

  lemma SeekIs(c: Config, chain: seq<Entry>, k: nat, j: nat)
    requires j <= |chain| && (forall i :: 0 <= i < j ==> c.cls(chain[i].key) != c.cls(k))
    requires j < |chain| ==> c.cls(chain[j].key) == c.cls(k)
    ensures Seek(c, chain, k) == j
  {}

  lemma {:induction false} FlatPrefix(chains: seq<seq<Entry>>, i: nat, q: nat)
    requires i <= q <= |chains|
    ensures Flat(chains[..i]) <= Flat(chains[..q])
    decreases q
  {
    if i < q {
      FlatPrefix(chains, i, q - 1);
      FlatNext(chains, q - 1);
    }
  }

  lemma FlatNext(chains: seq<seq<Entry>>, i: nat)
    requires i < |chains|
    ensures Flat(chains[..i+1]) == Flat(chains[..i]) + chains[i]
  {
    assert chains[..i+1][..i] == chains[..i];
  }

  lemma ProjNext(s: seq<Entry>, j: nat, p: Entry -> nat)
    requires j < |s|
    ensures Proj(s[..j+1], p) == Proj(s[..j], p) + [p(s[j])]
  {}

  class ModHash {
    const c: Config
    var chains: seq<seq<Entry>>
    var stat: Stat
    var kdead: seq<nat>
    var vdead: seq<nat>

    ghost function View(): Table
      reads this
    {
      Table(chains, stat, kdead, vdead)
    }

    /** `mod_hash_create_extended`; the table must have a chain for the index to be defined. */
    constructor (c: Config, n: nat)
      requires n >= 1
      ensures this.c == c && View() == Fresh(n)
    {
      this.c := c;
      chains, stat, kdead, vdead := seq(n, i => []), Stat(0, 0, 0, 0, 0), [], [];
    }

    /** The chain walk shared by `i_mod_hash_find_nosync` and `i_mod_hash_remove_nosync`. */
    method SeekChain(chain: seq<Entry>, k: nat) returns (j: nat)
      ensures j == Seek(c, chain, k)
    {
      j := 0;
      while j < |chain| && c.cls(chain[j].key) != c.cls(k)
        invariant j <= |chain| && forall i :: 0 <= i < j ==> c.cls(chain[i].key) != c.cls(k)
      {
        j := j + 1;
      }
      SeekIs(c, chain, k, j);
    }

    method FindNosync(k: nat) returns (r: Option<nat>)
      requires WellFormed(View())
      modifies `stat
      ensures r == Find(c, old(View()), k) && View() == Counted(old(View()), r.Some?)
    {
      var chain := chains[Index(c, |chains|, k)];
      var j := SeekChain(chain, k);
      if j < |chain| {
        stat := stat.(hit := stat.hit + 1);
        return Some(chain[j].val);
      }
      stat := stat.(miss := stat.miss + 1);
      return None;
    }

    method InsertNosync(k: nat, v: nat, mem: bool) returns (r: Reply)
      requires WellFormed(View())
      modifies `chains, `stat
      ensures View() == Link(c, old(View()), k, v, mem) && r == if mem then Done else NoMem
      ensures mem ==> exists i :: 0 <= i < |old(chains)| && chains == old(chains)[i := [Entry(k, v)] + old(chains)[i]]
    {
      if !mem {
        stat := stat.(nomem := stat.nomem + 1);
        return NoMem;
      }
      var i := Index(c, |chains|, k);
      chains := chains[i := [Entry(k, v)] + chains[i]];
      stat := stat.(nelems := stat.nelems + 1);
      return Done;
    }

    method RemoveNosync(k: nat) returns (r: Option<nat>)
      requires WellFormed(View())
      modifies `chains, `stat, `kdead
      ensures View() == Unlinked(c, old(View()), k) && r == Find(c, old(View()), k)
    {
      var i := Index(c, |chains|, k);
      var chain := chains[i];
      var j := SeekChain(chain, k);
      if j == |chain| { return None; }
      chains := chains[i := Seqs.RemoveAt(chain, j)];
      kdead := kdead + [chain[j].key];
      stat := stat.(nelems := stat.nelems - 1);
      return Some(chain[j].val);
    }

    /** `mod_hash_insert`; `mod_hash_insert_reserve` is the case in which memory is never short. */
    method Insert(k: nat, v: nat, mem: bool) returns (r: Reply)
      requires WellFormed(View())
      modifies `chains, `stat
      ensures (View(), r) == Apply(c, old(View()), Op.Insert(k, v, mem))
    {
      var found := FindNosync(k);
      if found.Some? {
        stat := stat.(coll := stat.coll + 1);
        return Duplicate;
      }
      r := InsertNosync(k, v, mem);
    }

    /** `mod_hash_remove` */
    method Remove(k: nat) returns (r: Reply)
      requires WellFormed(View())
      modifies `chains, `stat, `kdead
      ensures (View(), r) == Apply(c, old(View()), Op.Remove(k))
    {
      var v := RemoveNosync(k);
      r := match v case None => NotFound case Some(x) => Found(x);
    }

    /** `mod_hash_replace` */
    method Replace(k: nat, v: nat, mem: bool) returns (r: Reply)
      requires WellFormed(View())
      modifies `chains, `stat, `kdead, `vdead
      ensures (View(), r) == Apply(c, old(View()), Op.Replace(k, v, mem))
    {
      var x := RemoveNosync(k);
      if x.Some? { vdead := vdead + [x.value]; }
      r := InsertNosync(k, v, mem);
    }

    /** `mod_hash_destroy` */
    method Destroy(k: nat) returns (r: Reply)
      requires WellFormed(View())
      modifies `chains, `stat, `kdead, `vdead
      ensures (View(), r) == Apply(c, old(View()), Op.Destroy(k))
    {
      var x := RemoveNosync(k);
      if x.Some? { vdead := vdead + [x.value]; }
      r := if x.Some? then Done else NotFound;
    }

    /** `mod_hash_find` */
    method FindKey(k: nat) returns (r: Reply)
      requires WellFormed(View())
      modifies `stat
      ensures (View(), r) == Apply(c, old(View()), Lookup(k))
    {
      var v := FindNosync(k);
      r := match v case None => NotFound case Some(x) => Found(x);
    }

    /** `i_mod_hash_clear_nosync` */
    method ClearAll()
      requires WellFormed(View())
      modifies this
      ensures View() == Cleared(old(View()))
    {
      ghost var was := chains;
      for i := 0 to |chains|
        invariant |chains| == |was| && stat == old(stat)
        invariant forall q :: 0 <= q < i ==> chains[q] == []
        invariant chains[i..] == was[i..]
        invariant kdead == old(kdead) + Proj(Flat(was[..i]), KeyOf)
        invariant vdead == old(vdead) + Proj(Flat(was[..i]), ValOf)
      {
        assert chains[i] == chains[i..][0] == was[i..][0] == was[i];
        KillChain(chains[i]);
        FlatNext(was, i);
        ProjConcat(Flat(was[..i]), was[i], KeyOf);
        ProjConcat(Flat(was[..i]), was[i], ValOf);
        chains := chains[i := []];
      }
      stat := stat.(nelems := 0);
      assert was[..|was|] == was;
      assert chains == Cleared(old(View())).chains;
    }

    /** The inner loop of `i_mod_hash_clear_nosync`. */
    method KillChain(chain: seq<Entry>)
      modifies `kdead, `vdead
      ensures kdead == old(kdead) + Proj(chain, KeyOf)
      ensures vdead == old(vdead) + Proj(chain, ValOf)
    {
      for j := 0 to |chain|
        invariant kdead == old(kdead) + Proj(chain[..j], KeyOf)
        invariant vdead == old(vdead) + Proj(chain[..j], ValOf)
      {
        kdead, vdead := kdead + [chain[j].key], vdead + [chain[j].val];
        ProjNext(chain, j, KeyOf);
        ProjNext(chain, j, ValOf);
      }
      assert chain[..|chain|] == chain;
    }

    /**
      `i_mod_hash_walk_nosync`: shows the callback the entries of all chains but the last, in
      order, and stops after the first entry at which the callback asks to terminate.
     */
    method Walk(callback: Entry -> bool) returns (seen: seq<Entry>)
      requires WellFormed(View())
      ensures seen <= Shown(View())
      ensures forall j :: 0 <= j < |seen| - 1 ==> callback(seen[j])
      ensures seen == Shown(View()) || (seen != [] && !callback(seen[|seen|-1]))
    {
      var go, i := true, 0;
      seen := [];
      while i < |chains| - 1 && go
        invariant 0 <= i <= |chains| - 1
        invariant Seen(seen, go, callback, i)
      {
        seen, go := WalkChain(seen, callback, i);
        i := i + 1;
      }
      FlatPrefix(chains, i, |chains| - 1);
    }

    /** What has been shown once the first `i` chains are behind, or the callback has terminated. */
    ghost predicate Seen(seen: seq<Entry>, go: bool, callback: Entry -> bool, i: nat)
      reads this
      requires i <= |chains|
    {
      && seen <= Flat(chains[..i])
      && (forall j :: 0 <= j < |seen| - 1 ==> callback(seen[j]))
      && (if go then seen == Flat(chains[..i]) && (seen != [] ==> callback(seen[|seen|-1]))
          else seen != [] && !callback(seen[|seen|-1]))
    }

    /** The inner loop of `i_mod_hash_walk_nosync`. */
    method WalkChain(seen0: seq<Entry>, callback: Entry -> bool, i: nat) returns (seen: seq<Entry>, go: bool)
      requires i < |chains| && Seen(seen0, true, callback, i)
      ensures Seen(seen, go, callback, i + 1)
    {
      var e, chain := 0, chains[i];
      seen, go := seen0, true;
      while e < |chain| && go
        invariant e <= |chain| && seen == seen0 + chain[..e]
        invariant forall j :: 0 <= j < |seen| - 1 ==> callback(seen[j])
        invariant go ==> (seen != [] ==> callback(seen[|seen|-1]))
        invariant !go ==> seen != [] && !callback(seen[|seen|-1])
      {
        seen, go := seen + [chain[e]], callback(chain[e]);
        e := e + 1;
      }
      FlatNext(chains, i);
    }
  }
}

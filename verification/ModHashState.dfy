/**
  The chained hash table of `spl-modhash.c`: its chains, statistics and destructor calls as a value,
  each operation as a step, and the finite map the table stands for.
 */
module ModHashState {
  import opened Seqs
  import opened Options

  datatype Entry = Entry(key: nat, val: nat)

  /** `mh_stat` */
  datatype Stat = Stat(nelems: int, hit: nat, miss: nat, coll: nat, nomem: nat)

  /** The client's functions: `mh_hashalg`, and the comparator as the class of keys it calls equal. */
  datatype Config = Config(hash: nat -> nat, cls: nat -> nat)

  /** `kdead` and `vdead` record the calls of the key and value destructors. */
  datatype Table = Table(chains: seq<seq<Entry>>, stat: Stat, kdead: seq<nat>, vdead: seq<nat>)

  /** Keys that compare equal hash alike. */
  ghost predicate Respects(c: Config) {
    forall a, b :: c.cls(a) == c.cls(b) ==> c.hash(a) == c.hash(b)
  }

  /** `i_mod_hash` */
  function Index(c: Config, n: nat, k: nat): (i: nat)
    requires n >= 1
    ensures i < n
    ensures n >= 2 ==> i < n - 1
  {
    if n == 1 then 0 else c.hash(k) % (n - 1)
  }

  /** Position of the first entry of a chain whose key equals `k`, or the length of the chain. */
  function Seek(c: Config, chain: seq<Entry>, k: nat): (j: nat)
    ensures j <= |chain|
    ensures forall i :: 0 <= i < j ==> c.cls(chain[i].key) != c.cls(k)
    ensures j < |chain| ==> c.cls(chain[j].key) == c.cls(k)
  {
    if chain == [] || c.cls(chain[0].key) == c.cls(k) then 0 else 1 + Seek(c, chain[1..], k)
  }

  predicate WellFormed(t: Table) { |t.chains| >= 1 }

  function Chain(c: Config, t: Table, k: nat): seq<Entry>
    requires WellFormed(t)
  {
    t.chains[Index(c, |t.chains|, k)]
  }

  function Find(c: Config, t: Table, k: nat): Option<nat>
    requires WellFormed(t)
  {
    var chain := Chain(c, t, k);
    var j := Seek(c, chain, k);
    if j < |chain| then Some(chain[j].val) else None
  }

  // ---------------------------------------------------------------- operations

  datatype Op =
    | Insert(key: nat, val: nat, mem: bool)
    | Remove(key: nat)
    | Replace(key: nat, val: nat, mem: bool)
    | Destroy(key: nat)
    | Lookup(key: nat)
    | Clear

  datatype Reply = Done | Found(val: nat) | Duplicate | NoMem | NotFound

  /** `i_mod_hash_find_nosync` counts a hit or a miss. */
  function Counted(t: Table, found: bool): Table {
    t.(stat := if found then t.stat.(hit := t.stat.hit + 1) else t.stat.(miss := t.stat.miss + 1))
  }

  /** `i_mod_hash_insert_nosync` */
  function Link(c: Config, t: Table, k: nat, v: nat, mem: bool): Table
    requires WellFormed(t)
  {
    if !mem then t.(stat := t.stat.(nomem := t.stat.nomem + 1)) else
      var i := Index(c, |t.chains|, k);
      t.(chains := t.chains[i := [Entry(k, v)] + t.chains[i]], stat := t.stat.(nelems := t.stat.nelems + 1))
  }

  /** `i_mod_hash_remove_nosync` */
  function Unlinked(c: Config, t: Table, k: nat): Table
    requires WellFormed(t)
  {
    var i := Index(c, |t.chains|, k);
    var j := Seek(c, t.chains[i], k);
    if j == |t.chains[i]| then t else
      t.(chains := t.chains[i := RemoveAt(t.chains[i], j)], stat := t.stat.(nelems := t.stat.nelems - 1),
         kdead := t.kdead + [t.chains[i][j].key])
  }

  /** Unlink, and destroy the value too. */
  function Killed(c: Config, t: Table, k: nat): Table
    requires WellFormed(t)
  {
    var t' := Unlinked(c, t, k);
    match Find(c, t, k)
    case None => t'
    case Some(v) => t'.(vdead := t'.vdead + [v])
  }

  function KeyOf(e: Entry): nat { e.key }
  function ValOf(e: Entry): nat { e.val }

  /** The keys, or the values, of some entries. */
  function Proj(s: seq<Entry>, p: Entry -> nat): seq<nat> { seq(|s|, i requires 0 <= i < |s| => p(s[i])) }

  /** All entries, chain after chain. */
  function Flat(chains: seq<seq<Entry>>): seq<Entry> {
    if chains == [] then [] else Flat(chains[..|chains|-1]) + chains[|chains|-1]
  }

  /** `i_mod_hash_clear_nosync` */
  function Cleared(t: Table): Table {
    var all := Flat(t.chains);
    Table(seq(|t.chains|, i => []), t.stat.(nelems := 0), t.kdead + Proj(all, KeyOf), t.vdead + Proj(all, ValOf))
  }

  function Apply(c: Config, t: Table, op: Op): (Table, Reply)
    requires WellFormed(t)
  {
    match op
    case Insert(k, v, mem) =>
      var found := Find(c, t, k).Some?;
      var t' := Counted(t, found);
      if found then (t'.(stat := t'.stat.(coll := t'.stat.coll + 1)), Duplicate)
      else (Link(c, t', k, v, mem), if mem then Done else NoMem)
    case Remove(k) =>
      (Unlinked(c, t, k), match Find(c, t, k) case None => NotFound case Some(v) => Found(v))
    case Replace(k, v, mem) =>
      (Link(c, Killed(c, t, k), k, v, mem), if mem then Done else NoMem)
    case Destroy(k) =>
      (Killed(c, t, k), if Find(c, t, k).Some? then Done else NotFound)
    case Lookup(k) =>
      var r := Find(c, t, k);
      (Counted(t, r.Some?), match r case None => NotFound case Some(v) => Found(v))
    case Clear => (Cleared(t), Done)
  }

  // ---------------------------------------------------------------- the map

  /** The same operation on a finite map from key classes to values. */
  function MapApply(c: Config, m: map<nat, nat>, op: Op): (map<nat, nat>, Reply) {
    match op
    case Insert(k, v, mem) =>
      if c.cls(k) in m then (m, Duplicate) else if mem then (m[c.cls(k) := v], Done) else (m, NoMem)
    case Remove(k) =>
      if c.cls(k) in m then (m - {c.cls(k)}, Found(m[c.cls(k)])) else (m, NotFound)
    case Replace(k, v, mem) =>
      if mem then (m[c.cls(k) := v], Done) else (m - {c.cls(k)}, NoMem)
    case Destroy(k) =>
      if c.cls(k) in m then (m - {c.cls(k)}, Done) else (m, NotFound)
    case Lookup(k) =>
      if c.cls(k) in m then (m, Found(m[c.cls(k)])) else (m, NotFound)
    case Clear => (map[], Done)
  }

  ghost predicate Distinct(c: Config, chain: seq<Entry>) {
    forall a, b :: 0 <= a < b < |chain| ==> c.cls(chain[a].key) != c.cls(chain[b].key)
  }

  ghost predicate HasClass(c: Config, chain: seq<Entry>, k: nat) {
    exists j :: 0 <= j < |chain| && c.cls(chain[j].key) == k
  }

  /** Chain `i` holds entries of the map that belong there, each class once. */
  ghost predicate ChainOk(c: Config, n: nat, i: nat, chain: seq<Entry>, m: map<nat, nat>)
    requires n >= 1
  {
    && Distinct(c, chain)
    && forall j :: 0 <= j < |chain| ==>
      var k := chain[j].key;
      Index(c, n, k) == i && c.cls(k) in m && m[c.cls(k)] == chain[j].val
  }

  /** Chains holding `nelems` entries stand for the map. */
  ghost predicate Stands(c: Config, chains: seq<seq<Entry>>, nelems: int, m: map<nat, nat>) {
    && |chains| >= 1
    && (forall i :: 0 <= i < |chains| ==> ChainOk(c, |chains|, i, chains[i], m))
    && (forall k :: k in m ==> exists i :: 0 <= i < |chains| && HasClass(c, chains[i], k))
    && nelems == |m|
  }

  ghost predicate Refines(c: Config, t: Table, m: map<nat, nat>) { Stands(c, t.chains, t.stat.nelems, m) }
}

/**
  The singly linked list of `lib/list.c` on the heap: nodes, iterators registered with the list,
  and addresses of `next` pointers.

  The address of a `next` pointer is represented by the node that owns it; `null` stands for the
  address of the list's own `head`.
 */
module LsdList {
  import opened Seqs
  import opened ListCursor
  import opened ListSort
  import opened Options

  class Node {
    const data: nat
    var next: Node?

    constructor (data: nat, next: Node?)
      ensures this.data == data && this.next == next
    {
      this.data, this.next := data, next;
    }
  }

  class ListIterator {
    var prev: Node?
    var pos: Node?
    ghost var cur: Cursor

    constructor (head: Node?)
      ensures prev == null && pos == head && cur == Cursor(0, 0)
    {
      prev, pos, cur := null, head, Cursor(0, 0);
    }

    ghost predicate On(nodes: seq<Node>)
      reads this
    {
      CursorOk(cur, |nodes|) && prev == Slot(nodes, cur.prev) && pos == At(nodes, cur.pos)
    }

    lemma OnMeans(nodes: seq<Node>)
      requires On(nodes)
      ensures CursorOk(cur, |nodes|) && cur.prev <= |nodes| && cur.pos <= |nodes|
      ensures prev == Slot(nodes, cur.prev) && pos == At(nodes, cur.pos)
    {}

    lemma OnMade(nodes: seq<Node>)
      requires CursorOk(cur, |nodes|) && cur.prev <= |nodes| && cur.pos <= |nodes|
      requires prev == Slot(nodes, cur.prev) && pos == At(nodes, cur.pos)
      ensures On(nodes)
    {}

    /** The loop body of `list_node_create`, for node `p` just linked in after `pp`. */
    method NodeLinked(pp: Node?, p: Node, ghost nodes: seq<Node>, ghost j: nat)
      requires NoDup(nodes) && p !in nodes && On(nodes) && j <= |nodes|
      requires pp == Slot(nodes, j) && p.next == At(nodes, j)
      modifies this
      ensures cur == AfterInsert(old(cur), j) && On(InsertAt(nodes, j, p))
    {
      hide *;
      OnMeans(nodes);
      LinkedCursor(nodes, cur, j, p);
      if prev == pp {
        prev := p;
      } else if pos == p.next {
        pos := p;
      }
      cur := AfterInsert(cur, j);
      OnMade(InsertAt(nodes, j, p));
    }

    /** The loop body of `list_node_destroy`, for node `p` just unlinked from `pp`. */
    method NodeUnlinked(pp: Node?, p: Node, ghost nodes: seq<Node>, ghost j: nat)
      requires NoDup(nodes) && On(nodes) && j < |nodes|
      requires pp == Slot(nodes, j) && p == nodes[j] && p.next == At(nodes, j + 1)
      modifies this
      ensures cur == AfterDelete(old(cur), j) && On(RemoveAt(nodes, j))
    {
      hide *;
      OnMeans(nodes);
      UnlinkedCursor(nodes, cur, j);
      if pos == p {
        pos, prev := p.next, pp;
      } else if prev == p {
        prev := pp;
      }
      cur := AfterDelete(cur, j);
      OnMade(RemoveAt(nodes, j));
    }

    /** The body of `list_next`, given the node the iterator's slot holds. */
    method Advance(q: Node?, ghost nodes: seq<Node>) returns (v: Option<nat>)
      requires NoDup(nodes) && On(nodes) && q == At(nodes, cur.prev)
      requires cur.pos < |nodes| ==> nodes[cur.pos].next == At(nodes, cur.pos + 1)
      modifies this
      ensures On(nodes) && cur == AfterNext(old(cur), |nodes|)
      ensures v == if old(cur.pos) < |nodes| then Some(nodes[old(cur.pos)].data) else None
    {
      AtUnique(nodes, cur.prev, cur.pos);
      SlotNext(nodes, cur.prev);
      SlotNext(nodes, cur.pos);
      hide Slot, NoDup;
      var p := pos;
      if p != null { pos := p.next; }
      if q != p { prev := q; }
      cur := AfterNext(cur, |nodes|);
      v := if p != null then Some(p.data) else None;
    }
  }

  /** The `k`th address of a `next` pointer. */
  function Slot(nodes: seq<Node>, k: nat): Node?
    requires k <= |nodes|
  {
    if k == 0 then null else nodes[k-1]
  }

  /** What it holds. */
  function At(nodes: seq<Node>, k: nat): Node?
    requires k <= |nodes|
  {
    if k == |nodes| then null else nodes[k]
  }

  lemma SlotUnique(nodes: seq<Node>, a: nat, b: nat)
    requires NoDup(nodes) && a <= |nodes| && b <= |nodes|
    ensures Slot(nodes, a) == Slot(nodes, b) <==> a == b
  {}

  lemma AtUnique(nodes: seq<Node>, a: nat, b: nat)
    requires NoDup(nodes) && a <= |nodes| && b <= |nodes|
    ensures At(nodes, a) == At(nodes, b) <==> a == b
  {}

  /** The `next` pointer of a node is the slot after the one that holds it. */
  lemma SlotNext(nodes: seq<Node>, k: nat)
    requires k <= |nodes|
    ensures Slot(nodes, 0) == null
    ensures k < |nodes| ==> At(nodes, k) == nodes[k] == Slot(nodes, k + 1)
  {}

  lemma SlotInsert(nodes: seq<Node>, j: nat, p: Node, k: nat)
    requires j <= |nodes| && k <= |nodes|
    ensures var t := InsertAt(nodes, j, p);
      && (k <= j ==> Slot(t, k) == Slot(nodes, k))
      && (k > j ==> Slot(t, k + 1) == Slot(nodes, k))
      && Slot(t, j + 1) == p
  {}

  lemma AtInsert(nodes: seq<Node>, j: nat, p: Node, k: nat)
    requires j <= |nodes| && k <= |nodes|
    ensures var t := InsertAt(nodes, j, p);
      && (k < j ==> At(t, k) == At(nodes, k))
      && (k >= j ==> At(t, k + 1) == At(nodes, k))
      && At(t, j) == p
  {}

  lemma SlotRemove(nodes: seq<Node>, j: nat, k: nat)
    requires j < |nodes| && k <= |nodes|
    ensures var t := RemoveAt(nodes, j);
      && (k <= j ==> Slot(t, k) == Slot(nodes, k))
      && (k > j + 1 ==> Slot(t, k - 1) == Slot(nodes, k))
      && Slot(t, j) == Slot(nodes, j)
      && Slot(nodes, j + 1) == nodes[j]
  {}

  lemma AtRemove(nodes: seq<Node>, j: nat, k: nat)
    requires j < |nodes| && k <= |nodes|
    ensures var t := RemoveAt(nodes, j);
      && (k < j ==> At(t, k) == At(nodes, k))
      && (k > j ==> At(t, k - 1) == At(nodes, k))
      && At(t, j) == At(nodes, j + 1)
      && At(nodes, j) == nodes[j]
  {}

  function Datas(nodes: seq<Node>): seq<nat> {
    seq(|nodes|, i requires 0 <= i < |nodes| => nodes[i].data)
  }

  lemma InsertedAt(nodes: seq<Node>, j: nat, p: Node)
    requires j <= |nodes|
    ensures |InsertAt(nodes, j, p)| == |nodes| + 1 && InsertAt(nodes, j, p)[j] == p
  {}

  lemma DatasInsert(nodes: seq<Node>, j: nat, p: Node)
    requires j <= |nodes|
    ensures Datas(InsertAt(nodes, j, p)) == InsertAt(Datas(nodes), j, p.data)
  {}

  /** What the repair of an iterator amounts to when a node comes in. */
  lemma LinkedCursor(nodes: seq<Node>, c: Cursor, j: nat, p: Node)
    requires NoDup(nodes) && CursorOk(c, |nodes|) && j <= |nodes|
    ensures c.prev <= |nodes| && c.pos <= |nodes|
    ensures var (t, d) := (InsertAt(nodes, j, p), AfterInsert(c, j));
      && CursorOk(d, |t|) && d.prev <= |t| && d.pos <= |t|
      && Slot(t, d.prev) == (if Slot(nodes, c.prev) == Slot(nodes, j) then p else Slot(nodes, c.prev))
      && At(t, d.pos) == (if Slot(nodes, c.prev) != Slot(nodes, j) && At(nodes, c.pos) == At(nodes, j) then p else At(nodes, c.pos))
  {
    SlotUnique(nodes, c.prev, j);
    AtUnique(nodes, c.pos, j);
    SlotInsert(nodes, j, p, c.prev);
    AtInsert(nodes, j, p, c.pos);
    hide Slot, At, InsertAt, NoDup;
  }

  /** And when one goes. */
  lemma UnlinkedCursor(nodes: seq<Node>, c: Cursor, j: nat)
    requires NoDup(nodes) && CursorOk(c, |nodes|) && j < |nodes|
    ensures c.prev <= |nodes| && c.pos <= |nodes|
    ensures var (t, d, p) := (RemoveAt(nodes, j), AfterDelete(c, j), nodes[j]);
      && CursorOk(d, |t|) && d.prev <= |t| && d.pos <= |t|
      && Slot(t, d.prev) == (if At(nodes, c.pos) == p || Slot(nodes, c.prev) == p then Slot(nodes, j) else Slot(nodes, c.prev))
      && At(t, d.pos) == (if At(nodes, c.pos) == p then At(nodes, j + 1) else At(nodes, c.pos))
  {
    SlotUnique(nodes, c.prev, j + 1);
    AtUnique(nodes, c.pos, j);
    SlotRemove(nodes, j, c.prev);
    AtRemove(nodes, j, c.pos);
    hide Slot, At, RemoveAt, NoDup;
  }

  /** The nodes whose data does, or does not, match. */
  function Select(nodes: seq<Node>, f: nat -> bool, hit: bool): seq<Node> {
    if nodes == [] then []
    else
      var last := nodes[|nodes|-1];
      Select(nodes[..|nodes|-1], f, hit) + if f(last.data) == hit then [last] else []
  }

  /** How many of the first `a` nodes are kept. */
  function Kept(nodes: seq<Node>, a: nat, f: nat -> bool): nat
    requires a <= |nodes|
  {
    |Select(nodes[..a], f, false)|
  }

  /** Where index `k` of the original list is once the first `a` nodes have been looked at. */
  function Moved(nodes: seq<Node>, a: nat, k: nat, f: nat -> bool): nat
    requires a <= |nodes| && k <= |nodes|
  {
    if k <= a then Kept(nodes, k, f) else Kept(nodes, a, f) + k - a
  }

  /** What `list_delete_all` does to a cursor by then: one deletion after the other. */
  function AfterSweep(nodes: seq<Node>, a: nat, c: Cursor, f: nat -> bool): Cursor
    requires a <= |nodes|
  {
    if a == 0 then c else
      var d := AfterSweep(nodes, a - 1, c, f);
      if f(nodes[a-1].data) then AfterDelete(d, Kept(nodes, a - 1, f)) else d
  }

  /** And to a walk. */
  ghost function Swept(nodes: seq<Node>, a: nat, w: Walk<Node>, f: nat -> bool): Walk<Node>
    requires a <= |nodes|
  {
    if a == 0 then w else
      var d := Swept(nodes, a - 1, w, f);
      if f(nodes[a-1].data) then Try(d, Drop(Kept(nodes, a - 1, f))) else d
  }

  ghost function SweptAll(nodes: seq<Node>, a: nat, ws: Walks, f: nat -> bool): Walks
    requires a <= |nodes|
  {
    map it | it in ws :: Swept(nodes, a, ws[it], f)
  }

  lemma SweptNext(nodes: seq<Node>, a: nat, ws: Walks, f: nat -> bool)
    requires a < |nodes|
    ensures SweptAll(nodes, a + 1, ws, f) ==
      if f(nodes[a].data) then Stepped(SweptAll(nodes, a, ws, f), Drop(Kept(nodes, a, f))) else SweptAll(nodes, a, ws, f)
  {
    hide Try, Kept;
  }

  lemma SweptStart(nodes: seq<Node>, ws: Walks, f: nat -> bool)
    ensures SweptAll(nodes, 0, ws, f) == ws
  {}

  /** The next node to return keeps its place among the nodes that are kept. */
  lemma {:induction false} SweepPos(nodes: seq<Node>, a: nat, c: Cursor, f: nat -> bool)
    requires a <= |nodes| && CursorOk(c, |nodes|)
    ensures var d := AfterSweep(nodes, a, c, f);
      CursorOk(d, Kept(nodes, a, f) + |nodes| - a) && d.pos == Moved(nodes, a, c.pos, f)
  {
    hide Select;
    if a == 0 {
      KeptNone(nodes, f);
    } else {
      var d := AfterSweep(nodes, a - 1, c, f);
      SweepPos(nodes, a - 1, c, f);
      MovedNext(nodes, a - 1, c.pos, f, d, Kept(nodes, a - 1, f) + |nodes| - (a - 1));
      SelectNext(nodes, a - 1, f, false);
      CursorKept(d, Kept(nodes, a - 1, f) + |nodes| - (a - 1), Kept(nodes, a - 1, f));
    }
  }

  lemma KeptNone(nodes: seq<Node>, f: nat -> bool)
    ensures Kept(nodes, 0, f) == 0
  {}

  /** The list and the deleted data by then. */
  ghost predicate Looked(nodes: seq<Node>, gone: seq<nat>, was: seq<Node>, a: nat, f: nat -> bool) {
    && a <= |was| && nodes == Select(was[..a], f, false) + was[a..]
    && gone == Datas(Select(was[..a], f, true))
  }

  lemma SelectNext(nodes: seq<Node>, a: nat, f: nat -> bool, hit: bool)
    requires a < |nodes|
    ensures Select(nodes[..a+1], f, hit) == Select(nodes[..a], f, hit) + if f(nodes[a].data) == hit then [nodes[a]] else []
  {
    assert nodes[..a+1][..a] == nodes[..a];
  }

  lemma {:induction false} SelectMembers(nodes: seq<Node>, f: nat -> bool, hit: bool)
    ensures forall p :: p in Select(nodes, f, hit) ==> p in nodes
  {
    if nodes != [] { SelectMembers(nodes[..|nodes|-1], f, hit); }
  }

  lemma BeforeAppend(s: seq<Node>, z: Node, x: Node, y: Node)
    requires z !in s
    ensures Before(s + [z], x, y) <==> Before(s, x, y) || (x in s && y == z)
  {
    var t := s + [z];
    if Before(s, x, y) {
      var i, j :| 0 <= i < j < |s| && s[i] == x && s[j] == y;
      assert t[i] == x && t[j] == y;
    }
    if x in s && y == z {
      var i :| 0 <= i < |s| && s[i] == x;
      assert t[i] == x && t[|s|] == y;
    }
    if Before(t, x, y) {
      var i, j :| 0 <= i < j < |t| && t[i] == x && t[j] == y;
      assert s[i] == x;
    }
  }

  /** The selected nodes are exactly the matching ones, each once, in list order. */
  lemma {:induction false} SelectMeans(nodes: seq<Node>, f: nat -> bool, hit: bool, x: Node, y: Node)
    requires NoDup(nodes)
    ensures NoDup(Select(nodes, f, hit)) && (x in Select(nodes, f, hit) <==> x in nodes && f(x.data) == hit)
    ensures Before(Select(nodes, f, hit), x, y) <==> Before(nodes, x, y) && f(x.data) == hit && f(y.data) == hit
  {
    if nodes != [] {
      var (n, last) := (nodes[..|nodes|-1], nodes[|nodes|-1]);
      assert nodes == n + [last] && NoDup(n) && last !in n;
      SelectMeans(n, f, hit, x, y);
      SelectMeans(n, f, hit, last, y);
      BeforeAppend(n, last, x, y);
      BeforeAppend(Select(n, f, hit), last, x, y);
      if f(last.data) == hit {
        assert Select(nodes, f, hit) == Select(n, f, hit) + [last];
        assert NoDup(Select(n, f, hit) + [last]);
      } else {
        assert Select(nodes, f, hit) == Select(n, f, hit);
      }
    }
  }

  lemma {:induction false} KeptGrows(nodes: seq<Node>, k: nat, a: nat, f: nat -> bool)
    requires k <= a <= |nodes|
    ensures Kept(nodes, k, f) <= Kept(nodes, a, f)
    decreases a
  {
    if k < a { KeptGrows(nodes, k, a - 1, f); SelectNext(nodes, a - 1, f, false); }
  }

  /** Looking at one more node moves every index the way a deletion moves a cursor. */
  lemma MovedNext(nodes: seq<Node>, a: nat, k: nat, f: nat -> bool, c: Cursor, n: nat)
    requires a < |nodes| && k <= |nodes| && CursorOk(c, n) && c.pos == Moved(nodes, a, k, f)
    ensures Moved(nodes, a + 1, k, f) == if f(nodes[a].data) then AfterDelete(c, Kept(nodes, a, f)).pos else c.pos
  {
    SelectNext(nodes, a, f, false);
    if k <= a { KeptGrows(nodes, k, a, f); }
  }

  lemma LookedFacts(nodes: seq<Node>, gone: seq<nat>, was: seq<Node>, a: nat, f: nat -> bool)
    requires Looked(nodes, gone, was, a, f)
    ensures a <= |was| && |nodes| == Kept(was, a, f) + |was| - a
    ensures forall k :: 0 <= k < |nodes| ==> nodes[k] in was
  {
    var kept := Select(was[..a], f, false);
    SelectMembers(was[..a], f, false);
    forall k | 0 <= k < |nodes| ensures nodes[k] in was {
      if k < |kept| { assert nodes[k] in kept; }
    }
  }

  lemma LookedStart(was: seq<Node>, f: nat -> bool)
    ensures Looked(was, [], was, 0, f) && Kept(was, 0, f) == 0
    ensures forall k :: 0 <= k <= |was| ==> Moved(was, 0, k, f) == k
  {
    assert was[..0] == [];
  }

  lemma LookedEnd(nodes: seq<Node>, gone: seq<nat>, was: seq<Node>, f: nat -> bool)
    requires Looked(nodes, gone, was, |was|, f)
    ensures nodes == Select(was, f, false) && gone == Datas(Select(was, f, true))
    ensures forall k :: 0 <= k <= |was| ==> Moved(was, |was|, k, f) == |Select(was[..k], f, false)|
  {
    assert was[..|was|] == was;
  }

  lemma LookedNext(nodes: seq<Node>, gone: seq<nat>, was: seq<Node>, a: nat, f: nat -> bool)
    requires Looked(nodes, gone, was, a, f) && a < |was|
    ensures var j := Kept(was, a, f);
      && j < |nodes| && nodes[j] == was[a]
      && (f(was[a].data) ==> Looked(RemoveAt(nodes, j), gone + [was[a].data], was, a + 1, f) && Kept(was, a + 1, f) == j)
      && (!f(was[a].data) ==> Looked(nodes, gone, was, a + 1, f) && Kept(was, a + 1, f) == j + 1)
  {
    SelectNext(was, a, f, false);
    SelectNext(was, a, f, true);
    hide Select;
    assert was[a..] == [was[a]] + was[a+1..];
  }

  ghost predicate Chain(head: Node?, nodes: seq<Node>)
    reads nodes
  {
    head == At(nodes, 0) && forall k :: 0 <= k < |nodes| ==> nodes[k].next == At(nodes, k + 1)
  }

  lemma ChainInsert(head: Node?, nodes: seq<Node>, j: nat, p: Node)
    requires j <= |nodes| && p !in nodes && p.next == At(nodes, j)
    requires forall k :: 0 <= k < |nodes| && k != j - 1 ==> nodes[k].next == At(nodes, k + 1)
    requires head == (if j == 0 then p else At(nodes, 0)) && (j > 0 ==> nodes[j-1].next == p)
    ensures Chain(head, InsertAt(nodes, j, p))
  {
    var t := InsertAt(nodes, j, p);
    AtInsert(nodes, j, p, 0);
    forall k | 0 <= k < |t| ensures t[k].next == At(t, k + 1) {
      if k < j { assert t[k] == nodes[k]; AtInsert(nodes, j, p, k + 1); }
      if k > j { assert t[k] == nodes[k-1]; AtInsert(nodes, j, p, k); }
      if k == j { AtInsert(nodes, j, p, k); }
    }
  }

  lemma ChainRemove(head: Node?, nodes: seq<Node>, j: nat)
    requires j < |nodes|
    requires forall k :: 0 <= k < |nodes| && k != j - 1 ==> nodes[k].next == At(nodes, k + 1)
    requires head == (if j == 0 then At(nodes, 1) else nodes[0]) && (j > 0 ==> nodes[j-1].next == At(nodes, j + 1))
    ensures Chain(head, RemoveAt(nodes, j))
  {
    var t := RemoveAt(nodes, j);
    AtRemove(nodes, j, 0);
    forall k | 0 <= k < |t| ensures t[k].next == At(t, k + 1) {
      if k < j { assert t[k] == nodes[k]; AtRemove(nodes, j, k + 1); }
      if k >= j { assert t[k] == nodes[k+1]; AtRemove(nodes, j, k + 2); }
    }
  }

  /** The item at index `i` goes up to index `k`. */
  function MoveTo<T>(s: seq<T>, i: nat, k: nat): (r: seq<T>)
    requires k < i < |s|
    ensures |r| == |s|
  {
    s[..k] + [s[i]] + s[k..i] + s[i+1..]
  }

  lemma MoveAt<T>(s: seq<T>, i: nat, k: nat, m: nat)
    requires k < i < |s| && m < |s|
    ensures MoveTo(s, i, k)[m] == s[if m < k || m > i then m else if m == k then i else m - 1]
  {}

  lemma MoveNoDup(s: seq<Node>, i: nat, k: nat)
    requires k < i < |s| && NoDup(s)
    ensures NoDup(MoveTo(s, i, k))
  {
    var t := MoveTo(s, i, k);
    forall a, b | 0 <= a < b < |t| ensures t[a] != t[b] {
      MoveAt(s, i, k, a);
      MoveAt(s, i, k, b);
      hide MoveTo;
    }
  }

  lemma ChainMove(head: Node?, s: seq<Node>, i: nat, k: nat)
    requires k < i < |s|
    requires forall m :: 0 <= m < |s| && m != k - 1 && m != i - 1 && m != i ==> s[m].next == At(s, m + 1)
    requires s[i].next == s[k] && s[i-1].next == At(s, i + 1)
    requires head == (if k == 0 then s[i] else s[0]) && (k > 0 ==> s[k-1].next == s[i])
    ensures Chain(head, MoveTo(s, i, k))
  {
    var t := MoveTo(s, i, k);
    MoveAt(s, i, k, 0);
    forall m | 0 <= m < |t| ensures t[m].next == At(t, m + 1) {
      MoveAt(s, i, k, m);
      if m + 1 < |t| { MoveAt(s, i, k, m + 1); }
      hide MoveTo;
    }
  }

  /** Where the inner loop stops is the place the specification names. */
  lemma PlaceIs(s: seq<nat>, x: nat, f: Cmp, k: nat)
    requires k < |s| && Less(f, x, s[k])
    requires forall q :: 0 <= q < k ==> !Less(f, x, s[q])
    ensures Place(s, x, f) == k
  {}

  /** The outer loop has put the first `i` items of `d` in order. */
  ghost predicate Sorting(cur: seq<nat>, d: seq<nat>, i: nat, f: Cmp) {
    i <= |d| && cur == Sort(d[..i], f) + d[i..]
  }

  lemma SortingNext(cur: seq<nat>, d: seq<nat>, i: nat, f: Cmp)
    requires Sorting(cur, d, i, f) && 0 < i < |cur|
    ensures |cur| == |d|
    ensures !Less(f, cur[i], cur[i-1]) ==> Sorting(cur, d, i + 1, f)
    ensures Less(f, cur[i], cur[i-1]) ==>
      var k := Place(cur[..i], cur[i], f); k < i && Sorting(MoveTo(cur, i, k), d, i + 1, f)
  {
    hide Sort, Place;
    var s, x := Sort(d[..i], f), d[i];
    SortUnfold(d, i, f);
    assert cur == s + [x] + d[i+1..] by { assert d[i..] == [x] + d[i+1..]; }
    PutMoves(s, x, d[i+1..], f);
    assert cur[..i] == s && cur[i] == x;
    hide MoveTo, Put;
  }

  /** Putting the next item into the sorted part moves it up to its place, or leaves it. */
  lemma PutMoves(s: seq<nat>, x: nat, rest: seq<nat>, f: Cmp)
    requires s != []
    ensures !Less(f, x, s[|s|-1]) ==> Put(s, x, f) + rest == s + [x] + rest
    ensures Less(f, x, s[|s|-1]) ==>
      var k := Place(s, x, f); k < |s| && Put(s, x, f) + rest == MoveTo(s + [x] + rest, |s|, k)
  {
    hide Place, MoveTo;
    var k := Place(s, x, f);
    if Less(f, x, s[|s|-1]) { MoveConcat(s, x, rest, k); }
  }

  lemma MoveConcat(s: seq<nat>, x: nat, rest: seq<nat>, k: nat)
    requires k < |s|
    ensures MoveTo(s + [x] + rest, |s|, k) == InsertAt(s, k, x) + rest
  {
    var t := s + [x] + rest;
    assert t[..k] == s[..k] && t[k..|s|] == s[k..] && t[|s|+1..] == rest;
  }

  lemma SortUnfold(d: seq<nat>, i: nat, f: Cmp)
    requires i < |d|
    ensures Sort(d[..i+1], f) == Put(Sort(d[..i], f), d[i], f)
  {
    assert d[..i+1][..i] == d[..i];
  }

  lemma SortOne(d: seq<nat>, f: Cmp)
    requires |d| <= 1
    ensures Sort(d, f) == d
  {
    if d != [] { assert d[..0] == [] && Sort(d[..0], f) == []; }
  }

  lemma SortingEnds(d: seq<nat>, cur: seq<nat>, f: Cmp)
    ensures |d| > 0 ==> Sorting(d, d, 1, f)
    ensures Sorting(cur, d, |d|, f) ==> cur == Sort(d, f)
    ensures |d| <= 1 ==> Sort(d, f) == d
  {
    hide Sort;
    assert d[..|d|] == d;
    if |d| > 0 {
      SortOne(d[..1], f);
      assert d == d[..1] + d[1..];
    }
    if |d| <= 1 { SortOne(d, f); }
  }

  lemma DatasMove(nodes: seq<Node>, i: nat, k: nat)
    requires k < i < |nodes|
    ensures Datas(MoveTo(nodes, i, k)) == MoveTo(Datas(nodes), i, k)
  {
    forall m | 0 <= m < |nodes| ensures MoveTo(nodes, i, k)[m].data == MoveTo(Datas(nodes), i, k)[m] {
      MoveAt(nodes, i, k, m);
      MoveAt(Datas(nodes), i, k, m);
      hide MoveTo;
    }
  }

  lemma MoveMembers(nodes: seq<Node>, i: nat, k: nat)
    requires k < i < |nodes|
    ensures forall m :: 0 <= m < |nodes| ==> MoveTo(nodes, i, k)[m] in nodes
  {}

  /** The slots around a moved node. */
  lemma SlotMove(nodes: seq<Node>, i: nat, k: nat)
    requires k < i < |nodes|
    ensures var t := MoveTo(nodes, i, k);
      && Slot(t, i + 1) == Slot(nodes, i)
      && (k < i - 1 ==> Slot(t, i) == Slot(nodes, i - 1))
      && (k == i - 1 ==> Slot(t, i) == nodes[i] && Slot(t, i - 1) == Slot(nodes, i - 1) && At(t, i - 1) == nodes[i])
  {}

  // ---------------------------------------------------------------- traversals

  type Walks = map<ListIterator, Walk<Node>>
  type Starts = map<ListIterator, seq<Node>>

  /** The walk of an iterator just created or reset. */
  ghost function Restarted(nodes: seq<Node>): Walk<Node> {
    Walk(nodes, Cursor(0, 0), [], (set x | x in nodes), No)
  }

  /** Every walk takes the same step. */
  ghost function Stepped(ws: Walks, st: Step<Node>): Walks {
    map it | it in ws :: Try(ws[it], st)
  }

  /** Every node some walk has known. */
  ghost function Seen(ws: Walks): set<Node> { set it, q | it in ws && q in ws[it].ever :: q }

  lemma SeenFacts(ws: Walks)
    ensures forall it, q :: it in ws && q in ws[it].ever ==> q in Seen(ws)
  {}

  /** Every iterator's walk is on the list and keeps the traversal invariant. */
  ghost predicate Following(its: seq<ListIterator>, ws: Walks, ss: Starts, nodes: seq<Node>) {
    forall it :: it in its ==> it in ws && it in ss && ws[it].nodes == nodes && WalkInv(ws[it], ss[it])
  }

  lemma FollowInsert(its: seq<ListIterator>, ws: Walks, ss: Starts, nodes: seq<Node>, j: nat, p: Node)
    requires Following(its, ws, ss, nodes) && j <= |nodes|
    requires forall it :: it in its ==> p !in ws[it].ever
    ensures var t := Stepped(ws, Insert(j, p));
      && Following(its, t, ss, InsertAt(nodes, j, p))
      && forall it :: it in its ==> it in t && t[it].cur == AfterInsert(ws[it].cur, j)
  {
    forall it | it in its ensures WalkInv(Stepped(ws, Insert(j, p))[it], ss[it]) { InsertInv(ws[it], j, p, ss[it]); }
    hide WalkInv;
  }

  lemma FollowDrop(its: seq<ListIterator>, ws: Walks, ss: Starts, nodes: seq<Node>, j: nat)
    requires Following(its, ws, ss, nodes) && j < |nodes|
    ensures var t := Stepped(ws, Drop(j));
      && Following(its, t, ss, RemoveAt(nodes, j))
      && forall it :: it in its ==> it in t && t[it].cur == AfterDelete(ws[it].cur, j)
  {
    forall it | it in its ensures WalkInv(Stepped(ws, Drop(j))[it], ss[it]) { DeleteInv(ws[it], j, ss[it]); }
    hide WalkInv;
  }

  lemma FollowNext(its: seq<ListIterator>, ws: Walks, ss: Starts, nodes: seq<Node>, it: ListIterator)
    requires Following(its, ws, ss, nodes) && it in its
    ensures var t := ws[it := Apply(ws[it], ListCursor.Next)];
      && Following(its, t, ss, nodes) && t[it].cur == AfterNext(ws[it].cur, |nodes|)
      && t[it].ret == ws[it].ret + if ws[it].cur.pos < |nodes| then [nodes[ws[it].cur.pos]] else []
  {
    NextInv(ws[it], ss[it]);
    hide WalkInv;
  }

  lemma FollowRestart(its: seq<ListIterator>, ws: Walks, ss: Starts, nodes: seq<Node>, it: ListIterator)
    requires Following(its, ws, ss, nodes) && NoDup(nodes)
    ensures Following([it] + its, ws[it := Restarted(nodes)], ss[it := nodes], nodes)
    ensures Following(its, ws[it := Restarted(nodes)], ss[it := nodes], nodes)
  {
    BegunInv(Restarted(nodes));
    hide WalkInv;
  }

  ghost function RestartAll(ws: Walks, nodes: seq<Node>): Walks { map it | it in ws :: Restarted(nodes) }

  lemma FollowAnew(its: seq<ListIterator>, ws: Walks, ss: Starts, was: seq<Node>, nodes: seq<Node>)
    requires Following(its, ws, ss, was) && NoDup(nodes)
    ensures var (t, u) := (RestartAll(ws, nodes), map it | it in ss :: nodes);
      && Following(its, t, u, nodes)
      && forall it :: it in its ==> it in t && t[it] == Restarted(nodes) && it in u && u[it] == nodes
  {
    BegunInv(Restarted(nodes));
    hide WalkInv;
  }

  lemma RestartedFacts(nodes: seq<Node>)
    ensures Restarted(nodes).cur == Cursor(0, 0)
  {}

  lemma FollowFewer(its: seq<ListIterator>, fewer: seq<ListIterator>, ws: Walks, ss: Starts, nodes: seq<Node>)
    requires Following(its, ws, ss, nodes) && forall it :: it in fewer ==> it in its
    ensures Following(fewer, ws, ss, nodes)
  {
    hide WalkInv;
  }

  lemma RetGrows(r: seq<Node>, nodes: seq<Node>, p: nat, k: nat)
    requires p <= k <= |nodes|
    ensures k < |nodes| ==> r + nodes[p..k] + [nodes[k]] == r + nodes[p..k+1]
    ensures r + nodes[p..k] + [] == r + nodes[p..k]
  {}

  lemma AfterNextPos(c: Cursor, n: nat)
    ensures AfterNext(c, n).pos == if c.pos < n then c.pos + 1 else c.pos
  {}

  lemma DatasLength(nodes: seq<Node>)
    ensures |Datas(nodes)| == |nodes|
  {}

  class List {
    var head: Node?
    var tail: Node?
    var count: int
    var iters: seq<ListIterator>
    ghost var nodes: seq<Node>
    ghost var walks: Walks
    ghost var starts: Starts

    ghost predicate Linked()
      reads `head, `tail, `count, `nodes, nodes
    {
      Chain(head, nodes) && NoDup(nodes) && tail == Slot(nodes, |nodes|) && count == |nodes|
    }

    /** The list is linked and every iterator points into it. */
    ghost predicate Wired()
      reads `head, `tail, `count, `nodes, `iters, nodes, iters
    {
      Linked() && NoDup(iters) && forall it :: it in iters ==> it.On(nodes)
    }

    /** Every iterator is where its walk has got to. */
    ghost predicate Walked()
      reads this, iters
    {
      Following(iters, walks, starts, nodes) && forall it :: it in iters ==> walks[it].cur == it.cur
    }

    ghost predicate Valid()
      reads this, nodes, iters
    {
      Wired() && Walked()
    }

    lemma ValidFacts()
      requires Valid()
      ensures Wired() && Walked()
    {}

    lemma WiredFacts()
      requires Wired()
      ensures Linked() && Chain(head, nodes) && NoDup(nodes) && NoDup(iters) && count == |nodes|
      ensures forall it :: it in iters ==> it.On(nodes) && it.cur.prev <= |nodes| && it.cur.pos <= |nodes|
    {}

    lemma WiredMade()
      requires Linked() && NoDup(iters) && forall it :: it in iters ==> it.On(nodes)
      ensures Wired()
    {}

    lemma ValidMade()
      requires Wired() && Walked()
      ensures Valid()
    {}

    lemma WalkedFacts()
      requires Walked()
      ensures Following(iters, walks, starts, nodes) && forall it :: it in iters ==> it in walks && walks[it].cur == it.cur
    {}

    lemma WalkedMade()
      requires Following(iters, walks, starts, nodes) && forall it :: it in iters ==> it in walks && walks[it].cur == it.cur
      ensures Walked()
    {}

    /** No iterator has moved. */
    twostate predicate Unmoved(its: seq<ListIterator>)
      reads its
    {
      forall it :: it in its ==> it.cur == old(it.cur)
    }

    /** Nothing happened to the list or to any iterator. */
    twostate predicate Untouched()
      reads this, iters
      requires iters == old(iters)
    {
      nodes == old(nodes) && walks == old(walks) && Unmoved(iters)
    }

    /** One new node holds `x` at index `j`, the others are the same nodes, and every iterator was told. */
    twostate predicate Inserted(j: nat, x: nat)
      reads this, iters
      requires iters == old(iters)
    {
      && j <= |old(nodes)| && |nodes| == |old(nodes)| + 1
      && nodes[j].data == x && nodes == InsertAt(old(nodes), j, nodes[j])
      && walks == Stepped(old(walks), ListCursor.Insert(j, nodes[j]))
      && forall it :: it in iters ==> it.cur == AfterInsert(old(it.cur), j)
    }

    /** The node at index `j` is gone, and every iterator was told. */
    twostate predicate Removed(j: nat)
      reads this, iters
      requires iters == old(iters)
    {
      && j < |old(nodes)| && nodes == RemoveAt(old(nodes), j)
      && walks == Stepped(old(walks), Drop(j))
      && forall it :: it in iters ==> it.cur == AfterDelete(old(it.cur), j)
    }

    /** `list_create` */
    constructor ()
      ensures Valid() && nodes == [] && iters == []
    {
      head, tail, count, iters, nodes := null, null, 0, [], [];
      walks, starts := map[], map[];
    }

    /** `*pp` */
    function Deref(pp: Node?): Node?
      reads this, pp
    {
      if pp == null then head else pp.next
    }

    lemma DerefSlot(k: nat)
      requires Chain(head, nodes) && k <= |nodes|
      ensures Deref(Slot(nodes, k)) == At(nodes, k)
    {}

    /** `list_node_create` up to its loop. */
    method Link(pp: Node?, x: nat, ghost j: nat) returns (p: Node)
      requires Linked() && j <= |nodes| && pp == Slot(nodes, j)
      modifies this`head, this`tail, this`count, this`nodes, nodes
      ensures Linked() && nodes == InsertAt(old(nodes), j, p) && fresh(p)
      ensures p.data == x && p.next == At(old(nodes), j)
    {
      p := new Node(x, Deref(pp));
      if p.next == null { tail := p; }
      if pp == null { head := p; } else { pp.next := p; }
      count := count + 1;
      InsertNoDup(nodes, j, p);
      ghost var was := nodes;
      nodes := InsertAt(nodes, j, p);
      ChainInsert(head, was, j, p);
    }

    /** `list_node_create`: a new node at index `j`, or nothing when there is no memory. */
    method NodeCreate(pp: Node?, x: nat, mem: bool, ghost j: nat) returns (v: Option<nat>)
      requires Valid() && j <= |nodes| && pp == Slot(nodes, j)
      modifies this`head, this`tail, this`count, this`nodes, this`walks, nodes, iters
      ensures Valid() && iters == old(iters)
      ensures !mem ==> v == None && Untouched()
      ensures mem ==> v == Some(x) && Inserted(j, x) && fresh(nodes[j])
      ensures mem ==> Datas(nodes) == InsertAt(Datas(old(nodes)), j, x)
    {
      hide Valid, Wired, Walked, Following, Stepped, Datas, Slot, At, Seen, InsertAt, AfterInsert;
      ValidFacts();
      WalkedFacts();
      if !mem {
        UntouchedMade();
        return None;
      }
      ghost var was, ws := nodes, walks;
      var p := LinkIn(pp, x, j, Seen(walks));
      SeenFacts(ws);
      FollowInsert(iters, ws, starts, was, j, p);
      walks := Stepped(walks, ListCursor.Insert(j, p));
      WalkedMade();
      ValidMade();
      InsertedAt(was, j, p);
      v := Some(x);
    }

    /** The new node is linked in and every iterator repaired. */
    method LinkIn(pp: Node?, x: nat, ghost j: nat, ghost seen: set<Node>) returns (p: Node)
      requires Wired() && j <= |nodes| && pp == Slot(nodes, j)
      modifies this`head, this`tail, this`count, this`nodes, nodes, iters
      ensures Wired() && iters == old(iters) && fresh(p) && p !in seen && p.data == x
      ensures nodes == InsertAt(old(nodes), j, p) && Datas(nodes) == InsertAt(Datas(old(nodes)), j, x)
      ensures forall it :: it in iters ==> it.cur == AfterInsert(old(it.cur), j)
    {
      hide InsertAt, Chain, Slot, At;
      ghost var was := nodes;
      p := Link(pp, x, j);
      DatasInsert(was, j, p);
      for k := 0 to |iters|
        modifies iters
        invariant forall i :: 0 <= i < k ==> iters[i].cur == AfterInsert(old(iters[i].cur), j) && iters[i].On(nodes)
        invariant forall i :: k <= i < |iters| ==> iters[i].cur == old(iters[i].cur) && iters[i].On(was)
      {
        iters[k].NodeLinked(pp, p, was, j);
      }
    }

    /** `list_node_destroy` up to its loop. */
    method UnlinkNode(pp: Node?, ghost j: nat) returns (p: Node)
      requires Linked() && j < |nodes| && pp == Slot(nodes, j)
      modifies this`head, this`tail, this`count, this`nodes, nodes
      ensures Linked() && nodes == RemoveAt(old(nodes), j)
      ensures p == old(nodes)[j] && p.next == At(old(nodes), j + 1)
    {
      hide *;
      LinkedMeans();
      DerefSlot(j);
      SlotNext(nodes, j);
      p := Deref(pp);
      Bypass(pp, p, j);
      ghost var was := nodes;
      nodes := RemoveAt(nodes, j);
      ChainRemove(head, was, j);
      RemoveMembers(was, j);
      LinkedMade();
    }

    lemma LinkedMeans()
      requires Linked()
      ensures Chain(head, nodes) && NoDup(nodes) && tail == Slot(nodes, |nodes|) && count == |nodes|
    {}

    lemma LinkedMade()
      requires Chain(head, nodes) && NoDup(nodes) && tail == Slot(nodes, |nodes|) && count == |nodes|
      ensures Linked()
    {}

    /** The writes of `list_node_destroy`: past the node at index `j`. */
    method Bypass(pp: Node?, p: Node, ghost j: nat)
      requires Linked() && j < |nodes| && pp == Slot(nodes, j) && p == nodes[j]
      modifies this`head, this`tail, this`count, nodes
      ensures forall k :: 0 <= k < |nodes| && k != j - 1 ==> nodes[k].next == At(nodes, k + 1)
      ensures head == (if j == 0 then At(nodes, 1) else nodes[0]) && (j > 0 ==> nodes[j-1].next == At(nodes, j + 1))
      ensures tail == Slot(RemoveAt(nodes, j), |nodes| - 1) && count == |nodes| - 1
    {
      SlotRemove(nodes, j, |nodes|);
      hide RemoveAt, Slot;
      var q := p.next;
      if pp == null { head := q; } else { pp.next := q; }
      if q == null { tail := pp; }
      count := count - 1;
    }

    /** `list_node_destroy`: the node at index `j` goes, or nothing happens at the end of the list. */
    method NodeDestroy(pp: Node?, ghost j: nat) returns (v: Option<nat>)
      requires Valid() && j <= |nodes| && pp == Slot(nodes, j)
      modifies this`head, this`tail, this`count, this`nodes, this`walks, nodes, iters
      ensures Valid() && iters == old(iters)
      ensures j == old(|nodes|) ==> v == None && Untouched()
      ensures j < old(|nodes|) ==> v == Some(old(nodes)[j].data) && Removed(j)
    {
      hide *;
      ValidFacts();
      WalkedFacts();
      WiredFacts();
      AtEndOrNot(j);
      if Deref(pp) == null {
        UntouchedMade();
        return None;
      }
      ghost var was, ws := nodes, walks;
      var p := LinkOut(pp, j);
      v := Some(p.data);
      FollowDrop(iters, ws, starts, was, j);
      walks := Stepped(walks, Drop(j));
      WalkedMade();
      ValidMade();
      RemovedMade(j);
    }

    twostate lemma UntouchedMade()
      requires iters == old(iters) && nodes == old(nodes) && walks == old(walks)
      requires forall it :: it in iters ==> it.cur == old(it.cur)
      ensures Untouched()
    {}

    twostate lemma RemovedMade(j: nat)
      requires iters == old(iters) && j < |old(nodes)| && nodes == RemoveAt(old(nodes), j)
      requires walks == Stepped(old(walks), Drop(j))
      requires forall it :: it in iters ==> it.cur == AfterDelete(old(it.cur), j)
      ensures Removed(j)
    {}

    /** The node is unlinked and every iterator repaired. */
    method LinkOut(pp: Node?, ghost j: nat) returns (p: Node)
      requires Wired() && j < |nodes| && pp == Slot(nodes, j)
      modifies this`head, this`tail, this`count, this`nodes, nodes, iters
      ensures Wired() && iters == old(iters) && p == old(nodes)[j] && nodes == RemoveAt(old(nodes), j)
      ensures forall it :: it in iters ==> it.cur == AfterDelete(old(it.cur), j)
    {
      hide Chain, Slot, At, RemoveAt;
      ghost var was := nodes;
      p := UnlinkNode(pp, j);
      RepairAll(pp, p, was, j);
    }

    lemma AtEndOrNot(j: nat)
      requires Chain(head, nodes) && j <= |nodes|
      ensures Deref(Slot(nodes, j)) == null <==> j == |nodes|
    {}

    /** The loop of `list_node_destroy`. */
    method RepairAll(pp: Node?, p: Node, ghost was: seq<Node>, ghost j: nat)
      requires NoDup(was) && j < |was| && NoDup(iters) && forall it :: it in iters ==> it.On(was)
      requires pp == Slot(was, j) && p == was[j] && p.next == At(was, j + 1)
      modifies iters
      ensures forall it :: it in iters ==> it.On(RemoveAt(was, j)) && it.cur == AfterDelete(old(it.cur), j)
    {
      hide Slot, At, RemoveAt, AfterDelete;
      for k := 0 to |iters|
        invariant forall i :: 0 <= i < k ==> iters[i].cur == AfterDelete(old(iters[i].cur), j) && iters[i].On(RemoveAt(was, j))
        invariant forall i :: k <= i < |iters| ==> iters[i].cur == old(iters[i].cur) && iters[i].On(was)
      {
        iters[k].NodeUnlinked(pp, p, was, j);
      }
    }

    // -------------------------------------------------------------- both ends

    /** `list_append`, `list_enqueue` */
    method Append(x: nat, mem: bool) returns (v: Option<nat>)
      requires Valid()
      modifies this`head, this`tail, this`count, this`nodes, this`walks, nodes, iters
      ensures Valid() && iters == old(iters)
      ensures v == if mem then Some(x) else None
      ensures if mem then Inserted(|old(nodes)|, x) && fresh(nodes[|old(nodes)|]) else Untouched()
      ensures Datas(nodes) == Datas(old(nodes)) + if mem then [x] else []
    {
      v := NodeCreate(tail, x, mem, |nodes|);
    }

    /** `list_prepend`, `list_push` */
    method Push(x: nat, mem: bool) returns (v: Option<nat>)
      requires Valid()
      modifies this`head, this`tail, this`count, this`nodes, this`walks, nodes, iters
      ensures Valid() && iters == old(iters)
      ensures v == if mem then Some(x) else None
      ensures if mem then Inserted(0, x) && fresh(nodes[0]) else Untouched()
      ensures Datas(nodes) == (if mem then [x] else []) + Datas(old(nodes))
    {
      v := NodeCreate(null, x, mem, 0);
    }

    /** `list_pop`, `list_dequeue` */
    method Pop() returns (v: Option<nat>)
      requires Valid()
      modifies this`head, this`tail, this`count, this`nodes, this`walks, nodes, iters
      ensures Valid() && iters == old(iters)
      ensures old(nodes) == [] ==> v == None && Untouched()
      ensures old(nodes) != [] ==> v == Some(old(nodes)[0].data) && nodes == old(nodes)[1..] && Removed(0)
    {
      v := NodeDestroy(null, 0);
    }

    // -------------------------------------------------------------- iterators

    /** `list_iterator_create` */
    method IteratorCreate() returns (it: ListIterator)
      requires Valid()
      modifies this`iters, this`walks, this`starts
      ensures Valid() && fresh(it) && it.cur == Cursor(0, 0) && iters == [it] + old(iters)
      ensures walks == old(walks)[it := Restarted(nodes)] && starts == old(starts)[it := nodes]
    {
      hide *;
      ValidFacts();
      WalkedFacts();
      WiredFacts();
      it := new ListIterator(head);
      FreshOn(it);
      PrependFacts(iters, it);
      FollowRestart(iters, walks, starts, nodes, it);
      iters := [it] + iters;
      walks, starts := walks[it := Restarted(nodes)], starts[it := nodes];
      RestartedFacts(nodes);
      WalkedMade();
      WiredMade();
      ValidMade();
    }

    lemma FreshOn(it: ListIterator)
      requires Chain(head, nodes) && it.pos == head && it.prev == null && it.cur == Cursor(0, 0)
      ensures it.On(nodes)
    {
      SlotNext(nodes, 0);
    }

    /** `list_iterator_reset` */
    method IteratorReset(it: ListIterator)
      requires Valid() && it in iters
      modifies it, this`walks, this`starts
      ensures Valid() && it.cur == Cursor(0, 0)
      ensures walks == old(walks)[it := Restarted(nodes)] && starts == old(starts)[it := nodes]
    {
      hide *;
      ValidFacts();
      WalkedFacts();
      WiredFacts();
      FollowRestart(iters, walks, starts, nodes, it);
      it.pos, it.prev, it.cur := head, null, Cursor(0, 0);
      FreshOn(it);
      walks, starts := walks[it := Restarted(nodes)], starts[it := nodes];
      RestartedFacts(nodes);
      WalkedMade();
      WiredMade();
      ValidMade();
    }

    /** `list_iterator_destroy` */
    method IteratorDestroy(it: ListIterator)
      requires Valid() && it in iters
      modifies this`iters
      ensures Valid() && iters == Delete(old(iters), it) && it !in iters
    {
      hide Valid, Wired, Walked, Following, NoDup, Linked, ListIterator.On;
      ValidFacts();
      WalkedFacts();
      WiredFacts();
      DeleteFacts(iters, it);
      ghost var was := iters;
      iters := Unlink(iters, it);
      FollowFewer(was, iters, walks, starts, nodes);
      WalkedMade();
      WiredMade();
      ValidMade();
    }

    /** `list_next`: the node returned is added to the walk. */
    method Next(it: ListIterator) returns (v: Option<nat>)
      requires Valid() && it in iters
      modifies it, this`walks
      ensures Valid() && it.cur == AfterNext(old(it.cur), |nodes|) && it.cur.pos <= |nodes|
      ensures v == if old(it.cur.pos) < |nodes| then Some(nodes[old(it.cur.pos)].data) else None
      ensures it in old(walks) && walks == old(walks)[it := Apply(old(walks)[it], ListCursor.Next)]
      ensures walks[it].ret == old(walks)[it].ret + if v.Some? then [nodes[old(it.cur.pos)]] else []
    {
      hide Valid, Wired, Walked, Following, Apply, AfterNext;
      ValidFacts();
      WalkedFacts();
      FollowNext(iters, walks, starts, nodes, it);
      v := NextWired(it);
      walks := walks[it := Apply(walks[it], ListCursor.Next)];
      WalkedMade();
      ValidMade();
    }

    method NextWired(it: ListIterator) returns (v: Option<nat>)
      requires Wired() && it in iters
      modifies it
      ensures Wired() && it.cur == AfterNext(old(it.cur), |nodes|) && it.cur.pos <= |nodes|
      ensures v == if old(it.cur.pos) < |nodes| then Some(nodes[old(it.cur.pos)].data) else None
    {
      DerefSlot(it.cur.prev);
      v := it.Advance(Deref(it.prev), nodes);
    }

    /**
      When an iterator has reached the end, whatever was done to the list since it was created or
      reset, every node that was there then and still is was returned exactly once, in list order.
     */
    lemma Traversed(it: ListIterator, x: Node, y: Node)
      requires Valid() && it in iters && it.cur.pos == |nodes|
      requires x in nodes && y in nodes && it in starts && x in starts[it] && y in starts[it]
      ensures it in walks && x in walks[it].ret && NoDup(walks[it].ret)
      ensures Before(walks[it].ret, x, y) <==> Before(nodes, x, y)
    {
      ValidFacts();
      WalkedFacts();
      EndReturned(walks[it], starts[it], x, y);
    }

    /** `list_insert`: right before the last node returned, or at the end after the last one. */
    method Insert(it: ListIterator, x: nat, mem: bool) returns (v: Option<nat>)
      requires Valid() && it in iters
      modifies this`head, this`tail, this`count, this`nodes, this`walks, nodes, iters
      ensures Valid() && iters == old(iters) && v == if mem then Some(x) else None
      ensures if mem then Inserted(old(it.cur.prev), x) && fresh(nodes[old(it.cur.prev)]) else Untouched()
      ensures mem ==> Datas(nodes) == InsertAt(Datas(old(nodes)), old(it.cur.prev), x)
    {
      v := NodeCreate(it.prev, x, mem, it.cur.prev);
    }

    /**
      `list_remove`: acts exactly while the last node returned and the one right after it have not
      been deleted since, and then removes the last node returned.
     */
    method Remove(it: ListIterator) returns (v: Option<nat>)
      requires Valid() && it in iters
      modifies this`head, this`tail, this`count, this`nodes, this`walks, nodes, iters
      ensures Valid() && iters == old(iters)
      ensures it in old(walks) && (old(it.cur.prev == it.cur.pos) <==> old(walks)[it].last == No)
      ensures old(it.cur.prev == it.cur.pos) ==> v == None && Untouched()
      ensures old(it.cur.prev != it.cur.pos) ==>
        && Removed(old(it.cur.prev)) && v == Some(old(nodes)[old(it.cur.prev)].data)
        && old(nodes)[old(it.cur.prev)] == old(walks)[it].last.id
    {
      RemoveTarget(it);
      AtUnique(nodes, it.cur.prev, it.cur.pos);
      if Deref(it.prev) != it.pos {
        v := NodeDestroy(it.prev, it.cur.prev);
      } else {
        v := None;
      }
    }

    lemma RemoveTarget(it: ListIterator)
      requires Valid() && it in iters
      ensures it in walks && it.cur.prev <= |nodes| && it.cur.pos <= |nodes|
      ensures it.prev == Slot(nodes, it.cur.prev) && it.pos == At(nodes, it.cur.pos)
      ensures Deref(it.prev) == At(nodes, it.cur.prev) && NoDup(nodes)
      ensures it.cur.prev == it.cur.pos <==> walks[it].last == No
      ensures it.cur.prev != it.cur.pos ==> it.cur.prev < |nodes| && nodes[it.cur.prev] == walks[it].last.id
    {
      ValidFacts();
      WalkedFacts();
      DerefSlot(it.cur.prev);
    }

    /** `list_find`: the first match from the cursor on. */
    method Find(it: ListIterator, f: nat -> bool) returns (v: Option<nat>)
      requires Valid() && it in iters
      modifies it, this`walks
      ensures Valid() && it in walks && it in old(walks)
      ensures v == None ==> it.cur.pos == |nodes|
      ensures v.Some? ==> it.cur.pos > old(it.cur.pos) && f(v.value) && v.value == nodes[it.cur.pos-1].data
      ensures forall k :: old(it.cur.pos) <= k < (if v.Some? then it.cur.pos - 1 else |nodes|) ==> !f(nodes[k].data)
      ensures old(it.cur.pos) <= it.cur.pos <= |nodes|
      ensures walks[it].ret == old(walks)[it].ret + nodes[old(it.cur.pos)..it.cur.pos]
      ensures forall i :: i in old(walks) && i != it ==> i in walks && walks[i] == old(walks)[i]
    {
      hide *;
      ghost var r, p := [], it.cur.pos;
      RemoveTarget(it);
      r := walks[it].ret;
      v := NextGrows(it, r, p);
      while v.Some? && !f(v.value)
        modifies it, this`walks
        invariant Valid() && p <= it.cur.pos <= |nodes|
        invariant v == None ==> it.cur.pos == |nodes|
        invariant v.Some? ==> it.cur.pos > p && v.value == nodes[it.cur.pos-1].data
        invariant forall k :: p <= k < (if v.Some? then it.cur.pos - 1 else |nodes|) ==> !f(nodes[k].data)
        invariant it in walks && walks[it].ret == r + nodes[p..it.cur.pos]
        invariant forall i :: i in old(walks) && i != it ==> i in walks && walks[i] == old(walks)[i]
        decreases |nodes| - it.cur.pos, v.Some?
      {
        v := NextGrows(it, r, p);
      }
    }

    /** `list_next` in a scan that began at index `p` with `r` returned so far. */
    method NextGrows(it: ListIterator, ghost r: seq<Node>, ghost p: nat) returns (v: Option<nat>)
      requires Valid() && it in iters && it in walks && p <= it.cur.pos <= |nodes|
      requires walks[it].ret == r + nodes[p..it.cur.pos]
      modifies it, this`walks
      ensures Valid() && it in walks && p <= it.cur.pos <= |nodes| && walks[it].ret == r + nodes[p..it.cur.pos]
      ensures v.Some? ==> it.cur.pos == old(it.cur.pos) + 1 && v.value == nodes[it.cur.pos-1].data
      ensures v == None ==> it.cur.pos == old(it.cur.pos) == |nodes|
      ensures forall i :: i in old(walks) && i != it ==> i in walks && walks[i] == old(walks)[i]
    {
      hide *;
      AfterNextPos(it.cur, |nodes|);
      RetGrows(r, nodes, p, it.cur.pos);
      v := Next(it);
    }

    /** One round of the loop of `list_delete_all`. */
    method DeleteStep(pp: Node?, f: nat -> bool, ghost j: nat) returns (pp': Node?, v: Option<nat>)
      requires Valid() && j < |nodes| && pp == Slot(nodes, j)
      modifies this`head, this`tail, this`count, this`nodes, this`walks, nodes, iters
      ensures Valid() && iters == old(iters)
      ensures f(old(nodes)[j].data) ==> v == Some(old(nodes)[j].data) && Removed(j) && pp' == Slot(nodes, j)
      ensures !f(old(nodes)[j].data) ==> v == None && Untouched() && pp' == Slot(nodes, j + 1)
    {
      DerefSlot(j);
      SlotRemove(nodes, j, j);
      SlotNext(nodes, j);
      hide Slot, At, RemoveAt, Chain, NoDup, Walked, Wired, Stepped;
      if f(Deref(pp).data) {
        v := NodeDestroy(pp, j);
        pp' := pp;
      } else {
        pp', v := Deref(pp), None;
      }
    }

    /** `list_delete_all` in progress on a list and iterators that were as given, `a` nodes looked at. */
    ghost predicate Deleting(pp: Node?, gone: seq<nat>, was: seq<Node>, ws: Walks, at: map<ListIterator, Cursor>,
                             a: nat, f: nat -> bool)
      reads this, nodes, iters
    {
      && Valid() && Looked(nodes, gone, was, a, f)
      && Kept(was, a, f) <= |nodes| && pp == Slot(nodes, Kept(was, a, f))
      && walks == SweptAll(was, a, ws, f)
      && forall it :: it in iters ==> it in at && CursorOk(at[it], |was|) && it.cur == AfterSweep(was, a, at[it], f)
    }

    ghost function Places(): map<ListIterator, Cursor>
      reads this, iters
    {
      map it | it in iters :: it.cur
    }

    lemma PlacesAre()
      ensures forall it :: it in iters ==> it in Places() && Places()[it] == it.cur
    {}

    lemma DeletingStart(at: map<ListIterator, Cursor>, f: nat -> bool)
      requires Valid() && forall it :: it in iters ==> it in at && at[it] == it.cur
      ensures Deleting(null, [], nodes, walks, at, 0, f)
    {
      LookedStart(nodes, f);
      SweptStart(nodes, walks, f);
      assert forall it :: it in iters ==> it.On(nodes);
      hide Walked, SweptAll, Looked, Kept;
    }

    lemma DeletingFacts(pp: Node?, gone: seq<nat>, was: seq<Node>, ws: Walks, at: map<ListIterator, Cursor>, a: nat, f: nat -> bool)
      requires Deleting(pp, gone, was, ws, at, a, f)
      ensures a <= |was| && (Deref(pp) == null <==> a == |was|)
      ensures forall k :: 0 <= k < |nodes| ==> nodes[k] in was
    {
      LookedFacts(nodes, gone, was, a, f);
      DerefSlot(Kept(was, a, f));
    }

    lemma DeletingNext(pp: Node?, gone: seq<nat>, was: seq<Node>, ws: Walks, at: map<ListIterator, Cursor>, a: nat, f: nat -> bool)
      requires Deleting(pp, gone, was, ws, at, a, f) && a < |was|
      ensures var j := Kept(was, a, f);
        && Valid() && j < |nodes| && pp == Slot(nodes, j) && nodes[j] == was[a]
        && (f(was[a].data) ==> Looked(RemoveAt(nodes, j), gone + [was[a].data], was, a + 1, f) && Kept(was, a + 1, f) == j)
        && (!f(was[a].data) ==> Looked(nodes, gone, was, a + 1, f) && Kept(was, a + 1, f) == j + 1)
        && SweptAll(was, a + 1, ws, f) == (if f(was[a].data) then Stepped(walks, Drop(j)) else walks)
        && forall it :: it in iters ==>
          && it in at && CursorOk(at[it], |was|)
          && AfterSweep(was, a + 1, at[it], f) == if f(was[a].data) then AfterDelete(it.cur, j) else it.cur
    {
      LookedNext(nodes, gone, was, a, f);
      SweptNext(was, a, ws, f);
      hide Looked, SweptAll, Stepped, Kept, Walked, Wired, AfterDelete;
    }

    lemma DeletingMade(pp: Node?, gone: seq<nat>, was: seq<Node>, ws: Walks, at: map<ListIterator, Cursor>, a: nat, f: nat -> bool)
      requires Valid() && a <= |was| && Looked(nodes, gone, was, a, f)
      requires Kept(was, a, f) <= |nodes| && pp == Slot(nodes, Kept(was, a, f)) && walks == SweptAll(was, a, ws, f)
      requires forall it :: it in iters ==> it in at && CursorOk(at[it], |was|) && it.cur == AfterSweep(was, a, at[it], f)
      ensures Deleting(pp, gone, was, ws, at, a, f)
    {}

    lemma DeletingEnd(pp: Node?, gone: seq<nat>, was: seq<Node>, ws: Walks, at: map<ListIterator, Cursor>, f: nat -> bool)
      requires Deleting(pp, gone, was, ws, at, |was|, f)
      ensures Valid() && nodes == Select(was, f, false) && gone == Datas(Select(was, f, true))
      ensures walks == SweptAll(was, |was|, ws, f)
      ensures forall it :: it in iters ==>
        && it in at && at[it].pos <= |was|
        && it.cur == AfterSweep(was, |was|, at[it], f) && it.cur.pos == |Select(was[..at[it].pos], f, false)|
    {
      LookedEnd(nodes, gone, was, f);
      forall it | it in iters { SweepPos(was, |was|, at[it], f); }
      hide Looked, SweptAll, Kept, Walked, Wired, AfterSweep;
    }

    /** What one round did is what looking at one more node means. */
    method DeleteLook(pp: Node?, n: nat, gone: seq<nat>, ghost was: seq<Node>, ghost ws: Walks,
                      ghost at: map<ListIterator, Cursor>, ghost a: nat, f: nat -> bool)
      returns (pp': Node?, n': nat, gone': seq<nat>)
      requires Deleting(pp, gone, was, ws, at, a, f) && a < |was| && n == |gone|
      modifies this`head, this`tail, this`count, this`nodes, this`walks, nodes, iters
      ensures Deleting(pp', gone', was, ws, at, a + 1, f) && n' == |gone'| && iters == old(iters)
    {
      hide *;
      DeletingNext(pp, gone, was, ws, at, a, f);
      var v;
      label before:
      pp', v := DeleteStep(pp, f, Kept(was, a, f));
      n', gone' := n, gone;
      if v.Some? {
        n', gone' := n + 1, gone + [v.value];
        RemovedFacts@before(Kept(was, a, f));
      } else {
        UntouchedFacts@before();
      }
      LookedFacts(nodes, gone', was, a + 1, f);
      DeletingMade(pp', gone', was, ws, at, a + 1, f);
    }

    twostate lemma RemovedFacts(j: nat)
      requires iters == old(iters) && Removed(j)
      ensures j < |old(nodes)| && nodes == RemoveAt(old(nodes), j) && walks == Stepped(old(walks), Drop(j))
      ensures forall it :: it in iters ==> it.cur == AfterDelete(old(it.cur), j)
    {}

    twostate lemma UntouchedFacts()
      requires iters == old(iters) && Untouched()
      ensures nodes == old(nodes) && walks == old(walks)
      ensures forall it :: it in iters ==> it.cur == old(it.cur)
    {}

    /**
      `list_delete_all`: the deletion function gets the matches in order.  Every cursor undergoes the
      deletions one after the other, which leaves the next node it will return in place.
     */
    method DeleteAll(f: nat -> bool) returns (n: nat, gone: seq<nat>)
      requires Valid()
      modifies this`head, this`tail, this`count, this`nodes, this`walks, nodes, iters
      ensures Valid() && iters == old(iters)
      ensures nodes == Select(old(nodes), f, false)
      ensures gone == Datas(Select(old(nodes), f, true)) && n == |gone|
      ensures walks == SweptAll(old(nodes), |old(nodes)|, old(walks), f)
      ensures forall it :: it in iters ==> it.cur == AfterSweep(old(nodes), |old(nodes)|, old(it.cur), f)
      ensures forall it :: it in iters ==> it.cur.pos == |Select(old(nodes[..it.cur.pos]), f, false)|
    {
      ghost var was, ws, a := nodes, walks, 0;
      hide *;
      ghost var at := Places();
      PlacesAre();
      var pp: Node? := null;
      n, gone := 0, [];
      DeletingStart(at, f);
      DeletingFacts(pp, gone, was, ws, at, a, f);
      while Deref(pp) != null
        modifies this`head, this`tail, this`count, this`nodes, this`walks, was, iters
        invariant Deleting(pp, gone, was, ws, at, a, f) && n == |gone| && iters == old(iters)
        invariant a <= |was| && (Deref(pp) == null <==> a == |was|)
        invariant forall k :: 0 <= k < |nodes| ==> nodes[k] in was
        decreases |was| - a
      {
        pp, n, gone := DeleteLook(pp, n, gone, was, ws, at, a, f);
        a := a + 1;
        DeletingFacts(pp, gone, was, ws, at, a, f);
      }
      DeletingEnd(pp, gone, was, ws, at, f);
    }

    // -------------------------------------------------------------- sorting

    /** The inner loop of `list_sort`: the slot of the first node the item is smaller than. */
    method FindPlace(x: nat, f: Cmp, ghost i: nat) returns (ppPos: Node?)
      requires Chain(head, nodes) && 0 < i <= |nodes| && Less(f, x, nodes[i-1].data)
      ensures Place(Datas(nodes)[..i], x, f) < i && ppPos == Slot(nodes, Place(Datas(nodes)[..i], x, f))
    {
      ppPos := null;
      ghost var k := 0;
      while f(x, Deref(ppPos).data) >= 0
        invariant k < i && ppPos == Slot(nodes, k)
        invariant forall q :: 0 <= q < k ==> !Less(f, x, nodes[q].data)
        decreases i - k
      {
        ppPos, k := Deref(ppPos), k + 1;
      }
      PlaceIs(Datas(nodes)[..i], x, f, k);
    }

    /** The three pointer writes of `list_sort`: the node at index `i` moves up to index `k`. */
    method MoveNode(pp: Node, ppPos: Node?, ghost i: nat, ghost k: nat)
      requires Chain(head, nodes) && NoDup(nodes) && k < i < |nodes| && pp == Slot(nodes, i) && ppPos == Slot(nodes, k)
      modifies this`head, this`nodes, nodes
      ensures Chain(head, nodes) && NoDup(nodes) && nodes == MoveTo(old(nodes), i, k)
    {
      ghost var was := nodes;
      var x := pp.next;
      var pTmp := x.next;
      x.next := Deref(ppPos);
      if ppPos == null { head := x; } else { ppPos.next := x; }
      pp.next := pTmp;
      nodes := MoveTo(nodes, i, k);
      MoveNoDup(was, i, k);
      ChainMove(head, was, i, k);
    }

    /** The outer loop of `list_sort` at index `i` of a list that was `was`. */
    ghost predicate SortingAt(pp: Node?, ppPrev: Node?, f: Cmp, i: nat, was: seq<Node>)
      reads this, nodes
    {
      && Chain(head, nodes) && NoDup(nodes) && |nodes| == |was| && 0 < i <= |nodes|
      && pp == Slot(nodes, i) && ppPrev == Slot(nodes, i - 1) && Sorting(Datas(nodes), Datas(was), i, f)
      && forall k :: 0 <= k < |nodes| ==> nodes[k] in was
    }

    /** One round of the outer loop of `list_sort`. */
    method SortStep(pp: Node, ppPrev: Node?, f: Cmp, ghost i: nat, ghost was: seq<Node>)
      returns (pp': Node, ppPrev': Node?)
      requires SortingAt(pp, ppPrev, f, i, was) && i < |was|
      modifies this`head, this`nodes, was
      ensures SortingAt(pp', ppPrev', f, i + 1, was)
    {
      ghost var d := Datas(was);
      hide Chain, Sorting, Sort, Place, MoveTo, NoDup;
      DerefSlot(i);
      DerefSlot(i - 1);
      SortingNext(Datas(nodes), d, i, f);
      var x := pp.next;
      if f(x.data, Deref(ppPrev).data) < 0 {
        var ppPos := FindPlace(x.data, f, i);
        ghost var k := Place(Datas(nodes)[..i], x.data, f);
        DatasMove(nodes, i, k);
        MoveMembers(nodes, i, k);
        SlotMove(nodes, i, k);
        SlotUnique(nodes, k, i - 1);
        MoveNode(pp, ppPos, i, k);
        DerefSlot(i - 1);
        pp', ppPrev' := pp, ppPrev;
        if ppPrev == ppPos { ppPrev' := Deref(ppPrev); }
      } else {
        pp', ppPrev' := x, pp;
      }
    }

    lemma SortingFacts(pp: Node?, ppPrev: Node?, f: Cmp, i: nat, was: seq<Node>)
      requires SortingAt(pp, ppPrev, f, i, was)
      ensures i <= |was| && pp != null && (pp.next == null <==> i == |was|)
      ensures pp.next == null ==>
        && Chain(head, nodes) && NoDup(nodes) && |nodes| == |was|
        && pp == Slot(nodes, |nodes|) && Datas(nodes) == Sort(Datas(was), f)
    {
      SortingEnds(Datas(was), Datas(nodes), f);
    }

    lemma SortingStart(f: Cmp)
      requires Chain(head, nodes) && NoDup(nodes) && nodes != []
      ensures SortingAt(head, null, f, 1, nodes)
    {
      SortingEnds(Datas(nodes), [], f);
    }

    /** The outer loop of `list_sort`. */
    method SortNodes(f: Cmp) returns (pp: Node)
      requires Chain(head, nodes) && NoDup(nodes) && |nodes| > 1
      modifies this`head, this`nodes, nodes
      ensures Chain(head, nodes) && NoDup(nodes) && |nodes| == |old(nodes)|
      ensures pp == Slot(nodes, |nodes|) && Datas(nodes) == Sort(old(Datas(nodes)), f)
    {
      SortingStart(f);
      SortingFacts(head, null, f, 1, nodes);
      hide *;
      ghost var was, i := nodes, 1;
      var ppPrev: Node? := null;
      pp := head;
      while pp.next != null
        modifies this`head, this`nodes, was
        invariant SortingAt(pp, ppPrev, f, i, was) && i <= |was| && (pp.next == null <==> i == |was|)
        decreases |was| - i
      {
        pp, ppPrev := SortStep(pp, ppPrev, f, i, was);
        i := i + 1;
        SortingFacts(pp, ppPrev, f, i, was);
      }
      SortingFacts(pp, ppPrev, f, i, was);
    }

    /** The loop of `list_sort` over the iterators. */
    method ResetAll()
      requires Linked() && NoDup(iters)
      modifies iters
      ensures Wired() && forall it :: it in iters ==> it.cur == Cursor(0, 0)
    {
      for k := 0 to |iters|
        invariant forall i :: 0 <= i < k ==> iters[i].cur == Cursor(0, 0) && iters[i].On(nodes)
      {
        iters[k].pos, iters[k].prev, iters[k].cur := head, null, Cursor(0, 0);
      }
    }

    /** `list_sort`: the stable sort, with every iterator back at the head unless there was nothing to do. */
    method SortList(f: Cmp)
      requires Valid()
      modifies this`head, this`tail, this`nodes, this`walks, this`starts, nodes, iters
      ensures Valid() && Datas(nodes) == Sort(old(Datas(nodes)), f)
      ensures |nodes| <= 1 ==> Untouched() && starts == old(starts)
      ensures |nodes| > 1 ==> forall it :: it in iters ==>
        it.cur == Cursor(0, 0) && it in walks && walks[it] == Restarted(nodes) && it in starts && starts[it] == nodes
    {
      hide *;
      ValidFacts();
      WalkedFacts();
      WiredFacts();
      if count > 1 {
        ghost var was := nodes;
        tail := SortNodes(f);
        LinkedMade();
        FollowAnew(iters, walks, starts, was, nodes);
        ResetAll();
        walks, starts := RestartAll(walks, nodes), map it | it in starts :: nodes;
        RestartedFacts(nodes);
        WalkedMade();
        ValidMade();
      } else {
        SortingEnds(Datas(nodes), [], f);
        UntouchedMade();
        DatasLength(nodes);
      }
    }
  }
}

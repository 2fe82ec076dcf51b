/**
  What an iterator of `lib/list.c` means while the list changes under it.

  An iterator holds the address of a `next` pointer and a node.  Both are positions in the list:
  `prev` the index of the node the pointer leads to, `pos` the index of the next node to return.
 */
module ListCursor {
  import opened Seqs

  datatype Cursor = Cursor(prev: nat, pos: nat)

  /** The assertion the source makes of every iterator: `pos` is `*prev` or `(*prev)->next`. */
  predicate CursorOk(c: Cursor, n: nat) {
    c.pos <= n && (c.pos == c.prev || c.pos == c.prev + 1)
  }

  /** A node was linked in at index `j`. */
  function AfterInsert(c: Cursor, j: nat): Cursor {
    if j <= c.prev then Cursor(c.prev + 1, c.pos + 1) else c
  }

  /** The node at index `j` was unlinked. */
  function AfterDelete(c: Cursor, j: nat): Cursor {
    if c.pos == j then Cursor(j, j)
    else if j < c.prev && c.pos > 0 then Cursor(c.prev - 1, c.pos - 1)
    else if j == c.prev && c.pos > 0 then Cursor(c.prev, c.pos - 1)
    else c
  }

  /** `list_next` on a list of `n` nodes. */
  function AfterNext(c: Cursor, n: nat): Cursor {
    if c.pos < n then Cursor(c.pos, c.pos + 1) else Cursor(c.pos, c.pos)
  }

  function InsertAt<T>(s: seq<T>, j: nat, x: T): (r: seq<T>)
    requires j <= |s|
    ensures |r| == |s| + 1
  {
    s[..j] + [x] + s[j..]
  }

  lemma CursorKept(c: Cursor, n: nat, j: nat)
    requires CursorOk(c, n)
    ensures j <= n ==> CursorOk(AfterInsert(c, j), n + 1)
    ensures j < n ==> CursorOk(AfterDelete(c, j), n - 1)
    ensures CursorOk(AfterNext(c, n), n)
  {}

  // ---------------------------------------------------------------- traversals

  /** What is done to the list, by this iterator or anyone else, between two of its resets. */
  datatype Step<T> = Insert(j: nat, id: T) | Drop(j: nat) | Next

  /**
    A traversal in progress: the list, the cursor, the nodes returned so far, every node that was
    ever in the list, and the last node returned while it can still be removed.
   */
  datatype Walk<T> = Walk(nodes: seq<T>, cur: Cursor, ret: seq<T>, ever: set<T>, last: Armed<T>)

  /** `list_remove` is armed by a returned node and disarmed when that node or its successor goes. */
  datatype Armed<T> = No | Yes(id: T)

  ghost predicate Enabled<T>(w: Walk<T>, st: Step<T>) {
    match st
    case Insert(j, id) => j <= |w.nodes| && id !in w.ever
    case Drop(j) => j < |w.nodes|
    case Next => true
  }

  /** Unlinking the armed node or the node right after it disarms. */
  ghost function Disarm<T>(w: Walk<T>, j: nat): Armed<T>
    requires j < |w.nodes|
  {
    if w.last.Yes? && (w.nodes[j] == w.last.id || (j > 0 && w.nodes[j-1] == w.last.id)) then No else w.last
  }

  ghost function Apply<T>(w: Walk<T>, st: Step<T>): Walk<T>
    requires Enabled(w, st)
  {
    match st
    case Insert(j, id) =>
      w.(nodes := InsertAt(w.nodes, j, id), cur := AfterInsert(w.cur, j), ever := w.ever + {id})
    case Drop(j) =>
      w.(nodes := RemoveAt(w.nodes, j), cur := AfterDelete(w.cur, j), last := Disarm(w, j))
    case Next =>
      var w' := w.(cur := AfterNext(w.cur, |w.nodes|));
      if w.cur.pos < |w.nodes| then
        w'.(ret := w.ret + [w.nodes[w.cur.pos]], last := Yes(w.nodes[w.cur.pos]))
      else w'.(last := No)
  }

  /** A step that may not apply leaves the walk as it is. */
  ghost function Try<T>(w: Walk<T>, st: Step<T>): Walk<T> { if Enabled(w, st) then Apply(w, st) else w }

  /** A fresh or reset iterator on a list. */
  ghost predicate Begun<T>(w: Walk<T>) {
    NoDup(w.nodes) && w.cur == Cursor(0, 0) && w.ret == [] && w.last == No && (forall x :: x in w.nodes ==> x in w.ever)
  }

  ghost predicate Traversal<T>(trace: seq<Walk<T>>, steps: seq<Step<T>>) {
    && |trace| == |steps| + 1
    && Begun(trace[0])
    && forall i :: 0 <= i < |steps| ==> Enabled(trace[i], steps[i]) && trace[i+1] == Apply(trace[i], steps[i])
  }

  /** `x` stands somewhere before `y`. */
  ghost predicate Before<T>(s: seq<T>, x: T, y: T) {
    exists i, j :: 0 <= i < j < |s| && s[i] == x && s[j] == y
  }

  // ---------------------------------------------------------------- invariant

  ghost predicate Shape<T>(w: Walk<T>) {
    && NoDup(w.nodes) && NoDup(w.ret) && CursorOk(w.cur, |w.nodes|)
    && (forall x :: x in w.nodes ==> x in w.ever)
    && (forall x :: x in w.ret ==> x in w.ever)
  }

  /** Nodes of the initial list behind the cursor were returned; nodes ahead of it were not. */
  ghost predicate Covered<T>(w: Walk<T>, start: seq<T>)
    requires w.cur.pos <= |w.nodes|
  {
    && (forall x :: x in w.nodes[..w.cur.pos] && x in start ==> x in w.ret)
    && (forall x :: x in w.nodes[w.cur.pos..] ==> x !in w.ret)
  }

  /** Nodes were returned in the order they stand in the list. */
  ghost predicate InOrder<T>(w: Walk<T>) {
    forall x, y :: x in w.ret && y in w.ret && Before(w.nodes, x, y) ==> Before(w.ret, x, y)
  }

  /** The iterator is armed exactly when its slot leads to the node it returned last. */
  ghost predicate ArmedOk<T>(w: Walk<T>) {
    && (w.last.Yes? <==> w.cur.pos == w.cur.prev + 1)
    && (w.last.Yes? ==> w.cur.prev < |w.nodes| && w.nodes[w.cur.prev] == w.last.id
                        && w.ret != [] && w.ret[|w.ret|-1] == w.last.id)
  }

  ghost predicate WalkInv<T>(w: Walk<T>, start: seq<T>) {
    && Shape(w) && Covered(w, start) && InOrder(w) && ArmedOk(w)
    && forall x :: x in start ==> x in w.ever
  }

  // ---------------------------------------------------------------- sequences

  lemma InsertMembers<T>(s: seq<T>, j: nat, x: T)
    requires j <= |s|
    ensures forall y :: y in InsertAt(s, j, x) <==> y == x || y in s
  {
    var t := InsertAt(s, j, x);
    forall y ensures y in t <==> y == x || y in s {
      assert y in s <==> y in s[..j] || y in s[j..] by { assert s == s[..j] + s[j..]; }
    }
  }

  lemma InsertNoDup<T>(s: seq<T>, j: nat, x: T)
    requires j <= |s| && NoDup(s) && x !in s
    ensures NoDup(InsertAt(s, j, x))
  {
    var t := InsertAt(s, j, x);
    assert forall i :: 0 <= i < j ==> t[i] == s[i];
    assert forall i :: j < i < |t| ==> t[i] == s[i-1];
    assert forall i :: 0 <= i < |s| ==> s[i] in s;
  }

  lemma RemoveMembers<T>(s: seq<T>, j: nat)
    requires j < |s|
    ensures forall y :: y in RemoveAt(s, j) ==> y in s
    ensures forall y :: y in s && y != s[j] ==> y in RemoveAt(s, j)
    ensures NoDup(s) ==> NoDup(RemoveAt(s, j)) && s[j] !in RemoveAt(s, j)
  {
    SplitAt(s, j);
  }

  /** An insertion falls wholly before or wholly after a cut. */
  lemma InsertSlices<T>(s: seq<T>, j: nat, x: T, k: nat)
    requires j <= |s| && k <= |s|
    ensures var t := InsertAt(s, j, x);
      && (j <= k ==> t[..k+1] == InsertAt(s[..k], j, x) && t[k+1..] == s[k..])
      && (j >= k ==> t[..k] == s[..k] && t[k..] == InsertAt(s[k..], j - k, x))
  {}

  lemma RemoveSlices<T>(s: seq<T>, j: nat, k: nat)
    requires j < |s| && k <= |s|
    ensures var t := RemoveAt(s, j);
      && (j < k ==> t[..k-1] == RemoveAt(s[..k], j) && t[k-1..] == s[k..])
      && (j >= k ==> t[..k] == s[..k] && t[k..] == RemoveAt(s[k..], j - k))
  {}

  lemma BeforeInsert<T>(s: seq<T>, j: nat, id: T, x: T, y: T)
    requires j <= |s| && x != id && y != id && Before(InsertAt(s, j, id), x, y)
    ensures Before(s, x, y)
  {
    var t := InsertAt(s, j, id);
    var a, b :| 0 <= a < b < |t| && t[a] == x && t[b] == y;
    var a', b' := if a < j then a else a - 1, if b < j then b else b - 1;
    assert s[a'] == x && s[b'] == y;
  }

  lemma BeforeRemove<T>(s: seq<T>, j: nat, x: T, y: T)
    requires j < |s| && Before(RemoveAt(s, j), x, y)
    ensures Before(s, x, y)
  {
    var t := RemoveAt(s, j);
    var a, b :| 0 <= a < b < |t| && t[a] == x && t[b] == y;
    var a', b' := if a < j then a else a + 1, if b < j then b else b + 1;
    assert s[a'] == x && s[b'] == y;
  }

  // ---------------------------------------------------------------- steps

  lemma InsertInv<T>(w: Walk<T>, j: nat, id: T, start: seq<T>)
    requires WalkInv(w, start) && Enabled(w, Insert(j, id))
    ensures WalkInv(Apply(w, Insert(j, id)), start)
  {
    InsertShape(w, j, id);
    InsertCovered(w, j, id, start);
    hide Shape, Covered;
    var w' := Apply(w, Insert(j, id));
    forall x, y | x in w'.ret && y in w'.ret && Before(w'.nodes, x, y) ensures Before(w'.ret, x, y) {
      BeforeInsert(w.nodes, j, id, x, y);
    }
  }

  lemma InsertShape<T>(w: Walk<T>, j: nat, id: T)
    requires Shape(w) && Enabled(w, Insert(j, id))
    ensures Shape(Apply(w, Insert(j, id))) && id !in w.ret
  {
    hide AfterInsert;
    CursorKept(w.cur, |w.nodes|, j);
    InsertMembers(w.nodes, j, id);
    InsertNoDup(w.nodes, j, id);
    hide CursorOk;
  }

  lemma InsertCovered<T>(w: Walk<T>, j: nat, id: T, start: seq<T>)
    requires Shape(w) && Enabled(w, Insert(j, id)) && Covered(w, start) && id !in start
    ensures var w' := Apply(w, Insert(j, id)); w'.cur.pos <= |w'.nodes| && Covered(w', start)
  {
    var k := w.cur.pos;
    InsertSlices(w.nodes, j, id, k);
    if j <= w.cur.prev { InsertMembers(w.nodes[..k], j, id); } else { InsertMembers(w.nodes[k..], j - k, id); }
    hide NoDup, InsertAt;
  }

  lemma DeleteInv<T>(w: Walk<T>, j: nat, start: seq<T>)
    requires WalkInv(w, start) && j < |w.nodes|
    ensures WalkInv(Apply(w, Drop(j)), start)
  {
    DeleteShape(w, j);
    DeleteCovered(w, j, start);
    DeleteArmed(w, j);
    hide Shape, Covered, ArmedOk, Disarm;
    var w' := Apply(w, Drop(j));
    forall x, y | x in w'.ret && y in w'.ret && Before(w'.nodes, x, y) ensures Before(w'.ret, x, y) {
      BeforeRemove(w.nodes, j, x, y);
    }
  }

  lemma DeleteShape<T>(w: Walk<T>, j: nat)
    requires Shape(w) && j < |w.nodes|
    ensures Shape(Apply(w, Drop(j)))
  {
    hide NoDup, RemoveAt, AfterDelete;
    CursorKept(w.cur, |w.nodes|, j);
    RemoveMembers(w.nodes, j);
    hide CursorOk;
  }

  lemma DeleteCovered<T>(w: Walk<T>, j: nat, start: seq<T>)
    requires Shape(w) && j < |w.nodes| && Covered(w, start)
    ensures var w' := Apply(w, Drop(j)); w'.cur.pos <= |w'.nodes| && Covered(w', start)
  {
    var k := w.cur.pos;
    RemoveSlices(w.nodes, j, k);
    if j < k { RemoveMembers(w.nodes[..k], j); } else { RemoveMembers(w.nodes[k..], j - k); }
    hide NoDup, RemoveAt, Disarm;
  }

  lemma DeleteArmed<T>(w: Walk<T>, j: nat)
    requires Shape(w) && j < |w.nodes| && ArmedOk(w)
    ensures ArmedOk(Apply(w, Drop(j)))
  {}

  lemma NextInv<T>(w: Walk<T>, start: seq<T>)
    requires WalkInv(w, start)
    ensures WalkInv(Apply(w, Next), start)
  {
    NextShape(w, start);
    if w.cur.pos < |w.nodes| {
      NextInOrder(w);
      hide InOrder, Shape, Covered;
    }
  }

  lemma NextShape<T>(w: Walk<T>, start: seq<T>)
    requires Shape(w) && Covered(w, start)
    ensures Shape(Apply(w, Next)) && Covered(Apply(w, Next), start)
  {
    var k := w.cur.pos;
    CursorKept(w.cur, |w.nodes|, 0);
    if k < |w.nodes| {
      var z := w.nodes[k];
      assert w.nodes[..k+1] == w.nodes[..k] + [z];
      HeadOfRest(w.nodes, k);
      AppendFacts(w.ret, z);
      hide NoDup;
    }
  }

  /** The node at the cursor is ahead of it, and not among those after it. */
  lemma HeadOfRest<T>(s: seq<T>, k: nat)
    requires NoDup(s) && k < |s|
    ensures s[k] in s[k..] && s[k] !in s[k+1..]
    ensures forall x :: x in s[k+1..] ==> x in s[k..]
  {
    var t := s[k..];
    assert NoDup(t) by { assert forall i :: 0 <= i < |t| ==> t[i] == s[k+i]; }
    TailFacts(t);
    assert t[1..] == s[k+1..] && t[0] == s[k];
  }

  lemma NextInOrder<T>(w: Walk<T>)
    requires Shape(w) && InOrder(w) && w.cur.pos < |w.nodes|
    requires forall x :: x in w.nodes[w.cur.pos..] ==> x !in w.ret
    ensures InOrder(Apply(w, Next))
  {
    var w' := Apply(w, Next);
    forall x, y | x in w'.ret && y in w'.ret && Before(w'.nodes, x, y) ensures Before(w'.ret, x, y) {
      hide Shape, InOrder, Before;
      NextOrder(w, x, y);
    }
  }

  lemma NextOrder<T>(w: Walk<T>, x: T, y: T)
    requires Shape(w) && InOrder(w) && w.cur.pos < |w.nodes|
    requires forall x :: x in w.nodes[w.cur.pos..] ==> x !in w.ret
    requires var z := w.nodes[w.cur.pos]; (x in w.ret || x == z) && (y in w.ret || y == z)
    requires Before(w.nodes, x, y)
    ensures Before(w.ret + [w.nodes[w.cur.pos]], x, y)
  {
    var k, z := w.cur.pos, w.nodes[w.cur.pos];
    var t := w.ret + [z];
    var a, b :| 0 <= a < b < |w.nodes| && w.nodes[a] == x && w.nodes[b] == y;
    Ahead(w, b);
    Ahead(w, a);
    if y == z {
      assert b == k;
      assert x in w.ret;
      var i :| 0 <= i < |w.ret| && w.ret[i] == x;
      assert t[i] == x && t[|w.ret|] == z;
    } else {
      assert x != z;
      var i, j :| 0 <= i < j < |w.ret| && w.ret[i] == x && w.ret[j] == y;
      assert t[i] == x && t[j] == y;
    }
  }

  /** A node at or beyond the cursor has not been returned. */
  lemma Ahead<T>(w: Walk<T>, b: nat)
    requires w.cur.pos <= |w.nodes| && b < |w.nodes|
    requires forall x :: x in w.nodes[w.cur.pos..] ==> x !in w.ret
    ensures b >= w.cur.pos ==> w.nodes[b] !in w.ret
  {
    if b >= w.cur.pos { assert w.nodes[b] == w.nodes[w.cur.pos..][b - w.cur.pos]; }
  }

  // ---------------------------------------------------------------- whole traversals

  lemma BegunInv<T>(w: Walk<T>)
    requires Begun(w)
    ensures WalkInv(w, w.nodes)
  {}

  lemma StepInv<T>(w: Walk<T>, st: Step<T>, start: seq<T>)
    requires WalkInv(w, start) && Enabled(w, st)
    ensures WalkInv(Apply(w, st), start)
  {
    match st
    case Insert(j, id) => InsertInv(w, j, id, start);
    case Drop(j) => DeleteInv(w, j, start);
    case Next => NextInv(w, start);
  }

  lemma {:induction false} TraversalInv<T>(trace: seq<Walk<T>>, steps: seq<Step<T>>, i: nat)
    requires Traversal(trace, steps) && i < |trace|
    ensures WalkInv(trace[i], trace[0].nodes)
  {
    if i == 0 {
      BegunInv(trace[0]);
    } else {
      TraversalInv(trace, steps, i - 1);
      StepInv(trace[i-1], steps[i-1], trace[0].nodes);
    }
  }

  /** The invariant at the end of the list. */
  lemma EndReturned<T>(w: Walk<T>, start: seq<T>, x: T, y: T)
    requires WalkInv(w, start) && w.cur.pos == |w.nodes|
    requires x in start && x in w.nodes && y in start && y in w.nodes
    ensures x in w.ret && NoDup(w.ret)
    ensures Before(w.ret, x, y) <==> Before(w.nodes, x, y)
  {
    assert w.nodes[..w.cur.pos] == w.nodes;
    if Before(w.ret, x, y) {
      NotBoth(w.ret, x, y);
      OneOrOther(w.nodes, x, y);
    }
  }

  /**
    When an iterator has reached the end, whatever happened to the list meanwhile, every node that
    was there from the start and still is was returned exactly once, in list order.
   */
  lemma ReturnedOnceInOrder<T>(trace: seq<Walk<T>>, steps: seq<Step<T>>, i: nat, x: T, y: T)
    requires Traversal(trace, steps) && i < |trace| && trace[i].cur.pos == |trace[i].nodes|
    requires x in trace[0].nodes && x in trace[i].nodes && y in trace[0].nodes && y in trace[i].nodes
    ensures x in trace[i].ret && NoDup(trace[i].ret)
    ensures Before(trace[i].ret, x, y) <==> Before(trace[i].nodes, x, y)
  {
    TraversalInv(trace, steps, i);
    EndReturned(trace[i], trace[0].nodes, x, y);
  }

  // ---------------------------------------------------------------- nodes that come later

  lemma {:induction false} InvFrom<T>(trace: seq<Walk<T>>, steps: seq<Step<T>>, i: nat, k: nat, start: seq<T>)
    requires Traversal(trace, steps) && i <= k < |trace| && WalkInv(trace[i], start)
    ensures WalkInv(trace[k], start)
    decreases k - i
  {
    if i < k {
      hide WalkInv, Apply, Enabled;
      InvFrom(trace, steps, i, k - 1, start);
      StepInv(trace[k-1], steps[k-1], start);
    }
  }

  /** A node linked in ahead of the cursor counts like one that was there from the start. */
  lemma JoinsAhead<T>(w: Walk<T>, j: nat, id: T, start: seq<T>)
    requires WalkInv(w, start) && Enabled(w, Insert(j, id)) && j > w.cur.prev
    ensures WalkInv(Apply(w, Insert(j, id)), [id])
  {
    InsertInv(w, j, id, start);
    InsertSlices(w.nodes, j, id, w.cur.pos);
    hide NoDup, InsertAt, InOrder, ArmedOk;
  }

  /** The cursor has passed the node without returning it. */
  ghost predicate Missed<T>(w: Walk<T>, id: T)
    requires w.cur.pos <= |w.nodes|
  {
    id in w.ever && id !in w.ret && (id in w.nodes ==> id in w.nodes[..w.cur.pos])
  }

  lemma JoinsBehind<T>(w: Walk<T>, j: nat, id: T)
    requires Shape(w) && Enabled(w, Insert(j, id)) && j <= w.cur.prev
    ensures var w' := Apply(w, Insert(j, id)); w'.cur.pos <= |w'.nodes| && Missed(w', id)
  {
    InsertSlices(w.nodes, j, id, w.cur.pos);
    InsertMembers(w.nodes[..w.cur.pos], j, id);
    hide NoDup, InsertAt;
  }

  lemma MissedInsert<T>(w: Walk<T>, j: nat, x: T, id: T)
    requires Shape(w) && Enabled(w, Insert(j, x)) && Missed(w, id)
    ensures var w' := Apply(w, Insert(j, x)); w'.cur.pos <= |w'.nodes| && Missed(w', id)
  {
    var k := w.cur.pos;
    InsertSlices(w.nodes, j, x, k);
    InsertMembers(w.nodes, j, x);
    if j <= w.cur.prev { InsertMembers(w.nodes[..k], j, x); }
    hide NoDup, InsertAt;
  }

  lemma MissedDrop<T>(w: Walk<T>, j: nat, id: T)
    requires Shape(w) && j < |w.nodes| && Missed(w, id)
    ensures var w' := Apply(w, Drop(j)); w'.cur.pos <= |w'.nodes| && Missed(w', id)
  {
    hide Disarm, NoDup, RemoveAt;
    CursorKept(w.cur, |w.nodes|, j);
    StaysBehind(w.nodes, j, w.cur.pos, id);
  }

  /** A node before a cut is still before it when another node, or the node itself, is unlinked. */
  lemma StaysBehind<T>(s: seq<T>, j: nat, k: nat, x: T)
    requires NoDup(s) && j < |s| && k <= |s| && (x in s ==> x in s[..k])
    ensures x in RemoveAt(s, j) ==> x in RemoveAt(s, j)[..if j < k then k - 1 else k]
  {
    hide NoDup, RemoveAt;
    RemoveSlices(s, j, k);
    RemoveMembers(s, j);
    if j < k { RemoveMembers(s[..k], j); }
  }

  lemma MissedNext<T>(w: Walk<T>, id: T)
    requires Shape(w) && Missed(w, id)
    ensures var w' := Apply(w, Next); w'.cur.pos <= |w'.nodes| && Missed(w', id)
  {
    var k := w.cur.pos;
    if k < |w.nodes| {
      assert w.nodes[..k+1] == w.nodes[..k] + [w.nodes[k]];
      assert w.nodes[k] != id;
    }
  }

  lemma MissedStep<T>(w: Walk<T>, st: Step<T>, id: T)
    requires Shape(w) && Enabled(w, st) && Missed(w, id)
    ensures var w' := Apply(w, st); w'.cur.pos <= |w'.nodes| && Missed(w', id)
  {
    hide Missed, Shape, Apply;
    match st
    case Insert(j, x) => MissedInsert(w, j, x, id);
    case Drop(j) => MissedDrop(w, j, id);
    case Next => MissedNext(w, id);
  }

  lemma TraversalStep<T>(trace: seq<Walk<T>>, steps: seq<Step<T>>, i: nat)
    requires Traversal(trace, steps) && i + 1 < |trace|
    ensures i < |steps| && Shape(trace[i]) && Enabled(trace[i], steps[i]) && trace[i+1] == Apply(trace[i], steps[i])
  {
    hide Shape, Covered, InOrder, ArmedOk, Apply, Enabled;
    TraversalInv(trace, steps, i);
  }

  lemma {:induction false} StaysMissed<T>(trace: seq<Walk<T>>, steps: seq<Step<T>>, i: nat, k: nat, id: T)
    requires Traversal(trace, steps) && i <= k < |trace| && trace[i].cur.pos <= |trace[i].nodes| && Missed(trace[i], id)
    ensures trace[k].cur.pos <= |trace[k].nodes| && Missed(trace[k], id)
    decreases k - i
  {
    hide Traversal, Missed, Apply, Enabled, Shape;
    if i < k {
      StaysMissed(trace, steps, i, k - 1, id);
      TraversalStep(trace, steps, k - 1);
      MissedStep(trace[k-1], steps[k-1], id);
    }
  }

  /**
    A node linked in during the traversal and still there at its end was returned if and only if it
    was linked in behind the slot of the iterator.
   */
  lemma InsertedReturned<T>(trace: seq<Walk<T>>, steps: seq<Step<T>>, k: nat, i: nat)
    requires Traversal(trace, steps) && k < i < |trace| && steps[k].Insert? && steps[k].id in trace[i].nodes
    requires trace[i].cur.pos == |trace[i].nodes|
    ensures steps[k].id in trace[i].ret <==> steps[k].j > trace[k].cur.prev
  {
    TraversalInv(trace, steps, k);
    hide Apply, Covered, InOrder, ArmedOk, Shape;
    var (j, id) := (steps[k].j, steps[k].id);
    if j > trace[k].cur.prev {
      JoinsAhead(trace[k], j, id, trace[0].nodes);
      InvFrom(trace, steps, k + 1, i, [id]);
      EndReturned(trace[i], [id], id, id);
    } else {
      JoinsBehind(trace[k], j, id);
      StaysMissed(trace, steps, k + 1, i, id);
    }
  }

  lemma NotBoth<T>(s: seq<T>, x: T, y: T)
    requires NoDup(s) && Before(s, x, y)
    ensures x != y && !Before(s, y, x)
  {}

  lemma OneOrOther<T>(s: seq<T>, x: T, y: T)
    requires x in s && y in s && x != y
    ensures Before(s, x, y) || Before(s, y, x)
  {
    var i :| 0 <= i < |s| && s[i] == x;
    var j :| 0 <= j < |s| && s[j] == y;
    assert i < j || j < i;
  }

  /**
    `list_remove` unlinks the node the iterator's slot leads to, unless that is the next node to
    return.  In every traversal this removes the last node returned if and only if neither that
    node nor the one right after it has been deleted since.
   */
  lemma RemoveActs<T>(trace: seq<Walk<T>>, steps: seq<Step<T>>, i: nat)
    requires Traversal(trace, steps) && i < |trace|
    ensures var w := trace[i];
      && (w.cur.prev != w.cur.pos <==> w.last.Yes?)
      && (w.last.Yes? ==> w.cur.prev < |w.nodes| && w.ret != []
                          && w.nodes[w.cur.prev] == w.last.id == w.ret[|w.ret|-1])
  {
    TraversalInv(trace, steps, i);
  }

  /** The promise fails once the successor is gone: the returned node stays, and nothing is removed. */
  lemma RemoveMissesWitness()
    ensures var w0 := Walk([1, 2, 3], Cursor(0, 0), [], {1, 2, 3}, No);
      var w1 := Apply(w0, Next); var w2 := Apply(w1, Drop(1));
      && Begun(w0) && w1.ret == [1] && 1 in w2.nodes && w2.cur.prev == w2.cur.pos
  {
    assert RemoveAt([1, 2, 3], 1) == [1, 3];
  }
}

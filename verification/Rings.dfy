/**
  The intrusive circular lists of kernel/list.h. A node is an index; its two
  links are entries of `next` and `prev`, and NIL stands for a null pointer.
  Several rings share the same links, one head node each.
 */
module Rings {
  import opened Basics

  const NIL: int := -1

  datatype Links = Links(next: seq<int>, prev: seq<int>)

  predicate Sized(l: Links, n: nat) {
    |l.next| == |l.prev| == n
  }

  /** x's successor is y and y's predecessor is x. */
  predicate Joined(l: Links, x: nat, y: nat) {
    x < |l.next| && y < |l.prev| && l.next[x] == y && l.prev[y] == x
  }

  /** From x the links lead through the nodes of q, in order, to y, and back. */
  ghost predicate Path(l: Links, x: nat, q: seq<nat>, y: nat)
    decreases |q|
  {
    if q == [] then Joined(l, x, y) else Joined(l, x, q[0]) && Path(l, q[0], q[1..], y)
  }

  /** The ring with this head holds exactly the nodes of q, in order. */
  ghost predicate Ring(l: Links, head: nat, q: seq<nat>) {
    |l.next| == |l.prev| && NoDuplicates(q) && head !in q && Path(l, head, q, head)
  }

  // ----- list.h

  /** list_add_tail */
  function AddTail(l: Links, x: nat, head: nat): Links
    requires |l.next| == |l.prev| && x < |l.next| && head < |l.next| && 0 <= l.prev[head] < |l.next|
  {
    var last := l.prev[head];
    Links(l.next[x := head][last := x], l.prev[x := last][head := x])
  }

  /** list_del */
  function Del(l: Links, e: nat): Links
    requires |l.next| == |l.prev| && e < |l.next| && 0 <= l.next[e] < |l.next| && 0 <= l.prev[e] < |l.next|
  {
    var p, n := l.prev[e], l.next[e];
    Links(l.next[p := n][e := NIL], l.prev[n := p][e := NIL])
  }

  /** list_empty */
  predicate Empty(l: Links, head: nat)
    requires head < |l.next|
  {
    l.next[head] == head
  }

  /** list_in_queue */
  predicate InQueue(l: Links, x: nat)
    requires |l.next| == |l.prev| && x < |l.next|
  {
    l.next[x] != NIL && l.prev[x] != NIL
  }

  // ----- paths

  lemma {:induction false} PathJoin(l: Links, x: nat, a: seq<nat>, m: nat, b: seq<nat>, y: nat)
    ensures Path(l, x, a + [m] + b, y) <==> Path(l, x, a, m) && Path(l, m, b, y)
    decreases |a|
  {
    var q := a + [m] + b;
    if a == [] {
      assert q[0] == m && q[1..] == b;
    } else {
      assert q[0] == a[0] && q[1..] == a[1..] + [m] + b;
      PathJoin(l, a[0], a[1..], m, b, y);
    }
  }

  /** A path depends on the successors of all its nodes but the last and the predecessors of all but the first. */
  lemma {:induction false} PathFrame(l: Links, l': Links, x: nat, q: seq<nat>, y: nat)
    requires Path(l, x, q, y) && Sized(l', |l.next|) && |l.prev| == |l.next|
    requires forall z: nat :: z == x || z in q ==> z < |l.next| ==> l'.next[z] == l.next[z]
    requires forall z: nat :: z == y || z in q ==> z < |l.next| ==> l'.prev[z] == l.prev[z]
    ensures Path(l', x, q, y)
    decreases |q|
  {
    if q != [] {
      assert q[0] in q;
      PathFrame(l, l', q[0], q[1..], y);
    }
  }

  lemma {:induction false} PathInRange(l: Links, x: nat, q: seq<nat>, y: nat)
    requires Path(l, x, q, y)
    ensures x < |l.next| && y < |l.prev| && forall z :: z in q ==> z < |l.next| && z < |l.prev|
    decreases |q|
  {
    if q != [] {
      PathInRange(l, q[0], q[1..], y);
      assert forall z :: z in q ==> z == q[0] || z in q[1..];
    }
  }

  /** The node before y on the path. */
  function Last(x: nat, q: seq<nat>): nat {
    if q == [] then x else q[|q| - 1]
  }

  lemma PathLast(l: Links, x: nat, q: seq<nat>, y: nat)
    requires Path(l, x, q, y)
    ensures Joined(l, Last(x, q), y)
  {
    if q != [] {
      var a := q[..|q| - 1];
      assert q == a + [Last(x, q)] + [];
      PathJoin(l, x, a, Last(x, q), [], y);
    }
  }

  /** Two sets of links with the same path agree on it. */
  lemma {:induction false} PathAgree(l: Links, l': Links, x: nat, q: seq<nat>, y: nat)
    requires Path(l, x, q, y) && Path(l', x, q, y)
    ensures x < |l.next| && x < |l'.next| && l.next[x] == l'.next[x]
    ensures y < |l.prev| && y < |l'.prev| && l.prev[y] == l'.prev[y]
    ensures forall z :: z in q ==> z < |l.next| && z < |l'.next| && l.next[z] == l'.next[z]
    ensures forall z :: z in q ==> z < |l.prev| && z < |l'.prev| && l.prev[z] == l'.prev[z]
    decreases |q|
  {
    if q != [] {
      PathAgree(l, l', q[0], q[1..], y);
      assert forall z :: z in q ==> z == q[0] || z in q[1..];
    }
  }

  // ----- rings

  /** What the head's links say: first and last node, or the head itself when the ring is empty. */
  lemma RingEnds(l: Links, head: nat, q: seq<nat>)
    requires Ring(l, head, q)
    ensures head < |l.next| && l.next[head] == (if q == [] then head else q[0])
    ensures l.prev[head] == Last(head, q) < |l.next| && l.next[Last(head, q)] == head
    ensures Empty(l, head) <==> q == []
    ensures forall z :: z in q ==> z < |l.next|
  {
    PathInRange(l, head, q, head);
    PathLast(l, head, q, head);
    assert q != [] ==> q[0] in q;
  }

  /** Every node of the ring has both links set and inside the arrays. */
  lemma RingNode(l: Links, head: nat, a: seq<nat>, e: nat, b: seq<nat>)
    requires Ring(l, head, a + [e] + b)
    ensures e < |l.next| && l.next[e] == (if b == [] then head else b[0]) && l.prev[e] == Last(head, a)
    ensures 0 <= l.next[e] < |l.next| && 0 <= l.prev[e] < |l.next|
  {
    PathJoin(l, head, a, e, b, head);
    PathLast(l, head, a, e);
    PathInRange(l, head, a, e);
    PathInRange(l, e, b, head);
  }

  /** list_add_tail appends to the ring. */
  lemma AddTailRing(l: Links, x: nat, head: nat, q: seq<nat>)
    requires Ring(l, head, q) && x < |l.next| && x != head && x !in q
    ensures head < |l.next| && 0 <= l.prev[head] < |l.next|
    ensures Ring(AddTail(l, x, head), head, q + [x])
  {
    RingEnds(l, head, q);
    var l' := AddTail(l, x, head);
    if q == [] {
      assert [] + [x] == [x] && [x][1..] == [];
      assert Path(l', x, [], head);
    } else {
      var a, last := q[..|q| - 1], Last(head, q);
      assert q == a + [last] + [];
      PathJoin(l, head, a, last, [], head);
      PathFrame(l, l', head, a, last);
      assert Path(l', last, [], x) && Path(l', x, [], head);
      PathJoin(l', head, a, last, [], x);
      PathJoin(l', head, q, x, [], head);
      assert q + [x] == q + [x] + [];
    }
  }

  /** list_add_tail leaves every ring alone that has neither the new node nor the head's ring in it. */
  lemma AddTailFrame(l: Links, x: nat, head: nat, q: seq<nat>, other: nat, r: seq<nat>)
    requires Ring(l, head, q) && Ring(l, other, r) && x < |l.next|
    requires other != head && x != other && x !in r && head !in r && other !in q
    requires forall z :: z in q ==> z !in r
    ensures head < |l.next| && 0 <= l.prev[head] < |l.next|
    ensures Ring(AddTail(l, x, head), other, r)
  {
    RingEnds(l, head, q);
    assert q != [] ==> Last(head, q) in q;
    PathFrame(l, AddTail(l, x, head), other, r, other);
  }

  lemma DelPath(l: Links, x: nat, a: seq<nat>, e: nat, b: seq<nat>, y: nat)
    requires |l.next| == |l.prev| && Path(l, x, a, e) && Path(l, e, b, y)
    requires NoDuplicates(a + [e] + b) && x !in a + [e] + b && y !in a + [e] + b
    ensures e < |l.next| && 0 <= l.next[e] < |l.next| && 0 <= l.prev[e] < |l.next|
    ensures Path(Del(l, e), x, a + b, y)
  {
    PathLast(l, x, a, e);
    PathInRange(l, e, b, y);
    DistinctParts(a, e, b, x, y);
    var n := if b == [] then y else b[0];
    assert n < |l.next| && l.next[e] == n;
    DelFront(l, x, a, e, n);
    if b == [] { assert a + b == a; } else { DelBack(l, x, a, e, b, y); }
  }

  /** The nodes around e, and e itself, are all different. */
  lemma DistinctParts(a: seq<nat>, e: nat, b: seq<nat>, x: nat, y: nat)
    requires NoDuplicates(a + [e] + b) && x !in a + [e] + b && y !in a + [e] + b
    ensures NoDuplicates(a) && NoDuplicates(b) && e !in a && e !in b
    ensures x !in a && x != e && x !in b && y !in a && y != e && y !in b
    ensures forall z :: z in a ==> z !in b
  {
    var q := a + [e] + b;
    assert q[|a|] == e && forall i :: 0 <= i < |a| ==> q[i] == a[i];
    assert forall i :: 0 <= i < |b| ==> q[|a| + 1 + i] == b[i];
  }

  /** The part after e is untouched, so it joins the part before. */
  lemma DelBack(l: Links, x: nat, a: seq<nat>, e: nat, b: seq<nat>, y: nat)
    requires |l.next| == |l.prev| && e < |l.next| && 0 <= l.next[e] < |l.next| && 0 <= l.prev[e] < |l.next|
    requires b != [] && Path(l, e, b, y) && Path(Del(l, e), x, a, b[0]) && l.prev[e] == Last(x, a)
    requires NoDuplicates(a + [e] + b) && x !in a + [e] + b && y !in a + [e] + b
    ensures Path(Del(l, e), x, a + b, y)
  {
    var l', n := Del(l, e), b[0];
    DistinctParts(a, e, b, x, y);
    assert b == [n] + b[1..] && n !in b[1..];
    assert (Last(x, a) == x || Last(x, a) in a) && Last(x, a) !in b;
    assert l.next[e] == n;
    PathFrame(l, l', n, b[1..], y);
    PathJoin(l', x, a, n, b[1..], y);
    assert a + [n] + b[1..] == a + b;
  }

  /** After the deletion the part before e leads straight to e's successor n. */
  lemma DelFront(l: Links, x: nat, a: seq<nat>, e: nat, n: nat)
    requires |l.next| == |l.prev| && Path(l, x, a, e) && e < |l.next| && n < |l.next| && l.next[e] == n
    requires 0 <= l.prev[e] < |l.next| && l.prev[e] == Last(x, a)
    requires NoDuplicates(a) && x !in a && e !in a && n !in a && x != e && n != e
    ensures Path(Del(l, e), x, a, n)
  {
    var l' := Del(l, e);
    if a != [] {
      var a0, p := a[..|a| - 1], Last(x, a);
      assert a == a0 + [p] + [];
      PathJoin(l, x, a0, p, [], e);
      PathFrame(l, l', x, a0, p);
      PathJoin(l', x, a0, p, [], n);
    }
  }

  lemma DistinctWithout(a: seq<nat>, e: nat, b: seq<nat>)
    requires NoDuplicates(a + [e] + b)
    ensures NoDuplicates(a + b)
  {
    var q, r := a + [e] + b, a + b;
    forall i, j | 0 <= i < j < |r| ensures r[i] != r[j] {
      var i', j' := if i < |a| then i else i + 1, if j < |a| then j else j + 1;
      assert q[i'] == r[i] && q[j'] == r[j];
    }
  }

  /** list_del removes one node from its ring and clears the node's links. */
  lemma DelRing(l: Links, head: nat, a: seq<nat>, e: nat, b: seq<nat>)
    requires Ring(l, head, a + [e] + b)
    ensures e < |l.next| && 0 <= l.next[e] < |l.next| && 0 <= l.prev[e] < |l.next|
    ensures Ring(Del(l, e), head, a + b)
    ensures Del(l, e).next[e] == NIL && Del(l, e).prev[e] == NIL
  {
    PathJoin(l, head, a, e, b, head);
    DelPath(l, head, a, e, b, head);
    DistinctWithout(a, e, b);
  }

  /** A node is in its ring once. */
  lemma RingOnce(l: Links, head: nat, a: seq<nat>, e: nat, b: seq<nat>)
    requires Ring(l, head, a + [e] + b)
    ensures e in a + [e] + b && e !in a && e !in b && e !in a + b
  {
    var q := a + [e] + b;
    assert q[|a|] == e;
    assert forall i :: 0 <= i < |a| ==> q[i] == a[i];
    assert forall i :: 0 <= i < |b| ==> q[|a| + 1 + i] == b[i];
  }

  /** list_del touches only nodes of the ring it deletes from. */
  lemma DelElsewhere(l: Links, head: nat, a: seq<nat>, e: nat, b: seq<nat>, z: nat)
    requires Ring(l, head, a + [e] + b) && z != head && z !in a + [e] + b && z < |l.next|
    ensures e < |l.next| && 0 <= l.next[e] < |l.next| && 0 <= l.prev[e] < |l.next|
    ensures Del(l, e).next[z] == l.next[z] && Del(l, e).prev[z] == l.prev[z]
  {
    var q := a + [e] + b;
    RingNode(l, head, a, e, b);
    assert q[|a|] == e && (a != [] ==> q[|a| - 1] == Last(head, a)) && (b != [] ==> q[|a| + 1] == b[0]);
  }

  /** list_add_tail touches only the new node and nodes of the ring it appends to. */
  lemma AddTailElsewhere(l: Links, x: nat, head: nat, q: seq<nat>, z: nat)
    requires Ring(l, head, q) && x < |l.next| && z < |l.next| && z != x && z != head && z !in q
    ensures head < |l.next| && 0 <= l.prev[head] < |l.next|
    ensures AddTail(l, x, head).next[z] == l.next[z] && AddTail(l, x, head).prev[z] == l.prev[z]
  {
    RingEnds(l, head, q);
    assert q != [] ==> Last(head, q) in q;
  }

  /** list_del leaves every other ring alone. */
  lemma DelFrame(l: Links, head: nat, a: seq<nat>, e: nat, b: seq<nat>, other: nat, r: seq<nat>)
    requires Ring(l, head, a + [e] + b) && Ring(l, other, r)
    requires other != head && head !in r && other !in a + [e] + b
    requires forall z :: z in a + [e] + b ==> z !in r
    ensures e < |l.next| && 0 <= l.next[e] < |l.next| && 0 <= l.prev[e] < |l.next|
    ensures Ring(Del(l, e), other, r)
  {
    var q := a + [e] + b;
    RingNode(l, head, a, e, b);
    assert q[|a|] == e && (a != [] ==> q[|a| - 1] == Last(head, a)) && (b != [] ==> q[|a| + 1] == b[0]);
    PathFrame(l, Del(l, e), other, r, other);
  }
}

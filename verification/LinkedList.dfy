/**
  The doubly linked ring of src/lib/llist.c, whose first node is the list head.  It carries the age list
  of the buffer cache.
 */
module LinkedList {
  class Node {
    var forw: Node?
    var back: Node?
    var data: int

    // ll_init()
    constructor (d: int)
      ensures Ring([this]) && data == d
    {
      data := d;
      forw := this;
      back := this;
    }
  }

  function Next(i: nat, n: nat): nat {
    if i + 1 >= n then 0 else i + 1
  }

  function Prev(i: nat, n: nat): nat
    requires n > 0
  {
    if i == 0 then n - 1 else i - 1
  }

  ghost predicate Distinct(r: seq<Node>) {
    forall i, j :: 0 <= i < j < |r| ==> r[i] != r[j]
  }

  // The nodes in the order in which they are linked, forwards and backwards, starting at the head
  ghost predicate Ring(r: seq<Node>)
    reads r
  {
    && 0 < |r| && Distinct(r)
    && forall i :: 0 <= i < |r| ==> Linked(r, i)
  }

  ghost predicate Linked(r: seq<Node>, i: nat)
    requires i < |r|
    reads r
  {
    r[i].forw == r[Next(i, |r|)] && r[i].back == r[Prev(i, |r|)]
  }

  // Node n goes in at place m
  function With(r: seq<Node>, m: nat, n: Node): seq<Node>
    requires 0 < m <= |r|
  {
    r[..m] + [n] + r[m..]
  }

  function Without(r: seq<Node>, i: nat): seq<Node>
    requires 0 < i < |r|
  {
    r[..i] + r[i + 1..]
  }

  lemma {:induction false} WithDistinct(r: seq<Node>, m: nat, n: Node)
    requires Distinct(r) && 0 < m <= |r| && n !in r
    ensures Distinct(With(r, m, n))
  {
    var t := With(r, m, n);
    forall i, j | 0 <= i < j < |t| ensures t[i] != t[j] {
      assert i != m ==> t[i] == r[if i < m then i else i - 1] && t[i] in r;
      assert j != m ==> t[j] == r[if j < m then j else j - 1] && t[j] in r;
    }
  }

  lemma {:induction false} WithoutDistinct(r: seq<Node>, i: nat)
    requires Distinct(r) && 0 < i < |r|
    ensures Distinct(Without(r, i)) && r[i] !in Without(r, i)
  {
    var t := Without(r, i);
    forall j | 0 <= j < |t| ensures t[j] == r[if j < i then j else j + 1] && t[j] != r[i] {}
    forall j, k | 0 <= j < k < |t| ensures t[j] != t[k] {
      assert t[j] == r[if j < i then j else j + 1] && t[k] == r[if k < i then k else k + 1];
    }
  }

  lemma OldLinks(r: seq<Node>)
    requires Ring(r)
    ensures forall k :: 0 <= k < |r| ==> r[k].forw == r[Next(k, |r|)] && r[k].back == r[Prev(k, |r|)]
    ensures forall j, k :: 0 <= j < |r| && 0 <= k < |r| && j != k ==> r[j] != r[k]
  {
    forall k | 0 <= k < |r| ensures r[k].forw == r[Next(k, |r|)] && r[k].back == r[Prev(k, |r|)] {
      assert Linked(r, k);
    }
    forall j, k | 0 <= j < |r| && 0 <= k < |r| && j != k ensures r[j] != r[k] {
      if j < k {} else {}
    }
  }

  lemma WithAt(r: seq<Node>, m: nat, n: Node, k: nat)
    requires 0 < m <= |r| && k <= |r|
    ensures With(r, m, n)[k] == if k < m then r[k] else if k == m then n else r[k - 1]
  {
  }

  lemma WithoutAt(r: seq<Node>, i: nat, k: nat)
    requires 0 < i < |r| && k + 1 < |r|
    ensures Without(r, i)[k] == r[if k < i then k else k + 1]
  {
  }

  // ll_insert(): the new node comes before l, which is at the end when l is the head
  method Insert(l: Node, d: int, ghost r: seq<Node>, ghost i: nat) returns (n: Node)
    requires Ring(r) && i < |r| && r[i] == l
    modifies l, r[Prev(i, |r|)]
    ensures fresh(n) && n.data == d && Ring(With(r, if i == 0 then |r| else i, n))
    ensures l.data == old(l.data) && r[Prev(i, |r|)].data == old(r[Prev(i, |r|)].data)
  {
    ghost var m := if i == 0 then |r| else i;
    OldLinks(r);
    var back := l.back;
    assert back == r[Prev(i, |r|)];
    n := new Node(d);
    n.forw := l;
    n.back := back;
    back.forw := n;
    l.back := n;
    WithDistinct(r, m, n);
    ghost var t := With(r, m, n);
    forall k | 0 <= k < |t| ensures Linked(t, k) {
      WithAt(r, m, n, k);
      WithAt(r, m, n, Next(k, |t|));
      WithAt(r, m, n, Prev(k, |t|));
    }
  }

  // The links without node i, by position in the ring
  lemma {:induction false} Unlinked(r: seq<Node>, i: nat)
    requires 0 < i < |r| && Distinct(r)
    requires forall j :: 0 <= j < |r| && j != i ==>
               && r[j].forw == r[if j == i - 1 then Next(i, |r|) else Next(j, |r|)]
               && r[j].back == r[if j == Next(i, |r|) then i - 1 else Prev(j, |r|)]
    ensures Ring(Without(r, i))
  {
    WithoutDistinct(r, i);
    var t := Without(r, i);
    forall k | 0 <= k < |t| ensures Linked(t, k) {
      WithoutAt(r, i, k);
      WithoutAt(r, i, Next(k, |t|));
      WithoutAt(r, i, Prev(k, |t|));
    }
  }

  // The first two assignments of ll_delete() and ll_movehead()
  method Unlink(l: Node, ghost r: seq<Node>, ghost i: nat)
    requires Ring(r) && 0 < i < |r| && r[i] == l
    modifies r[i - 1], r[Next(i, |r|)]
    ensures Ring(Without(r, i))
    ensures forall n :: n in r ==> n.data == old(n.data)
  {
    OldLinks(r);
    var forw := l.forw;
    var back := l.back;
    back.forw := forw;
    forw.back := back;
    hide Distinct, Prev;
    Unlinked(r, i);
  }

  // ll_delete()
  method Delete(l: Node, ghost r: seq<Node>, ghost i: nat)
    requires Ring(r) && 0 < i < |r| && r[i] == l
    modifies r[i - 1], r[Next(i, |r|)]
    ensures Ring(Without(r, i))
    ensures forall n :: n in r ==> n.data == old(n.data)
  {
    Unlink(l, r, i);
  }

  // The last four assignments of ll_movehead()
  method LinkFirst(head: Node, l: Node, first: Node, ghost r: seq<Node>)
    requires Ring(r) && 1 < |r| && r[0] == head && r[1] == first && l !in r
    modifies head, l, first
    ensures Ring(With(r, 1, l)) && l.data == old(l.data) && head.data == old(head.data) && first.data == old(first.data)
  {
    OldLinks(r);
    l.forw := first;
    l.back := head;
    first.back := l;
    head.forw := l;
    WithDistinct(r, 1, l);
    ghost var t := With(r, 1, l);
    forall k | 0 <= k < |t| ensures Linked(t, k) {
      WithAt(r, 1, l, k);
      WithAt(r, 1, l, Next(k, |t|));
      WithAt(r, 1, l, Prev(k, |t|));
    }
  }

  // ll_movehead(): the node comes right after the head; the others keep their order
  method MoveHead(head: Node, l: Node, ghost r: seq<Node>, ghost i: nat)
    requires Ring(r) && 0 < i < |r| && r[0] == head && r[i] == l
    modifies r
    ensures Ring(With(Without(r, i), 1, l))
    ensures forall n :: n in r ==> n.data == old(n.data)
  {
    OldLinks(r);
    var headForw := head.forw;
    if headForw == l {
      assert With(Without(r, i), 1, l) == r;
      return;
    }
    Unlink(l, r, i);
    WithoutDistinct(r, i);
    LinkFirst(head, l, headForw, Without(r, i));
  }
}

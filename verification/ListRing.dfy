/** include/sys/list.h: the circular doubly linked list every queue of the kernel is
    made of, its relinking shown to be insertion into and removal from a
    sequence. */
module ListRing {

  class ListHead {
    var next: ListHead?
    var prev: ListHead?

    /** A head by itself, LIST_HEAD_INIT. */
    constructor ()
      ensures Ring(this, [])
    {
      next := this;
      prev := this;
    }
  }

  /** Once round: the head, the entries and the head again. */
  function Round(head: ListHead, nodes: seq<ListHead>): seq<ListHead> {
    [head] + nodes + [head]
  }

  ghost function Members(head: ListHead, nodes: seq<ListHead>): set<ListHead> {
    {head} + set n | n in nodes
  }

  ghost predicate Distinct(head: ListHead, nodes: seq<ListHead>) {
    && head !in nodes
    && forall i, j :: 0 <= i < j < |nodes| ==> nodes[i] != nodes[j]
  }

  /** Neighbours on the round point at each other. */
  ghost predicate Ring(head: ListHead, nodes: seq<ListHead>)
    reads Members(head, nodes)
  {
    && Distinct(head, nodes)
    && var c := Round(head, nodes);
       && (forall i :: 0 <= i < |c| ==> c[i] in Members(head, nodes))
       && (forall i :: 0 <= i < |c| - 1 ==> c[i].next == c[i+1] && c[i+1].prev == c[i])
  }

  function Inserted(nodes: seq<ListHead>, k: nat, n: ListHead): seq<ListHead>
    requires k <= |nodes|
  {
    nodes[..k] + [n] + nodes[k..]
  }

  function Removed(nodes: seq<ListHead>, k: nat): seq<ListHead>
    requires k < |nodes|
  {
    nodes[..k] + nodes[k+1..]
  }

  /** The links determine the entries. */
  lemma RingUnique(head: ListHead, a: seq<ListHead>, b: seq<ListHead>)
    requires Ring(head, a) && Ring(head, b)
    ensures a == b
  {
    SamePrefix(head, a, b, if |a| < |b| then |a| else |b|);
    if |a| < |b| {
      NoLonger(head, a, b);
    } else if |b| < |a| {
      NoLonger(head, b, a);
    }
  }

  lemma NoLonger(head: ListHead, a: seq<ListHead>, b: seq<ListHead>)
    requires Ring(head, a) && |a| < |b| && Round(head, a)[|a|] == Round(head, b)[|a|]
    ensures !Ring(head, b)
  {
    var c, d := Round(head, a), Round(head, b);
    assert c[|a|].next == c[|a|+1] == head;
    assert d[|a|+1] == b[|a|];
  }

  lemma {:induction false} SamePrefix(head: ListHead, a: seq<ListHead>, b: seq<ListHead>, n: nat)
    requires Ring(head, a) && Ring(head, b) && n <= |a| && n <= |b|
    ensures Round(head, a)[n] == Round(head, b)[n] && a[..n] == b[..n]
  {
    if n > 0 {
      SamePrefix(head, a, b, n - 1);
      var c, d := Round(head, a), Round(head, b);
      assert c[n-1].next == c[n] && d[n-1].next == d[n];
      assert a[..n] == a[..n-1] + [a[n-1]] && b[..n] == b[..n-1] + [b[n-1]];
    }
  }

  /** A new entry between two neighbours. */
  method ListAddBetween(n: ListHead, prev: ListHead, next: ListHead,
                        ghost head: ListHead, ghost nodes: seq<ListHead>, ghost k: nat)
    requires Ring(head, nodes) && n !in nodes && n != head
    requires k <= |nodes| && prev == Round(head, nodes)[k] && next == Round(head, nodes)[k+1]
    modifies n, prev, next
    ensures Ring(head, Inserted(nodes, k, n))
  {
    next.prev := n;
    n.next := next;
    n.prev := prev;
    prev.next := n;
    ghost var c, d := Round(head, nodes), Round(head, Inserted(nodes, k, n));
    forall i | 0 <= i < |d| - 1 ensures d[i].next == d[i+1] && d[i+1].prev == d[i] {
      if i < k {
        assert d[i] == c[i] && d[i+1] == c[i+1];
      } else if i > k + 1 {
        assert d[i] == c[i-1] && d[i+1] == c[i];
      }
    }
  }

  /** A new first entry. */
  method ListAdd(n: ListHead, head: ListHead, ghost nodes: seq<ListHead>)
    requires Ring(head, nodes) && n !in nodes && n != head
    modifies n, Members(head, nodes)
    ensures Ring(head, [n] + nodes)
  {
    assert Round(head, nodes)[0].next == Round(head, nodes)[1];
    assert Inserted(nodes, 0, n) == [n] + nodes;
    ListAddBetween(n, head, head.next, head, nodes, 0);
  }

  /** A new last entry. */
  method ListAddTail(n: ListHead, head: ListHead, ghost nodes: seq<ListHead>)
    requires Ring(head, nodes) && n !in nodes && n != head
    modifies n, Members(head, nodes)
    ensures Ring(head, nodes + [n])
  {
    ghost var c := Round(head, nodes);
    assert c[|nodes|+1].prev == c[|nodes|];
    assert Inserted(nodes, |nodes|, n) == nodes + [n];
    ListAddBetween(n, head.prev, head, head, nodes, |nodes|);
  }

  /** Any entry taken out, its own links cleared. */
  method ListDel(entry: ListHead, ghost head: ListHead, ghost nodes: seq<ListHead>, ghost k: nat)
    requires Ring(head, nodes) && k < |nodes| && entry == nodes[k]
    modifies Members(head, nodes)
    ensures Ring(head, Removed(nodes, k)) && entry.next == null && entry.prev == null
  {
    ghost var c := Round(head, nodes);
    assert c[k+1] == entry && c[k+1].next == c[k+2] && c[k+1].prev == c[k];
    entry.next.prev := entry.prev;
    entry.prev.next := entry.next;
    entry.next := null;
    entry.prev := null;
    ghost var d := Round(head, Removed(nodes, k));
    forall i | 0 <= i < |d| - 1 ensures d[i].next == d[i+1] && d[i+1].prev == d[i] {
      if i < k {
        assert d[i] == c[i] && d[i+1] == c[i+1];
      } else if i > k {
        assert d[i] == c[i+1] && d[i+1] == c[i+2];
      }
    }
  }

  method ListEmpty(head: ListHead, ghost nodes: seq<ListHead>) returns (r: bool)
    requires Ring(head, nodes)
    ensures r <==> nodes == []
  {
    assert Round(head, nodes)[0].next == Round(head, nodes)[1];
    r := head.next == head;
  }

  /** list_for_each visits the entries once each, in order. */
  method ListForEach(head: ListHead, ghost nodes: seq<ListHead>) returns (visited: seq<ListHead>)
    requires Ring(head, nodes)
    ensures visited == nodes
  {
    visited := [];
    ghost var c := Round(head, nodes);
    assert c[0].next == c[1];
    var pos := head.next;
    while pos != head
      invariant |visited| <= |nodes| && visited == nodes[..|visited|] && pos == c[|visited|+1]
      decreases |nodes| - |visited|
    {
      assert c[|visited|+1].next == c[|visited|+2];
      visited := visited + [pos];
      pos := pos.next;
    }
  }

  /** sys_yield's move of the first entry to the tail. */
  method MoveFirstToTail(head: ListHead, ghost nodes: seq<ListHead>)
    requires Ring(head, nodes) && nodes != []
    modifies Members(head, nodes)
    ensures Ring(head, nodes[1..] + [nodes[0]])
  {
    assert Round(head, nodes)[0].next == Round(head, nodes)[1];
    var first := head.next;
    ListDel(first, head, nodes, 0);
    assert Removed(nodes, 0) == nodes[1..];
    ListAddTail(first, head, nodes[1..]);
  }

  /** Taking out what was just put in restores the ring. */
  method AddThenDel(n: ListHead, prev: ListHead, head: ListHead, ghost nodes: seq<ListHead>, ghost k: nat)
    requires Ring(head, nodes) && n !in nodes && n != head
    requires k <= |nodes| && prev == Round(head, nodes)[k]
    modifies n, Members(head, nodes)
    ensures Ring(head, nodes)
  {
    ghost var c := Round(head, nodes);
    assert c[k].next == c[k+1];
    ListAddBetween(n, prev, prev.next, head, nodes, k);
    ListDel(n, head, Inserted(nodes, k, n), k);
    assert Removed(Inserted(nodes, k, n), k) == nodes;
  }
}

/**
  The intrusive circular list of C/broadcast/listhead.h. A list is the ring of its nodes, the head
  first: `ring[1..]` is what the list holds.
 */
module CircularList {
  import opened Sequences

  class Processor {
    const fd: int

    constructor (fd: int)
      ensures this.fd == fd
    {
      this.fd := fd;
    }
  }

  /** A list_head, together with the entry that it is embedded in: null for the head of a list. */
  class Node {
    var next: Node?
    var prev: Node?
    const processor: Processor?

    /** INIT_LIST_HEAD. */
    constructor (processor: Processor?)
      ensures Circular([this]) && this.processor == processor
    {
      next, prev := this, this;
      this.processor := processor;
    }
  }

  /** Each node points to the one after it, which points back. */
  ghost predicate Chain(nodes: seq<Node>)
    reads nodes
  {
    forall i :: 0 <= i < |nodes| - 1 ==> nodes[i].next == nodes[i + 1] && nodes[i + 1].prev == nodes[i]
  }

  /** A chain without repetition that the last node and the first close. */
  ghost predicate Circular(ring: seq<Node>)
    reads ring
  {
    && ring != [] && Distinct(ring) && Chain(ring)
    && ring[|ring| - 1].next == ring[0] && ring[0].prev == ring[|ring| - 1]
  }

  lemma ChainAppend(a: seq<Node>, b: seq<Node>)
    requires a != [] && b != [] && Chain(a) && Chain(b) && a[|a| - 1].next == b[0] && b[0].prev == a[|a| - 1]
    ensures Chain(a + b)
  {}

  // ---------- What a ring is ----------

  /** Next and prev are inverse to each other, and stay within the ring. */
  lemma NextPrev(ring: seq<Node>, n: Node)
    requires Circular(ring) && n in ring
    ensures n.next != null && n.next in ring && n.next.prev == n
    ensures n.prev != null && n.prev in ring && n.prev.next == n
  {
    var i :| 0 <= i < |ring| && ring[i] == n;
    assert i < |ring| - 1 ==> ring[i + 1].prev == ring[i];
    assert i > 0 ==> ring[i - 1].next == ring[i];
  }

  /** The same list, seen from another of its nodes. */
  lemma Rotate(ring: seq<Node>, k: nat)
    requires Circular(ring) && k < |ring|
    ensures Circular(ring[k..] + ring[..k])
  {
    var turned := ring[k..] + ring[..k];
    var n := |ring|;
    assert forall i :: 0 <= i < n ==> turned[i] == ring[if i < n - k then i + k else i + k - n];
  }

  lemma {:induction false} SamePrefix(a: seq<Node>, b: seq<Node>, k: nat)
    requires Circular(a) && Circular(b) && a[0] == b[0] && k <= |a| && k <= |b|
    ensures a[..k] == b[..k]
  {
    if k <= 1 {
    } else {
      SamePrefix(a, b, k - 1);
      assert a[k - 2] == a[..k - 1][k - 2] == b[..k - 1][k - 2] == b[k - 2];
      assert a[..k] == a[..k - 1] + [a[k - 1]] && b[..k] == b[..k - 1] + [b[k - 1]];
    }
  }

  /** The pointers determine the list: no two rings start at the same head. */
  lemma RingUnique(a: seq<Node>, b: seq<Node>)
    requires Circular(a) && Circular(b) && a[0] == b[0]
    ensures a == b
  {
    if |a| <= |b| {
      ShorterIsWhole(a, b);
    } else {
      ShorterIsWhole(b, a);
    }
  }

  lemma ShorterIsWhole(a: seq<Node>, b: seq<Node>)
    requires Circular(a) && Circular(b) && a[0] == b[0] && |a| <= |b|
    ensures a == b
  {
    var k := |a|;
    SamePrefix(a, b, k);
    assert a[..k] == a;
    assert a[k - 1] == b[..k][k - 1] == b[k - 1];
  }

  // ---------- Changing a ring ----------

  /** The node after the one at k. */
  function Following(ring: seq<Node>, k: nat): Node
    requires k < |ring|
  {
    if k + 1 < |ring| then ring[k + 1] else ring[0]
  }

  lemma DistinctInsert(ring: seq<Node>, n: Node, k: nat)
    requires Distinct(ring) && n !in ring && k < |ring|
    ensures Distinct(ring[..k + 1] + [n] + ring[k + 1..])
  {}

  /** __list_add: between the node at k and the one after it. */
  method AddBetween(n: Node, prev: Node, next: Node, ghost ring: seq<Node>, ghost k: nat)
    requires Circular(ring) && n !in ring && k < |ring|
    requires prev == ring[k] && next == Following(ring, k)
    modifies n, prev, next
    ensures Circular(ring[..k + 1] + [n] + ring[k + 1..])
  {
    next.prev := n;
    n.next := next;
    n.prev := prev;
    prev.next := n;
    ghost var now := ring[..k + 1] + [n] + ring[k + 1..];
    DistinctInsert(ring, n, k);
    forall i | 0 <= i < |now| - 1
      ensures now[i].next == now[i + 1]
    {
      if i < k {
        assert ring[i] != ring[k];
      } else if i > k + 1 {
        assert ring[i - 1] != ring[k];
      }
    }
    forall i | 0 < i < |now|
      ensures now[i].prev == now[i - 1]
    {
      if k + 1 < |ring| {
        if i <= k {
          assert ring[i] != ring[k + 1];
        } else if i > k + 2 {
          assert ring[i - 1] != ring[k + 1];
        }
      } else if 0 < i <= k {
        assert ring[i] != ring[0];
      }
    }
  }

  /** list_add: the new node comes first. */
  method Add(n: Node, head: Node, ghost ring: seq<Node>)
    requires Circular(ring) && ring[0] == head && n !in ring
    modifies n, head, ring[if |ring| == 1 then 0 else 1]
    ensures Circular([head, n] + ring[1..])
  {
    assert ring[..1] + [n] + ring[1..] == [head, n] + ring[1..];
    AddBetween(n, head, head.next, ring, 0);
  }

  /** list_add_tail: the new node comes last. */
  method AddTail(n: Node, head: Node, ghost ring: seq<Node>)
    requires Circular(ring) && ring[0] == head && n !in ring
    modifies n, head, ring[|ring| - 1]
    ensures Circular(ring + [n])
  {
    ghost var k := |ring| - 1;
    assert ring[..k + 1] + [n] + ring[k + 1..] == ring + [n];
    AddBetween(n, head.prev, head, ring, k);
  }

  /** list_del_init: the entry leaves the list and becomes a list of its own. */
  method DelInit(entry: Node, ghost ring: seq<Node>, ghost k: nat)
    requires Circular(ring) && 0 < k < |ring| && entry == ring[k]
    modifies entry, ring[k - 1], Following(ring, k)
    ensures Circular(Without(ring, k)) && Circular([entry])
  {
    var prev, next := entry.prev, entry.next;
    next.prev := prev;
    prev.next := next;
    entry.next := entry;
    entry.prev := entry;
    ghost var now := Without(ring, k);
    ghost var n := |now|;
    assert forall i :: 0 <= i < n ==> now[i] == ring[if i < k then i else i + 1];
    forall i | 0 <= i < n - 1
      ensures now[i].next == now[i + 1]
    {
      if i < k - 1 {
        assert ring[i] != ring[k - 1] && ring[i] != ring[k];
      } else if i >= k {
        assert ring[i + 1] != ring[k - 1] && ring[i + 1] != ring[k];
      }
    }
    forall i | 0 < i < n
      ensures now[i].prev == now[i - 1]
    {
      if i < k {
        assert ring[i] != ring[k];
        assert k + 1 < |ring| ==> ring[i] != ring[k + 1];
      } else if i > k {
        assert ring[i + 1] != ring[k] && ring[i + 1] != ring[k + 1];
      }
    }
  }

  lemma FirstOf(ring: seq<Node>)
    requires Circular(ring)
    ensures ring != [] && Distinct(ring) && ring[0].prev == ring[|ring| - 1]
    ensures |ring| == 1 ==> ring[0].next == ring[0]
    ensures |ring| > 1 ==> ring[0].next == ring[1] != ring[0]
  {}

  /** list_empty. */
  method IsEmpty(head: Node, ghost ring: seq<Node>) returns (empty: bool)
    requires Circular(ring) && ring[0] == head
    ensures empty <==> ring[1..] == []
  {
    empty := head.next == head;
    FirstOf(ring);
  }

  lemma SplicedDistinct(list: seq<Node>, ring: seq<Node>)
    requires Distinct(list) && Distinct(ring) && list != [] && ring != []
    requires forall m :: m in list ==> m !in ring
    ensures Distinct([ring[0]] + list[1..] + ring[1..])
  {
    var now := [ring[0]] + list[1..] + ring[1..];
    var n := |list|;
    assert forall i :: 0 < i < n ==> now[i] == list[i];
    assert forall i :: n <= i < |now| ==> now[i] == ring[i - n + 1];
    forall i, j | 0 <= i < j < |now|
      ensures now[i] != now[j]
    {
      if 0 < i < n {
        assert list[i] !in ring;
      } else if 0 < j < n {
        assert list[j] !in ring;
      }
    }
  }

  lemma Held(ring: seq<Node>)
    requires Circular(ring)
    ensures var held := ring[1..];
            && Chain(held) && Distinct(held) && ring[0] !in held
            && (held != [] ==>
                  held[0] == ring[1] && held[|held| - 1] == ring[|ring| - 1] && held[|held| - 1].next == ring[0])
  {}

  /** Two chains after a head close into a ring. */
  lemma Closes(head: Node, moved: seq<Node>, stays: seq<Node>)
    requires moved != [] && Chain(moved) && Chain(stays) && Distinct([head] + moved + stays)
    requires head.next == moved[0] && moved[0].prev == head
    requires var at := if stays == [] then head else stays[0];
             moved[|moved| - 1].next == at && at.prev == moved[|moved| - 1]
    requires stays != [] ==> stays[|stays| - 1].next == head && head.prev == stays[|stays| - 1]
    ensures Circular([head] + moved + stays)
  {
    hide Distinct;
    ChainAppend([head], moved);
    if stays != [] {
      ChainAppend([head] + moved, stays);
    } else {
      assert [head] + moved + stays == [head] + moved;
    }
  }

  /** Of these nodes, only the last may be a and only the first may be b. */
  ghost predicate Outside(nodes: seq<Node>, a: Node, b: Node) {
    && (forall i :: 0 <= i < |nodes| - 1 ==> nodes[i] != a)
    && (forall i :: 0 < i < |nodes| ==> nodes[i] != b)
  }

  lemma Borders(from: seq<Node>, ring: seq<Node>)
    requires Circular(from) && Circular(ring) && |from| > 1
    requires forall m :: m in from ==> m !in ring
    ensures var moved, stays := from[1..], ring[1..];
            && Outside(moved, ring[0], from[1]) && Outside(stays, ring[0], from[1])
            && Outside(moved, from[|from| - 1], Following(ring, 0)) &&
               Outside(stays, from[|from| - 1], Following(ring, 0))
            && from[|from| - 1] != ring[0] && from[1] != Following(ring, 0)
  {
    var moved, stays := from[1..], ring[1..];
    Held(from);
    Held(ring);
    assert forall m :: m in moved ==> m in from && m !in ring;
    assert forall m :: m in stays ==> m in ring && m !in from;
    assert from[1] in from && from[|from| - 1] in from && ring[0] in ring && Following(ring, 0) in ring;
  }

  /** Two of the assignments of list_splice: the pointers between two neighbours. They lie outside
      chains unless one ends at the one or begins at the other. */
  method Join(a: Node, b: Node, ghost s: seq<Node>, ghost t: seq<Node>)
    requires Chain(s) && Chain(t) && Outside(s, a, b) && Outside(t, a, b)
    modifies a`next, b`prev
    ensures a.next == b && b.prev == a
    ensures Chain(s) && Chain(t)
  {
    b.prev := a;
    a.next := b;
  }

  /** list_splice: what `list` holds comes first. Its own head keeps its pointers, so that it is no
      list any more. */
  method Splice(list: Node, head: Node, ghost from: seq<Node>, ghost ring: seq<Node>)
    requires Circular(from) && Circular(ring) && from[0] == list && ring[0] == head
    requires forall m :: m in from ==> m !in ring
    modifies from[1..], ring
    ensures Circular([head] + from[1..] + ring[1..])
    ensures |from| == 1 ==> Circular(from)
  {
    hide Circular, Distinct, Chain, Outside;
    FirstOf(from);
    FirstOf(ring);
    ghost var moved, stays := from[1..], ring[1..];
    Held(from);
    Held(ring);
    SplicedDistinct(from, ring);
    var first := list.next;
    if first != list {
      var last := list.prev;
      var at := head.next;
      Borders(from, ring);
      Join(head, first, moved, stays);
      Join(last, at, moved, stays);
      Closes(head, moved, stays);
    } else {
      assert [head] + moved + stays == ring;
    }
  }
}

/**
  The registry of C/broadcast/BREpoll.cpp: the processors an epoll loop serves, on a circular list,
  beside the interest set that the kernel keeps.

  A processor's descriptor does not change, and the mutex makes each operation one step.
 */
module EpollRegistry {
  import opened Sequences
  import opened CircularList

  // ---------- Histories ----------

  datatype Op = Regist(processor: Processor) | Unregist(processor: Processor)

  /** The descriptors on the list after one more operation. */
  function Step(fds: seq<int>, op: Op): seq<int> {
    match op
    case Regist(p) => if p.fd < 0 || p.fd in fds then fds else fds + [p.fd]
    case Unregist(p) => Drop(fds, p.fd)
  }

  function Drop(fds: seq<int>, fd: int): seq<int> {
    if fds == [] then [] else if fds[0] == fd then fds[1..] else [fds[0]] + Drop(fds[1..], fd)
  }

  function After(ops: seq<Op>): seq<int> {
    if ops == [] then [] else Step(After(ops[..|ops| - 1]), Last(ops))
  }

  /** The processors that have registered this descriptor since it was last unregistered. */
  function Since(ops: seq<Op>, fd: int): (ps: seq<Processor>)
    ensures forall p :: p in ps ==> p.fd == fd >= 0
  {
    if ops == [] then []
    else
      var before, op := Since(ops[..|ops| - 1], fd), Last(ops);
      if op.processor.fd != fd then before
      else if op.Unregist? then []
      else if fd < 0 then before
      else before + [op.processor]
  }

  lemma Appended(ops: seq<Op>, op: Op, fd: int)
    ensures After(ops + [op]) == Step(After(ops), op)
    ensures Since(ops + [op], fd) ==
              if op.processor.fd != fd then Since(ops, fd)
              else if op.Unregist? then []
              else if fd < 0 then Since(ops, fd)
              else Since(ops, fd) + [op.processor]
  {
    assert (ops + [op])[..|ops|] == ops;
  }

  lemma {:induction false} DropMembers(fds: seq<int>, fd: int)
    requires Distinct(fds)
    ensures Distinct(Drop(fds, fd)) && fd !in Drop(fds, fd)
    ensures forall x :: x in Drop(fds, fd) <==> x in fds && x != fd
    ensures |Drop(fds, fd)| == |fds| - if fd in fds then 1 else 0
  {
    if fds == [] {
    } else {
      var rest := fds[1..];
      assert fds == [fds[0]] + rest && fds[0] !in rest;
      if fds[0] != fd {
        DropMembers(rest, fd);
      }
    }
  }

  lemma StepMembers(fds: seq<int>, op: Op, fd: int)
    requires Distinct(fds)
    ensures Distinct(Step(fds, op))
    ensures fd != op.processor.fd ==> (fd in Step(fds, op) <==> fd in fds)
    ensures op.processor.fd in Step(fds, op) <==> op.Regist? && (op.processor.fd >= 0 || op.processor.fd in fds)
  {
    if op.Unregist? {
      DropMembers(fds, op.processor.fd);
    }
  }

  /** After any history no descriptor is on the list twice, and it is on it exactly when it has been
      registered since it was last unregistered. */
  lemma {:induction false} OnTheList(ops: seq<Op>)
    ensures Distinct(After(ops))
    ensures forall fd :: fd in After(ops) <==> Since(ops, fd) != []
  {
    hide Step, Distinct;
    if ops == [] {
      EmptyDistinct();
    } else {
      var before, op := ops[..|ops| - 1], Last(ops);
      OnTheList(before);
      StepMembers(After(before), op, op.processor.fd);
      forall fd
        ensures fd in After(ops) <==> Since(ops, fd) != []
      {
        StepMembers(After(before), op, fd);
      }
    }
  }

  lemma StepRegist(fds: seq<int>, p: Processor)
    ensures Step(fds, Regist(p)) == if p.fd < 0 || p.fd in fds then fds else fds + [p.fd]
  {}

  lemma StepUnregist(fds: seq<int>, p: Processor)
    ensures Step(fds, Unregist(p)) == Drop(fds, p.fd)
  {}

  lemma EmptyDistinct()
    ensures Distinct<int>([])
  {}

  lemma {:induction false} DropAt(fds: seq<int>, k: nat)
    requires k < |fds| && Distinct(fds)
    ensures Drop(fds, fds[k]) == Without(fds, k)
  {
    if k == 0 {
    } else {
      assert fds[1..][k - 1] == fds[k] && fds[0] != fds[k];
      DropAt(fds[1..], k - 1);
    }
  }

  lemma {:induction false} DropNothing(fds: seq<int>, fd: int)
    requires fd !in fds
    ensures Drop(fds, fd) == fds
  {
    if fds == [] {
    } else {
      DropNothing(fds[1..], fd);
    }
  }

  // ---------- The nodes ----------

  ghost predicate Entries(nodes: seq<Node>) {
    forall n :: n in nodes ==> n.processor != null
  }

  /** The descriptors of the processors that these nodes carry. */
  ghost function Fds(nodes: seq<Node>): seq<int>
    requires Entries(nodes)
  {
    if nodes == [] then [] else Fds(nodes[..|nodes| - 1]) + [nodes[|nodes| - 1].processor.fd]
  }

  lemma {:induction false} FdsAt(nodes: seq<Node>)
    requires Entries(nodes)
    ensures |Fds(nodes)| == |nodes|
    ensures forall i :: 0 <= i < |nodes| ==> Fds(nodes)[i] == nodes[i].processor.fd
  {
    if nodes == [] {
    } else {
      FdsAt(nodes[..|nodes| - 1]);
    }
  }

  lemma FdsWithout(nodes: seq<Node>, k: nat)
    requires Entries(nodes) && k < |nodes| && Distinct(Fds(nodes))
    ensures |Fds(nodes)| == |nodes| && Entries(Without(nodes, k))
    ensures Fds(Without(nodes, k)) == Drop(Fds(nodes), nodes[k].processor.fd)
  {
    hide Fds, Drop;
    FdsAt(nodes);
    FdsAt(Without(nodes, k));
    DropAt(Fds(nodes), k);
    assert Fds(Without(nodes, k)) == Without(Fds(nodes), k);
  }

  lemma FdsAppend(nodes: seq<Node>, n: Node)
    requires Entries(nodes) && n.processor != null
    ensures Entries(nodes + [n]) && Fds(nodes + [n]) == Fds(nodes) + [n.processor.fd]
  {
    assert (nodes + [n])[..|nodes|] == nodes;
  }

  /** Each listed node carries the first processor that registered its descriptor. */
  ghost predicate CarryFirst(nodes: seq<Node>, ops: seq<Op>)
    requires Entries(nodes)
  {
    forall n :: n in nodes ==> Since(ops, n.processor.fd) != [] && n.processor == Since(ops, n.processor.fd)[0]
  }

  /** The kernel reports to the last one. */
  ghost predicate ReportToLast(interest: map<int, Processor>, ops: seq<Op>) {
    forall fd :: if Since(ops, fd) == [] then fd !in interest
      else fd in interest && interest[fd] == Last(Since(ops, fd))
  }

  lemma CarryMore(nodes: seq<Node>, ops: seq<Op>, op: Op)
    requires Entries(nodes) && CarryFirst(nodes, ops)
    requires op.Regist? || forall n :: n in nodes ==> n.processor.fd != op.processor.fd
    ensures CarryFirst(nodes, ops + [op])
  {
    hide Since;
    forall n | n in nodes
      ensures Since(ops + [op], n.processor.fd) != [] && n.processor == Since(ops + [op], n.processor.fd)[0]
    {
      Appended(ops, op, n.processor.fd);
    }
  }

  lemma CarryNew(nodes: seq<Node>, n: Node, ops: seq<Op>)
    requires Entries(nodes) && CarryFirst(nodes, ops) && n.processor != null && n.processor.fd >= 0
    requires Since(ops, n.processor.fd) == []
    ensures Entries(nodes + [n]) && CarryFirst(nodes + [n], ops + [Regist(n.processor)])
  {
    hide Since;
    CarryMore(nodes, ops, Regist(n.processor));
    Appended(ops, Regist(n.processor), n.processor.fd);
  }

  lemma KernelKnows(interest: map<int, Processor>, ops: seq<Op>, fd: int)
    requires ReportToLast(interest, ops)
    ensures fd in interest <==> fd in After(ops)
    ensures Since(ops, fd) == [] <==> fd !in After(ops)
  {
    hide Since, After;
    OnTheList(ops);
  }

  lemma CarryLess(nodes: seq<Node>, k: nat, ops: seq<Op>, processor: Processor)
    requires Entries(nodes) && CarryFirst(nodes, ops) && k < |nodes| && nodes[k].processor.fd == processor.fd
    requires Distinct(Fds(nodes))
    ensures Entries(Without(nodes, k)) && CarryFirst(Without(nodes, k), ops + [Unregist(processor)])
  {
    hide Since, Fds;
    FdsAt(nodes);
    var left := Without(nodes, k);
    forall n | n in left
      ensures n in nodes && n.processor.fd != processor.fd
    {
      var i :| 0 <= i < |left| && left[i] == n;
      var j := if i < k then i else i + 1;
      assert nodes[j] == n && Fds(nodes)[j] != Fds(nodes)[k];
    }
    CarryMore(left, ops, Unregist(processor));
  }

  lemma ReportMore(interest: map<int, Processor>, ops: seq<Op>, op: Op)
    requires ReportToLast(interest, ops)
    ensures var fd := op.processor.fd;
            var known := if fd < 0 then interest else interest[fd := op.processor];
            ReportToLast(if op.Unregist? then interest - {fd} else known, ops + [op])
  {
    hide Since;
    forall fd {
      Appended(ops, op, fd);
    }
  }

  // ---------- The registry object ----------

  class Registry {
    const head: Node
    var count: nat
    /** The interest set of the kernel: the processor that each descriptor reports to. */
    var interest: map<int, Processor>
    /** The nodes of the list, and every call so far. */
    ghost var nodes: seq<Node>
    ghost var ops: seq<Op>

    ghost predicate Valid()
      reads this, head, nodes
    {
      && Circular([head] + nodes) && count == |nodes|
      && Entries(nodes) && Fds(nodes) == After(ops) && CarryFirst(nodes, ops) && ReportToLast(interest, ops)
    }

    constructor ()
      ensures Valid() && fresh(head) && ops == []
    {
      head := new Node(null);
      count, interest, nodes, ops := 0, map[], [], [];
      new;
      assert [head] + nodes == [head];
    }

    /** A listed descriptor belongs, for the list, to the first processor that registered it since it
        was listed, and for the kernel to the last; so they agree exactly when these are the same. */
    lemma Agreement(n: Node)
      requires Valid() && n in nodes
      ensures var fd := n.processor.fd; var ps := Since(ops, fd);
              && ps != [] && n.processor == ps[0] && fd in interest && interest[fd] == Last(ps)
              && (n.processor == interest[fd] <==> ps[0] == Last(ps))
              && ((forall p :: p in ps ==> p == ps[0]) ==> n.processor == interest[fd])
    {
      hide Since, Circular;
      var ps := Since(ops, n.processor.fd);
      assert ps[|ps| - 1] in ps;
    }

    /** EPOLL_CTL_ADD and EPOLL_CTL_MOD: the kernel refuses to add a descriptor it knows and to
        modify one that it does not. */
    method EpollAdd(processor: Processor)
      requires processor.fd !in interest
      modifies this`interest
      ensures interest == old(interest)[processor.fd := processor]
    {
      interest := interest[processor.fd := processor];
    }

    method EpollModify(processor: Processor)
      requires processor.fd in interest
      modifies this`interest
      ensures interest == old(interest)[processor.fd := processor]
    {
      interest := interest[processor.fd := processor];
    }

    /** EPOLL_CTL_DEL. */
    method EpollDelete(fd: int)
      requires fd in interest
      modifies this`interest
      ensures interest == old(interest) - {fd}
    {
      interest := interest - {fd};
    }

    /** findProcessListLocked. */
    method Find(fd: int) returns (found: Node?, ghost k: nat)
      requires Valid()
      ensures found == null ==> fd !in Fds(nodes)
      ensures found != null ==> k < |nodes| && found == nodes[k] && fd == nodes[k].processor.fd && fd in Fds(nodes)
    {
      hide Distinct, Fds, Circular, After, CarryFirst, ReportToLast;
      FdsAt(nodes);
      ghost var ring := [head] + nodes;
      RingSteps(ring);
      k := 0;
      var pos := head.next;
      while pos != head
        invariant k <= |nodes| && pos == Following(ring, k)
        invariant forall i :: 0 <= i < k ==> Fds(nodes)[i] != fd
        decreases |nodes| - k
      {
        assert pos == ring[k + 1] == nodes[k];
        if fd == pos.processor.fd {
          assert Fds(nodes)[k] == fd;
          return pos, k;
        }
        pos := pos.next;
        k := k + 1;
      }
      assert k == |nodes|;
      return null, k;
    }

    /** regist: a negative descriptor is refused; a new one is added at the tail; for a known one
        only the kernel learns of the processor, and its node keeps the old one. */
    method Regist(processor: Processor) returns (refused: bool)
      requires Valid()
      modifies this, head, nodes
      ensures Valid() && (refused <==> processor.fd < 0) && ops == old(ops) + [Op.Regist(processor)]
      ensures if refused || processor.fd in old(Fds(nodes)) then nodes == old(nodes)
              else exists n :: nodes == old(nodes) + [n] && n.processor == processor && fresh(n)
      ensures interest == if refused then old(interest) else old(interest)[processor.fd := processor]
    {
      hide *;
      var fd := processor.fd;
      ghost var op := Op.Regist(processor);
      ValidMeans();
      Appended(ops, op, fd);
      ReportMore(interest, ops, op);
      KernelKnows(interest, ops, fd);
      StepRegist(After(ops), processor);
      if fd < 0 {
        CarryMore(nodes, ops, op);
        ops := ops + [op];
        ValidMeans();
        return true;
      }
      refused := false;
      var l, k := Find(fd);
      if l == null {
        EpollAdd(processor);
        ListNode(processor);
      } else {
        CarryMore(nodes, ops, op);
        EpollModify(processor);
        ops := ops + [op];
        ValidMeans();
      }
    }

    method ListNode(processor: Processor)
      requires Circular([head] + nodes) && count == |nodes| && Entries(nodes) && CarryFirst(nodes, ops)
      requires processor.fd >= 0 && Since(ops, processor.fd) == []
      requires ReportToLast(interest, ops + [Op.Regist(processor)])
      requires Fds(nodes) + [processor.fd] == After(ops + [Op.Regist(processor)])
      modifies this`count, this`nodes, this`ops, head, nodes
      ensures Valid() && ops == old(ops) + [Op.Regist(processor)]
      ensures exists n :: nodes == old(nodes) + [n] && n.processor == processor && fresh(n)
    {
      hide Fds, Circular, Entries, After, CarryFirst, ReportToLast, Since;
      ghost var was := nodes;
      var node := new Node(processor);
      Held([head] + was);
      AddTail(node, head, [head] + was);
      CarryNew(was, node, ops);
      FdsAppend(was, node);
      nodes := was + [node];
      assert [head] + nodes == [head] + was + [node];
      ops := ops + [Op.Regist(processor)];
      count := count + 1;
    }

    lemma ValidMeans()
      ensures Valid() <==>
                && Circular([head] + nodes) && count == |nodes|
                && Entries(nodes) && Fds(nodes) == After(ops) && CarryFirst(nodes, ops) && ReportToLast(interest, ops)
    {}

    /** unregist: the node with the processor's descriptor leaves the list, whichever processor
        that node carries. */
    method Unregist(processor: Processor)
      requires Valid()
      modifies this, head, nodes
      ensures Valid() && ops == old(ops) + [Op.Unregist(processor)]
      ensures if processor.fd in old(Fds(nodes)) then
                exists k: nat :: k < |old(nodes)| && old(nodes)[k].processor.fd == processor.fd &&
                  nodes == Without(old(nodes), k)
              else nodes == old(nodes)
      ensures interest == old(interest) - {processor.fd}
    {
      hide *;
      var fd := processor.fd;
      ghost var op := Op.Unregist(processor);
      ValidMeans();
      Appended(ops, op, fd);
      ReportMore(interest, ops, op);
      KernelKnows(interest, ops, fd);
      OnTheList(ops);
      StepUnregist(After(ops), processor);
      var l, k := Find(fd);
      if l != null {
        EpollDelete(fd);
        DropNode(l, k, processor);
      } else {
        KernelWithout(fd);
        DropNothing(After(ops), fd);
        CarryMore(nodes, ops, op);
        ops := ops + [op];
        ValidMeans();
      }
    }

    method DropNode(l: Node, ghost k: nat, processor: Processor)
      requires Circular([head] + nodes) && count == |nodes| && Entries(nodes) && CarryFirst(nodes, ops)
      requires k < |nodes| && l == nodes[k] && l.processor.fd == processor.fd && Distinct(Fds(nodes))
      requires ReportToLast(interest, ops + [Op.Unregist(processor)])
      requires Drop(Fds(nodes), processor.fd) == After(ops + [Op.Unregist(processor)])
      modifies this`count, this`nodes, this`ops, head, nodes
      ensures Valid() && ops == old(ops) + [Op.Unregist(processor)] && nodes == Without(old(nodes), k)
    {
      hide Distinct, Fds, Circular, Drop, Entries, After, CarryFirst, ReportToLast, Since;
      ghost var was := nodes;
      DelInit(l, [head] + was, k + 1);
      nodes := Without(was, k);
      assert Without([head] + was, k + 1) == [head] + nodes;
      FdsWithout(was, k);
      CarryLess(was, k, ops, processor);
      ops := ops + [Op.Unregist(processor)];
      count := count - 1;
    }

    lemma KernelWithout(fd: int)
      requires Valid() && fd !in Fds(nodes)
      ensures fd !in interest && interest - {fd} == interest && forall n :: n in nodes ==> n.processor.fd != fd
    {
      hide Circular, Since, Step;
      OnTheList(ops);
      FdsAt(nodes);
    }
  }

  lemma RingSteps(ring: seq<Node>)
    requires Circular(ring)
    ensures forall k :: 0 <= k < |ring| ==> ring[k].next == Following(ring, k)
    ensures forall k :: 0 <= k < |ring| - 1 ==> Following(ring, k) != ring[0]
  {}
}

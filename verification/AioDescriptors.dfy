/** The lists of descriptors of src/unix/aio.c, linked through their next fields, against the
    values of AioDispatch and AioRotation. */
module AioDescriptors {
  import opened AioDispatch
  import opened AioRotation

  const EPERM := 1
  const ENOMEM := 12
  const ENOSPC := 28

  class Node {
    ghost const id: nat
    var fd: int
    var data: int
    var read: Handler
    var write: Handler
    var mask: Flags
    var addErrno: int
    var next: Node?

    constructor (ghost id: nat, fd: int, data: int, next: Node?)
      ensures Value() == NewDescriptor(id, fd, data) && this.next == next
    {
      this.id, this.fd, this.data, this.next := id, fd, data, next;
      read, write, mask, addErrno := NO_HANDLER, NO_HANDLER, {}, 0;
    }

    ghost function Value(): Descriptor
      reads this
    {
      Descriptor(id, fd, data, read, write, mask, addErrno)
    }
  }

  /** A node out of use: no fd has it, and no handler is called. */
  method Blank(node: Node)
    modifies node`fd, node`read, node`write, node`mask
    ensures node.Value() == Parked(old(node.Value()))
  {
    node.fd := -1;
    node.read := NO_HANDLER;
    node.write := NO_HANDLER;
    node.mask := {};
  }

  ghost function Values(nodes: seq<Node>): (v: seq<Descriptor>)
    reads nodes
    ensures |v| == |nodes|
  {
    seq(|nodes|, k requires 0 <= k < |nodes| reads nodes => nodes[k].Value())
  }

  ghost function NodeAt(nodes: seq<Node>, k: int): Node? { if 0 <= k < |nodes| then nodes[k] else null }

  /** The nodes are linked from head on to the end. */
  ghost predicate Linked(head: Node?, nodes: seq<Node>)
    reads nodes
  {
    head == NodeAt(nodes, 0) && forall k :: 0 <= k < |nodes| ==> nodes[k].next == NodeAt(nodes, k + 1)
  }

  ghost predicate Distinct(nodes: seq<Node>) {
    forall j, k :: 0 <= j < k < |nodes| ==> nodes[j] != nodes[k]
  }

  ghost predicate Apart(a: seq<Node>, b: seq<Node>) {
    forall j, k :: 0 <= j < |a| && 0 <= k < |b| ==> a[j] != b[k]
  }

  lemma ValuesAre(nodes: seq<Node>, v: seq<Descriptor>)
    requires |v| == |nodes| && forall k :: 0 <= k < |nodes| ==> nodes[k].Value() == v[k]
    ensures Values(nodes) == v
  {}

  lemma LinkedInFront(node: Node, head: Node?, nodes: seq<Node>)
    requires Linked(head, nodes) && node.next == head && node !in nodes && Distinct(nodes)
    ensures Linked(node, [node] + nodes) && Distinct([node] + nodes)
  {
    var all := [node] + nodes;
    forall k | 0 <= k < |all| ensures all[k].next == NodeAt(all, k + 1) {
      if k > 0 {
        assert all[k] == nodes[k - 1] && nodes[k - 1].next == NodeAt(nodes, k);
      }
    }
    forall j, k | 0 <= j < k < |all| ensures all[j] != all[k] {
      assert all[k] == nodes[k - 1];
    }
  }

  lemma RestIsLinked(head: Node?, nodes: seq<Node>)
    requires Linked(head, nodes) && nodes != [] && Distinct(nodes)
    ensures Linked(head.next, nodes[1..]) && Distinct(nodes[1..])
  {
    forall k | 0 <= k < |nodes| - 1 ensures nodes[1..][k].next == NodeAt(nodes[1..], k + 1) {
      assert nodes[1..][k] == nodes[k + 1];
    }
  }

  lemma RestOfValues(nodes: seq<Node>)
    requires nodes != []
    ensures Without(nodes, 0) == nodes[1..] && Values(nodes[1..]) == Without(Values(nodes), 0)
  {
    ValuesAre(nodes[1..], Without(Values(nodes), 0));
  }

  lemma RestIsApart(a: seq<Node>, b: seq<Node>)
    requires Apart(a, b) && b != []
    ensures Apart(a, b[1..])
  {}

  lemma SuspendedMask(m: Flags, mask: Flags)
    ensures ((m - (if Readable in mask then {Readable} else {})) - (if Writable in mask then {Writable} else {}))
            - (if Exceptions in mask then {Exceptions} else {}) == m - (mask - {External})
  {
    forall f | f in m ensures f in {Readable, Writable, Exceptions, External} {
      match f
      case Readable => case Writable => case Exceptions => case External =>
    }
  }

  lemma WithoutIsDistinct(nodes: seq<Node>, k: nat, other: seq<Node>)
    requires k < |nodes| && Distinct(nodes) && Apart(nodes, other)
    ensures Distinct(Without(nodes, k)) && Apart(Without(nodes, k), other)
    ensures nodes[k] !in Without(nodes, k) && nodes[k] !in other
  {}

  /** A node of the list is at no other place. */
  lemma NodeIsAlone(list: seq<Node>, k: nat, other: seq<Node>)
    requires k < |list| && Distinct(list) && Apart(list, other)
    ensures forall j :: 0 <= j < |list| && j != k ==> list[j] != list[k]
    ensures forall j :: 0 <= j < |other| ==> other[j] != list[k]
  {}

  /** What fillEPollDescriptor asks epoll to watch; 0 when the mask has nothing to watch. */
  predicate IsArmed(d: Descriptor) { d.mask * {Readable, Writable, Exceptions} != {} }

  /** Refused, for a reason of its own, and with a handler to report it to. */
  predicate IsReported(d: Descriptor, errno: int) {
    IsArmed(d) && errno != 0 && errno != ENOMEM && errno != ENOSPC && (d.read != NO_HANDLER || d.write != NO_HANDLER)
  }

  /** What epoll_ctl answers when it is asked to watch an fd: 0, or why it refuses. */
  type EpollCtl = (int, Flags) -> int

  /** A turn remembers why epoll refused each descriptor that it asked for. */
  function Asked(d: Descriptor, ctl: EpollCtl): Descriptor {
    if IsArmed(d) then d.(addErrno := ctl(d.fd, d.mask)) else d
  }

  function AskedAll(v: seq<Descriptor>, ctl: EpollCtl): (r: seq<Descriptor>)
    ensures |r| == |v|
  {
    seq(|v|, k requires 0 <= k < |v| => Asked(v[k], ctl))
  }

  /** The nodes whose descriptors are refused and to be reported, in the order of the list. */
  ghost function Refused(nodes: seq<Node>, v: seq<Descriptor>, ctl: EpollCtl): seq<Node>
    requires |nodes| == |v|
  {
    if v == [] then []
    else
      var n := |v| - 1;
      Refused(nodes[..n], v[..n], ctl) + if IsReported(v[n], ctl(v[n].fd, v[n].mask)) then [nodes[n]] else []
  }

  lemma RefusedPush(nodes: seq<Node>, v: seq<Descriptor>, ctl: EpollCtl, k: nat)
    requires |nodes| == |v| && k < |v|
    ensures Refused(nodes[..k + 1], v[..k + 1], ctl) ==
            if IsReported(v[k], ctl(v[k].fd, v[k].mask)) then Refused(nodes[..k], v[..k], ctl) + [nodes[k]]
            else Refused(nodes[..k], v[..k], ctl)
  {
    assert nodes[..k + 1][..k] == nodes[..k] && v[..k + 1][..k] == v[..k];
  }

  lemma GatherStarts(nodes: seq<Node>, v: seq<Descriptor>, ctl: EpollCtl)
    requires |nodes| == |v|
    ensures Refused(nodes[..0], v[..0], ctl) == [] && AskedAll(v[..0], ctl) + v[0..] == v
  {}

  lemma BuffersPush(all: seq<Node>, one: Node, p: nat)
    ensures FromStart(all + [one], p) ==
            if |all| >= p && |FromStart(all, p)| < MOST then FromStart(all, p) + [one] else FromStart(all, p)
    ensures Wrapped(all + [one], p) ==
            if |all| < p && |Wrapped(all, p)| < MOST then Wrapped(all, p) + [one] else Wrapped(all, p)
  {}

  /** An event as the dispatch gets it; no node for the signal pipe. */
  datatype Incoming = Incoming(node: Node?, failed: bool, readable: bool, writable: bool)

  class Descriptors {
    var descriptorList: Node?
    var retiredDescriptors: Node?
    var dispatchDepth: nat
    var nextRefusedPosition: nat
    ghost var list: seq<Node>
    ghost var retired: seq<Node>
    ghost var mallocs: nat
    ghost var freed: seq<nat>

    ghost predicate Valid()
      reads this, list, retired
    {
      Linked(descriptorList, list) && Linked(retiredDescriptors, retired)
      && Distinct(list) && Distinct(retired) && Apart(list, retired)
    }

    /** The same in values. */
    ghost function Model(): Aio
      reads this, list, retired
    {
      Aio(Values(list), Values(retired), dispatchDepth, [], mallocs, freed, [], false)
    }

    constructor ()
      ensures Valid() && Model() == START
    {
      descriptorList, retiredDescriptors, dispatchDepth, nextRefusedPosition := null, null, 0, 0;
      list, retired, mallocs, freed := [], [], 0, [];
    }

    method FindNode(fd: int) returns (found: Node?, ghost k: int)
      requires Valid()
      ensures found == NodeAt(list, Find(Values(list), fd)) && k == Find(Values(list), fd)
    {
      found := descriptorList;
      k := 0;
      assert list[0..] == list;
      while found != null
        invariant 0 <= k <= |list| && found == NodeAt(list, k)
        invariant forall j :: 0 <= j < k ==> list[j].fd != fd
        decreases |list| - k
      {
        if found.fd == fd {
          FindIs(Values(list), fd, k);
          return;
        }
        found := found.next;
        k := k + 1;
      }
      FindIs(Values(list), fd, k);
      k := -1;
    }

    /** A new descriptor, in front. */
    method Add(fd: int, data: int)
      requires Valid()
      modifies this
      ensures Valid() && list != [] && list[1..] == old(list) && fresh(list[0])
      ensures Model() == old(Model().(list := [NewDescriptor(mallocs, fd, data)] + Values(list),
                                      mallocs := mallocs + 1))
    {
      hide Linked, Distinct;
      ghost var before, parked := Values(list), Values(retired);
      var node := new Node(mallocs, fd, data, descriptorList);
      mallocs := mallocs + 1;
      LinkedInFront(node, descriptorList, list);
      list := [node] + list;
      descriptorList := node;
      ValuesAre(list, [node.Value()] + before);
      ValuesAre(retired, parked);
    }

    method Enable(fd: int, data: int)
      requires Valid()
      modifies this, list
      ensures Valid() && Model() == Enabled(old(Model()), fd, data)
      ensures forall n :: n in list ==> n in old(list) || fresh(n)
    {
      hide Find, Distinct, Apart, Linked, Values;
      if fd < 0 {
        return;
      }
      var node, k := FindNode(fd);
      if node == null {
        Add(fd, data);
        assert list == [list[0]] + list[1..];
        return;
      }
      NextIs(k);
      SetData(node, k, data);
    }

    method SetData(node: Node, ghost k: nat, data: int)
      requires Valid() && k < |list| && node == list[k]
      modifies node`data, node`addErrno
      ensures Valid() && Values(retired) == old(Values(retired))
      ensures Values(list) == old(Values(list))[k := old(node.Value()).(data := data, addErrno := 0)]
    {
      hide Distinct, Apart;
      ghost var before, parked := Values(list), Values(retired);
      NodeIsAlone(list, k, retired);
      node.data := data;
      node.addErrno := 0;
      assert Linked(descriptorList, list) && Linked(retiredDescriptors, retired);
      ValuesAre(list, before[k := node.Value()]);
      ValuesAre(retired, parked);
    }

    method SetHandler(fd: int, handler: Handler, mask: Flags)
      requires Valid()
      modifies list
      ensures Valid() && Model() == Handled(old(Model()), fd, handler, mask)
    {
      hide Find, Distinct, Apart, Linked, Values;
      var node, k := FindNode(fd);
      if node == null {
        return;
      }
      NextIs(k);
      Rewire(node, k, if Readable in mask then handler else NO_HANDLER,
             if Writable in mask then handler else NO_HANDLER, mask);
    }

    method Rewire(node: Node, ghost k: nat, read: Handler, write: Handler, mask: Flags)
      requires Valid() && k < |list| && node == list[k]
      modifies node`read, node`write, node`mask
      ensures Valid() && Values(retired) == old(Values(retired))
      ensures Values(list) == old(Values(list))[k := old(node.Value()).(read := read, write := write, mask := mask)]
    {
      hide Distinct, Apart;
      ghost var before, parked := Values(list), Values(retired);
      NodeIsAlone(list, k, retired);
      node.read := read;
      node.write := write;
      node.mask := mask;
      assert Linked(descriptorList, list) && Linked(retiredDescriptors, retired);
      ValuesAre(list, before[k := node.Value()]);
      ValuesAre(retired, parked);
    }

    method Suspend(fd: int, mask: Flags)
      requires Valid()
      modifies list
      ensures Valid() && Model() == Suspended(old(Model()), fd, mask)
    {
      hide Find, Distinct, Apart, Linked, Values;
      var node, k := FindNode(fd);
      if node == null {
        return;
      }
      NextIs(k);
      if node.mask == {} {
        assert Values(list)[k := Values(list)[k]] == Values(list);
        return;
      }
      SuspendNode(node, k, mask);
    }

    method SuspendNode(node: Node, ghost k: nat, mask: Flags)
      requires Valid() && k < |list| && node == list[k] && node.mask != {}
      modifies node`read, node`write, node`mask
      ensures Valid() && Values(retired) == old(Values(retired))
      ensures Values(list) == old(Values(list))[k := SuspendedDescriptor(old(node.Value()), mask)]
    {
      hide Distinct, Apart, Linked, Values;
      var read := if Readable in mask then NO_HANDLER else node.read;
      var write := if Writable in mask then NO_HANDLER else node.write;
      var m := ((node.mask - (if Readable in mask then {Readable} else {}))
                - (if Writable in mask then {Writable} else {})) - (if Exceptions in mask then {Exceptions} else {});
      SuspendedMask(node.mask, mask);
      NextIs(k);
      Rewire(node, k, read, write, m);
    }

    /** Outside every dispatch the node's memory is given back; during one it waits in the other list,
        without fd and handlers. */
    method Retire(node: Node)
      requires Valid() && node !in list && node !in retired
      modifies `retiredDescriptors, `retired, `freed, node
      ensures Valid() && list == old(list) && Values(list) == old(Values(list))
      ensures Model() == Retired(old(Model()), old(node.Value()))
      ensures retired == if dispatchDepth == 0 then old(retired) else [node] + old(retired)
    {
      hide Linked, Distinct, Apart, Values;
      if dispatchDepth == 0 {
        freed := freed + [node.id];
      } else {
        Park(node);
      }
    }

    method Park(node: Node)
      requires Valid() && node !in list && node !in retired
      modifies `retiredDescriptors, `retired, node
      ensures Valid() && Values(list) == old(Values(list)) && retired == [node] + old(retired)
      ensures Values(retired) == [Parked(old(node.Value()))] + old(Values(retired))
    {
      hide Linked, Distinct;
      ghost var before, parked := Values(list), Values(retired);
      Blank(node);
      node.next := retiredDescriptors;
      LinkedInFront(node, retiredDescriptors, retired);
      retiredDescriptors := node;
      retired := [node] + retired;
      ValuesAre(list, before);
      ValuesAre(retired, [node.Value()] + parked);
    }

    /** The first node of an fd, and the one before it. */
    method FindWithPrevious(fd: int) returns (found: Node?, prev: Node?, ghost k: int)
      requires Valid()
      ensures found == NodeAt(list, Find(Values(list), fd)) && k == Find(Values(list), fd)
      ensures k >= 0 ==> prev == NodeAt(list, k - 1)
    {
      found, prev, k := descriptorList, null, 0;
      while found != null
        invariant 0 <= k <= |list| && found == NodeAt(list, k)
        invariant prev == NodeAt(list, k - 1)
        invariant forall j :: 0 <= j < k ==> list[j].fd != fd
        decreases |list| - k
      {
        if found.fd == fd {
          FindIs(Values(list), fd, k);
          return;
        }
        prev := found;
        found := found.next;
        k := k + 1;
      }
      FindIs(Values(list), fd, k);
      k := -1;
    }

    /** aioDisable. */
    method Disable(fd: int)
      requires Valid()
      modifies this, list
      ensures Valid() && Model() == Disabled(old(Model()), fd)
      ensures forall n :: n in list + retired ==> n in old(list + retired)
    {
      hide Find, Linked, Distinct, Apart;
      var found, prev, k := FindWithPrevious(fd);
      if found != null {
        Unlink(found, prev, k);
        Retire(found);
      }
    }

    /** Take a node out of the list, after prev. */
    method Unlink(found: Node, prev: Node?, ghost k: nat)
      requires Valid() && k < |list| && found == list[k] && prev == NodeAt(list, k - 1)
      modifies `descriptorList, `list, (if k == 0 then {} else {list[k - 1]})
      ensures Valid() && list == Without(old(list), k) && found !in list && found !in retired
      ensures Values(list) == Without(old(Values(list)), k) && Values(retired) == old(Values(retired))
      ensures found.Value() == old(found.Value())
    {
      hide Linked, Distinct, Apart, Values;
      HeadIsFirst();
      NextIs(k);
      if descriptorList == found {
        NotLater(k);
        UnlinkFirst();
      } else {
        UnlinkAfter(found, prev, k);
      }
    }

    lemma NotLater(k: nat)
      requires Valid() && k < |list| && descriptorList == list[k]
      ensures k == 0
    {}

    method UnlinkFirst()
      requires Valid() && list != []
      modifies `descriptorList, `list
      ensures Valid() && list == Without(old(list), 0) && old(list)[0] !in list && old(list)[0] !in retired
      ensures Values(list) == Without(old(Values(list)), 0) && Values(retired) == old(Values(retired))
    {
      hide Linked, Distinct, Apart, Values;
      WithoutIsDistinct(list, 0, retired);
      HeadIsFirst();
      RestIsLinked(descriptorList, list);
      RestOfValues(list);
      descriptorList := descriptorList.next;
      list := list[1..];
    }

    method UnlinkAfter(found: Node, prev: Node, ghost k: nat)
      requires Valid() && 0 < k < |list| && found == list[k] && prev == list[k - 1]
      modifies `list, prev`next
      ensures Valid() && list == Without(old(list), k) && found !in list && found !in retired
      ensures Values(list) == Without(old(Values(list)), k) && Values(retired) == old(Values(retired))
    {
      hide Distinct, Apart;
      ghost var before, parked, was := Values(list), Values(retired), list;
      WithoutIsDistinct(list, k, retired);
      NodeIsAlone(list, k - 1, retired);
      prev.next := found.next;
      list := Without(list, k);
      forall j | 0 <= j < |list|
        ensures list[j].next == NodeAt(list, j + 1) && list[j].Value() == Without(before, k)[j]
      {
        assert list[j] == if j < k then was[j] else was[j + 1];
      }
      ValuesAre(list, Without(before, k));
      ValuesAre(retired, parked);
    }

    method RemoveAll()
      requires Valid()
      modifies this, list
      ensures Valid() && Model() == AllRemoved(old(Model()))
      ensures forall n :: n in list + retired ==> n in old(list + retired)
    {
      hide Linked, Distinct, Apart, Retired, Values;
      while descriptorList != null
        invariant Valid() && AllRemoved(Model()) == AllRemoved(old(Model()))
        invariant forall n :: n in list + retired ==> n in old(list + retired)
        invariant forall n :: n in list ==> n in old(list)
        decreases |list|
      {
        HeadIsFirst();
        assert list[0] in list;
        RemoveFirst();
      }
      HeadIsFirst();
    }

    method RemoveFirst()
      requires Valid() && list != []
      modifies this, list[0]
      ensures Valid() && list == old(list)[1..]
      ensures Model() == Retired(old(Model()).(list := old(Values(list))[1..]), old(Values(list))[0])
      ensures forall n :: n in retired ==> n in old(list + retired)
    {
      hide Linked, Distinct, Apart;
      HeadIsFirst();
      var current := descriptorList;
      assert Without(list, 0) == list[1..] && Without(Values(list), 0) == Values(list)[1..];
      Unlink(current, null, 0);
      Retire(current);
    }

    lemma HeadIsFirst()
      requires Valid()
      ensures descriptorList == NodeAt(list, 0) && retiredDescriptors == NodeAt(retired, 0)
    {}

    method FreeRetired()
      requires Valid()
      modifies `retiredDescriptors, `retired, `freed
      ensures Valid() && Model() == RetiredFreed(old(Model()))
    {
      hide Linked, Distinct, Apart, Values;
      while retiredDescriptors != null
        invariant Valid() && RetiredFreed(Model()) == RetiredFreed(old(Model()))
        decreases |retired|
      {
        HeadIsFirst();
        FreeFirst();
      }
      HeadIsFirst();
    }

    method FreeFirst()
      requires Valid() && retired != []
      modifies `retiredDescriptors, `retired, `freed
      ensures Valid() && retired == old(retired)[1..]
      ensures Model() == var s := old(Model()); s.(retired := s.retired[1..], freed := s.freed + [s.retired[0].id])
    {
      hide Apart;
      ghost var before := Values(retired);
      var current := retiredDescriptors;
      ValuesAre(list, Values(list));
      RestIsLinked(retiredDescriptors, retired);
      RestIsApart(list, retired);
      retiredDescriptors := current.next;
      freed := freed + [current.id];
      retired := retired[1..];
      ValuesAre(retired, before[1..]);
    }

    /** Ask epoll to watch one descriptor of the list; whether it is refused and to be reported. */
    method Ask(ctl: EpollCtl, node: Node, ghost k: nat) returns (report: bool)
      requires Valid() && k < |list| && node == list[k]
      modifies node`addErrno
      ensures report == old(IsReported(node.Value(), ctl(node.fd, node.mask)))
      ensures Valid() && node.Value() == Asked(old(node.Value()), ctl)
      ensures Values(list) == old(Values(list))[k := node.Value()] && Values(retired) == old(Values(retired))
    {
      hide Distinct, Apart;
      ghost var before, parked := Values(list), Values(retired);
      NodeIsAlone(list, k, retired);
      if node.mask * {Readable, Writable, Exceptions} == {} {
        return false;
      }
      var errno := ctl(node.fd, node.mask);
      node.addErrno := errno;
      report := errno != 0 && errno != ENOMEM && errno != ENOSPC &&
        (node.read != NO_HANDLER || node.write != NO_HANDLER);
      assert Linked(descriptorList, list) && Linked(retiredDescriptors, retired);
      ValuesAre(list, before[k := node.Value()]);
      ValuesAre(retired, parked);
    }

    /** Ask epoll to watch every descriptor, and gather the refused ones. */
    method Gather(ctl: EpollCtl, turn: Turn)
      requires Valid() && turn.Holds([])
      modifies list, turn, turn.refused, turn.wrapped
      ensures Valid() && turn.Holds(Refused(list, old(Values(list)), ctl))
      ensures Values(list) == AskedAll(old(Values(list)), ctl) && Values(retired) == old(Values(retired))
    {
      hide Distinct, Apart, Linked, Refused, Values, IsReported, Asked, Turn.Holds, AskedAll;
      ghost var v, nodes, parked := Values(list), list, Values(retired);
      ghost var k := 0;
      var node := descriptorList;
      GatherStarts(list, v, ctl);
      HeadIsFirst();
      while node != null
        invariant 0 <= k <= |nodes| && node == NodeAt(nodes, k) && list == nodes
        invariant Valid() && turn.Holds(Refused(nodes[..k], v[..k], ctl))
        invariant Values(list) == AskedAll(v[..k], ctl) + v[k..] && Values(retired) == parked
        decreases |nodes| - k
      {
        RefusedPush(nodes, v, ctl, k);
        AskedPush(v, ctl, k);
        NextIs(k);
        var report := Ask(ctl, node, k);
        if report {
          turn.Keep(node, Refused(nodes[..k], v[..k], ctl));
        }
        node := node.next;
        k := k + 1;
      }
      assert nodes[..k] == nodes && v[..k] == v;
      assert AskedAll(v, ctl) + v[k..] == AskedAll(v, ctl);
    }

    /** The descriptors to report in a turn, count of them, go to refused; epoll watches the
        others that are armed. */
    method FillEPollDescriptor(ctl: EpollCtl, refused: array<Node?>) returns (count: nat)
      requires Valid() && refused.Length == MOST
      modifies refused, list, `nextRefusedPosition
      ensures Valid() && count <= MOST
      ensures Values(list) == AskedAll(old(Values(list)), ctl) && Values(retired) == old(Values(retired))
      ensures var all := Refused(list, old(Values(list)), ctl);
        refused[..count] == Reports(all, old(nextRefusedPosition)) &&
        nextRefusedPosition == NextStart(all, old(nextRefusedPosition))
    {
      hide Distinct, Apart, Linked, Refused, Values, Reports, NextStart, Turn.Holds, AskedAll;
      ghost var v := Values(list);
      var turn := new Turn(nextRefusedPosition, refused);
      Gather(ctl, turn);
      nextRefusedPosition := turn.Finish(Refused(list, v, ctl));
      count := turn.count;
    }

    /** The events that the dispatch gets: those that epoll answered, at most as many as it was
        given room for, and after them one for each refused descriptor. */
    method CollectEvents(answered: seq<Incoming>, refused: array<Node?>, count: nat, incoming: array<Incoming>)
      returns (n: nat)
      requires incoming.Length == EVENTS && refused.Length == MOST && count <= MOST && |answered| <= EVENTS - count
      requires forall k :: 0 <= k < count ==> refused[k] != null
      modifies incoming
      ensures n == |answered| + count <= EVENTS && incoming[..|answered|] == answered
      ensures forall k :: 0 <= k < count ==>
        var e, d := incoming[|answered| + k], refused[k];
        e == Incoming(d, d.addErrno != EPERM, d.read != NO_HANDLER, d.write != NO_HANDLER)
    {
      n := 0;
      while n < |answered|
        invariant 0 <= n <= |answered| && incoming[..n] == answered[..n]
      {
        incoming[n] := answered[n];
        n := n + 1;
      }
      var index := 0;
      while index < count
        invariant 0 <= index <= count && n == |answered| + index && incoming[..|answered|] == answered
        invariant forall k :: 0 <= k < index ==>
          var e, d := incoming[|answered| + k], refused[k];
          e == Incoming(d, d.addErrno != EPERM, d.read != NO_HANDLER, d.write != NO_HANDLER)
      {
        var d := refused[index];
        incoming[n] := Incoming(d, d.addErrno != EPERM, d.read != NO_HANDLER, d.write != NO_HANDLER);
        n, index := n + 1, index + 1;
      }
    }

    lemma NextIs(k: nat)
      requires Valid() && k < |list|
      ensures list[k].next == NodeAt(list, k + 1) && Values(list)[k] == list[k].Value()
    {}
  }

  lemma AskedPush(v: seq<Descriptor>, ctl: EpollCtl, k: nat)
    requires k < |v|
    ensures (AskedAll(v[..k], ctl) + v[k..])[k := Asked(v[k], ctl)] == AskedAll(v[..k + 1], ctl) + v[k + 1..]
    ensures (AskedAll(v[..k], ctl) + v[k..])[k] == v[k]
  {}

  /** The two buffers of fillEPollDescriptor, while it goes through the list. */
  class Turn {
    const p: nat
    const refused: array<Node?>
    const wrapped: array<Node?>
    var count: nat
    var wrappedCount: nat
    var refusedPosition: nat

    /** They hold what they should of the refused descriptors met so far. */
    ghost predicate Holds(all: seq<Node>)
      reads this, refused, wrapped
    {
      && refused != wrapped && refused.Length == MOST && wrapped.Length == MOST && count <= MOST && wrappedCount <= MOST
      && refusedPosition == |all| && refused[..count] == FromStart(all, p) && wrapped[..wrappedCount] == Wrapped(all, p)
    }

    constructor (p: nat, refused: array<Node?>)
      requires refused.Length == MOST
      ensures Holds([]) && this.p == p && this.refused == refused && fresh(wrapped)
    {
      this.p, this.refused := p, refused;
      wrapped := new Node?[MOST];
      count, wrappedCount, refusedPosition := 0, 0, 0;
    }

    method Keep(node: Node, ghost all: seq<Node>)
      requires Holds(all)
      modifies this, refused, wrapped
      ensures Holds(all + [node])
    {
      hide FromStart, Wrapped;
      BuffersPush(all, node, p);
      if refusedPosition < p {
        if wrappedCount < MOST {
          wrapped[wrappedCount] := node;
          wrappedCount := wrappedCount + 1;
        }
      } else if count < MOST {
        refused[count] := node;
        count := count + 1;
      }
      refusedPosition := refusedPosition + 1;
    }

    /** What the second buffer holds goes on after the first, as far as there is room, and the start
        of the following turn is computed. */
    method Finish(ghost all: seq<Node>) returns (next: nat)
      requires Holds(all)
      modifies `count, refused
      ensures count <= MOST && refused[..count] == Reports(all, p) && next == NextStart(all, p)
    {
      hide FromStart, Wrapped;
      var taken := 0;
      while taken < wrappedCount && count < MOST
        invariant 0 <= taken <= wrappedCount <= MOST && count <= MOST && count == |FromStart(all, p)| + taken
        invariant refused[..count] == FromStart(all, p) + Wrapped(all, p)[..taken]
        modifies `count, refused
      {
        refused[count] := wrapped[taken];
        count, taken := count + 1, taken + 1;
      }
      next := if taken > 0 then taken else p + count;
      if next >= refusedPosition {
        next := 0;
      }
    }
  }

  lemma {:induction false} FindIs(v: seq<Descriptor>, fd: int, k: nat)
    requires k <= |v| && (forall j :: 0 <= j < k ==> v[j].fd != fd) && (k < |v| ==> v[k].fd == fd)
    ensures Find(v, fd) == if k < |v| then k else -1
  {
    if k > 0 {
      FindIs(v[1..], fd, k - 1);
    }
  }
}

/**
  The doubly linked queue of libcore/arch/linux/builtin-modules/on-access/queue.c.
  Every operation runs under the queue's lock, so a call is one atomic step.
 */
module Queue {
  import opened Wrappers
  import opened Stamp
  import opened QueueSpec

  class Node {
    const entry: Entry
    var prev: Node?
    var next: Node?

    constructor (fd: int, timestamp: Timespec)
      ensures entry == Entry(fd, timestamp) && prev == null && next == null
    {
      entry := Entry(fd, timestamp);
      prev, next := null, null;
    }
  }

  class Queue {
    var head: Node?
    var tail: Node?
    // the nodes from head to tail, and a set that contains them
    ghost var nodes: seq<Node>
    ghost var repr: set<Node>

    ghost predicate Valid()
      reads this, repr
    {
      && (forall i :: 0 <= i < |nodes| ==> nodes[i] in repr)
      && (nodes == [] ==> head == null && tail == null)
      && (nodes != [] ==>
            && head == nodes[0] && nodes[0].prev == null
            && tail == nodes[|nodes| - 1] && nodes[|nodes| - 1].next == null)
      && (forall i {:trigger nodes[i].prev} :: 1 <= i < |nodes| ==> nodes[i].prev == nodes[i - 1])
      && (forall i {:trigger nodes[i].next} :: 0 <= i < |nodes| - 1 ==> nodes[i].next == nodes[i + 1])
      && (forall i, j :: 0 <= i < j < |nodes| ==> nodes[i] != nodes[j])
    }

    ghost function Contents(): seq<Entry>
      reads this
    {
      Entries(nodes)
    }

    constructor ()
      ensures Valid() && Contents() == [] && repr == {}
    {
      head, tail := null, null;
      nodes, repr := [], {};
    }

    method Push(fd: int, timestamp: Timespec)
      requires Valid()
      modifies this, repr
      ensures Valid() && Contents() == [Entry(fd, timestamp)] + old(Contents())
      ensures fresh(repr - old(repr))
    {
      var n := new Node(fd, timestamp);
      if head == null {
        head := n;
        tail := n;
      } else {
        head.prev := n;
        n.next := head;
        head := n;
      }
      nodes, repr := [n] + nodes, repr + {n};
    }

    /** Unlinks node i; its own pointers are left as they were. */
    method Unlink(n: Node, ghost i: nat)
      requires Valid() && i < |nodes| && nodes[i] == n
      modifies this, repr
      ensures Valid() && nodes == Without(old(nodes), i) && repr == old(repr)
      ensures n.prev == old(n.prev) && n.next == old(n.next)
    {
      if n.prev != null {
        n.prev.next := n.next;
      } else {
        head := n.next;
      }
      if n.next != null {
        n.next.prev := n.prev;
      } else {
        tail := n.prev;
      }
      nodes := Without(nodes, i);
    }

    /** Removes the most recently pushed entry with this descriptor. */
    method PopFd(fd: int) returns (popped: Option<Entry>)
      requires Valid()
      modifies this, repr
      ensures Valid() && repr == old(repr)
      ensures var q := old(Contents());
              var i := FdIndex(q, fd);
              if i == |q| then popped == None && Contents() == q
              else popped == Some(q[i]) && Contents() == Without(q, i)
    {
      var n := head;
      ghost var i: nat := 0;
      while n != null && n.entry.fd != fd
        invariant 0 <= i <= |nodes| && n == NodeAt(nodes, i)
        invariant forall j :: 0 <= j < i ==> nodes[j].entry.fd != fd
        decreases |nodes| - i
      {
        n := n.next;
        i := i + 1;
      }
      FdIndexAt(Contents(), fd, i);
      if n == null {
        return None;
      }
      EntriesWithout(nodes, i);
      Unlink(n, i);
      return Some(n.entry);
    }

    /** Removes at most limit entries that are not younger than before, from the tail on. */
    method PopTimeout(before: Timespec, limit: nat) returns (entries: seq<Entry>)
      requires Valid()
      modifies this, repr
      ensures Valid() && repr == old(repr)
      ensures (entries, Contents()) == TakeExpired(old(Contents()), before, limit)
    {
      ghost var all, q := nodes, Contents();
      ghost var kept: seq<Node>, q': seq<Entry> := [], [];
      entries := [];
      var n := tail;
      ghost var p: nat := |all|;
      PassBegin(q, before, limit);
      while n != null && |entries| < limit
        invariant Valid() && repr == old(repr) && Split(nodes, all, p, kept) && Views(q', kept)
        invariant n == NodeAt(all, p - 1)
        invariant PassDone(q, before, limit, p, entries, q')
        decreases p
      {
        PassStep(q, before, limit, p, entries, q');
        var e, expired := n.entry, false;
        expired, n, kept := PassNode(n, before, all, p, kept);
        if expired {
          entries := entries + [e];
        } else {
          q' := [e] + q';
        }
        p := p - 1;
      }
      PassEnd(q, before, limit, p, entries, q');
      EntriesSplit(all, p, kept, q');
    }

    /** One turn of the pass, at the last node not yet looked at; next is the one before it. */
    method PassNode(n: Node, before: Timespec, ghost all: seq<Node>, ghost p: nat, ghost kept: seq<Node>)
        returns (expired: bool, next: Node?, ghost kept': seq<Node>)
      requires Valid() && Split(nodes, all, p, kept) && 0 < p && n == all[p - 1]
      modifies this, repr
      ensures Valid() && repr == old(repr)
      ensures expired == Expired(n.entry, before)
      ensures kept' == (if expired then kept else [n] + kept) && Split(nodes, all, p - 1, kept')
      ensures next == NodeAt(all, p - 2)
    {
      ghost var was := nodes;
      SplitAt(was, all, p, kept);
      expired := Visit(n, before, p - 1);
      next := n.prev;
      if expired {
        kept' := kept;
        SplitTaken(was, nodes, all, p, kept);
      } else {
        kept' := [n] + kept;
        SplitKept(nodes, all, p, kept);
      }
    }

    /** One node: unlinked if expired, otherwise left alone. */
    method Visit(n: Node, before: Timespec, ghost i: nat) returns (expired: bool)
      requires Valid() && i < |nodes| && nodes[i] == n
      modifies this, repr
      ensures Valid() && repr == old(repr)
      ensures expired == Expired(n.entry, before)
      ensures nodes == if expired then Without(old(nodes), i) else old(nodes)
      ensures n.prev == NodeAt(old(nodes), i - 1)
    {
      expired := Compare(n.entry.timestamp, before) <= 0;
      if expired {
        Unlink(n, i);
      }
    }
  }

  /** The queue holds the part not yet looked at and what the pass has kept. */
  ghost predicate Split(nodes: seq<Node>, all: seq<Node>, p: nat, kept: seq<Node>) {
    p <= |all| && nodes == all[..p] + kept
  }

  lemma SplitAt(nodes: seq<Node>, all: seq<Node>, p: nat, kept: seq<Node>)
    requires Split(nodes, all, p, kept) && p > 0
    ensures p <= |nodes| && nodes[p - 1] == all[p - 1]
    ensures NodeAt(nodes, p - 2) == NodeAt(all, p - 2)
  {
  }

  lemma SplitTaken(nodes: seq<Node>, nodes': seq<Node>, all: seq<Node>, p: nat, kept: seq<Node>)
    requires Split(nodes, all, p, kept) && 0 < p <= |nodes| && nodes' == Without(nodes, p - 1)
    ensures Split(nodes', all, p - 1, kept)
  {
  }

  lemma SplitKept(nodes: seq<Node>, all: seq<Node>, p: nat, kept: seq<Node>)
    requires Split(nodes, all, p, kept) && p > 0
    ensures Split(nodes, all, p - 1, [all[p - 1]] + kept)
  {
  }

  ghost predicate Views(q: seq<Entry>, nodes: seq<Node>) {
    |q| == |nodes| && forall i :: 0 <= i < |q| ==> q[i] == nodes[i].entry
  }

  lemma EntriesSplit(all: seq<Node>, p: nat, kept: seq<Node>, q: seq<Entry>)
    requires p <= |all| && Views(q, kept)
    ensures Entries(all[..p] + kept) == Entries(all)[..p] + q
  {
  }

  function NodeAt(nodes: seq<Node>, i: int): Node? {
    if 0 <= i < |nodes| then nodes[i] else null
  }

  function Entries(nodes: seq<Node>): (r: seq<Entry>)
    ensures |r| == |nodes|
    ensures forall i :: 0 <= i < |nodes| ==> r[i] == nodes[i].entry
  {
    seq(|nodes|, i requires 0 <= i < |nodes| => nodes[i].entry)
  }

  lemma EntriesWithout(nodes: seq<Node>, i: nat)
    requires i < |nodes|
    ensures Entries(Without(nodes, i)) == Without(Entries(nodes), i)
  {
  }

  lemma FdIndexAt(q: seq<Entry>, fd: int, i: nat)
    requires i <= |q| && (i < |q| ==> q[i].fd == fd) && forall j :: 0 <= j < i ==> q[j].fd != fd
    ensures FdIndex(q, fd) == i
  {
  }

  /** The state of a pass that has still to look at q[..p]. */
  ghost predicate PassDone(q: seq<Entry>, before: Timespec, limit: nat, p: nat, taken: seq<Entry>, kept: seq<Entry>) {
    && p <= |q| && |taken| <= limit
    && var r := TakeExpired(q[..p], before, limit - |taken|);
       TakeExpired(q, before, limit) == (taken + r.0, r.1 + kept)
  }

  lemma PassStep(q: seq<Entry>, before: Timespec, limit: nat, p: nat, taken: seq<Entry>, kept: seq<Entry>)
    requires PassDone(q, before, limit, p, taken, kept) && 0 < p && |taken| < limit
    ensures var e := q[p - 1];
            if Expired(e, before) then PassDone(q, before, limit, p - 1, taken + [e], kept)
            else PassDone(q, before, limit, p - 1, taken, [e] + kept)
  {
    var e := q[p - 1];
    assert q[..p][..p - 1] == q[..p - 1];
    var r := TakeExpired(q[..p], before, limit - |taken|);
    if Expired(e, before) {
      var r0 := TakeExpired(q[..p - 1], before, limit - |taken| - 1);
      assert taken + r.0 == (taken + [e]) + r0.0;
    } else {
      var r0 := TakeExpired(q[..p - 1], before, limit - |taken|);
      assert r.1 + kept == r0.1 + ([e] + kept);
    }
  }

  lemma PassBegin(q: seq<Entry>, before: Timespec, limit: nat)
    ensures PassDone(q, before, limit, |q|, [], [])
  {
    assert q[..|q|] == q;
    var r := TakeExpired(q, before, limit);
    assert [] + r.0 == r.0 && r.1 + [] == r.1;
  }

  lemma PassEnd(q: seq<Entry>, before: Timespec, limit: nat, p: nat, taken: seq<Entry>, kept: seq<Entry>)
    requires PassDone(q, before, limit, p, taken, kept) && (p == 0 || |taken| == limit)
    ensures TakeExpired(q, before, limit) == (taken, q[..p] + kept)
  {
    assert TakeExpired(q[..p], before, limit - |taken|) == ([], q[..p]);
    assert taken + [] == taken;
  }

}

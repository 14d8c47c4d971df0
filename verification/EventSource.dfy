/**
  The event source of libcore/event.c: a singly linked list of callbacks, the
  latest first.
 */
module EventSource {

  // cb and data stand for the two pointers.
  datatype Listener = Listener(mask: bv8, cb: nat, data: nat)

  class CallbackEntry {
    const listener: Listener
    var next: CallbackEntry?

    constructor (listener: Listener, next: CallbackEntry?)
      ensures this.listener == listener && this.next == next
    {
      this.listener, this.next := listener, next;
    }
  }

  /** All listeners but those equal to l, in order. */
  function Others(ls: seq<Listener>, l: Listener): seq<Listener> {
    if ls == [] then []
    else Others(ls[..|ls| - 1], l) + (if ls[|ls| - 1] == l then [] else [ls[|ls| - 1]])
  }

  /** The listeners that an event of this type reaches, in order. */
  function Reached(ls: seq<Listener>, eventType: bv8): seq<Listener> {
    if ls == [] then []
    else Reached(ls[..|ls| - 1], eventType) + (if ls[|ls| - 1].mask & eventType != 0 then [ls[|ls| - 1]] else [])
  }

  class EventSource {
    var callbacks: CallbackEntry?
    ghost var nodes: seq<CallbackEntry>
    ghost var repr: set<CallbackEntry>

    ghost predicate Valid()
      reads this, repr
    {
      && (forall i :: 0 <= i < |nodes| ==> nodes[i] in repr)
      && callbacks == NodeAt(nodes, 0)
      && (forall i {:trigger nodes[i].next} :: 0 <= i < |nodes| ==> nodes[i].next == NodeAt(nodes, i + 1))
      && (forall i, j :: 0 <= i < j < |nodes| ==> nodes[i] != nodes[j])
    }

    ghost function Contents(): seq<Listener>
      reads this
    {
      Listeners(nodes)
    }

    constructor ()
      ensures Valid() && Contents() == [] && repr == {}
    {
      callbacks, nodes, repr := null, [], {};
    }

    method AddCb(l: Listener)
      requires Valid()
      modifies this
      ensures Valid() && Contents() == [l] + old(Contents()) && fresh(repr - old(repr))
    {
      var p := new CallbackEntry(l, callbacks);
      callbacks := p;
      nodes, repr := [p] + nodes, repr + {p};
    }

    /** Makes the pointer that leads to node i skip it; previous is null for the head. */
    method Unlink(previous: CallbackEntry?, ghost i: nat)
      requires Valid() && i < |nodes| && previous == NodeAt(nodes, i - 1)
      modifies this, repr
      ensures Valid() && repr == old(repr) && nodes == old(nodes[..i] + nodes[i + 1..])
    {
      if previous == null {
        callbacks := callbacks.next;
      } else {
        previous.next := previous.next.next;
      }
      nodes := nodes[..i] + nodes[i + 1..];
    }

    /** Removes every entry equal to l. */
    method RemoveCb(l: Listener)
      requires Valid()
      modifies this, repr
      ensures Valid() && repr == old(repr) && Contents() == Others(old(Contents()), l)
    {
      var previous: CallbackEntry? := null;
      var p := callbacks;
      ghost var all, k: nat, i: nat := nodes, 0, 0;
      assert all[..0] == [] && Listeners(all[..0]) == [];
      while p != null
        invariant Valid() && repr == old(repr) && k <= |all| && i <= |nodes|
        invariant nodes[i..] == all[k..] && Listeners(nodes[..i]) == Others(Listeners(all[..k]), l)
        invariant p == NodeAt(nodes, i) && previous == NodeAt(nodes, i - 1)
        decreases |all| - k
      {
        OthersNext(all, k, l);
        assert nodes[i] == nodes[i..][0] == all[k] && nodes[i..][1..] == all[k + 1..];
        if p.listener == l {
          var next := p.next;
          Unlink(previous, i);
          p := next;
        } else {
          ListenersNext(nodes, i);
          previous := p;
          p := p.next;
          i := i + 1;
        }
        k := k + 1;
      }
      assert all[..k] == all && nodes[..i] == nodes;
    }

    /** Calls the listeners of an event of this type; the calls are logged. */
    method FireEvent(eventType: bv8) returns (called: seq<Listener>)
      requires Valid()
      ensures called == Reached(Contents(), eventType)
    {
      called := [];
      var p := callbacks;
      ghost var i: nat := 0;
      while p != null
        invariant i <= |nodes| && p == NodeAt(nodes, i) && called == Reached(Contents()[..i], eventType)
        decreases |nodes| - i
      {
        assert Contents()[..i + 1][..i] == Contents()[..i];
        if p.listener.mask & eventType != 0 {
          called := called + [p.listener];
        }
        p := p.next;
        i := i + 1;
      }
      assert Contents()[..i] == Contents();
    }
  }

  function NodeAt(nodes: seq<CallbackEntry>, i: int): CallbackEntry? {
    if 0 <= i < |nodes| then nodes[i] else null
  }

  function Listeners(nodes: seq<CallbackEntry>): (r: seq<Listener>)
    ensures |r| == |nodes| && forall i :: 0 <= i < |nodes| ==> r[i] == nodes[i].listener
  {
    seq(|nodes|, i requires 0 <= i < |nodes| => nodes[i].listener)
  }

  lemma ListenersNext(nodes: seq<CallbackEntry>, i: nat)
    requires i < |nodes|
    ensures Listeners(nodes[..i + 1]) == Listeners(nodes[..i]) + [nodes[i].listener]
  {
  }

  lemma OthersNext(all: seq<CallbackEntry>, k: nat, l: Listener)
    requires k < |all|
    ensures Others(Listeners(all[..k + 1]), l)
         == Others(Listeners(all[..k]), l) + (if all[k].listener == l then [] else [all[k].listener])
  {
    var ls := Listeners(all[..k + 1]);
    assert ls[..k] == Listeners(all[..k]);
  }

  /** The listeners at these places, in this order. */
  ghost predicate PickedAt(ls: seq<Listener>, picked: seq<Listener>, at: seq<int>) {
    && |at| == |picked|
    && (forall j :: 0 <= j < |at| ==> 0 <= at[j] < |ls| && picked[j] == ls[at[j]])
    && (forall j, k :: 0 <= j < k < |at| ==> at[j] < at[k])
  }

  lemma PickedMore(ls: seq<Listener>, picked: seq<Listener>, at: seq<int>)
    requires ls != [] && PickedAt(ls[..|ls| - 1], picked, at)
    ensures PickedAt(ls, picked, at) && PickedAt(ls, picked + [ls[|ls| - 1]], at + [|ls| - 1])
  {
    forall j | 0 <= j < |at| ensures 0 <= at[j] < |ls| - 1 && picked[j] == ls[at[j]] {
      assert ls[..|ls| - 1][at[j]] == ls[at[j]];
    }
  }

  function Filter(ls: seq<Listener>, p: Listener -> bool): seq<Listener> {
    if ls == [] then []
    else Filter(ls[..|ls| - 1], p) + (if p(ls[|ls| - 1]) then [ls[|ls| - 1]] else [])
  }

  lemma {:induction false} FilterExactly(ls: seq<Listener>, p: Listener -> bool) returns (at: seq<int>)
    ensures PickedAt(ls, Filter(ls, p), at)
    ensures forall i :: i in at <==> 0 <= i < |ls| && p(ls[i])
  {
    at := [];
    if ls != [] {
      var n := |ls| - 1;
      at := FilterExactly(ls[..n], p);
      assert forall i :: 0 <= i < n ==> ls[..n][i] == ls[i];
      PickedMore(ls, Filter(ls[..n], p), at);
      if p(ls[n]) {
        at := at + [n];
      }
    }
  }

  lemma {:induction false} ReachedIsFilter(ls: seq<Listener>, eventType: bv8)
    ensures Reached(ls, eventType) == Filter(ls, (x: Listener) => x.mask & eventType != 0)
  {
    if ls != [] {
      ReachedIsFilter(ls[..|ls| - 1], eventType);
    }
  }

  lemma {:induction false} OthersIsFilter(ls: seq<Listener>, l: Listener)
    ensures Others(ls, l) == Filter(ls, (x: Listener) => x != l)
  {
    if ls != [] {
      OthersIsFilter(ls[..|ls| - 1], l);
    }
  }

  /** An event reaches exactly the listeners whose mask has a bit in common with its type, in the order of the list. */
  lemma ReachedExactly(ls: seq<Listener>, eventType: bv8) returns (at: seq<int>)
    ensures PickedAt(ls, Reached(ls, eventType), at)
    ensures forall i :: i in at <==> 0 <= i < |ls| && ls[i].mask & eventType != 0
  {
    ReachedIsFilter(ls, eventType);
    at := FilterExactly(ls, (x: Listener) => x.mask & eventType != 0);
  }

  /** Removing a listener keeps exactly the others, in their order. */
  lemma OthersExactly(ls: seq<Listener>, l: Listener) returns (at: seq<int>)
    ensures PickedAt(ls, Others(ls, l), at)
    ensures forall i :: i in at <==> 0 <= i < |ls| && ls[i] != l
  {
    OthersIsFilter(ls, l);
    at := FilterExactly(ls, (x: Listener) => x != l);
  }

  /** Removing keeps every other listener, as often as it was added, and none equal to l. */
  lemma {:induction false} OthersIsRemoval(ls: seq<Listener>, l: Listener, x: Listener)
    ensures multiset(Others(ls, l))[x] == if x == l then 0 else multiset(ls)[x]
  {
    if ls != [] {
      var n := |ls| - 1;
      OthersIsRemoval(ls[..n], l, x);
      assert ls == ls[..n] + [ls[n]];
    }
  }

  /** Adding a listener and removing it gives the list back, exactly if it was not in it before. */
  lemma AddThenRemove(ls: seq<Listener>, l: Listener)
    ensures Others([l] + ls, l) == ls <==> l !in ls
  {
    OthersOfFirst(ls, l);
    if l in ls {
      OthersIsRemoval(ls, l, l);
      assert multiset(ls)[l] > 0;
    } else {
      OthersOfNone(ls, l);
    }
  }

  lemma {:induction false} OthersOfFirst(ls: seq<Listener>, l: Listener)
    ensures Others([l] + ls, l) == Others(ls, l)
  {
    var all := [l] + ls;
    if ls == [] {
      assert all[..0] == [];
    } else {
      assert all[..|all| - 1] == [l] + ls[..|ls| - 1];
      OthersOfFirst(ls[..|ls| - 1], l);
    }
  }

  lemma {:induction false} OthersOfNone(ls: seq<Listener>, l: Listener)
    requires l !in ls
    ensures Others(ls, l) == ls
  {
    if ls != [] {
      var n := |ls| - 1;
      OthersOfNone(ls[..n], l);
      assert ls == ls[..n] + [ls[n]];
    }
  }

  lemma OthersSnoc(ls: seq<Listener>, x: Listener, l: Listener)
    ensures Others(ls + [x], l) == if x == l then Others(ls, l) else Others(ls, l) + [x]
  {
    assert (ls + [x])[..|ls|] == ls;
  }

  lemma ReachedSnoc(ls: seq<Listener>, x: Listener, eventType: bv8)
    ensures Reached(ls + [x], eventType)
         == if x.mask & eventType != 0 then Reached(ls, eventType) + [x] else Reached(ls, eventType)
  {
    assert (ls + [x])[..|ls|] == ls;
  }

  /** A removed listener is never reached; the others are reached as before. */
  lemma {:induction false} RemovedIsNotReached(ls: seq<Listener>, l: Listener, eventType: bv8)
    ensures Reached(Others(ls, l), eventType) == Others(Reached(ls, eventType), l)
  {
    if ls != [] {
      var n := |ls| - 1;
      var x := ls[n];
      RemovedIsNotReached(ls[..n], l, eventType);
      assert ls == ls[..n] + [x];
      OthersSnoc(ls[..n], x, l);
      ReachedSnoc(ls[..n], x, eventType);
      ReachedSnoc(Others(ls[..n], l), x, eventType);
      OthersSnoc(Reached(ls[..n], eventType), x, l);
    }
  }

}

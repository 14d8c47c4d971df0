/**
  Every action of the permission protocol keeps the invariant.
 */
module PermissionSteps {
  import opened Wrappers
  import opened Stamp
  import opened QueueSpec
  import opened Permission
  import opened PermissionSafety

  // ---------------------------------------------------------------------
  // The queue
  // ---------------------------------------------------------------------

  lemma PushHas(q: seq<Entry>, e: Entry, fd: int)
    ensures QueueHas([e] + q, fd) <==> QueueHas(q, fd) || fd == e.fd
  {
    if QueueHas(q, fd) {
      var i :| 0 <= i < |q| && q[i].fd == fd;
      assert ([e] + q)[i + 1] == q[i];
    }
    if fd == e.fd {
      assert ([e] + q)[0] == e;
    }
  }

  lemma WithoutHas(q: seq<Entry>, i: nat, fd: int)
    requires i < |q| && DistinctQueue(q)
    ensures QueueHas(Without(q, i), fd) <==> QueueHas(q, fd) && fd != q[i].fd
    ensures DistinctQueue(Without(q, i))
  {
    var r := Without(q, i);
    if QueueHas(r, fd) {
      var j :| 0 <= j < |r| && r[j].fd == fd;
      assert r[j] == q[if j < i then j else j + 1];
    }
    if QueueHas(q, fd) && fd != q[i].fd {
      var j :| 0 <= j < |q| && q[j].fd == fd;
      assert q[j] == r[if j < i then j else j - 1];
    }
  }

  /** A timeout pass splits the descriptors of the queue in two. */
  lemma {:induction false} TakeHas(q: seq<Entry>, before: Timespec, n: nat)
    requires DistinctQueue(q)
    ensures var r := TakeExpired(q, before, n);
            && DistinctQueue(r.0) && DistinctQueue(r.1)
            && (forall fd :: QueueHas(r.0, fd) ==> QueueHas(q, fd) && !QueueHas(r.1, fd))
            && (forall fd :: QueueHas(r.1, fd) ==> QueueHas(q, fd))
            && (forall fd :: QueueHas(q, fd) ==> QueueHas(r.0, fd) || QueueHas(r.1, fd))
    decreases |q|
  {
    if q != [] && n > 0 {
      var last, init := q[|q| - 1], q[..|q| - 1];
      var r0 := TakeExpired(init, before, if Expired(last, before) then n - 1 else n);
      TakeHas(init, before, if Expired(last, before) then n - 1 else n);
      forall fd
        ensures QueueHas(q, fd) <==> QueueHas(init, fd) || fd == last.fd
        ensures QueueHas([last] + r0.0, fd) <==> QueueHas(r0.0, fd) || fd == last.fd
        ensures QueueHas(r0.1 + [last], fd) <==> QueueHas(r0.1, fd) || fd == last.fd
      {
        assert q == init + [last];
        AppendHas(init, last, fd);
        PushHas(r0.0, last, fd);
        AppendHas(r0.1, last, fd);
      }
      assert !QueueHas(init, last.fd);
    }
  }

  lemma AppendHas(q: seq<Entry>, e: Entry, fd: int)
    ensures QueueHas(q + [e], fd) <==> QueueHas(q, fd) || fd == e.fd
  {
    if QueueHas(q, fd) {
      var i :| 0 <= i < |q| && q[i].fd == fd;
      assert (q + [e])[i] == q[i];
    }
    if fd == e.fd {
      assert (q + [e])[|q|] == e;
    }
  }

  lemma FdIndexHas(q: seq<Entry>, fd: int)
    ensures FdIndex(q, fd) < |q| <==> QueueHas(q, fd)
  {
  }

  lemma FdsOfHas(q: seq<Entry>, fd: int)
    ensures fd in FdsOf(q) <==> QueueHas(q, fd)
  {
    if QueueHas(q, fd) {
      var i :| 0 <= i < |q| && q[i].fd == fd;
      assert FdsOf(q)[i] == fd;
    }
  }

  // ---------------------------------------------------------------------
  // Delivery
  // ---------------------------------------------------------------------

  lemma {:induction false} OpenedByMeaning(b: seq<Event>)
    requires DistinctFds(b)
    ensures forall j :: 0 <= j < |b| ==> b[j].fd in OpenedBy(b) && OpenedBy(b)[b[j].fd] == b[j].id
    ensures forall fd :: fd in OpenedBy(b) ==> exists j :: 0 <= j < |b| && b[j].fd == fd
    decreases |b|
  {
    if b != [] {
      OpenedByMeaning(b[..|b| - 1]);
      forall fd | fd in OpenedBy(b)
        ensures exists j :: 0 <= j < |b| && b[j].fd == fd
      {
        if fd == b[|b| - 1].fd {
        } else {
          var j :| 0 <= j < |b| - 1 && b[..|b| - 1][j].fd == fd;
          assert b[j].fd == fd;
        }
      }
    }
  }

  lemma {:induction false} DeliveredByMeaning(b: seq<Event>)
    requires DistinctIds(b)
    ensures forall j :: 0 <= j < |b| ==> b[j].id in DeliveredBy(b) && DeliveredBy(b)[b[j].id] == b[j].fd
    ensures forall id :: id in DeliveredBy(b) ==> exists j :: 0 <= j < |b| && b[j].id == id
    decreases |b|
  {
    if b != [] {
      DeliveredByMeaning(b[..|b| - 1]);
      forall id | id in DeliveredBy(b)
        ensures exists j :: 0 <= j < |b| && b[j].id == id
      {
        if id == b[|b| - 1].id {
        } else {
          var j :| 0 <= j < |b| - 1 && b[..|b| - 1][j].id == id;
          assert b[j].id == id;
        }
      }
    }
  }

  lemma NewBatchHas(watchdog: bool, b: seq<Event>, fd: int)
    requires DistinctFds(b)
    ensures BatchHas(watchdog, Pass1(b, 0), fd) <==> fd in OpenedBy(b)
  {
    OpenedByMeaning(b);
    if fd in OpenedBy(b) {
      var j :| 0 <= j < |b| && b[j].fd == fd;
      assert Batch(Pass1(b, 0))[j].fd == fd && Waits(watchdog, Pass1(b, 0), j);
    }
  }

  /** New descriptors get the batch as their holder; the others keep theirs. */
  lemma NewHolders(watchdog: bool, s: State, s': State, new_fds: map<int, nat>)
    requires Exclusive(watchdog, s) && HeldIsOpen(watchdog, s)
    requires s'.queue == s.queue && s'.timeouts == s.timeouts && s'.open == s.open + new_fds
    requires forall fd :: fd in new_fds ==> fd !in s.open
    requires forall fd :: !Holds(watchdog, s, InBatch, fd)
    requires forall h, fd ::
               Holds(watchdog, s', h, fd) <==> (if h == InBatch then fd in new_fds else Holds(watchdog, s, h, fd))
    ensures Exclusive(watchdog, s') && HeldIsOpen(watchdog, s')
  {
    forall fd | fd in s'.open
      ensures exists h :: Holds(watchdog, s', h, fd)
    {
      if fd in new_fds {
        assert Holds(watchdog, s', InBatch, fd);
      } else {
        var h :| Holds(watchdog, s, h, fd);
        assert Holds(watchdog, s', h, fd);
      }
    }
  }

  lemma DeliverHolders(watchdog: bool, s: State, b: seq<Event>)
    requires Inv(watchdog, s) && Enabled(watchdog, s, Deliver(b))
    ensures var s' := Apply(watchdog, s, Deliver(b));
            Exclusive(watchdog, s') && HeldIsOpen(watchdog, s')
  {
    var s' := Apply(watchdog, s, Deliver(b));
    OpenedByMeaning(b);
    forall fd
      ensures BatchHas(watchdog, s'.monitor, fd) <==> fd in OpenedBy(b)
    {
      NewBatchHas(watchdog, b, fd);
    }
    NewHolders(watchdog, s, s', OpenedBy(b));
  }

  lemma DeliverOpen(s: State, b: seq<Event>, id: nat)
    requires NamesOK(s) && Deliverable(s, b) && id in s.delivered + DeliveredBy(b)
    ensures var s' := s.(open := s.open + OpenedBy(b), delivered := s.delivered + DeliveredBy(b));
            Open(s', id) <==> id in DeliveredBy(b) || Open(s, id)
    ensures id in DeliveredBy(b) ==> id !in s.delivered
  {
    OpenedByMeaning(b);
    DeliveredByMeaning(b);
    if id in DeliveredBy(b) {
      var j :| 0 <= j < |b| && b[j].id == id;
      assert b[j].fd in OpenedBy(b);
    } else {
      var fd := s.delivered[id];
      if fd in OpenedBy(b) {
        var j :| 0 <= j < |b| && b[j].fd == fd;
        assert b[j].id !in s.delivered;
      }
    }
  }

  lemma DeliverLog(watchdog: bool, s: State, b: seq<Event>)
    requires Inv(watchdog, s) && Enabled(watchdog, s, Deliver(b))
    ensures LogOK(Apply(watchdog, s, Deliver(b)))
  {
    var s' := Apply(watchdog, s, Deliver(b));
    forall id | id in s'.delivered
      ensures AnsweredIn(s'.answers, id) <==> !Open(s', id)
    {
      DeliverOpen(s, b, id);
    }
  }

  lemma DeliverNames(watchdog: bool, s: State, b: seq<Event>)
    requires Inv(watchdog, s) && Enabled(watchdog, s, Deliver(b))
    ensures NamesOK(Apply(watchdog, s, Deliver(b)))
  {
    OpenedByMeaning(b);
    DeliveredByMeaning(b);
    var s' := Apply(watchdog, s, Deliver(b));
    forall fd | fd in s'.open
      ensures s'.open[fd] in s'.delivered && s'.delivered[s'.open[fd]] == fd
    {
      if fd in OpenedBy(b) {
        var j :| 0 <= j < |b| && b[j].fd == fd;
        assert b[j].id in DeliveredBy(b);
      } else {
        assert s.open[fd] !in DeliveredBy(b);
      }
    }
    forall id | id in s.tasks
      ensures id in s'.delivered && s'.delivered[id] == s.tasks[id].fd
    {
      assert id !in DeliveredBy(b);
    }
  }

  lemma DeliverBatch(watchdog: bool, s: State, b: seq<Event>)
    requires Inv(watchdog, s) && Enabled(watchdog, s, Deliver(b))
    ensures BatchOK(Apply(watchdog, s, Deliver(b)))
  {
    OpenedByMeaning(b);
    DeliveredByMeaning(b);
  }

  lemma DeliverInv(watchdog: bool, s: State, b: seq<Event>)
    requires Inv(watchdog, s) && Enabled(watchdog, s, Deliver(b))
    ensures Inv(watchdog, Apply(watchdog, s, Deliver(b)))
  {
    var s' := Apply(watchdog, s, Deliver(b));
    OpenedByMeaning(b);
    DeliverHolders(watchdog, s, b);
    DeliverNames(watchdog, s, b);
    DeliverBatch(watchdog, s, b);
    DeliverLog(watchdog, s, b);
    forall fd | QueueHas(s'.queue, fd) && fd in s'.open
      ensures ClaimPending(s', s'.open[fd])
    {
      assert Holds(watchdog, s, InQueue, fd);
      assert ClaimPending(s, s.open[fd]);
    }
    forall id | id in s.tasks && s.tasks[id].fd in s'.open && !watchdog
      ensures s'.open[s.tasks[id].fd] == id
    {
      assert Holds(watchdog, s, AtTask(id), s.tasks[id].fd);
    }
  }

  // ---------------------------------------------------------------------
  // First pass
  // ---------------------------------------------------------------------

  lemma WaitsNext(watchdog: bool, m: Monitor, m': Monitor, fd: int)
    requires Batch(m) == Batch(m')
    requires forall j :: 0 <= j < |Batch(m)| ==> (Waits(watchdog, m, j) <==> Waits(watchdog, m', j))
    ensures BatchHas(watchdog, m, fd) <==> BatchHas(watchdog, m', fd)
  {
  }

  /** Treating event k takes its descriptor, and no other, from the batch. */
  lemma WaitsDone(watchdog: bool, m: Monitor, m': Monitor, k: nat, fd: int)
    requires Batch(m) == Batch(m') && k < |Batch(m)| && DistinctFds(Batch(m)) && Waits(watchdog, m, k)
    requires forall j :: 0 <= j < |Batch(m)| ==> (Waits(watchdog, m', j) <==> Waits(watchdog, m, j) && j != k)
    ensures BatchHas(watchdog, m', fd) <==> BatchHas(watchdog, m, fd) && fd != Batch(m)[k].fd
  {
    var b := Batch(m);
    if BatchHas(watchdog, m, fd) && fd != b[k].fd {
      var j :| 0 <= j < |b| && b[j].fd == fd && Waits(watchdog, m, j);
      assert Waits(watchdog, m', j);
    }
  }

  lemma FirstPassHolders(watchdog: bool, s: State)
    requires Inv(watchdog, s) && Enabled(watchdog, s, FirstPass)
    ensures var s' := Apply(watchdog, s, FirstPass);
            Exclusive(watchdog, s') && HeldIsOpen(watchdog, s')
  {
    var s' := Apply(watchdog, s, FirstPass);
    var Pass1(b, k) := s.monitor;
    assert BatchHas(watchdog, s.monitor, b[k].fd) by {
      assert Waits(watchdog, s.monitor, k);
    }
    assert Holds(watchdog, s, InBatch, b[k].fd);
    if b[k].own || watchdog {
      forall fd
        ensures BatchHas(watchdog, s'.monitor, fd) <==> BatchHas(watchdog, s.monitor, fd) && fd != b[k].fd
      {
        WaitsDone(watchdog, s.monitor, s'.monitor, k, fd);
      }
      if b[k].own {
        AnsweredHolders(watchdog, s, s', InBatch, b[k].fd);
      } else {
        forall fd
          ensures QueueHas(s'.queue, fd) <==> QueueHas(s.queue, fd) || fd == b[k].fd
        {
          PushHas(s.queue, Entry(b[k].fd, s.now), fd);
        }
        assert !Holds(watchdog, s, InQueue, b[k].fd);
        MovedHolders(watchdog, s, s', InBatch, InQueue, b[k].fd);
      }
    } else {
      forall fd
        ensures BatchHas(watchdog, s'.monitor, fd) <==> BatchHas(watchdog, s.monitor, fd)
      {
        WaitsNext(watchdog, s.monitor, s'.monitor, fd);
      }
      SameHolders(watchdog, s, s');
    }
  }

  /** Events in line stay in line when the monitor goes on. */
  lemma InLineKept(m: Monitor, m': Monitor, i: nat)
    requires Batch(m) == Batch(m') && InLine(m, i)
    requires forall j :: 0 <= j < |Batch(m)| && Batch(m)[j].id == i && !Batch(m)[j].own && Queued(m, j) ==> Queued(m', j)
    ensures InLine(m', i)
  {
    var j :| 0 <= j < |Batch(m)| && Batch(m)[j].id == i && !Batch(m)[j].own && Queued(m, j);
    assert Queued(m', j);
  }

  lemma FirstPassQueue(watchdog: bool, s: State)
    requires Inv(watchdog, s) && Enabled(watchdog, s, FirstPass)
    ensures QueueOK(Apply(watchdog, s, FirstPass))
  {
    var s' := Apply(watchdog, s, FirstPass);
    var Pass1(b, k) := s.monitor;
    forall fd | QueueHas(s'.queue, fd) && fd in s'.open
      ensures ClaimPending(s', s'.open[fd])
    {
      PushHas(s.queue, Entry(b[k].fd, s.now), fd);
      if QueueHas(s.queue, fd) {
        if InLine(s.monitor, s.open[fd]) {
          InLineKept(s.monitor, s'.monitor, s.open[fd]);
        }
      } else {
        assert b[k].id == s'.open[fd] && Queued(s'.monitor, k);
        assert InLine(s'.monitor, b[k].id);
      }
    }
  }

  lemma FirstPassLog(watchdog: bool, s: State)
    requires Inv(watchdog, s) && Enabled(watchdog, s, FirstPass)
    ensures LogOK(Apply(watchdog, s, FirstPass))
  {
    var s' := Apply(watchdog, s, FirstPass);
    var Pass1(b, k) := s.monitor;
    if b[k].own {
      assert Holds(watchdog, s, InBatch, b[k].fd) by {
        assert Waits(watchdog, s.monitor, k);
      }
      AnsweredLog(s, b[k].fd, Allow, ByPid);
      SameLog(Answered(s, b[k].fd, Allow, ByPid), s');
    } else {
      SameLog(s, s');
    }
  }

  lemma FirstPassStructure(watchdog: bool, s: State)
    requires Enabled(watchdog, s, FirstPass)
    requires BatchOK(s) && NamesOK(s) && PlainOK(watchdog, s)
    ensures var s' := Apply(watchdog, s, FirstPass); BatchOK(s') && NamesOK(s') && PlainOK(watchdog, s')
  {
  }

  lemma FirstPassInv(watchdog: bool, s: State)
    requires Inv(watchdog, s) && Enabled(watchdog, s, FirstPass)
    ensures Inv(watchdog, Apply(watchdog, s, FirstPass))
  {
    FirstPassHolders(watchdog, s);
    FirstPassStructure(watchdog, s);
    FirstPassQueue(watchdog, s);
    FirstPassLog(watchdog, s);
  }

  lemma SameLog(s: State, s': State)
    requires LogOK(s) && s'.answers == s.answers && s'.delivered == s.delivered && s'.open == s.open
    ensures LogOK(s')
  {
    forall id
      ensures Open(s', id) <==> Open(s, id)
    {
    }
  }

  // ---------------------------------------------------------------------
  // Steps that only move the monitor
  // ---------------------------------------------------------------------

  lemma MonitorMoves(watchdog: bool, s: State, m': Monitor)
    requires Inv(watchdog, s)
    requires Batch(m') == Batch(s.monitor)
    requires forall j :: 0 <= j < |Batch(m')| ==> (Waits(watchdog, s.monitor, j) <==> Waits(watchdog, m', j))
    requires forall j :: 0 <= j < |Batch(m')| && Unhandled(m', j) ==> Unhandled(s.monitor, j)
    requires forall j :: 0 <= j < |Batch(m')| && !Batch(m')[j].own && Queued(s.monitor, j) ==> Queued(m', j)
    requires m'.Claiming? || m'.Answering? ==> m'.k < |Batch(m')| && !Batch(m')[m'.k].own
    requires m' != Waiting ==> m'.k <= |Batch(m')|
    requires watchdog ==> !s.monitor.Answering? && !m'.Answering?
    ensures Inv(watchdog, s.(monitor := m'))
  {
    var s' := s.(monitor := m');
    forall h, fd
      ensures Holds(watchdog, s', h, fd) <==> Holds(watchdog, s, h, fd)
    {
      WaitsNext(watchdog, s.monitor, m', fd);
    }
    SameHolders(watchdog, s, s');
    forall fd | QueueHas(s'.queue, fd) && fd in s'.open
      ensures ClaimPending(s', s'.open[fd])
    {
      if InLine(s.monitor, s.open[fd]) {
        InLineKept(s.monitor, m', s.open[fd]);
      }
    }
    SameLog(s, s');
  }

  lemma MonitorMovesInv(watchdog: bool, s: State, a: Action)
    requires Inv(watchdog, s) && Enabled(watchdog, s, a)
    requires a.FirstPassEnd? || a.SkipOwn? || a.DoNotScan?
    ensures Inv(watchdog, Apply(watchdog, s, a))
  {
    MonitorMoves(watchdog, s, Apply(watchdog, s, a).monitor);
  }

  lemma SecondPassEndInv(watchdog: bool, s: State)
    requires Inv(watchdog, s) && Enabled(watchdog, s, SecondPassEnd)
    ensures Inv(watchdog, Apply(watchdog, s, SecondPassEnd))
  {
    var s' := Apply(watchdog, s, SecondPassEnd);
    SameHolders(watchdog, s, s');
    SameLog(s, s');
    assert forall i :: !InLine(s.monitor, i);
  }

  // ---------------------------------------------------------------------
  // Second pass
  // ---------------------------------------------------------------------

  lemma StartScanHolders(watchdog: bool, s: State)
    requires Inv(watchdog, s) && Enabled(watchdog, s, StartScan)
    ensures var s' := Apply(watchdog, s, StartScan);
            Exclusive(watchdog, s') && HeldIsOpen(watchdog, s')
  {
    var s' := Apply(watchdog, s, StartScan);
    var Pass2(b, k) := s.monitor;
    assert b[k].id !in s.tasks by {
      assert Unhandled(s.monitor, k);
    }
    if watchdog {
      forall fd
        ensures BatchHas(watchdog, s'.monitor, fd) <==> BatchHas(watchdog, s.monitor, fd)
      {
        WaitsNext(watchdog, s.monitor, s'.monitor, fd);
      }
      SameHolders(watchdog, s, s');
    } else {
      forall fd
        ensures BatchHas(watchdog, s'.monitor, fd) <==> BatchHas(watchdog, s.monitor, fd) && fd != b[k].fd
      {
        WaitsDone(watchdog, s.monitor, s'.monitor, k, fd);
      }
      assert Holds(watchdog, s, InBatch, b[k].fd) by {
        assert Waits(watchdog, s.monitor, k);
      }
      MovedHolders(watchdog, s, s', InBatch, AtTask(b[k].id), b[k].fd);
    }
  }

  lemma StartScanInv(watchdog: bool, s: State)
    requires Inv(watchdog, s) && Enabled(watchdog, s, StartScan)
    ensures Inv(watchdog, Apply(watchdog, s, StartScan))
  {
    var s' := Apply(watchdog, s, StartScan);
    var Pass2(b, k) := s.monitor;
    StartScanHolders(watchdog, s);
    SameLog(s, s');
    forall fd | QueueHas(s'.queue, fd) && fd in s'.open
      ensures ClaimPending(s', s'.open[fd])
    {
      var i := s.open[fd];
      if i != b[k].id && InLine(s.monitor, i) {
        InLineKept(s.monitor, s'.monitor, i);
      }
    }
  }

  lemma MonitorClaimHolders(watchdog: bool, s: State)
    requires Inv(watchdog, s) && Enabled(watchdog, s, MonitorClaim)
    ensures var s' := Apply(watchdog, s, MonitorClaim);
            && Exclusive(watchdog, s') && HeldIsOpen(watchdog, s')
            && (forall fd :: QueueHas(s'.queue, fd) ==> QueueHas(s.queue, fd) && fd != s.monitor.batch[s.monitor.k].fd)
  {
    var s' := Apply(watchdog, s, MonitorClaim);
    var Claiming(b, k) := s.monitor;
    var i := FdIndex(s.queue, b[k].fd);
    FdIndexHas(s.queue, b[k].fd);
    forall fd
      ensures BatchHas(watchdog, s'.monitor, fd) <==> BatchHas(watchdog, s.monitor, fd)
    {
      WaitsNext(watchdog, s.monitor, s'.monitor, fd);
    }
    if watchdog && i < |s.queue| {
      forall fd
        ensures QueueHas(s'.queue, fd) <==> QueueHas(s.queue, fd) && fd != b[k].fd
      {
        WithoutHas(s.queue, i, fd);
      }
      WithoutHas(s.queue, i, 0);
      assert Holds(watchdog, s, InQueue, b[k].fd);
      MovedHolders(watchdog, s, s', InQueue, AtMonitor, b[k].fd);
    } else {
      SameHolders(watchdog, s, s');
    }
  }

  /** After an event has made its claim, nothing left in the queue depends on that claim. */
  lemma MonitorClaimQueue(watchdog: bool, s: State)
    requires Inv(watchdog, s) && Enabled(watchdog, s, MonitorClaim)
    ensures QueueOK(Apply(watchdog, s, MonitorClaim))
  {
    var s' := Apply(watchdog, s, MonitorClaim);
    var Claiming(b, k) := s.monitor;
    MonitorClaimHolders(watchdog, s);
    forall fd | QueueHas(s'.queue, fd) && fd in s'.open
      ensures ClaimPending(s', s'.open[fd])
    {
      var e := s.open[fd];
      assert e != b[k].id;
      if InLine(s.monitor, e) {
        InLineKept(s.monitor, s'.monitor, e);
      }
    }
  }

  lemma MonitorClaimStructure(watchdog: bool, s: State)
    requires Enabled(watchdog, s, MonitorClaim)
    requires BatchOK(s) && NamesOK(s) && PlainOK(watchdog, s)
    ensures var s' := Apply(watchdog, s, MonitorClaim); BatchOK(s') && NamesOK(s') && PlainOK(watchdog, s')
  {
  }

  lemma MonitorClaimInv(watchdog: bool, s: State)
    requires Inv(watchdog, s) && Enabled(watchdog, s, MonitorClaim)
    ensures Inv(watchdog, Apply(watchdog, s, MonitorClaim))
  {
    MonitorClaimHolders(watchdog, s);
    MonitorClaimStructure(watchdog, s);
    MonitorClaimQueue(watchdog, s);
    SameLog(s, Apply(watchdog, s, MonitorClaim));
  }

  lemma MonitorAnswerInv(watchdog: bool, s: State)
    requires Inv(watchdog, s) && Enabled(watchdog, s, MonitorAnswer)
    ensures Inv(watchdog, Apply(watchdog, s, MonitorAnswer))
  {
    var s' := Apply(watchdog, s, MonitorAnswer);
    var Answering(b, k) := s.monitor;
    var h0 := if watchdog then AtMonitor else InBatch;
    assert Holds(watchdog, s, h0, b[k].fd) by {
      assert !watchdog ==> Waits(watchdog, s.monitor, k);
    }
    forall fd
      ensures BatchHas(watchdog, s'.monitor, fd) <==> BatchHas(watchdog, s.monitor, fd) && (watchdog || fd != b[k].fd)
    {
      if watchdog {
        WaitsNext(watchdog, s.monitor, s'.monitor, fd);
      } else {
        WaitsDone(watchdog, s.monitor, s'.monitor, k, fd);
      }
    }
    AnsweredHolders(watchdog, s, s', h0, b[k].fd);
    AnsweredLog(s, b[k].fd, Allow, ByHandler(b[k].id));
    SameLog(Answered(s, b[k].fd, Allow, ByHandler(b[k].id)), s');
    forall fd | QueueHas(s'.queue, fd) && fd in s'.open
      ensures ClaimPending(s', s'.open[fd])
    {
      if InLine(s.monitor, s.open[fd]) {
        InLineKept(s.monitor, s'.monitor, s.open[fd]);
      }
    }
  }

  // ---------------------------------------------------------------------
  // Scan threads
  // ---------------------------------------------------------------------

  lemma ScannedInv(watchdog: bool, s: State, id: nat, v: Verdict)
    requires Inv(watchdog, s) && Enabled(watchdog, s, Scanned(id, v))
    ensures Inv(watchdog, Apply(watchdog, s, Scanned(id, v)))
  {
    var s' := Apply(watchdog, s, Scanned(id, v));
    SameHolders(watchdog, s, s');
    SameLog(s, s');
    forall fd | QueueHas(s'.queue, fd) && fd in s'.open
      ensures ClaimPending(s', s'.open[fd])
    {
      assert ClaimPending(s, s.open[fd]);
    }
  }

  lemma TaskClaimHolders(watchdog: bool, s: State, id: nat)
    requires Inv(watchdog, s) && Enabled(watchdog, s, TaskClaim(id))
    ensures var s' := Apply(watchdog, s, TaskClaim(id));
            && Exclusive(watchdog, s') && HeldIsOpen(watchdog, s')
            && (forall fd :: QueueHas(s'.queue, fd) ==> QueueHas(s.queue, fd) && fd != s.tasks[id].fd)
  {
    var s' := Apply(watchdog, s, TaskClaim(id));
    var fd0 := s.tasks[id].fd;
    var i := FdIndex(s.queue, fd0);
    FdIndexHas(s.queue, fd0);
    if watchdog && i < |s.queue| {
      forall fd
        ensures QueueHas(s'.queue, fd) <==> QueueHas(s.queue, fd) && fd != fd0
      {
        WithoutHas(s.queue, i, fd);
      }
      WithoutHas(s.queue, i, 0);
      assert Holds(watchdog, s, InQueue, fd0);
      MovedHolders(watchdog, s, s', InQueue, AtTask(id), fd0);
    } else {
      SameHolders(watchdog, s, s');
    }
  }

  lemma TaskClaimQueue(watchdog: bool, s: State, id: nat)
    requires Inv(watchdog, s) && Enabled(watchdog, s, TaskClaim(id))
    ensures QueueOK(Apply(watchdog, s, TaskClaim(id)))
  {
    var s' := Apply(watchdog, s, TaskClaim(id));
    TaskClaimHolders(watchdog, s, id);
    forall fd | QueueHas(s'.queue, fd) && fd in s'.open
      ensures ClaimPending(s', s'.open[fd])
    {
      assert s.open[fd] != id;
      assert ClaimPending(s, s.open[fd]);
    }
  }

  lemma TaskClaimStructure(watchdog: bool, s: State, id: nat)
    requires Enabled(watchdog, s, TaskClaim(id))
    requires BatchOK(s) && NamesOK(s) && PlainOK(watchdog, s)
    ensures var s' := Apply(watchdog, s, TaskClaim(id)); BatchOK(s') && NamesOK(s') && PlainOK(watchdog, s')
  {
  }

  lemma TaskClaimInv(watchdog: bool, s: State, id: nat)
    requires Inv(watchdog, s) && Enabled(watchdog, s, TaskClaim(id))
    ensures Inv(watchdog, Apply(watchdog, s, TaskClaim(id)))
  {
    TaskClaimHolders(watchdog, s, id);
    TaskClaimStructure(watchdog, s, id);
    TaskClaimQueue(watchdog, s, id);
    SameLog(s, Apply(watchdog, s, TaskClaim(id)));
  }

  lemma TaskAnswerInv(watchdog: bool, s: State, id: nat)
    requires Inv(watchdog, s) && Enabled(watchdog, s, TaskAnswer(id))
    ensures Inv(watchdog, Apply(watchdog, s, TaskAnswer(id)))
  {
    var s' := Apply(watchdog, s, TaskAnswer(id));
    var t := s.tasks[id];
    assert Holds(watchdog, s, AtTask(id), t.fd);
    AnsweredHolders(watchdog, s, s', AtTask(id), t.fd);
    AnsweredLog(s, t.fd, t.verdict, ByHandler(id));
    SameLog(Answered(s, t.fd, t.verdict, ByHandler(id)), s');
    forall fd | QueueHas(s'.queue, fd) && fd in s'.open
      ensures ClaimPending(s', s'.open[fd])
    {
      assert ClaimPending(s, s.open[fd]);
    }
  }

  // ---------------------------------------------------------------------
  // Timeout thread
  // ---------------------------------------------------------------------

  lemma TimeoutPopHolders(watchdog: bool, s: State)
    requires Inv(watchdog, s) && Enabled(watchdog, s, TimeoutPop)
    ensures var s' := Apply(watchdog, s, TimeoutPop);
            Exclusive(watchdog, s') && HeldIsOpen(watchdog, s')
  {
    var s' := Apply(watchdog, s, TimeoutPop);
    var r := TakeExpired(s.queue, Sub(s.now, TIMEOUT), N_FD);
    TakeHas(s.queue, Sub(s.now, TIMEOUT), N_FD);
    forall fd
      ensures fd in s'.timeouts <==> QueueHas(r.0, fd)
    {
      FdsOfHas(r.0, fd);
    }
    forall h, fd
      ensures Holds(watchdog, s', h, fd)
         <==> match h
              case InQueue => QueueHas(r.1, fd)
              case InTimeouts => QueueHas(r.0, fd)
              case _ => Holds(watchdog, s, h, fd)
    {
    }
    forall h, fd | Holds(watchdog, s', h, fd)
      ensures if h == InQueue || h == InTimeouts then Holds(watchdog, s, InQueue, fd) else Holds(watchdog, s, h, fd)
    {
    }
    forall fd | fd in s'.open
      ensures exists h :: Holds(watchdog, s', h, fd)
    {
      var h :| Holds(watchdog, s, h, fd);
      if h == InQueue {
        assert Holds(watchdog, s', if QueueHas(r.1, fd) then InQueue else InTimeouts, fd);
      } else {
        assert Holds(watchdog, s', h, fd);
      }
    }
  }

  lemma TimeoutPopInv(watchdog: bool, s: State)
    requires Inv(watchdog, s) && Enabled(watchdog, s, TimeoutPop)
    ensures Inv(watchdog, Apply(watchdog, s, TimeoutPop))
  {
    var s' := Apply(watchdog, s, TimeoutPop);
    TimeoutPopHolders(watchdog, s);
    TakeHas(s.queue, Sub(s.now, TIMEOUT), N_FD);
    NothingLost(s.queue, Sub(s.now, TIMEOUT), N_FD);
    SameLog(s, s');
    forall fd | QueueHas(s'.queue, fd) && fd in s'.open
      ensures ClaimPending(s', s'.open[fd])
    {
      assert ClaimPending(s, s.open[fd]);
    }
    forall i | 0 <= i < |s'.queue|
      ensures Normalised(s'.queue[i].timestamp)
    {
      assert s'.queue[i] in multiset(s.queue);
    }
  }

  lemma TimeoutAnswerInv(watchdog: bool, s: State)
    requires Inv(watchdog, s) && Enabled(watchdog, s, TimeoutAnswer)
    ensures Inv(watchdog, Apply(watchdog, s, TimeoutAnswer))
  {
    var s' := Apply(watchdog, s, TimeoutAnswer);
    var fd0 := s.timeouts[0];
    assert Holds(watchdog, s, InTimeouts, fd0);
    forall fd
      ensures fd in s.timeouts[1..] <==> fd in s.timeouts && fd != fd0
    {
      assert s.timeouts == [fd0] + s.timeouts[1..];
    }
    AnsweredHolders(watchdog, s, s', InTimeouts, fd0);
    AnsweredLog(s, fd0, Allow, ByTimeout);
    SameLog(Answered(s, fd0, Allow, ByTimeout), s');
    forall fd | QueueHas(s'.queue, fd) && fd in s'.open
      ensures ClaimPending(s', s'.open[fd])
    {
      assert ClaimPending(s, s.open[fd]);
    }
  }

  // ---------------------------------------------------------------------
  // All actions
  // ---------------------------------------------------------------------

  lemma TickInv(watchdog: bool, s: State, t: Timespec)
    requires Inv(watchdog, s) && Normalised(t)
    ensures Inv(watchdog, s.(now := t))
  {
    var s' := s.(now := t);
    SameHolders(watchdog, s, s');
    SameLog(s, s');
    forall fd | QueueHas(s'.queue, fd) && fd in s'.open
      ensures ClaimPending(s', s'.open[fd])
    {
      assert ClaimPending(s, s.open[fd]);
    }
  }

  lemma StepInv(watchdog: bool, s: State, a: Action)
    requires Inv(watchdog, s) && Enabled(watchdog, s, a)
    ensures Inv(watchdog, Apply(watchdog, s, a))
  {
    match a
    case Deliver(b) => DeliverInv(watchdog, s, b);
    case FirstPass => FirstPassInv(watchdog, s);
    case FirstPassEnd => MonitorMovesInv(watchdog, s, a);
    case SkipOwn => MonitorMovesInv(watchdog, s, a);
    case StartScan => StartScanInv(watchdog, s);
    case DoNotScan => MonitorMovesInv(watchdog, s, a);
    case MonitorClaim => MonitorClaimInv(watchdog, s);
    case MonitorAnswer => MonitorAnswerInv(watchdog, s);
    case SecondPassEnd => SecondPassEndInv(watchdog, s);
    case Scanned(id, v) => ScannedInv(watchdog, s, id, v);
    case TaskClaim(id) => TaskClaimInv(watchdog, s, id);
    case TaskAnswer(id) => TaskAnswerInv(watchdog, s, id);
    case TimeoutPop => TimeoutPopInv(watchdog, s);
    case TimeoutAnswer => TimeoutAnswerInv(watchdog, s);
    case Tick(t) => TickInv(watchdog, s, t);
  }

  lemma {:induction false} RunInv(watchdog: bool, s: State, actions: seq<Action>)
    requires Inv(watchdog, s) && Run(watchdog, s, actions)
    ensures Inv(watchdog, End(watchdog, s, actions))
    decreases |actions|
  {
    if actions != [] {
      StepInv(watchdog, s, actions[0]);
      RunInv(watchdog, Apply(watchdog, s, actions[0]), actions[1..]);
    }
  }

}

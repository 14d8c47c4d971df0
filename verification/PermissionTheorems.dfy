/**
  The results about the permission protocol, over every run from the initial
  state and for both values of the watchdog parameter.
 */
module PermissionTheorems {
  import opened Wrappers
  import opened Stamp
  import opened QueueSpec
  import opened Permission
  import opened PermissionSafety
  import opened PermissionSteps

  lemma ReachableInv(watchdog: bool, actions: seq<Action>)
    requires Run(watchdog, INITIAL, actions)
    ensures Inv(watchdog, End(watchdog, INITIAL, actions))
  {
    InitialInv(watchdog);
    RunInv(watchdog, INITIAL, actions);
  }

  /**
    Safety: in any interleaving every response is written for, and every close
    made on, the descriptor of an event that is pending; no event gets two
    responses; an event delivered is pending or answered, never both; and the
    queue holds pairwise distinct descriptors of pending events.
   */
  lemma AnsweredAtMostOnce(watchdog: bool, actions: seq<Action>)
    requires Run(watchdog, INITIAL, actions)
    ensures var s := End(watchdog, INITIAL, actions);
            && (forall n :: 0 <= n < |s.answers| ==> s.answers[n].target.Some?)
            && (forall n, m :: 0 <= n < m < |s.answers| ==> s.answers[n].target != s.answers[m].target)
            && (forall id :: id in s.delivered ==> (AnsweredIn(s.answers, id) <==> !Open(s, id)))
            && DistinctQueue(s.queue)
            && (forall i :: 0 <= i < |s.queue| ==> s.queue[i].fd in s.open)
  {
    var s := End(watchdog, INITIAL, actions);
    ReachableInv(watchdog, actions);
    forall i | 0 <= i < |s.queue|
      ensures s.queue[i].fd in s.open
    {
      assert QueueHas(s.queue, s.queue[i].fd);
      assert Holds(watchdog, s, InQueue, s.queue[i].fd);
    }
  }

  /** All threads have finished what they had to do. */
  predicate Quiescent(s: State) {
    s.monitor == Waiting && s.tasks == map[] && s.timeouts == []
  }

  ghost function AnsweredIds(log: seq<Response>): set<nat> {
    set n | 0 <= n < |log| && log[n].target.Some? :: log[n].target.value
  }

  lemma OpenNeedsTask(watchdog: bool, s: State, fd: int)
    requires Inv(watchdog, s) && s.monitor == Waiting && s.timeouts == [] && fd in s.open
    ensures s.tasks != map[]
  {
    var h :| Holds(watchdog, s, h, fd);
    if h == InQueue {
      assert ClaimPending(s, s.open[fd]);
    }
  }

  lemma QueuedIsOpen(watchdog: bool, s: State)
    requires Inv(watchdog, s) && s.queue != []
    ensures s.queue[0].fd in s.open
  {
    assert QueueHas(s.queue, s.queue[0].fd);
    assert Holds(watchdog, s, InQueue, s.queue[0].fd);
  }

  /** Liveness at rest: then the queue is empty, no event is pending, and each one delivered has exactly one answer. */
  lemma AnsweredExactlyOnce(watchdog: bool, actions: seq<Action>)
    requires Run(watchdog, INITIAL, actions)
    requires Quiescent(End(watchdog, INITIAL, actions))
    ensures var s := End(watchdog, INITIAL, actions);
            && s.queue == [] && s.open == map[]
            && (forall id :: id in s.delivered ==> AnsweredIn(s.answers, id))
            && AnsweredIds(s.answers) == s.delivered.Keys && |s.answers| == |s.delivered|
  {
    var s := End(watchdog, INITIAL, actions);
    ReachableInv(watchdog, actions);
    forall fd
      ensures fd !in s.open
    {
      if fd in s.open {
        OpenNeedsTask(watchdog, s, fd);
      }
    }
    if s.queue != [] {
      QueuedIsOpen(watchdog, s);
    }
    forall id | id in s.delivered
      ensures AnsweredIn(s.answers, id)
    {
      assert !Open(s, id);
    }
    forall id | id in AnsweredIds(s.answers)
      ensures id in s.delivered
    {
      assert AnsweredIn(s.answers, id);
    }
    forall id | id in s.delivered
      ensures id in AnsweredIds(s.answers)
    {
      var n :| 0 <= n < |s.answers| && s.answers[n].target == Some(id);
    }
    CountAnswers(s.answers);
    assert |s.delivered.Keys| == |s.delivered|;
  }

  lemma {:induction false} CountAnswers(log: seq<Response>)
    requires forall n :: 0 <= n < |log| ==> log[n].target.Some?
    requires forall n, m :: 0 <= n < m < |log| ==> log[n].target != log[m].target
    ensures |AnsweredIds(log)| == |log|
    decreases |log|
  {
    if log != [] {
      var init, last := log[..|log| - 1], log[|log| - 1];
      CountAnswers(init);
      assert AnsweredIds(log) == AnsweredIds(init) + {last.target.value} by {
        forall id | id in AnsweredIds(log)
          ensures id in AnsweredIds(init) + {last.target.value}
        {
          var n :| 0 <= n < |log| && log[n].target == Some(id);
          assert n < |init| ==> init[n] == log[n];
        }
        forall id | id in AnsweredIds(init)
          ensures id in AnsweredIds(log)
        {
          var n :| 0 <= n < |init| && init[n].target == Some(id);
          assert log[n] == init[n];
        }
      }
      forall n | 0 <= n < |init|
        ensures init[n].target != last.target
      {
        assert init[n] == log[n];
      }
    }
  }

  // ---------------------------------------------------------------------
  // Who answers whom
  // ---------------------------------------------------------------------

  /** Every handler that answers answers its own event. */
  ghost predicate Faithful(s: State) {
    && (forall id :: id in s.tasks && s.tasks[id].fd in s.open ==> s.open[s.tasks[id].fd] == id)
    && (forall n :: 0 <= n < |s.answers| && s.answers[n].author.ByHandler? ==>
          s.answers[n].target == Some(s.answers[n].author.id))
  }

  /** The kernel delivers on no descriptor that a scan still refers to. */
  predicate NoReuse(s: State, a: Action) {
    a.Deliver? ==> forall id, j :: id in s.tasks && 0 <= j < |a.events| ==> s.tasks[id].fd != a.events[j].fd
  }

  ghost predicate NoReuseRun(watchdog: bool, s: State, actions: seq<Action>)
    requires Run(watchdog, s, actions)
    decreases |actions|
  {
    actions == [] || (NoReuse(s, actions[0]) && NoReuseRun(watchdog, Apply(watchdog, s, actions[0]), actions[1..]))
  }

  lemma FaithfulDeliver(watchdog: bool, s: State, b: seq<Event>)
    requires Inv(watchdog, s) && Enabled(watchdog, s, Deliver(b)) && Faithful(s) && NoReuse(s, Deliver(b))
    ensures Faithful(Apply(watchdog, s, Deliver(b)))
  {
    OpenedByMeaning(b);
  }

  lemma FaithfulMonitor(watchdog: bool, s: State)
    requires Inv(watchdog, s) && Enabled(watchdog, s, MonitorAnswer) && Faithful(s)
    ensures Faithful(Apply(watchdog, s, MonitorAnswer))
  {
    var Answering(b, k) := s.monitor;
    var h0 := if watchdog then AtMonitor else InBatch;
    assert Holds(watchdog, s, h0, b[k].fd) by {
      assert !watchdog ==> Waits(watchdog, s.monitor, k);
    }
  }

  lemma FaithfulTask(watchdog: bool, s: State, id: nat)
    requires Inv(watchdog, s) && Enabled(watchdog, s, TaskAnswer(id)) && Faithful(s)
    ensures Faithful(Apply(watchdog, s, TaskAnswer(id)))
  {
    assert Holds(watchdog, s, AtTask(id), s.tasks[id].fd);
  }

  lemma FaithfulScan(watchdog: bool, s: State, a: Action)
    requires Inv(watchdog, s) && Enabled(watchdog, s, a) && Faithful(s)
    requires a.StartScan? || a.Scanned? || a.TaskClaim?
    ensures Faithful(Apply(watchdog, s, a))
  {
  }

  lemma FaithfulAnonymous(watchdog: bool, s: State, a: Action)
    requires Enabled(watchdog, s, a) && Faithful(s) && (a.FirstPass? || a.TimeoutAnswer?)
    ensures Faithful(Apply(watchdog, s, a))
  {
  }

  lemma FaithfulStep(watchdog: bool, s: State, a: Action)
    requires Inv(watchdog, s) && Enabled(watchdog, s, a) && Faithful(s) && NoReuse(s, a)
    ensures Faithful(Apply(watchdog, s, a))
  {
    match a
    case Deliver(b) => FaithfulDeliver(watchdog, s, b);
    case MonitorAnswer => FaithfulMonitor(watchdog, s);
    case TaskAnswer(id) => FaithfulTask(watchdog, s, id);
    case StartScan => FaithfulScan(watchdog, s, a);
    case Scanned(_, _) => FaithfulScan(watchdog, s, a);
    case TaskClaim(_) => FaithfulScan(watchdog, s, a);
    case FirstPass => FaithfulAnonymous(watchdog, s, a);
    case TimeoutAnswer => FaithfulAnonymous(watchdog, s, a);
    case _ =>
  }

  lemma {:induction false} FaithfulRun(watchdog: bool, s: State, actions: seq<Action>)
    requires Inv(watchdog, s) && Faithful(s) && Run(watchdog, s, actions) && NoReuseRun(watchdog, s, actions)
    ensures Faithful(End(watchdog, s, actions))
    decreases |actions|
  {
    if actions != [] {
      FaithfulStep(watchdog, s, actions[0]);
      StepInv(watchdog, s, actions[0]);
      FaithfulRun(watchdog, Apply(watchdog, s, actions[0]), actions[1..]);
    }
  }

  /** Without the watchdog a descriptor stays open until its scan answers, so the kernel cannot reuse it. */
  lemma {:induction false} PlainNeverReuses(s: State, actions: seq<Action>)
    requires Inv(false, s) && Run(false, s, actions)
    ensures NoReuseRun(false, s, actions)
    decreases |actions|
  {
    if actions != [] {
      var a := actions[0];
      if a.Deliver? {
        forall id, j | id in s.tasks && 0 <= j < |a.events|
          ensures s.tasks[id].fd != a.events[j].fd
        {
          assert Holds(false, s, AtTask(id), s.tasks[id].fd);
        }
      }
      StepInv(false, s, a);
      PlainNeverReuses(Apply(false, s, a), actions[1..]);
    }
  }

  /**
    With the watchdog, a handler that has won its claim answers its own event
    exactly when that event has not been answered yet.
   */
  lemma ClaimIsOwnUnlessLate(watchdog: bool, actions: seq<Action>, id: nat)
    requires Run(watchdog, INITIAL, actions)
    requires var s := End(watchdog, INITIAL, actions); id in s.tasks && s.tasks[id].Respond?
    ensures var s := End(watchdog, INITIAL, actions);
            && s.tasks[id].fd in s.open
            && (s.open[s.tasks[id].fd] == id <==> !AnsweredIn(s.answers, id))
  {
    var s := End(watchdog, INITIAL, actions);
    ReachableInv(watchdog, actions);
    assert Holds(watchdog, s, AtTask(id), s.tasks[id].fd);
    assert Open(s, id) <==> s.open[s.tasks[id].fd] == id;
  }

  /** A timeout pass takes only events that have waited 100 ms; one that takes fewer than 100 leaves none of them. */
  lemma TimeoutsAreLate(actions: seq<Action>)
    requires Run(true, INITIAL, actions)
    ensures var s := End(true, INITIAL, actions);
            var r := TakeExpired(s.queue, Sub(s.now, TIMEOUT), N_FD);
            && (forall e :: e in r.0 ==> Nanoseconds(s.now) - Nanoseconds(e.timestamp) >= 100 * ONE_MILLISECOND)
            && |r.0| <= 100
            && (|r.0| < 100 ==>
                  forall e :: e in r.1 ==> Nanoseconds(s.now) - Nanoseconds(e.timestamp) < 100 * ONE_MILLISECOND)
  {
    var s := End(true, INITIAL, actions);
    ReachableInv(true, actions);
    PassRespectsAge(s.queue, s.now, TIMEOUT, N_FD);
  }

  /**
    What the timeout thread takes from the queue: at most 100 descriptors, each
    of an entry that has waited 100 ms; if fewer, it leaves no entry that old.
   */
  lemma PopTakesLate(actions: seq<Action>)
    requires Run(true, INITIAL, actions) && End(true, INITIAL, actions).timeouts == []
    ensures var s := End(true, INITIAL, actions);
            var t := Apply(true, s, TimeoutPop);
            && |t.timeouts| <= 100 && |t.timeouts| + |t.queue| == |s.queue|
            && (forall fd :: fd in t.timeouts ==> exists e :: e in s.queue && e.fd == fd && Late(e, s.now))
            && (|t.timeouts| < 100 ==> forall e :: e in t.queue ==> !Late(e, s.now))
            && (t.answers, t.open, t.tasks, t.monitor) == (s.answers, s.open, s.tasks, s.monitor)
  {
    var s := End(true, INITIAL, actions);
    var r := TakeExpired(s.queue, Sub(s.now, TIMEOUT), N_FD);
    TimeoutsAreLate(actions);
    TakenExpired(s.queue, Sub(s.now, TIMEOUT), N_FD);
    forall fd | fd in FdsOf(r.0) ensures exists e :: e in s.queue && e.fd == fd && Late(e, s.now) {
      var i :| 0 <= i < |r.0| && FdsOf(r.0)[i] == fd;
      assert r.0[i] in s.queue;
    }
  }

  predicate Late(e: Entry, now: Timespec) {
    Nanoseconds(now) - Nanoseconds(e.timestamp) >= 100_000_000
  }

  /** The clock never goes back. */
  ghost predicate ForwardRun(watchdog: bool, s: State, actions: seq<Action>)
    requires Run(watchdog, s, actions)
    decreases |actions|
  {
    actions == [] ||
    (Forward(s, actions[0]) && ForwardRun(watchdog, Apply(watchdog, s, actions[0]), actions[1..]))
  }

  predicate Forward(s: State, a: Action) {
    a.Tick? ==> Nanoseconds(s.now) <= Nanoseconds(a.time)
  }

  /** The queue is in the order of time, up to now. */
  ghost predicate TimeOrdered(s: State) {
    OrderedUpTo(s.queue, s.now)
  }

  ghost predicate OrderedUpTo(q: seq<Entry>, now: Timespec) {
    Monotone(q) && forall i :: 0 <= i < |q| ==> Nanoseconds(q[i].timestamp) <= Nanoseconds(now)
  }

  lemma OrderedPush(q: seq<Entry>, now: Timespec, fd: int)
    requires OrderedUpTo(q, now)
    ensures OrderedUpTo([Entry(fd, now)] + q, now)
  {
  }

  lemma OrderedPrefix(q: seq<Entry>, now: Timespec, k: nat)
    requires OrderedUpTo(q, now) && k <= |q|
    ensures OrderedUpTo(q[..k], now)
  {
  }

  lemma OrderedWithout(q: seq<Entry>, now: Timespec, i: nat)
    requires OrderedUpTo(q, now) && i < |q|
    ensures OrderedUpTo(Without(q, i), now)
  {
    var r := Without(q, i);
    assert forall j :: 0 <= j < |r| ==> r[j] == q[if j < i then j else j + 1];
  }

  /** What a step does to the queue: push, remove one, or a timeout pass. */
  lemma QueueSteps(watchdog: bool, s: State, a: Action)
    requires Enabled(watchdog, s, a) && !a.TimeoutPop?
    ensures var q := Apply(watchdog, s, a).queue;
            || q == s.queue
            || (exists fd :: q == [Entry(fd, s.now)] + s.queue)
            || (exists i: nat :: i < |s.queue| && q == Without(s.queue, i))
  {
  }

  lemma StepTimeOrdered(watchdog: bool, s: State, a: Action)
    requires Inv(watchdog, s) && Enabled(watchdog, s, a) && TimeOrdered(s) && Forward(s, a)
    ensures TimeOrdered(Apply(watchdog, s, a))
  {
    var q := Apply(watchdog, s, a).queue;
    if a.TimeoutPop? {
      StampArithmetic(s.now, TIMEOUT);
      MonotonePassIsSuffix(s.queue, Sub(s.now, TIMEOUT), N_FD);
      OrderedPrefix(s.queue, s.now, |q|);
    } else if !a.Tick? {
      QueueSteps(watchdog, s, a);
      if fd :| q == [Entry(fd, s.now)] + s.queue {
        OrderedPush(s.queue, s.now, fd);
      } else if i: nat :| i < |s.queue| && q == Without(s.queue, i) {
        OrderedWithout(s.queue, s.now, i);
      }
    }
  }

  lemma {:induction false} RunTimeOrdered(watchdog: bool, s: State, actions: seq<Action>)
    requires Inv(watchdog, s) && TimeOrdered(s) && Run(watchdog, s, actions) && ForwardRun(watchdog, s, actions)
    ensures TimeOrdered(End(watchdog, s, actions))
    decreases |actions|
  {
    if actions != [] {
      StepTimeOrdered(watchdog, s, actions[0]);
      StepInv(watchdog, s, actions[0]);
      RunTimeOrdered(watchdog, Apply(watchdog, s, actions[0]), actions[1..]);
    }
  }

  /** In a run whose clock never goes back a timeout pass cuts a suffix of the queue, and answers it oldest first. */
  lemma TimeoutTakesSuffix(actions: seq<Action>)
    requires Run(true, INITIAL, actions) && ForwardRun(true, INITIAL, actions)
    ensures var s := End(true, INITIAL, actions);
            var r := TakeExpired(s.queue, Sub(s.now, TIMEOUT), N_FD);
            r.1 == s.queue[..|r.1|] && r.0 == Reverse(s.queue[|r.1|..])
  {
    ReachableInv(true, actions);
    InitialInv(true);
    RunTimeOrdered(true, INITIAL, actions);
    var s := End(true, INITIAL, actions);
    StampArithmetic(s.now, TIMEOUT);
    MonotonePassIsSuffix(s.queue, Sub(s.now, TIMEOUT), N_FD);
  }

  // ---------------------------------------------------------------------
  // What reuse can do
  // ---------------------------------------------------------------------

  const Z := Timespec(0, 0)
  const LATE := Timespec(1, 0)
  const B1 := [Event(1, 7, false)]
  const B2 := [Event(2, 7, false)]
  const E1 := Entry(7, Z)
  const E2 := Entry(7, LATE)
  const A1 := Response(7, Some(1), Allow, ByTimeout)
  const A2 := Response(7, Some(2), Allow, ByHandler(1))

  /** The states and actions of such a run. */
  function ReuseState(i: nat): State {
    match i
    case 0 => INITIAL
    case 1 => State(Pass1(B1, 0), map[], [], [], map[7 := 1], map[1 := 7], [], Z)
    case 2 => State(Pass1(B1, 1), map[], [E1], [], map[7 := 1], map[1 := 7], [], Z)
    case 3 => State(Pass2(B1, 0), map[], [E1], [], map[7 := 1], map[1 := 7], [], Z)
    case 4 => State(Pass2(B1, 1), map[1 := Scanning(7)], [E1], [], map[7 := 1], map[1 := 7], [], Z)
    case 5 => State(Waiting, map[1 := Scanning(7)], [E1], [], map[7 := 1], map[1 := 7], [], Z)
    case 6 => State(Waiting, map[1 := Claim(7, Allow)], [E1], [], map[7 := 1], map[1 := 7], [], Z)
    case 7 => State(Waiting, map[1 := Claim(7, Allow)], [E1], [], map[7 := 1], map[1 := 7], [], LATE)
    case 8 => State(Waiting, map[1 := Claim(7, Allow)], [], [7], map[7 := 1], map[1 := 7], [], LATE)
    case 9 => State(Waiting, map[1 := Claim(7, Allow)], [], [], map[], map[1 := 7], [A1], LATE)
    case 10 => State(Pass1(B2, 0), map[1 := Claim(7, Allow)], [], [], map[7 := 2], map[1 := 7, 2 := 7], [A1], LATE)
    case 11 => State(Pass1(B2, 1), map[1 := Claim(7, Allow)], [E2], [], map[7 := 2], map[1 := 7, 2 := 7], [A1], LATE)
    case 12 => State(Pass1(B2, 1), map[1 := Respond(7, Allow)], [], [], map[7 := 2], map[1 := 7, 2 := 7], [A1], LATE)
    case _ => State(Pass1(B2, 1), map[], [], [], map[], map[1 := 7, 2 := 7], [A1, A2], LATE)
  }

  function ReuseAction(i: nat): Action {
    match i
    case 0 => Deliver(B1)
    case 1 => FirstPass
    case 2 => FirstPassEnd
    case 3 => StartScan
    case 4 => SecondPassEnd
    case 5 => Scanned(1, Allow)
    case 6 => Tick(LATE)
    case 7 => TimeoutPop
    case 8 => TimeoutAnswer
    case 9 => Deliver(B2)
    case 10 => FirstPass
    case 11 => TaskClaim(1)
    case _ => TaskAnswer(1)
  }

  lemma BatchMaps()
    ensures OpenedBy(B1) == map[7 := 1] && DeliveredBy(B1) == map[1 := 7]
    ensures OpenedBy(B2) == map[7 := 2] && DeliveredBy(B2) == map[2 := 7]
  {
    assert B1[..0] == [] && B2[..0] == [];
  }

  lemma TakeOne(e: Entry, before: Timespec, n: nat)
    requires Expired(e, before) && n > 0
    ensures TakeExpired([e], before, n) == ([e], [])
  {
    assert [e][..0] == [] && [e] + [] == [e];
  }

  lemma ReuseTimeout()
    ensures TakeExpired([E1], Sub(LATE, TIMEOUT), N_FD) == ([E1], [])
    ensures FdsOf([E1]) == [7]
  {
    assert Sub(LATE, TIMEOUT) == Timespec(0, 900_000_000);
    TakeOne(E1, Sub(LATE, TIMEOUT), N_FD);
  }

  predicate ReuseStepOK(i: nat) {
    && Enabled(true, ReuseState(i), ReuseAction(i))
    && Apply(true, ReuseState(i), ReuseAction(i)) == ReuseState(i + 1)
  }

  lemma ReuseStepsFirst()
    ensures ReuseStepOK(0) && ReuseStepOK(1) && ReuseStepOK(2) && ReuseStepOK(3) && ReuseStepOK(4)
  {
    BatchMaps();
  }

  lemma ReuseStepsTimeout()
    ensures ReuseStepOK(5) && ReuseStepOK(6) && ReuseStepOK(7) && ReuseStepOK(8)
  {
    ReuseTimeout();
    assert [7][1..] == [];
  }

  lemma ReuseStepsNext()
    ensures ReuseStepOK(9)
  {
    BatchMaps();
    assert map[1 := 7] + map[2 := 7] == map[1 := 7, 2 := 7];
  }

  lemma ReuseStepsQueued()
    ensures ReuseStepOK(10)
  {
  }

  lemma ReuseStepsLast()
    ensures ReuseStepOK(11) && ReuseStepOK(12)
  {
    assert FdIndex([E2], 7) == 0 && Without([E2], 0) == [];
  }

  lemma ReuseStep(i: nat)
    requires i < 13
    ensures ReuseStepOK(i)
  {
    if i < 5 {
      ReuseStepsFirst();
    } else if i < 9 {
      ReuseStepsTimeout();
    } else if i < 11 {
      ReuseStepsNext();
      ReuseStepsQueued();
    } else {
      ReuseStepsLast();
    }
  }

  lemma {:induction false} StatesAreRun(watchdog: bool, states: seq<State>, actions: seq<Action>)
    requires |states| == |actions| + 1
    requires forall i :: 0 <= i < |actions| ==>
               Enabled(watchdog, states[i], actions[i]) && Apply(watchdog, states[i], actions[i]) == states[i + 1]
    ensures Run(watchdog, states[0], actions) && End(watchdog, states[0], actions) == states[|actions|]
    decreases |actions|
  {
    if actions != [] {
      StatesAreRun(watchdog, states[1..], actions[1..]);
    }
  }

  lemma ReuseIsRun(states: seq<State>, actions: seq<Action>)
    requires |states| == 14 && |actions| == 13
    requires forall i :: 0 <= i < 14 ==> states[i] == ReuseState(i)
    requires forall i :: 0 <= i < 13 ==> actions[i] == ReuseAction(i)
    ensures Run(true, states[0], actions) && End(true, states[0], actions) == states[13]
  {
    forall i | 0 <= i < 13
      ensures Enabled(true, states[i], actions[i]) && Apply(true, states[i], actions[i]) == states[i + 1]
    {
      ReuseStep(i);
    }
    StatesAreRun(true, states, actions);
  }

  /**
    With the watchdog, a run in which event 1 times out while it is being
    scanned, event 2 is delivered on its descriptor, and the scan of event 1
    then answers event 2.
   */
  lemma ReuseMisdirects(actions: seq<Action>)
    requires |actions| == 13 && forall i :: 0 <= i < 13 ==> actions[i] == ReuseAction(i)
    ensures Run(true, INITIAL, actions)
    ensures End(true, INITIAL, actions).answers == [A1, A2]
    ensures !Faithful(End(true, INITIAL, actions))
  {
    var states := seq(14, i requires 0 <= i < 14 => ReuseState(i));
    ReuseIsRun(states, actions);
    assert End(true, INITIAL, actions).answers[1] == A2;
  }

}

/**
  The threads of the permission protocol finish: left to themselves, without new
  events, every run ends, and at its end each event has its answer.
 */
module PermissionLiveness {
  import opened Wrappers
  import opened Stamp
  import opened QueueSpec
  import opened Permission
  import opened PermissionSafety
  import opened PermissionSteps
  import opened PermissionTheorems

  /** The steps that answer no need: new events, the clock, and the timeout thread finding nothing that is late. */
  predicate Idle(s: State, a: Action) {
    a.Deliver? || a.Tick? || (a.TimeoutPop? && TakeExpired(s.queue, Sub(s.now, TIMEOUT), N_FD).0 == [])
  }

  predicate NoDelivery(actions: seq<Action>) {
    forall i :: 0 <= i < |actions| ==> !actions[i].Deliver?
  }

  /** The number of busy steps in a run. */
  ghost function BusySteps(watchdog: bool, s: State, actions: seq<Action>): nat
    requires Run(watchdog, s, actions)
    decreases |actions|
  {
    if actions == [] then 0
    else (if Idle(s, actions[0]) then 0 else 1) + BusySteps(watchdog, Apply(watchdog, s, actions[0]), actions[1..])
  }

  /** No thread has anything left to do but to wait. */
  ghost predicate AtRest(watchdog: bool, s: State) {
    forall a :: Enabled(watchdog, s, a) ==> Idle(s, a)
  }

  function MonitorWork(m: Monitor): int {
    match m
    case Waiting => 0
    case Pass1(b, k) => 2 + 5 * |b| + 3 * (|b| - k)
    case Pass2(b, k) => 1 + 5 * (|b| - k)
    case Claiming(b, k) => 5 * (|b| - k)
    case Answering(b, k) => 5 * (|b| - k) - 1
  }

  /** A scan has three steps, a claim two, and an answer one. */
  ghost function TaskWork(tasks: map<nat, Task>): nat {
    |tasks.Keys| + |Unclaimed(tasks)| + |Unfinished(tasks)|
  }

  ghost function Unclaimed(tasks: map<nat, Task>): set<nat> {
    set id | id in tasks && !tasks[id].Respond?
  }

  ghost function Unfinished(tasks: map<nat, Task>): set<nat> {
    set id | id in tasks && tasks[id].Scanning?
  }

  ghost function Work(s: State): int {
    MonitorWork(s.monitor) + TaskWork(s.tasks) + |s.timeouts| + 2 * |s.queue|
  }

  lemma WorkNatural(watchdog: bool, s: State)
    requires Inv(watchdog, s)
    ensures MonitorWork(s.monitor) >= 0 && Work(s) >= 0
  {
  }

  lemma TaskAdded(tasks: map<nat, Task>, id: nat, fd: int)
    ensures TaskWork(tasks[id := Scanning(fd)]) <= TaskWork(tasks) + 3
  {
    var t := tasks[id := Scanning(fd)];
    assert t.Keys == tasks.Keys + {id};
    assert Unclaimed(t) == Unclaimed(tasks) + {id};
    assert Unfinished(t) == Unfinished(tasks) + {id};
  }

  lemma TaskScanned(tasks: map<nat, Task>, id: nat, v: Verdict)
    requires id in tasks && tasks[id].Scanning?
    ensures TaskWork(tasks[id := Claim(tasks[id].fd, v)]) < TaskWork(tasks)
  {
    var t := tasks[id := Claim(tasks[id].fd, v)];
    assert t.Keys == tasks.Keys;
    assert Unclaimed(t) == Unclaimed(tasks);
    assert Unfinished(t) == Unfinished(tasks) - {id};
  }

  lemma TaskClaimed(tasks: map<nat, Task>, id: nat)
    requires id in tasks && tasks[id].Claim?
    ensures TaskWork(tasks[id := Respond(tasks[id].fd, tasks[id].verdict)]) < TaskWork(tasks)
  {
    var t := tasks[id := Respond(tasks[id].fd, tasks[id].verdict)];
    assert t.Keys == tasks.Keys;
    assert Unclaimed(t) == Unclaimed(tasks) - {id};
    assert Unfinished(t) == Unfinished(tasks);
  }

  lemma TaskRemoved(tasks: map<nat, Task>, id: nat)
    requires id in tasks && !tasks[id].Scanning?
    ensures TaskWork(tasks - {id}) < TaskWork(tasks)
  {
    var t := tasks - {id};
    assert t.Keys == tasks.Keys - {id};
    assert Unclaimed(t) == Unclaimed(tasks) - {id};
    assert Unfinished(t) == Unfinished(tasks);
  }

  lemma ScanDrops(watchdog: bool, s: State)
    requires Enabled(watchdog, s, StartScan)
    ensures Work(Apply(watchdog, s, StartScan)) < Work(s)
  {
    TaskAdded(s.tasks, s.monitor.batch[s.monitor.k].id, s.monitor.batch[s.monitor.k].fd);
  }

  lemma TaskDrops(watchdog: bool, s: State, a: Action)
    requires Enabled(watchdog, s, a) && (a.Scanned? || a.TaskClaim? || a.TaskAnswer?)
    ensures Work(Apply(watchdog, s, a)) < Work(s)
  {
    match a
    case Scanned(id, v) => TaskScanned(s.tasks, id, v);
    case TaskClaim(id) =>
      TaskClaimed(s.tasks, id);
      TaskRemoved(s.tasks, id);
    case TaskAnswer(id) => TaskRemoved(s.tasks, id);
  }

  lemma MonitorDrops(watchdog: bool, s: State, a: Action)
    requires Enabled(watchdog, s, a) && BatchOK(s)
    requires !Idle(s, a) && !a.StartScan? && !a.Scanned? && !a.TaskClaim? && !a.TaskAnswer? && !a.TimeoutPop? && !a.TimeoutAnswer?
    ensures var t := Apply(watchdog, s, a);
            && t.tasks == s.tasks && t.timeouts == s.timeouts
            && MonitorWork(t.monitor) + 2 * |t.queue| < MonitorWork(s.monitor) + 2 * |s.queue|
  {
  }

  /** Taking late entries from the queue is work done, too. */
  lemma PopDrops(s: State)
    requires Enabled(true, s, TimeoutPop) && !Idle(s, TimeoutPop)
    ensures Work(Apply(true, s, TimeoutPop)) < Work(s)
  {
  }

  /** Every busy step leaves less to do. */
  lemma WorkDrops(watchdog: bool, s: State, a: Action)
    requires Inv(watchdog, s) && Enabled(watchdog, s, a) && !Idle(s, a)
    ensures Work(Apply(watchdog, s, a)) < Work(s)
  {
    match a
    case StartScan => ScanDrops(watchdog, s);
    case Scanned(_, _) => TaskDrops(watchdog, s, a);
    case TaskClaim(_) => TaskDrops(watchdog, s, a);
    case TaskAnswer(_) => TaskDrops(watchdog, s, a);
    case TimeoutPop => PopDrops(s);
    case TimeoutAnswer =>
    case _ => MonitorDrops(watchdog, s, a);
  }

  /** The clock, and a look at the queue that finds nothing, make no new work. */
  lemma IdleKeepsWork(watchdog: bool, s: State, a: Action)
    requires Enabled(watchdog, s, a) && Idle(s, a) && !a.Deliver?
    ensures Work(Apply(watchdog, s, a)) == Work(s)
  {
  }

  /** As long as a thread has something to do, some busy step is enabled. */
  lemma NotStuck(watchdog: bool, s: State) returns (a: Action)
    requires Inv(watchdog, s) && !Quiescent(s)
    ensures Enabled(watchdog, s, a) && !Idle(s, a)
  {
    if s.timeouts != [] {
      a := TimeoutAnswer;
    } else if s.tasks != map[] {
      var id :| id in s.tasks;
      a := match s.tasks[id]
        case Scanning(_) => Scanned(id, Allow)
        case Claim(_, _) => TaskClaim(id)
        case Respond(_, _) => TaskAnswer(id);
    } else {
      match s.monitor
      case Pass1(b, k) => a := if k < |b| then FirstPass else FirstPassEnd;
      case Pass2(b, k) => a := if k == |b| then SecondPassEnd else if b[k].own then SkipOwn else StartScan;
      case Claiming(_, _) => a := MonitorClaim;
      case Answering(_, _) => a := MonitorAnswer;
    }
  }

  /**
    In a run without new events, whatever the clock and the timeout thread do,
    there are no more busy steps than there was work; and a run that leaves
    none to take has come to the end of all threads' work.
   */
  lemma {:induction false} BusyRunsEnd(watchdog: bool, s: State, actions: seq<Action>)
    requires Inv(watchdog, s) && Run(watchdog, s, actions) && NoDelivery(actions)
    ensures BusySteps(watchdog, s, actions) <= Work(s)
    ensures AtRest(watchdog, End(watchdog, s, actions)) ==> Quiescent(End(watchdog, s, actions))
    decreases |actions|
  {
    if actions == [] {
      WorkNatural(watchdog, s);
      if !Quiescent(s) {
        var a := NotStuck(watchdog, s);
      }
    } else {
      var a := actions[0];
      StepInv(watchdog, s, a);
      if Idle(s, a) {
        IdleKeepsWork(watchdog, s, a);
      } else {
        WorkDrops(watchdog, s, a);
      }
      BusyRunsEnd(watchdog, Apply(watchdog, s, a), actions[1..]);
    }
  }

  /** From every reachable state some run of busy steps leads to rest. */
  lemma {:induction false} ComesToRest(watchdog: bool, s: State) returns (actions: seq<Action>)
    requires Inv(watchdog, s)
    ensures Run(watchdog, s, actions) && BusySteps(watchdog, s, actions) == |actions|
    ensures Quiescent(End(watchdog, s, actions))
    decreases Work(s)
  {
    WorkNatural(watchdog, s);
    if Quiescent(s) {
      actions := [];
    } else {
      var a := NotStuck(watchdog, s);
      var t := Apply(watchdog, s, a);
      StepInv(watchdog, s, a);
      WorkDrops(watchdog, s, a);
      WorkNatural(watchdog, t);
      var rest := ComesToRest(watchdog, t);
      actions := [a] + rest;
      assert actions[1..] == rest;
    }
  }

  /** Every run that leaves no busy step to take has answered every event it delivered, exactly once. */
  lemma EveryEventIsAnswered(watchdog: bool, actions: seq<Action>)
    requires Run(watchdog, INITIAL, actions) && AtRest(watchdog, End(watchdog, INITIAL, actions))
    ensures var s := End(watchdog, INITIAL, actions);
            && s.queue == [] && s.open == map[]
            && AnsweredIds(s.answers) == s.delivered.Keys && |s.answers| == |s.delivered|
  {
    ReachableInv(watchdog, actions);
    if !Quiescent(End(watchdog, INITIAL, actions)) {
      var a := NotStuck(watchdog, End(watchdog, INITIAL, actions));
    }
    AnsweredExactlyOnce(watchdog, actions);
  }

  /** After the last delivery the threads take at most as many busy steps as there is work. */
  lemma ThreadsFinish(watchdog: bool, actions: seq<Action>, more: seq<Action>)
    requires Run(watchdog, INITIAL, actions) && Run(watchdog, INITIAL, actions + more) && NoDelivery(more)
    ensures var s := End(watchdog, INITIAL, actions);
            Run(watchdog, s, more) && BusySteps(watchdog, s, more) <= Work(s)
  {
    ReachableInv(watchdog, actions);
    RunSplit(watchdog, INITIAL, actions, more);
    BusyRunsEnd(watchdog, End(watchdog, INITIAL, actions), more);
  }

  lemma {:induction false} RunSplit(watchdog: bool, s: State, actions: seq<Action>, more: seq<Action>)
    requires Run(watchdog, s, actions) && Run(watchdog, s, actions + more)
    ensures Run(watchdog, End(watchdog, s, actions), more)
    ensures End(watchdog, End(watchdog, s, actions), more) == End(watchdog, s, actions + more)
    decreases |actions|
  {
    if actions == [] {
      assert actions + more == more;
    } else {
      assert (actions + more)[0] == actions[0] && (actions + more)[1..] == actions[1..] + more;
      RunSplit(watchdog, Apply(watchdog, s, actions[0]), actions[1..], more);
    }
  }

}

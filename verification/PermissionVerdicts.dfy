/**
  The verdicts of the permission protocol: which events are denied, in terms of
  the scans that a run has completed.
 */
module PermissionVerdicts {
  import opened Wrappers
  import opened QueueSpec
  import opened Permission
  import opened PermissionSafety
  import opened PermissionSteps
  import opened PermissionTheorems

  /** The scan of event id has ended with this verdict. */
  ghost predicate ScannedAs(past: seq<Action>, id: nat, v: Verdict) {
    exists i :: 0 <= i < |past| && past[i] == Scanned(id, v)
  }

  ghost predicate Denied(log: seq<Response>, id: nat) {
    exists n :: 0 <= n < |log| && log[n].target == Some(id) && log[n].verdict == Deny
  }

  ghost predicate HandlerAnswered(log: seq<Response>, id: nat) {
    exists n :: 0 <= n < |log| && log[n].author == ByHandler(id)
  }

  /** The monitor is past event id. */
  ghost predicate Passed(s: State, id: nat) {
    && id in s.delivered
    && forall j :: 0 <= j < |Batch(s.monitor)| && Unhandled(s.monitor, j) ==> Batch(s.monitor)[j].id != id
  }

  /** A scan that has ended is not repeated, and its task has its verdict. */
  ghost predicate ScansOK(past: seq<Action>, s: State) {
    && (forall id :: id in s.tasks && !s.tasks[id].Scanning? ==> ScannedAs(past, id, s.tasks[id].verdict))
    && (forall id, v :: ScannedAs(past, id, v) ==>
          Passed(s, id) && (id in s.tasks ==> !s.tasks[id].Scanning? && s.tasks[id].verdict == v))
  }

  /** Only a scan denies; an event that its handler has answered has the verdict of its scan, and no scan to come. */
  ghost predicate VerdictsOK(past: seq<Action>, s: State) {
    forall n :: 0 <= n < |s.answers| ==> AnswerOK(past, s, s.answers[n])
  }

  ghost predicate AnswerOK(past: seq<Action>, s: State, r: Response) {
    && (r.verdict == Deny ==> r.author.ByHandler? && ScannedAs(past, r.author.id, Deny))
    && (r.author.ByHandler? ==> Passed(s, r.author.id) && r.author.id !in s.tasks
                                && forall v :: ScannedAs(past, r.author.id, v) ==> v == r.verdict)
  }

  /** Without the watchdog, a scan that has ended answers, or is about to. */
  ghost predicate EndsOK(watchdog: bool, past: seq<Action>, s: State) {
    !watchdog ==> forall id, v :: ScannedAs(past, id, v) ==> id in s.tasks || HandlerAnswered(s.answers, id)
  }

  ghost predicate HistoryOK(watchdog: bool, past: seq<Action>, s: State) {
    ScansOK(past, s) && VerdictsOK(past, s) && EndsOK(watchdog, past, s)
  }

  lemma ScannedMore(past: seq<Action>, a: Action, id: nat, v: Verdict)
    ensures ScannedAs(past + [a], id, v) <==> ScannedAs(past, id, v) || a == Scanned(id, v)
  {
    if ScannedAs(past, id, v) {
      var i :| 0 <= i < |past| && past[i] == Scanned(id, v);
      assert (past + [a])[i] == past[i];
    }
    if a == Scanned(id, v) {
      assert (past + [a])[|past|] == a;
    }
  }

  lemma StaysPassed(watchdog: bool, s: State, a: Action, id: nat)
    requires Enabled(watchdog, s, a) && Passed(s, id)
    ensures Passed(Apply(watchdog, s, a), id)
  {
    var t := Apply(watchdog, s, a);
    forall j | 0 <= j < |Batch(t.monitor)| && Unhandled(t.monitor, j) ensures Batch(t.monitor)[j].id != id {
      if a.Deliver? {
        assert a.events[j].id !in s.delivered;
      } else {
        assert Batch(t.monitor) == Batch(s.monitor) && Unhandled(s.monitor, j);
      }
    }
  }

  /** A handled event passes. */
  lemma BecomesPassed(watchdog: bool, s: State, a: Action)
    requires Inv(watchdog, s) && Enabled(watchdog, s, a) && (a.StartScan? || a.MonitorAnswer?)
    ensures Passed(Apply(watchdog, s, a), s.monitor.batch[s.monitor.k].id)
  {
  }

  /** The events with a task are past the monitor. */
  lemma TaskPassed(watchdog: bool, s: State, id: nat)
    requires Inv(watchdog, s) && id in s.tasks
    ensures Passed(s, id)
  {
  }

  lemma KeepTasks(watchdog: bool, past: seq<Action>, s: State, a: Action)
    requires Enabled(watchdog, s, a) && ScansOK(past, s)
    ensures forall id :: id in Apply(watchdog, s, a).tasks && !Apply(watchdog, s, a).tasks[id].Scanning? ==>
                           ScannedAs(past + [a], id, Apply(watchdog, s, a).tasks[id].verdict)
  {
    var t := Apply(watchdog, s, a);
    forall id | id in t.tasks && !t.tasks[id].Scanning? ensures ScannedAs(past + [a], id, t.tasks[id].verdict) {
      ScannedMore(past, a, id, t.tasks[id].verdict);
      if a != Scanned(id, t.tasks[id].verdict) {
        assert id in s.tasks && !s.tasks[id].Scanning? && s.tasks[id].verdict == t.tasks[id].verdict;
      }
    }
  }

  /** The task of a scan that has ended keeps its verdict: no second scan is started. */
  lemma KeepTask(watchdog: bool, s: State, a: Action, id: nat, v: Verdict)
    requires Enabled(watchdog, s, a) && Passed(s, id)
    requires id in s.tasks ==> !s.tasks[id].Scanning? && s.tasks[id].verdict == v
    ensures var t := Apply(watchdog, s, a).tasks; id in t ==> !t[id].Scanning? && t[id].verdict == v
  {
    if a.StartScan? {
      assert s.monitor.batch[s.monitor.k].id != id by {
        assert Unhandled(s.monitor, s.monitor.k);
      }
    }
  }

  lemma KeepScans(watchdog: bool, past: seq<Action>, s: State, a: Action)
    requires Inv(watchdog, s) && Enabled(watchdog, s, a) && ScansOK(past, s)
    ensures ScansOK(past + [a], Apply(watchdog, s, a))
  {
    var t := Apply(watchdog, s, a);
    KeepTasks(watchdog, past, s, a);
    forall id, v | ScannedAs(past + [a], id, v)
      ensures Passed(t, id) && (id in t.tasks ==> !t.tasks[id].Scanning? && t.tasks[id].verdict == v)
    {
      ScannedMore(past, a, id, v);
      if a == Scanned(id, v) {
        TaskPassed(watchdog, s, id);
      } else {
        KeepTask(watchdog, s, a, id, v);
      }
      StaysPassed(watchdog, s, a, id);
    }
  }

  lemma KeepAnswer(watchdog: bool, past: seq<Action>, s: State, a: Action, r: Response)
    requires Inv(watchdog, s) && Enabled(watchdog, s, a) && AnswerOK(past, s, r)
    ensures AnswerOK(past + [a], Apply(watchdog, s, a), r)
  {
    if r.author.ByHandler? {
      var id := r.author.id;
      ScannedMore(past, a, id, Deny);
      ScannedMore(past, a, id, Allow);
      StaysPassed(watchdog, s, a, id);
    }
  }

  /** What a step adds to the answers. */
  lemma NewAnswer(watchdog: bool, past: seq<Action>, s: State, a: Action)
    requires Inv(watchdog, s) && Enabled(watchdog, s, a) && ScansOK(past, s)
    ensures var t := Apply(watchdog, s, a);
            t.answers == s.answers
            || (|t.answers| == |s.answers| + 1 && t.answers[..|s.answers|] == s.answers
                && AnswerOK(past + [a], t, t.answers[|s.answers|]))
  {
    match a
    case TaskAnswer(id) => TaskAnswerOK(watchdog, past, s, id);
    case MonitorAnswer => MonitorAnswerOK(watchdog, past, s);
    case _ =>
  }

  lemma TaskAnswerOK(watchdog: bool, past: seq<Action>, s: State, id: nat)
    requires Inv(watchdog, s) && Enabled(watchdog, s, TaskAnswer(id)) && ScansOK(past, s)
    ensures var t := Apply(watchdog, s, TaskAnswer(id));
            && |t.answers| == |s.answers| + 1 && t.answers[..|s.answers|] == s.answers
            && AnswerOK(past + [TaskAnswer(id)], t, t.answers[|s.answers|])
  {
    var a := TaskAnswer(id);
    ScannedMore(past, a, id, Deny);
    ScannedMore(past, a, id, Allow);
    TaskPassed(watchdog, s, id);
    StaysPassed(watchdog, s, a, id);
  }

  /** The monitor answers only events that are not scanned. */
  lemma MonitorAnswerOK(watchdog: bool, past: seq<Action>, s: State)
    requires Inv(watchdog, s) && Enabled(watchdog, s, MonitorAnswer) && ScansOK(past, s)
    ensures var t := Apply(watchdog, s, MonitorAnswer);
            && |t.answers| == |s.answers| + 1 && t.answers[..|s.answers|] == s.answers
            && AnswerOK(past + [MonitorAnswer], t, t.answers[|s.answers|])
  {
    var id := s.monitor.batch[s.monitor.k].id;
    ScannedMore(past, MonitorAnswer, id, Deny);
    ScannedMore(past, MonitorAnswer, id, Allow);
    BecomesPassed(watchdog, s, MonitorAnswer);
    assert Unhandled(s.monitor, s.monitor.k);
    assert !Passed(s, id);
  }

  lemma KeepVerdicts(watchdog: bool, past: seq<Action>, s: State, a: Action)
    requires Inv(watchdog, s) && Enabled(watchdog, s, a) && ScansOK(past, s) && VerdictsOK(past, s)
    ensures VerdictsOK(past + [a], Apply(watchdog, s, a))
  {
    var t := Apply(watchdog, s, a);
    NewAnswer(watchdog, past, s, a);
    forall n | 0 <= n < |t.answers| ensures AnswerOK(past + [a], t, t.answers[n]) {
      if n < |s.answers| {
        KeepAnswer(watchdog, past, s, a, s.answers[n]);
        assert t.answers[n] == s.answers[n];
      }
    }
  }

  lemma AnsweredStays(watchdog: bool, s: State, a: Action, id: nat)
    requires Enabled(watchdog, s, a)
    requires HandlerAnswered(s.answers, id) || (a == TaskAnswer(id))
    ensures HandlerAnswered(Apply(watchdog, s, a).answers, id)
  {
    var t := Apply(watchdog, s, a);
    if n :| 0 <= n < |s.answers| && s.answers[n].author == ByHandler(id) {
      assert t.answers[n] == s.answers[n];
    } else {
      assert t.answers[|s.answers|].author == ByHandler(id);
    }
  }

  lemma KeepEnds(watchdog: bool, past: seq<Action>, s: State, a: Action)
    requires Enabled(watchdog, s, a) && EndsOK(watchdog, past, s)
    ensures EndsOK(watchdog, past + [a], Apply(watchdog, s, a))
  {
    var t := Apply(watchdog, s, a);
    forall id, v | !watchdog && ScannedAs(past + [a], id, v) ensures id in t.tasks || HandlerAnswered(t.answers, id) {
      ScannedMore(past, a, id, v);
      if id !in t.tasks {
        AnsweredStays(watchdog, s, a, id);
      }
    }
  }

  /** Every run keeps the history of verdicts. */
  lemma {:induction false} RunHistory(watchdog: bool, past: seq<Action>, s: State, actions: seq<Action>)
    requires Inv(watchdog, s) && HistoryOK(watchdog, past, s) && Run(watchdog, s, actions)
    ensures HistoryOK(watchdog, past + actions, End(watchdog, s, actions))
    decreases |actions|
  {
    if actions == [] {
      assert past + actions == past;
    } else {
      var a := actions[0];
      KeepScans(watchdog, past, s, a);
      KeepVerdicts(watchdog, past, s, a);
      KeepEnds(watchdog, past, s, a);
      StepInv(watchdog, s, a);
      RunHistory(watchdog, past + [a], Apply(watchdog, s, a), actions[1..]);
      assert past + [a] + actions[1..] == past + actions;
    }
  }

  lemma History(watchdog: bool, actions: seq<Action>)
    requires Run(watchdog, INITIAL, actions)
    ensures HistoryOK(watchdog, actions, End(watchdog, INITIAL, actions))
  {
    InitialInv(watchdog);
    RunHistory(watchdog, [], INITIAL, actions);
    assert [] + actions == actions;
  }

  /** In any run an event is denied only by a scan that has found malware, whatever event that scan was of. */
  lemma OnlyScansDeny(watchdog: bool, actions: seq<Action>, n: nat)
    requires Run(watchdog, INITIAL, actions)
    requires var s := End(watchdog, INITIAL, actions); n < |s.answers| && s.answers[n].verdict == Deny
    ensures var r := End(watchdog, INITIAL, actions).answers[n];
            r.author.ByHandler? && ScannedAs(actions, r.author.id, Deny)
  {
    History(watchdog, actions);
    var s := End(watchdog, INITIAL, actions);
    assert AnswerOK(actions, s, s.answers[n]);
  }

  /**
    If the kernel reuses no descriptor that a scan refers to, an event is denied
    exactly if its scan has ended with that verdict and its handler, not the
    timeout, has answered it.
   */
  lemma DeniedExactly(watchdog: bool, actions: seq<Action>, id: nat)
    requires Run(watchdog, INITIAL, actions) && NoReuseRun(watchdog, INITIAL, actions)
    ensures var log := End(watchdog, INITIAL, actions).answers;
            Denied(log, id) <==> ScannedAs(actions, id, Deny) && HandlerAnswered(log, id)
  {
    var s := End(watchdog, INITIAL, actions);
    History(watchdog, actions);
    InitialInv(watchdog);
    FaithfulRun(watchdog, INITIAL, actions);
    if Denied(s.answers, id) {
      var n :| 0 <= n < |s.answers| && s.answers[n].target == Some(id) && s.answers[n].verdict == Deny;
      assert AnswerOK(actions, s, s.answers[n]);
    }
    if ScannedAs(actions, id, Deny) && HandlerAnswered(s.answers, id) {
      var n :| 0 <= n < |s.answers| && s.answers[n].author == ByHandler(id);
      assert AnswerOK(actions, s, s.answers[n]);
    }
  }

  /** As compiled, without the watchdog: each scan answers the event it has scanned, with its verdict. */
  lemma VerdictReachesItsEvent(actions: seq<Action>)
    requires Run(false, INITIAL, actions)
    ensures var s := End(false, INITIAL, actions);
            && Faithful(s)
            && forall n :: 0 <= n < |s.answers| && s.answers[n].author.ByHandler? ==>
                 forall v :: ScannedAs(actions, s.answers[n].author.id, v) ==> s.answers[n].verdict == v
  {
    InitialInv(false);
    PlainNeverReuses(INITIAL, actions);
    FaithfulRun(false, INITIAL, actions);
    History(false, actions);
    var s := End(false, INITIAL, actions);
    assert forall n :: 0 <= n < |s.answers| ==> AnswerOK(actions, s, s.answers[n]);
  }

  /** As compiled, without the watchdog, when all threads have finished: an event is denied exactly if its scan found malware. */
  lemma MalwareIsDenied(actions: seq<Action>, id: nat)
    requires Run(false, INITIAL, actions) && Quiescent(End(false, INITIAL, actions))
    ensures Denied(End(false, INITIAL, actions).answers, id) <==> ScannedAs(actions, id, Deny)
  {
    InitialInv(false);
    PlainNeverReuses(INITIAL, actions);
    History(false, actions);
    DeniedExactly(false, actions, id);
  }

}

/**
  The code of the three kinds of threads of the on-access protection, on the heap
  queue (watchdog.c, response.c, famonitor.c in
  libcore/arch/linux/builtin-modules/on-access).  Every method is one or more
  steps of the protocol of module Permission, taken without interruption.
 */
module Watchdog {
  import opened Wrappers
  import opened Stamp
  import opened QueueSpec
  import opened Permission
  import Q = Queue

  /** Some run of the protocol leads from s to t. */
  ghost predicate Leads(watchdog: bool, s: State, t: State) {
    exists actions :: Run(watchdog, s, actions) && End(watchdog, s, actions) == t
  }

  lemma LeadsNowhere(watchdog: bool, s: State)
    ensures Leads(watchdog, s, s)
  {
    assert Run(watchdog, s, []) && End(watchdog, s, []) == s;
  }

  lemma LeadsOn(watchdog: bool, s: State, t: State, a: Action)
    requires Leads(watchdog, s, t) && Enabled(watchdog, t, a)
    ensures Leads(watchdog, s, Apply(watchdog, t, a))
  {
    var actions :| Run(watchdog, s, actions) && End(watchdog, s, actions) == t;
    RunAnd(watchdog, s, actions, a);
    assert Run(watchdog, s, actions + [a]) && End(watchdog, s, actions + [a]) == Apply(watchdog, t, a);
  }

  lemma {:induction false} RunAnd(watchdog: bool, s: State, actions: seq<Action>, a: Action)
    requires Run(watchdog, s, actions) && Enabled(watchdog, End(watchdog, s, actions), a)
    ensures Run(watchdog, s, actions + [a])
    ensures End(watchdog, s, actions + [a]) == Apply(watchdog, End(watchdog, s, actions), a)
    decreases |actions|
  {
    if actions == [] {
      assert actions + [a] == [a] && [a][1..] == [];
    } else {
      assert (actions + [a])[0] == actions[0] && (actions + [a])[1..] == actions[1..] + [a];
      RunAnd(watchdog, Apply(watchdog, s, actions[0]), actions[1..], a);
    }
  }

  // The kernel's side: the answers it got, and the descriptors of unanswered events.
  class Kernel {
    var answers: seq<Response>
    var open: map<int, nat>

    constructor ()
      ensures answers == [] && open == map[]
    {
      answers, open := [], map[];
    }

    /** response_write: the answer is written and the descriptor is closed. */
    method ResponseWrite(fd: int, verdict: Verdict, author: Author)
      modifies this
      ensures answers == old(answers) + [Response(fd, if fd in old(open) then Some(old(open)[fd]) else None, verdict, author)]
      ensures open == old(open) - {fd}
    {
      answers := answers + [Response(fd, if fd in open then Some(open[fd]) else None, verdict, author)];
      open := open - {fd};
    }
  }

  class Watchdog {
    const enabled: bool       // whether it is compiled in
    const queue: Q.Queue

    constructor (enabled: bool)
      ensures this.enabled == enabled && fresh(queue) && queue.Valid() && queue.Contents() == [] && queue.repr == {}
    {
      this.enabled := enabled;
      queue := new Q.Queue();
    }

    method Add(fd: int, now: Timespec)
      requires queue.Valid()
      modifies queue, queue.repr
      ensures queue.Valid() && fresh(queue.repr - old(queue.repr))
      ensures queue.Contents() == if enabled then [Entry(fd, now)] + old(queue.Contents()) else old(queue.Contents())
    {
      if !enabled {
        return;
      }
      queue.Push(fd, now);
    }

    /** Whether the caller may answer; after is the age of the entry removed. */
    method Remove(fd: int, now: Timespec) returns (claimed: bool, after: Option<Timespec>)
      requires queue.Valid()
      modifies queue, queue.repr
      ensures queue.Valid() && queue.repr == old(queue.repr)
      ensures var q := old(queue.Contents());
              var i := FdIndex(q, fd);
              && claimed == (!enabled || i < |q|)
              && queue.Contents() == (if enabled && i < |q| then Without(q, i) else q)
              && after == (if enabled && i < |q| then Some(Sub(now, q[i].timestamp)) else None)
    {
      if !enabled {
        return true, None;
      }
      var popped := queue.PopFd(fd);
      if popped.None? {
        return false, None;
      }
      var cell := new StampCell(now);
      cell.StampSub(popped.value.timestamp);
      return true, Some(Timespec(cell.tv_sec, cell.tv_nsec));
    }
  }

  /** The queue and the kernel are as in the protocol's state s. */
  ghost predicate Shows(w: Watchdog, kernel: Kernel, s: State)
    reads w.queue, w.queue.repr, kernel
  {
    w.queue.Valid() && w.queue.Contents() == s.queue && kernel.answers == s.answers && kernel.open == s.open
  }

  predicate TimedOut(r: Response, fd: int) {
    r.fd == fd && r.verdict == Allow && r.author == ByTimeout
  }

  /** The timeout thread allows what it has popped. */
  method AnswerTimeouts(w: Watchdog, kernel: Kernel, fds: seq<int>, ghost s: State) returns (ghost t: State)
    requires Shows(w, kernel, s) && s.timeouts == fds
    modifies kernel
    ensures Shows(w, kernel, t) && Leads(w.enabled, s, t) && t.timeouts == []
    ensures |kernel.answers| == |s.answers| + |fds| && kernel.answers[..|s.answers|] == s.answers
    ensures forall i :: 0 <= i < |fds| ==> TimedOut(kernel.answers[|s.answers| + i], fds[i])
  {
    t := s;
    LeadsNowhere(w.enabled, s);
    for i := 0 to |fds|
      invariant Shows(w, kernel, t) && Leads(w.enabled, s, t) && t.timeouts == fds[i..]
      invariant |kernel.answers| == |s.answers| + i && kernel.answers[..|s.answers|] == s.answers
      invariant forall j :: 0 <= j < i ==> TimedOut(kernel.answers[|s.answers| + j], fds[j])
    {
      LeadsOn(w.enabled, s, t, TimeoutAnswer);
      t := Apply(w.enabled, t, TimeoutAnswer);
      assert fds[i..][1..] == fds[i + 1..];
      kernel.ResponseWrite(fds[i], Allow, ByTimeout);
    }
  }

  /** Takes the expired entries from the queue. */
  method PopTimedOut(w: Watchdog, kernel: Kernel, now: Timespec, ghost s: State) returns (entries: seq<Entry>, ghost t: State)
    requires w.enabled && Shows(w, kernel, s) && s.timeouts == [] && now == s.now
    modifies w.queue, w.queue.repr
    ensures Leads(true, s, t) && Shows(w, kernel, t) && t.timeouts == FdsOf(entries) && t.answers == s.answers
    ensures (entries, t.queue) == TakeExpired(s.queue, Sub(now, TIMEOUT), N_FD)
  {
    var before := new StampCell(now);
    before.StampSub(TIMEOUT);
    entries := w.queue.PopTimeout(Timespec(before.tv_sec, before.tv_nsec), N_FD);
    LeadsNowhere(true, s);
    LeadsOn(true, s, s, TimeoutPop);
    t := Apply(true, s, TimeoutPop);
  }

  /**
    One turn of the timeout thread's loop: the oldest expired events, at most
    N_FD, leave the queue and are allowed, the oldest first.
   */
  method TimeoutTurn(w: Watchdog, kernel: Kernel, now: Timespec, ghost s: State) returns (ghost popped: State, ghost t: State)
    requires w.enabled && Shows(w, kernel, s) && s.timeouts == [] && now == s.now
    modifies w.queue, w.queue.repr, kernel
    ensures Leads(true, s, popped) && Leads(true, popped, t) && Shows(w, kernel, t) && t.timeouts == []
    ensures popped.queue == TakeExpired(s.queue, Sub(now, TIMEOUT), N_FD).1 && popped.answers == s.answers
    ensures var taken := TakeExpired(s.queue, Sub(now, TIMEOUT), N_FD).0;
            && |kernel.answers| == |s.answers| + |taken|
            && forall i :: 0 <= i < |taken| ==> TimedOut(kernel.answers[|s.answers| + i], taken[i].fd)
  {
    var entries;
    entries, popped := PopTimedOut(w, kernel, now, s);
    t := AnswerTimeouts(w, kernel, FdsOf(entries), popped);
  }

  // ---------------------------------------------------------------------
  // The monitor thread
  // ---------------------------------------------------------------------

  /** The descriptors of the program's own events among the first k, in order. */
  function OwnFds(batch: seq<Event>, k: nat): seq<int>
    requires k <= |batch|
  {
    if k == 0 then [] else OwnFds(batch, k - 1) + (if batch[k - 1].own then [batch[k - 1].fd] else [])
  }

  /** The entries of the other events among the first k, the latest first. */
  function Pushed(batch: seq<Event>, times: seq<Timespec>, k: nat): seq<Entry>
    requires k <= |batch| == |times|
  {
    if k == 0 then []
    else (if batch[k - 1].own then [] else [Entry(batch[k - 1].fd, times[k - 1])]) + Pushed(batch, times, k - 1)
  }

  /** New answers follow the old ones, and allow these descriptors in order. */
  ghost predicate AllowedOwn(old_answers: seq<Response>, answers: seq<Response>, fds: seq<int>) {
    && |answers| == |old_answers| + |fds| && answers[..|old_answers|] == old_answers
    && forall i :: 0 <= i < |fds| ==>
         var r := answers[|old_answers| + i]; r.fd == fds[i] && r.verdict == Allow && r.author == ByPid
  }

  /** The protocol's two steps for one event of the first pass: the clock is read, and the event is treated. */
  ghost function AfterEvent(watchdog: bool, s: State, now: Timespec): State
    requires s.monitor.Pass1? && s.monitor.k < |s.monitor.batch| && Normalised(now)
  {
    Apply(watchdog, Apply(watchdog, s, Tick(now)), FirstPass)
  }

  lemma AfterEventIs(watchdog: bool, s: State, now: Timespec)
    requires s.monitor.Pass1? && s.monitor.k < |s.monitor.batch| && Normalised(now)
    ensures var t, e := AfterEvent(watchdog, s, now), s.monitor.batch[s.monitor.k];
            && t.monitor == Pass1(s.monitor.batch, s.monitor.k + 1)
            && t.answers == s.answers + OwnResponse(s, e)
            && t.open == (if e.own then s.open - {e.fd} else s.open)
            && t.queue == (if !e.own && watchdog then [Entry(e.fd, now)] + s.queue else s.queue)
  {
  }

  ghost function OwnResponse(s: State, e: Event): seq<Response> {
    if e.own then [Response(e.fd, if e.fd in s.open then Some(s.open[e.fd]) else None, Allow, ByPid)] else []
  }

  /** One event of the first pass. */
  method FirstPassEvent(w: Watchdog, kernel: Kernel, event: Event, now: Timespec, ghost s: State)
    requires Shows(w, kernel, s) && s.monitor.Pass1? && s.monitor.k < |s.monitor.batch|
    requires event == s.monitor.batch[s.monitor.k] && Normalised(now)
    modifies w.queue, w.queue.repr, kernel
    ensures fresh(w.queue.repr - old(w.queue.repr))
    ensures Shows(w, kernel, AfterEvent(w.enabled, s, now))
  {
    AfterEventIs(w.enabled, s, now);
    if event.own {
      kernel.ResponseWrite(event.fd, Allow, ByPid);
    } else {
      w.Add(event.fd, now);
    }
  }

  /** What the first pass has done after k events. */
  ghost predicate Passed(watchdog: bool, s: State, t: State, batch: seq<Event>, times: seq<Timespec>, k: nat)
    requires k <= |batch| == |times|
  {
    && Leads(watchdog, s, t) && t.monitor == Pass1(batch, k)
    && AllowedOwn(s.answers, t.answers, OwnFds(batch, k))
    && t.queue == (if watchdog then Pushed(batch, times, k) else []) + s.queue
  }

  lemma PassedFirst(watchdog: bool, s: State, batch: seq<Event>, times: seq<Timespec>)
    requires |batch| == |times| && s.monitor == Pass1(batch, 0)
    ensures Passed(watchdog, s, s, batch, times, 0)
  {
    LeadsNowhere(watchdog, s);
  }

  lemma PassedNext(watchdog: bool, s: State, t: State, batch: seq<Event>, times: seq<Timespec>, k: nat)
    requires k < |batch| == |times| && Passed(watchdog, s, t, batch, times, k) && Normalised(times[k])
    ensures Passed(watchdog, s, AfterEvent(watchdog, t, times[k]), batch, times, k + 1)
  {
    var u := AfterEvent(watchdog, t, times[k]);
    LeadsOn(watchdog, s, t, Tick(times[k]));
    LeadsOn(watchdog, s, Apply(watchdog, t, Tick(times[k])), FirstPass);
    AfterEventIs(watchdog, t, times[k]);
    AllowedMore(s.answers, t.answers, u.answers, OwnFds(batch, k), if batch[k].own then [batch[k].fd] else []);
    QueuedMore(watchdog, s.queue, t.queue, u.queue, batch, times, k);
  }

  lemma QueuedMore(watchdog: bool, a: seq<Entry>, b: seq<Entry>, c: seq<Entry>, batch: seq<Event>, times: seq<Timespec>, k: nat)
    requires k < |batch| == |times| && b == (if watchdog then Pushed(batch, times, k) else []) + a
    requires c == if !batch[k].own && watchdog then [Entry(batch[k].fd, times[k])] + b else b
    ensures c == (if watchdog then Pushed(batch, times, k + 1) else []) + a
  {
  }

  lemma AllowedMore(a: seq<Response>, b: seq<Response>, c: seq<Response>, fds: seq<int>, more: seq<int>)
    requires AllowedOwn(a, b, fds) && AllowedOwn(b, c, more)
    ensures AllowedOwn(a, c, fds + more)
  {
    forall i | 0 <= i < |fds + more|
      ensures var r := c[|a| + i]; r.fd == (fds + more)[i] && r.verdict == Allow && r.author == ByPid
    {
      if i < |fds| {
        assert c[|a| + i] == c[..|b|][|a| + i] == b[|a| + i];
      } else {
        assert c[|a| + i] == c[|b| + (i - |fds|)];
      }
    }
    assert c[..|a|] == c[..|b|][..|a|];
  }

  /**
    fanotify_pass_1: the program's own events are allowed, in order, and the
    others, and only they, are put under the watchdog at times[k].
   */
  method FanotifyPass1(w: Watchdog, kernel: Kernel, batch: seq<Event>, times: seq<Timespec>, ghost s: State)
      returns (ghost t: State)
    requires Shows(w, kernel, s) && s.monitor == Pass1(batch, 0)
    requires |times| == |batch| && forall k :: 0 <= k < |times| ==> Normalised(times[k])
    modifies w.queue, w.queue.repr, kernel
    ensures Shows(w, kernel, t) && Leads(w.enabled, s, t) && t.monitor == Pass1(batch, |batch|)
    ensures AllowedOwn(s.answers, kernel.answers, OwnFds(batch, |batch|))
    ensures w.queue.Contents() == (if w.enabled then Pushed(batch, times, |batch|) else []) + s.queue
  {
    t := s;
    PassedFirst(w.enabled, s, batch, times);
    for k := 0 to |batch|
      invariant Shows(w, kernel, t) && Passed(w.enabled, s, t, batch, times, k)
      invariant fresh(w.queue.repr - old(w.queue.repr))
    {
      t := FirstPassTurn(w, kernel, batch, times, k, s, t);
    }
  }

  /** One turn of the loop. */
  method FirstPassTurn(w: Watchdog, kernel: Kernel, batch: seq<Event>, times: seq<Timespec>, k: nat, ghost s: State, ghost t: State)
      returns (ghost u: State)
    requires k < |batch| == |times| && Normalised(times[k])
    requires Shows(w, kernel, t) && Passed(w.enabled, s, t, batch, times, k)
    modifies w.queue, w.queue.repr, kernel
    ensures fresh(w.queue.repr - old(w.queue.repr))
    ensures Shows(w, kernel, u) && Passed(w.enabled, s, u, batch, times, k + 1)
  {
    PassedNext(w.enabled, s, t, batch, times, k);
    FirstPassEvent(w, kernel, batch[k], times[k], t);
    u := AfterEvent(w.enabled, t, times[k]);
  }

  /** The entry that a claim of this descriptor takes. */
  predicate Claimable(w: Watchdog, s: State, fd: int) {
    !w.enabled || FdIndex(s.queue, fd) < |s.queue|
  }

  lemma LeadsToClaim(watchdog: bool, s: State)
    requires InPass2(s) && !s.monitor.batch[s.monitor.k].own
    ensures Leads(watchdog, s, Apply(watchdog, Apply(watchdog, s, DoNotScan), MonitorClaim))
  {
    LeadsNowhere(watchdog, s);
    LeadsOn(watchdog, s, s, DoNotScan);
    LeadsOn(watchdog, s, Apply(watchdog, s, DoNotScan), MonitorClaim);
  }

  /**
    The monitor's treatment of an event that is not to be scanned: it is allowed
    exactly if it can still be claimed.
   */
  method NotScanned(w: Watchdog, kernel: Kernel, event: Event, now: Timespec, ghost s: State) returns (ghost t: State)
    requires Shows(w, kernel, s) && now == s.now && InPass2(s) && !event.own && event == s.monitor.batch[s.monitor.k]
    modifies w.queue, w.queue.repr, kernel
    ensures Shows(w, kernel, t) && Leads(w.enabled, s, t)
    ensures t.monitor == Pass2(s.monitor.batch, s.monitor.k + 1)
    ensures if Claimable(w, s, event.fd) then AnswersOnce(s, t, event.fd, Allow, event.id) else t.answers == s.answers
  {
    LeadsToClaim(w.enabled, s);
    var claimed;
    claimed, t := ClaimInPass2(w, kernel, event, now, Apply(w.enabled, s, DoNotScan));
    if claimed {
      LeadsOn(w.enabled, s, t, MonitorAnswer);
      t := Apply(w.enabled, t, MonitorAnswer);
      kernel.ResponseWrite(event.fd, Allow, ByHandler(event.id));
    }
  }

  /** One more answer, to whatever event has the descriptor. */
  ghost predicate AnswersOnce(s: State, t: State, fd: int, verdict: Verdict, id: nat) {
    t.answers == s.answers + [Response(fd, if fd in s.open then Some(s.open[fd]) else None, verdict, ByHandler(id))]
  }

  /** The monitor's claim is one step of the protocol. */
  method ClaimInPass2(w: Watchdog, kernel: Kernel, event: Event, now: Timespec, ghost s: State)
      returns (claimed: bool, ghost t: State)
    requires Shows(w, kernel, s) && now == s.now
    requires s.monitor.Claiming? && s.monitor.k < |s.monitor.batch| && event == s.monitor.batch[s.monitor.k]
    modifies w.queue, w.queue.repr
    ensures t == Apply(w.enabled, s, MonitorClaim) && Shows(w, kernel, t)
    ensures claimed == Claimable(w, s, event.fd) && t.answers == s.answers && t.open == s.open
    ensures t.monitor == (if claimed then Answering(s.monitor.batch, s.monitor.k) else Pass2(s.monitor.batch, s.monitor.k + 1))
  {
    t := Apply(w.enabled, s, MonitorClaim);
    var after;
    claimed, after := w.Remove(event.fd, now);
  }

  // ---------------------------------------------------------------------
  // A scan thread
  // ---------------------------------------------------------------------

  /** The end of a scan thread: its verdict is the answer exactly if the event can still be claimed. */
  method Scanned(w: Watchdog, kernel: Kernel, id: nat, fd: int, malware: bool, now: Timespec, ghost s: State)
      returns (ghost t: State)
    requires Shows(w, kernel, s) && now == s.now && id in s.tasks && s.tasks[id] == Scanning(fd)
    modifies w.queue, w.queue.repr, kernel
    ensures Shows(w, kernel, t) && Leads(w.enabled, s, t) && id !in t.tasks
    ensures if Claimable(w, s, fd) then AnswersOnce(s, t, fd, if malware then Deny else Allow, id)
            else t.answers == s.answers
  {
    var verdict := if malware then Deny else Allow;
    LeadsNowhere(w.enabled, s);
    LeadsOn(w.enabled, s, s, Action.Scanned(id, verdict));
    ghost var judged := Apply(w.enabled, s, Action.Scanned(id, verdict));
    LeadsOn(w.enabled, s, judged, TaskClaim(id));
    var claimed;
    claimed, t := ClaimByTask(w, kernel, id, fd, now, judged);
    if claimed {
      LeadsOn(w.enabled, s, t, TaskAnswer(id));
      t := Apply(w.enabled, t, TaskAnswer(id));
      kernel.ResponseWrite(fd, verdict, ByHandler(id));
    }
  }

  /** The claim of a scan thread is one step of the protocol. */
  method ClaimByTask(w: Watchdog, kernel: Kernel, id: nat, fd: int, now: Timespec, ghost s: State)
      returns (claimed: bool, ghost t: State)
    requires Shows(w, kernel, s) && now == s.now && id in s.tasks && s.tasks[id].Claim? && s.tasks[id].fd == fd
    modifies w.queue, w.queue.repr
    ensures t == Apply(w.enabled, s, TaskClaim(id)) && Shows(w, kernel, t)
    ensures claimed == Claimable(w, s, fd) && t.answers == s.answers && t.open == s.open
    ensures claimed ==> id in t.tasks && t.tasks[id] == Respond(fd, s.tasks[id].verdict)
    ensures !claimed ==> id !in t.tasks
  {
    t := Apply(w.enabled, s, TaskClaim(id));
    var after;
    claimed, after := w.Remove(fd, now);
  }

}

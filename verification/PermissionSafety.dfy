/**
  What every run of the permission protocol keeps.  Each unanswered event has
  exactly one holder: the thread, or the queue, whose turn it is to have it
  answered.
 */
module PermissionSafety {
  import opened Wrappers
  import opened Stamp
  import opened QueueSpec
  import opened Permission

  // ---------------------------------------------------------------------
  // Holders
  // ---------------------------------------------------------------------

  datatype Holder = InQueue | InTimeouts | InBatch | AtMonitor | AtTask(id: nat)

  /** Event j of the batch is still to be entered in the queue or answered (with the watchdog), or handled (without). */
  predicate Waits(watchdog: bool, m: Monitor, j: nat) {
    match m
    case Waiting => false
    case Pass1(b, k) => j < |b| && (j >= k || (!watchdog && !b[j].own))
    case Pass2(b, k) => k <= j < |b| && !watchdog && !b[j].own
    case Claiming(b, k) => k <= j < |b| && !watchdog && !b[j].own
    case Answering(b, k) => k <= j < |b| && !watchdog && !b[j].own
  }

  function Batch(m: Monitor): seq<Event> {
    match m
    case Waiting => []
    case Pass1(b, _) => b
    case Pass2(b, _) => b
    case Claiming(b, _) => b
    case Answering(b, _) => b
  }

  ghost predicate QueueHas(q: seq<Entry>, fd: int) {
    exists i :: 0 <= i < |q| && q[i].fd == fd
  }

  ghost predicate BatchHas(watchdog: bool, m: Monitor, fd: int) {
    exists j :: 0 <= j < |Batch(m)| && Batch(m)[j].fd == fd && Waits(watchdog, m, j)
  }

  ghost predicate Holds(watchdog: bool, s: State, h: Holder, fd: int) {
    match h
    case InQueue => QueueHas(s.queue, fd)
    case InTimeouts => fd in s.timeouts
    case InBatch => BatchHas(watchdog, s.monitor, fd)
    case AtMonitor =>
      watchdog && s.monitor.Answering? && s.monitor.k < |s.monitor.batch| && s.monitor.batch[s.monitor.k].fd == fd
    case AtTask(id) => id in s.tasks && s.tasks[id].fd == fd && (watchdog ==> s.tasks[id].Respond?)
  }

  predicate DistinctQueue(q: seq<Entry>) {
    forall i, j :: 0 <= i < j < |q| ==> q[i].fd != q[j].fd
  }

  predicate DistinctInts(q: seq<int>) {
    forall i, j :: 0 <= i < j < |q| ==> q[i] != q[j]
  }

  /** No descriptor has two holders. */
  ghost predicate Exclusive(watchdog: bool, s: State) {
    && DistinctQueue(s.queue) && DistinctInts(s.timeouts)
    && forall h, g, fd :: Holds(watchdog, s, h, fd) && Holds(watchdog, s, g, fd) ==> h == g
  }

  /** The descriptors that have a holder are exactly the open ones. */
  ghost predicate HeldIsOpen(watchdog: bool, s: State) {
    && (forall h, fd :: Holds(watchdog, s, h, fd) ==> fd in s.open)
    && (forall fd :: fd in s.open ==> exists h :: Holds(watchdog, s, h, fd))
  }

  // ---------------------------------------------------------------------
  // Structure
  // ---------------------------------------------------------------------

  /** Event j of the batch has not been handled yet in the second pass. */
  predicate Unhandled(m: Monitor, j: nat) {
    match m
    case Waiting => false
    case Pass1(b, _) => j < |b|
    case Pass2(b, k) => k <= j < |b|
    case Claiming(b, k) => k <= j < |b|
    case Answering(b, k) => k <= j < |b|
  }

  ghost predicate BatchOK(s: State) {
    var b := Batch(s.monitor);
    && DistinctFds(b) && DistinctIds(b)
    && (forall j :: 0 <= j < |b| ==> b[j].id in s.delivered && s.delivered[b[j].id] == b[j].fd)
    && (forall j :: 0 <= j < |b| && b[j].fd in s.open ==> s.open[b[j].fd] == b[j].id)
    && (forall j :: 0 <= j < |b| && Unhandled(s.monitor, j) ==> b[j].id !in s.tasks)
    && (s.monitor.Claiming? || s.monitor.Answering? ==> s.monitor.k < |b| && !b[s.monitor.k].own)
    && (s.monitor != Waiting ==> s.monitor.k <= |b|)
  }

  ghost predicate NamesOK(s: State) {
    && (forall fd :: fd in s.open ==> s.open[fd] in s.delivered && s.delivered[s.open[fd]] == fd)
    && (forall id :: id in s.tasks ==> id in s.delivered && s.delivered[id] == s.tasks[id].fd)
  }

  /** Without the watchdog there is no queue and a task holds its own event. */
  ghost predicate PlainOK(watchdog: bool, s: State) {
    !watchdog ==>
      && s.queue == [] && s.timeouts == []
      && forall id :: id in s.tasks && s.tasks[id].fd in s.open ==> s.open[s.tasks[id].fd] == id
  }

  /** The handler of event i has yet to make its claim. */
  ghost predicate ClaimPending(s: State, i: nat) {
    || (i in s.tasks && !s.tasks[i].Respond?)
    || InLine(s.monitor, i)
  }

  /** Event i has passed the first pass and waits for the second. */
  ghost predicate InLine(m: Monitor, i: nat) {
    exists j :: 0 <= j < |Batch(m)| && Batch(m)[j].id == i && !Batch(m)[j].own && Queued(m, j)
  }

  predicate Queued(m: Monitor, j: nat) {
    match m
    case Waiting => false
    case Pass1(b, k) => j < k
    case Pass2(b, k) => k <= j
    case Claiming(b, k) => k <= j
    case Answering(b, k) => k < j
  }

  /** Every queued descriptor belongs to an event whose handler has yet to claim it. */
  ghost predicate QueueOK(s: State) {
    forall fd :: QueueHas(s.queue, fd) && fd in s.open ==> ClaimPending(s, s.open[fd])
  }

  // ---------------------------------------------------------------------
  // The log of answers
  // ---------------------------------------------------------------------

  ghost predicate AnsweredIn(log: seq<Response>, id: nat) {
    exists n :: 0 <= n < |log| && log[n].target == Some(id)
  }

  /**
    Every answer reaches an event, no event is answered twice, and every event
    delivered is either open or answered, not both.
   */
  ghost predicate LogOK(s: State) {
    && (forall n :: 0 <= n < |s.answers| ==> s.answers[n].target.Some?)
    && (forall n, m :: 0 <= n < m < |s.answers| ==> s.answers[n].target != s.answers[m].target)
    && (forall id :: AnsweredIn(s.answers, id) ==> id in s.delivered)
    && (forall id :: id in s.delivered ==> (AnsweredIn(s.answers, id) <==> !Open(s, id)))
  }

  ghost predicate Open(s: State, id: nat) {
    id in s.delivered && s.delivered[id] in s.open && s.open[s.delivered[id]] == id
  }

  ghost predicate Inv(watchdog: bool, s: State) {
    && Exclusive(watchdog, s)
    && HeldIsOpen(watchdog, s)
    && BatchOK(s)
    && NamesOK(s)
    && PlainOK(watchdog, s)
    && QueueOK(s)
    && LogOK(s)
    && Normalised(s.now)
    && (forall i :: 0 <= i < |s.queue| ==> Normalised(s.queue[i].timestamp))
  }

  lemma InitialInv(watchdog: bool)
    ensures Inv(watchdog, INITIAL)
  {
  }

  // ---------------------------------------------------------------------
  // Answering
  // ---------------------------------------------------------------------

  lemma AnsweredLog(s: State, fd: int, verdict: Verdict, author: Author)
    requires NamesOK(s) && LogOK(s) && fd in s.open
    ensures LogOK(Answered(s, fd, verdict, author))
  {
    var s' := Answered(s, fd, verdict, author);
    var r := Response(fd, Some(s.open[fd]), verdict, author);
    assert Open(s, s.open[fd]);
    forall id
      ensures AnsweredIn(s'.answers, id) <==> AnsweredIn(s.answers, id) || id == s.open[fd]
    {
      AnsweredAppend(s.answers, r, id);
    }
    forall n | 0 <= n < |s.answers|
      ensures s.answers[n].target != r.target
    {
      if s.answers[n].target == r.target {
        assert AnsweredIn(s.answers, s.open[fd]);
      }
    }
    forall id | id in s.delivered
      ensures Open(s', id) <==> Open(s, id) && id != s.open[fd]
    {
    }
  }

  lemma AnsweredAppend(log: seq<Response>, r: Response, id: nat)
    ensures AnsweredIn(log + [r], id) <==> AnsweredIn(log, id) || r.target == Some(id)
  {
    if AnsweredIn(log, id) {
      var n :| 0 <= n < |log| && log[n].target == Some(id);
      assert (log + [r])[n] == log[n];
    }
    if r.target == Some(id) {
      assert (log + [r])[|log|] == r;
    }
  }

  /**
    Answering through holder h0: afterwards h0 no longer holds the descriptor,
    and every other holding is as before.
   */
  ghost predicate HandedIn(watchdog: bool, s: State, s': State, h0: Holder, fd0: int) {
    forall h, fd :: Holds(watchdog, s', h, fd) <==> Holds(watchdog, s, h, fd) && !(h == h0 && fd == fd0)
  }

  lemma AnsweredHolders(watchdog: bool, s: State, s': State, h0: Holder, fd0: int)
    requires Exclusive(watchdog, s) && HeldIsOpen(watchdog, s) && Holds(watchdog, s, h0, fd0)
    requires HandedIn(watchdog, s, s', h0, fd0)
    requires s'.open == s.open - {fd0}
    requires DistinctQueue(s'.queue) && DistinctInts(s'.timeouts)
    ensures Exclusive(watchdog, s') && HeldIsOpen(watchdog, s')
  {
    forall fd | fd in s'.open
      ensures exists h :: Holds(watchdog, s', h, fd)
    {
      var h :| Holds(watchdog, s, h, fd);
      assert Holds(watchdog, s', h, fd);
    }
  }

  /** A step that opens and closes nothing moves descriptors between holders. */
  lemma MovedHolders(watchdog: bool, s: State, s': State, h0: Holder, h1: Holder, fd0: int)
    requires Exclusive(watchdog, s) && HeldIsOpen(watchdog, s) && Holds(watchdog, s, h0, fd0)
    requires forall h, fd :: Holds(watchdog, s', h, fd)
               <==> (Holds(watchdog, s, h, fd) && !(h == h0 && fd == fd0)) || (h == h1 && fd == fd0)
    requires s'.open == s.open
    requires DistinctQueue(s'.queue) && DistinctInts(s'.timeouts)
    ensures Exclusive(watchdog, s') && HeldIsOpen(watchdog, s')
  {
    forall fd | fd in s'.open
      ensures exists h :: Holds(watchdog, s', h, fd)
    {
      if fd == fd0 {
        assert Holds(watchdog, s', h1, fd);
      } else {
        var h :| Holds(watchdog, s, h, fd);
        assert Holds(watchdog, s', h, fd);
      }
    }
  }

  lemma SameHolders(watchdog: bool, s: State, s': State)
    requires Exclusive(watchdog, s) && HeldIsOpen(watchdog, s)
    requires forall h, fd :: Holds(watchdog, s', h, fd) <==> Holds(watchdog, s, h, fd)
    requires s'.open == s.open && s'.queue == s.queue && s'.timeouts == s.timeouts
    ensures Exclusive(watchdog, s') && HeldIsOpen(watchdog, s')
  {
    forall fd | fd in s'.open
      ensures exists h :: Holds(watchdog, s', h, fd)
    {
      var h :| Holds(watchdog, s, h, fd);
      assert Holds(watchdog, s', h, fd);
    }
  }

}

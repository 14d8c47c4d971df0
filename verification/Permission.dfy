/**
  The on-access permission protocol: a monitor thread reads batches of events
  and treats each batch in two passes, scan threads answer the events they have
  scanned, and a timeout thread answers those that wait too long.  They share
  the watchdog queue, keyed by file descriptor; answering closes the descriptor,
  so the kernel may give its number to a later event.

  One action is one atomic step of one thread; a run is any interleaving.  The
  parameter watchdog tells whether the watchdog is compiled in.
 */
module Permission {
  import opened Wrappers
  import opened Stamp
  import opened QueueSpec

  const TIMEOUT := Timespec(0, 100 * ONE_MILLISECOND)
  const N_FD := 100

  // A permission event; id names the instance, which the program never sees.
  datatype Event = Event(id: nat, fd: int, own: bool)

  datatype Verdict = Allow | Deny

  datatype Author = ByPid | ByTimeout | ByHandler(id: nat)

  // One call of response_write; target is the event that had the descriptor.
  datatype Response = Response(fd: int, target: Option<nat>, verdict: Verdict, author: Author)

  datatype Monitor =
    | Waiting
    | Pass1(batch: seq<Event>, k: nat)
    | Pass2(batch: seq<Event>, k: nat)
    | Claiming(batch: seq<Event>, k: nat)     // event k is not to be scanned
    | Answering(batch: seq<Event>, k: nat)    // its claim succeeded

  datatype Task =
    | Scanning(fd: int)
    | Claim(fd: int, verdict: Verdict)
    | Respond(fd: int, verdict: Verdict)

  datatype State = State(
    monitor: Monitor,
    tasks: map<nat, Task>,        // the scan of each event in the thread pool
    queue: seq<Entry>,
    timeouts: seq<int>,           // popped by the timeout thread, not yet answered
    open: map<int, nat>,          // the descriptors of unanswered events
    delivered: map<nat, int>,     // every event delivered, with its descriptor
    answers: seq<Response>,
    now: Timespec)

  const INITIAL := State(Waiting, map[], [], [], map[], map[], [], Timespec(0, 0))

  datatype Action =
    | Deliver(events: seq<Event>)
    | FirstPass
    | FirstPassEnd
    | SkipOwn
    | StartScan
    | DoNotScan
    | MonitorClaim
    | MonitorAnswer
    | SecondPassEnd
    | Scanned(id: nat, verdict: Verdict)
    | TaskClaim(id: nat)
    | TaskAnswer(id: nat)
    | TimeoutPop
    | TimeoutAnswer
    | Tick(time: Timespec)

  predicate DistinctFds(b: seq<Event>) {
    forall i, j :: 0 <= i < j < |b| ==> b[i].fd != b[j].fd
  }

  predicate DistinctIds(b: seq<Event>) {
    forall i, j :: 0 <= i < j < |b| ==> b[i].id != b[j].id
  }

  /** What the kernel delivers: new events, on descriptors that are not in use. */
  predicate Deliverable(s: State, b: seq<Event>) {
    && DistinctFds(b) && DistinctIds(b)
    && forall i :: 0 <= i < |b| ==> b[i].fd !in s.open && b[i].id !in s.delivered
  }

  predicate InPass2(s: State) {
    s.monitor.Pass2? && s.monitor.k < |s.monitor.batch|
  }

  predicate Enabled(watchdog: bool, s: State, a: Action) {
    match a
    case Deliver(b) => s.monitor == Waiting && Deliverable(s, b)
    case FirstPass => s.monitor.Pass1? && s.monitor.k < |s.monitor.batch|
    case FirstPassEnd => s.monitor.Pass1? && s.monitor.k == |s.monitor.batch|
    case SkipOwn => InPass2(s) && s.monitor.batch[s.monitor.k].own
    case StartScan => InPass2(s) && !s.monitor.batch[s.monitor.k].own
    case DoNotScan => InPass2(s) && !s.monitor.batch[s.monitor.k].own
    case MonitorClaim => s.monitor.Claiming? && s.monitor.k < |s.monitor.batch|
    case MonitorAnswer => s.monitor.Answering? && s.monitor.k < |s.monitor.batch|
    case SecondPassEnd => s.monitor.Pass2? && s.monitor.k == |s.monitor.batch|
    case Scanned(id, _) => id in s.tasks && s.tasks[id].Scanning?
    case TaskClaim(id) => id in s.tasks && s.tasks[id].Claim?
    case TaskAnswer(id) => id in s.tasks && s.tasks[id].Respond?
    case TimeoutPop => watchdog && s.timeouts == []
    case TimeoutAnswer => s.timeouts != []
    case Tick(t) => Normalised(t)
  }

  /** response_write: answers the event that has the descriptor, and closes it. */
  function Answered(s: State, fd: int, verdict: Verdict, author: Author): State {
    s.(answers := s.answers + [Response(fd, if fd in s.open then Some(s.open[fd]) else None, verdict, author)],
       open := s.open - {fd})
  }

  function OpenedBy(b: seq<Event>): (m: map<int, nat>) {
    if b == [] then map[] else OpenedBy(b[..|b| - 1])[b[|b| - 1].fd := b[|b| - 1].id]
  }

  function DeliveredBy(b: seq<Event>): (m: map<nat, int>) {
    if b == [] then map[] else DeliveredBy(b[..|b| - 1])[b[|b| - 1].id := b[|b| - 1].fd]
  }

  function FdsOf(q: seq<Entry>): (r: seq<int>)
    ensures |r| == |q|
    ensures forall i :: 0 <= i < |q| ==> r[i] == q[i].fd
  {
    seq(|q|, i requires 0 <= i < |q| => q[i].fd)
  }

  function Apply(watchdog: bool, s: State, a: Action): State
    requires Enabled(watchdog, s, a)
  {
    match a
    case Deliver(b) =>
      s.(monitor := Pass1(b, 0), open := s.open + OpenedBy(b), delivered := s.delivered + DeliveredBy(b))
    case FirstPass =>
      var Pass1(b, k) := s.monitor;
      var next := s.(monitor := Pass1(b, k + 1));
      if b[k].own then Answered(next, b[k].fd, Allow, ByPid)
      else if watchdog then next.(queue := [Entry(b[k].fd, s.now)] + s.queue)
      else next
    case FirstPassEnd => s.(monitor := Pass2(s.monitor.batch, 0))
    case SkipOwn => s.(monitor := Pass2(s.monitor.batch, s.monitor.k + 1))
    case StartScan =>
      var Pass2(b, k) := s.monitor;
      s.(monitor := Pass2(b, k + 1), tasks := s.tasks[b[k].id := Scanning(b[k].fd)])
    case DoNotScan => s.(monitor := Claiming(s.monitor.batch, s.monitor.k))
    case MonitorClaim =>
      var Claiming(b, k) := s.monitor;
      var i := FdIndex(s.queue, b[k].fd);
      if !watchdog then s.(monitor := Answering(b, k))
      else if i < |s.queue| then s.(monitor := Answering(b, k), queue := Without(s.queue, i))
      else s.(monitor := Pass2(b, k + 1))
    case MonitorAnswer =>
      var Answering(b, k) := s.monitor;
      Answered(s.(monitor := Pass2(b, k + 1)), b[k].fd, Allow, ByHandler(b[k].id))
    case SecondPassEnd => s.(monitor := Waiting)
    case Scanned(id, v) => s.(tasks := s.tasks[id := Claim(s.tasks[id].fd, v)])
    case TaskClaim(id) =>
      var Claim(fd, v) := s.tasks[id];
      var i := FdIndex(s.queue, fd);
      if !watchdog then s.(tasks := s.tasks[id := Respond(fd, v)])
      else if i < |s.queue| then s.(tasks := s.tasks[id := Respond(fd, v)], queue := Without(s.queue, i))
      else s.(tasks := s.tasks - {id})
    case TaskAnswer(id) =>
      Answered(s.(tasks := s.tasks - {id}), s.tasks[id].fd, s.tasks[id].verdict, ByHandler(id))
    case TimeoutPop =>
      var r := TakeExpired(s.queue, Sub(s.now, TIMEOUT), N_FD);
      s.(queue := r.1, timeouts := FdsOf(r.0))
    case TimeoutAnswer => Answered(s.(timeouts := s.timeouts[1..]), s.timeouts[0], Allow, ByTimeout)
    case Tick(t) => s.(now := t)
  }

  ghost predicate Run(watchdog: bool, s: State, actions: seq<Action>)
    decreases |actions|
  {
    actions == [] || (Enabled(watchdog, s, actions[0]) && Run(watchdog, Apply(watchdog, s, actions[0]), actions[1..]))
  }

  function End(watchdog: bool, s: State, actions: seq<Action>): State
    requires Run(watchdog, s, actions)
    decreases |actions|
  {
    if actions == [] then s else End(watchdog, Apply(watchdog, s, actions[0]), actions[1..])
  }

}

/**
  The on-demand scan of libcore/ondemand.c: the walk hands the files over to a
  pool of scan threads, or scans them itself; another thread counts the files.
  They share counters and the state of the progress events.

  One action is one atomic step of one thread; a run is any interleaving.
 */
module OnDemand {
  import opened Wrappers
  import opened FileStatus

  const PROGRESS_UNKNOWN := -1
  const MAX_THREADS := 4

  // A file given to scan_entry, and the status that its scan reports.
  datatype File = File(path: Option<string>, status: FileStatus)

  datatype Root = PlainFile | Directory | OtherRoot

  // period is 0 when no progress is wanted; counted is what the counting thread finds.
  datatype Config = Config(root: Root, files: seq<File>, threaded: bool, period: nat, counted: nat)

  /** A file whose path cannot be resolved is reported as an internal error; a plain root is one file. */
  predicate Possible(c: Config) {
    && (forall i :: 0 <= i < |c.files| && c.files[i].path.None? ==> c.files[i].status == InternalError)
    && (c.root.PlainFile? ==> |c.files| == 1)
  }

  predicate Bad(f: File) {
    f.path.Some? && (f.status == Malware || f.status == Suspicious)
  }

  // How far the scan of one file is.
  datatype Phase =
    | Idle
    | Skipped
    | Queued
    | Started          // taken from the queue of the pool, or by the walk
    | Announced        // after the detection event, if any
    | Counted          // scanned_count incremented
    | Tallied          // the counter of the status incremented
    | Measuring        // progress is wanted and to_scan_count was not 0
    | Measured(progress: int)
    | Sending(progress: int, now: int)
    | SawMalware(progress: int, now: int, malware: nat)
    | SawSuspicious(progress: int, now: int, malware: nat, suspicious: nat)
    | Sent(progress: int, now: int)
    | Done

  datatype Event =
    | Start
    | Detection(file: nat, path: Option<string>, status: FileStatus)
    | Progress(path: Option<string>, progress: int, malware: nat, suspicious: nat, scanned: nat)
    | Completed(malware: nat, suspicious: nat, scanned: nat)

  datatype State = State(
    handed: nat,              // files given by the walk so far
    phases: seq<Phase>,
    scanned: nat, malware: nat, suspicious: nat,
    toScan: nat,
    counting: bool,           // the counting thread has not stored its result
    lastTime: int, lastValue: int,
    events: seq<Event>,
    completed: bool)

  function Init(c: Config): State {
    State(0, seq(|c.files|, _ => Idle), 0, 0, 0,
          if c.root.PlainFile? then 1 else 0, c.root.Directory? && c.period != 0,
          0, PROGRESS_UNKNOWN, [Start], false)
  }

  datatype Action = Hand | Work(i: nat, now: int) | StoreCount | Complete

  predicate Over(p: Phase) {
    p.Skipped? || p.Done?
  }

  predicate InFlight(p: Phase) {
    !p.Idle? && !p.Queued? && !Over(p)
  }

  function FilesInFlight(s: State): set<nat> {
    set i: nat | i < |s.phases| && InFlight(s.phases[i])
  }

  /** The pool takes the files in the order in which it got them, as long as it has a thread to spare. */
  predicate CanTake(s: State, i: nat)
    requires i < |s.phases|
  {
    |FilesInFlight(s)| < MAX_THREADS && forall j :: 0 <= j < i ==> !s.phases[j].Queued?
  }

  predicate Enabled(c: Config, s: State, a: Action)
    requires |s.phases| == |c.files|
  {
    match a
    case Hand => s.handed < |c.files| && !s.completed
                 && (!c.threaded && s.handed > 0 && s.handed <= |s.phases| ==> s.phases[s.handed - 1].Done?)
    case Work(i, _) => i < |s.phases| && (InFlight(s.phases[i]) || (s.phases[i].Queued? && (c.threaded ==> CanTake(s, i))))
    case StoreCount => s.counting
    case Complete => !s.completed && s.handed == |c.files| && forall i :: 0 <= i < |s.phases| ==> Over(s.phases[i])
  }

  function Percent(scanned: nat, toScan: nat): int
    requires toScan > 0
  {
    var p := 100 * scanned / toScan;
    if p > 100 then 100 else p
  }

  predicate MustSend(c: Config, s: State, path: Option<string>, progress: int, now: int) {
    path.Some? && (s.lastValue == PROGRESS_UNKNOWN || s.lastValue != progress || s.lastTime == 0
                   || now - s.lastTime >= c.period)
  }

  /** The next step of the scan of a file. */
  function Worked(c: Config, s: State, i: nat, now: int): State
    requires i < |s.phases| == |c.files|
  {
    var f := c.files[i];
    match s.phases[i]
    case Queued => To(s, i, Started)
    case Started =>
      var t := To(s, i, Announced);
      if Bad(f) then t.(events := t.events + [Detection(i, f.path, f.status)]) else t
    case Announced => To(s, i, Counted).(scanned := s.scanned + 1)
    case Counted =>
      var t := To(s, i, Tallied);
      if f.status == Suspicious then t.(suspicious := s.suspicious + 1)
      else if f.status == Malware then t.(malware := s.malware + 1)
      else t
    case Tallied => To(s, i, if c.period == 0 || s.toScan == 0 then Done else Measuring)
    case Measuring => if s.toScan == 0 then s else To(s, i, Measured(Percent(s.scanned, s.toScan)))
    case Measured(p) => To(s, i, if MustSend(c, s, f.path, p, now) then Sending(p, now) else Done)
    case Sending(p, t) => To(s, i, SawMalware(p, t, s.malware))
    case SawMalware(p, t, m) => To(s, i, SawSuspicious(p, t, m, s.suspicious))
    case SawSuspicious(p, t, m, n) =>
      To(s, i, Sent(p, t)).(events := s.events + [Progress(f.path, p, m, n, s.scanned)])
    case Sent(p, t) => To(s, i, Done).(lastTime := t, lastValue := p)
    case _ => s
  }

  function To(s: State, i: nat, p: Phase): State
    requires i < |s.phases|
  {
    s.(phases := s.phases[i := p])
  }

  function Apply(c: Config, s: State, a: Action): State
    requires |s.phases| == |c.files| && Enabled(c, s, a)
  {
    match a
    case Hand =>
      var p := if c.threaded && c.files[s.handed].path.None? then Skipped else Queued;
      To(s, s.handed, p).(handed := s.handed + 1)
    case Work(i, now) => Worked(c, s, i, now)
    case StoreCount => s.(toScan := c.counted, counting := false)
    case Complete =>
      s.(events := s.events + [Completed(s.malware, s.suspicious, s.scanned)], completed := true)
  }

  lemma ApplyShape(c: Config, s: State, a: Action)
    requires |s.phases| == |c.files| && Enabled(c, s, a)
    ensures |Apply(c, s, a).phases| == |c.files|
  {
  }

  /** The actions of as form a run from s. */
  predicate Run(c: Config, s: State, actions: seq<Action>)
    requires |s.phases| == |c.files|
    decreases |actions|
  {
    actions == [] ||
    (Enabled(c, s, actions[0]) && (ApplyShape(c, s, actions[0]); Run(c, Apply(c, s, actions[0]), actions[1..])))
  }

  function End(c: Config, s: State, actions: seq<Action>): (t: State)
    requires |s.phases| == |c.files| && Run(c, s, actions)
    ensures |t.phases| == |c.files|
    decreases |actions|
  {
    if actions == [] then s
    else
      ApplyShape(c, s, actions[0]);
      End(c, Apply(c, s, actions[0]), actions[1..])
  }

  // ---------------------------------------------------------------------
  // The counters
  // ---------------------------------------------------------------------

  predicate IsAnnounced(p: Phase) {
    !p.Idle? && !p.Skipped? && !p.Queued? && !p.Started?
  }

  predicate IsCounted(p: Phase) {
    IsAnnounced(p) && !p.Announced?
  }

  predicate IsTallied(p: Phase) {
    IsCounted(p) && !p.Counted?
  }

  ghost function CountedFiles(s: State): set<nat> {
    set i: nat | i < |s.phases| && IsCounted(s.phases[i])
  }

  ghost function TalliedFiles(c: Config, s: State, status: FileStatus): set<nat>
    requires |s.phases| == |c.files|
  {
    set i: nat | i < |s.phases| && IsTallied(s.phases[i]) && c.files[i].status == status
  }

  ghost function AnnouncedFiles(c: Config, s: State): set<nat>
    requires |s.phases| == |c.files|
  {
    set i: nat | i < |s.phases| && IsAnnounced(s.phases[i]) && Bad(c.files[i])
  }

  /** Each counter is the number of files that passed it. */
  ghost predicate Counters(c: Config, s: State)
    requires |s.phases| == |c.files|
  {
    && s.scanned == |CountedFiles(s)|
    && s.malware == |TalliedFiles(c, s, Malware)|
    && s.suspicious == |TalliedFiles(c, s, Suspicious)|
  }

  lemma {:induction false} SubsetSize<T>(a: set<T>, b: set<T>)
    requires a <= b
    ensures |a| <= |b|
    decreases |a|
  {
    if a != {} {
      var x :| x in a;
      SubsetSize(a - {x}, b - {x});
    }
  }

  lemma Added(a: set<nat>, b: set<nat>, i: nat)
    requires i !in a && b == a + {i}
    ensures |b| == |a| + 1
  {
  }

  lemma DetectedAtMostScanned(c: Config, s: State)
    requires |s.phases| == |c.files| && Counters(c, s)
    ensures s.malware + s.suspicious <= s.scanned
  {
    var m, n := TalliedFiles(c, s, Malware), TalliedFiles(c, s, Suspicious);
    assert m !! n;
    assert |m + n| == |m| + |n|;
    SubsetSize(m + n, CountedFiles(s));
  }

  /** What one step of the scan of file i does to the shared state, without its values and events. */
  ghost predicate Moved(c: Config, s: State, t: State, i: nat)
    requires |s.phases| == |c.files|
  {
    && i < |s.phases| == |t.phases| && t.phases == s.phases[i := t.phases[i]]
    && !s.phases[i].Idle? && !Over(s.phases[i])
    && !t.phases[i].Idle? && !t.phases[i].Skipped? && !t.phases[i].Queued?
    && (IsAnnounced(t.phases[i]) <==> IsAnnounced(s.phases[i]) || s.phases[i].Started?)
    && (IsCounted(t.phases[i]) <==> IsCounted(s.phases[i]) || s.phases[i].Announced?)
    && (IsTallied(t.phases[i]) <==> IsTallied(s.phases[i]) || s.phases[i].Counted?)
    && (t.handed, t.toScan, t.counting, t.completed) == (s.handed, s.toScan, s.counting, s.completed)
    && t.scanned == s.scanned + (if s.phases[i].Announced? then 1 else 0)
    && t.malware == s.malware + (if s.phases[i].Counted? && c.files[i].status == Malware then 1 else 0)
    && t.suspicious == s.suspicious + (if s.phases[i].Counted? && c.files[i].status == Suspicious then 1 else 0)
  }

  lemma WorkMoves(c: Config, s: State, i: nat, now: int)
    requires |s.phases| == |c.files| && Enabled(c, s, Work(i, now))
    requires s.phases[i].Measuring? ==> s.toScan > 0
    ensures Moved(c, s, Worked(c, s, i, now), i)
  {
  }

  lemma SameCounters(c: Config, s: State, t: State)
    requires |s.phases| == |c.files| == |t.phases| && Counters(c, s)
    requires (t.scanned, t.malware, t.suspicious) == (s.scanned, s.malware, s.suspicious)
    requires forall i :: 0 <= i < |s.phases| ==> (IsCounted(s.phases[i]) <==> IsCounted(t.phases[i]))
    requires forall i :: 0 <= i < |s.phases| ==> (IsTallied(s.phases[i]) <==> IsTallied(t.phases[i]))
    ensures Counters(c, t)
  {
    assert CountedFiles(t) == CountedFiles(s);
    assert TalliedFiles(c, t, Malware) == TalliedFiles(c, s, Malware);
    assert TalliedFiles(c, t, Suspicious) == TalliedFiles(c, s, Suspicious);
  }

  lemma CountOne(c: Config, s: State, t: State, i: nat)
    requires |s.phases| == |c.files| && Moved(c, s, t, i)
    ensures |CountedFiles(t)| == |CountedFiles(s)| + if s.phases[i].Announced? then 1 else 0
  {
    if s.phases[i].Announced? {
      Added(CountedFiles(s), CountedFiles(t), i);
    } else {
      assert CountedFiles(t) == CountedFiles(s);
    }
  }

  lemma TallyOne(c: Config, s: State, t: State, i: nat, status: FileStatus)
    requires i < |s.phases| == |c.files| == |t.phases| && Moved(c, s, t, i)
    ensures |TalliedFiles(c, t, status)| == |TalliedFiles(c, s, status)|
                                            + if s.phases[i].Counted? && c.files[i].status == status then 1 else 0
  {
    if s.phases[i].Counted? && c.files[i].status == status {
      Added(TalliedFiles(c, s, status), TalliedFiles(c, t, status), i);
    } else {
      assert TalliedFiles(c, t, status) == TalliedFiles(c, s, status);
    }
  }

  lemma MovedCounters(c: Config, s: State, t: State, i: nat)
    requires |s.phases| == |c.files| == |t.phases| && Counters(c, s) && Moved(c, s, t, i)
    ensures Counters(c, t)
  {
    CountOne(c, s, t, i);
    TallyOne(c, s, t, i, Malware);
    TallyOne(c, s, t, i, Suspicious);
  }

  lemma KeepCounters(c: Config, s: State, a: Action)
    requires |s.phases| == |c.files| && Enabled(c, s, a) && Counters(c, s)
    requires a.Hand? ==> s.phases[s.handed].Idle?
    requires a.Work? && s.phases[a.i].Measuring? ==> s.toScan > 0
    ensures |Apply(c, s, a).phases| == |c.files| && Counters(c, Apply(c, s, a))
  {
    if a.Work? {
      WorkMoves(c, s, a.i, a.now);
      MovedCounters(c, s, Apply(c, s, a), a.i);
    } else {
      SameCounters(c, s, Apply(c, s, a));
    }
  }

  // ---------------------------------------------------------------------
  // The values held by the threads
  // ---------------------------------------------------------------------

  predicate GoodProgress(progress: int) {
    0 <= progress <= 100
  }

  predicate Local(s: State, p: Phase) {
    match p
    case Measuring => s.toScan > 0
    case Measured(v) => GoodProgress(v)
    case Sending(v, _) => GoodProgress(v)
    case SawMalware(v, _, m) => GoodProgress(v) && m <= s.malware
    case SawSuspicious(v, _, m, n) => GoodProgress(v) && m + n <= s.scanned
    case Sent(v, _) => GoodProgress(v)
    case _ => true
  }

  predicate GoodEvent(e: Event) {
    e.Progress? ==> e.path.Some? && GoodProgress(e.progress) && e.malware + e.suspicious <= e.scanned
  }

  predicate PathKnown(c: Config, s: State, i: nat)
    requires i < |s.phases| == |c.files|
  {
    s.phases[i].Sending? || s.phases[i].SawMalware? || s.phases[i].SawSuspicious? ==> c.files[i].path.Some?
  }

  ghost predicate Values(c: Config, s: State)
    requires |s.phases| == |c.files|
  {
    && (s.counting ==> s.toScan == 0)
    && (forall i :: 0 <= i < |s.phases| ==> Local(s, s.phases[i]) && PathKnown(c, s, i))
    && (forall i :: 0 <= i < |s.events| ==> GoodEvent(s.events[i]))
  }

  /** The counters only grow, and a count once stored stays. */
  predicate Grown(s: State, t: State) {
    && s.malware <= t.malware && s.scanned <= t.scanned && (s.toScan > 0 ==> t.toScan > 0)
    && (t.counting ==> s.counting && s.toScan == t.toScan)
  }

  lemma KeepValues(c: Config, s: State, a: Action)
    requires |s.phases| == |c.files| && Enabled(c, s, a) && Values(c, s)
    requires s.malware + s.suspicious <= s.scanned
    ensures |Apply(c, s, a).phases| == |c.files| && Values(c, Apply(c, s, a))
  {
    if a.Work? {
      assert Local(s, s.phases[a.i]) && PathKnown(c, s, a.i);
      WorkMoves(c, s, a.i, a.now);
      WorkValues(c, s, a.i, a.now);
      MovedValues(c, s, Apply(c, s, a), a.i);
    } else {
      OtherValues(c, s, a);
    }
  }

  lemma MovedValues(c: Config, s: State, t: State, i: nat)
    requires |s.phases| == |c.files| == |t.phases| && Values(c, s) && Moved(c, s, t, i)
    requires Local(t, t.phases[i]) && PathKnown(c, t, i)
    requires t.events == s.events || (|t.events| == |s.events| + 1 && t.events[..|s.events|] == s.events
                                      && GoodEvent(t.events[|s.events|]))
    ensures Values(c, t)
  {
    forall j | 0 <= j < |t.phases| ensures Local(t, t.phases[j]) && PathKnown(c, t, j) {
      if j != i {
        assert Local(s, s.phases[j]) && PathKnown(c, s, j) && t.phases[j] == s.phases[j];
      }
    }
    forall j | 0 <= j < |t.events| ensures GoodEvent(t.events[j]) {
      if j < |s.events| {
        assert t.events[j] == s.events[j];
      }
    }
  }

  lemma WorkValues(c: Config, s: State, i: nat, now: int)
    requires |s.phases| == |c.files| && Enabled(c, s, Work(i, now))
    requires Local(s, s.phases[i]) && PathKnown(c, s, i) && s.malware + s.suspicious <= s.scanned
    ensures var t := Worked(c, s, i, now);
            && |t.phases| == |s.phases| && Local(t, t.phases[i]) && PathKnown(c, t, i)
            && (t.events == s.events || (|t.events| == |s.events| + 1 && t.events[..|s.events|] == s.events
                                         && GoodEvent(t.events[|s.events|])))
  {
    if s.phases[i].Measuring? {
      assert 0 <= Percent(s.scanned, s.toScan) <= 100;
    }
  }

  lemma OtherValues(c: Config, s: State, a: Action)
    requires |s.phases| == |c.files| && Enabled(c, s, a) && Values(c, s) && !a.Work?
    ensures |Apply(c, s, a).phases| == |c.files| && Values(c, Apply(c, s, a))
  {
    var t := Apply(c, s, a);
    forall i | 0 <= i < |t.phases| ensures Local(t, t.phases[i]) && PathKnown(c, t, i) {
      assert Local(s, s.phases[i]) && PathKnown(c, s, i);
    }
  }

  // ---------------------------------------------------------------------
  // The order of the steps, and the events
  // ---------------------------------------------------------------------

  /** The files that the walk gave are exactly those that are not idle; the skipped ones are those without a path. */
  ghost predicate Shape(c: Config, s: State)
    requires |s.phases| == |c.files|
  {
    && s.handed <= |c.files|
    && (forall i :: 0 <= i < |s.phases| ==> (s.phases[i].Idle? <==> s.handed <= i))
    && (forall i :: 0 <= i < s.handed ==> (s.phases[i].Skipped? <==> c.threaded && c.files[i].path.None?))
    && (s.completed ==> s.handed == |c.files| && forall i :: 0 <= i < |s.phases| ==> Over(s.phases[i]))
    && (!c.threaded ==> forall i :: 0 <= i < s.handed - 1 ==> s.phases[i].Done?)
  }

  lemma KeepShape(c: Config, s: State, a: Action)
    requires |s.phases| == |c.files| && Enabled(c, s, a) && Shape(c, s)
    requires a.Work? && s.phases[a.i].Measuring? ==> s.toScan > 0
    ensures |Apply(c, s, a).phases| == |c.files| && Shape(c, Apply(c, s, a))
  {
    if a.Work? {
      WorkMoves(c, s, a.i, a.now);
      MovedShape(c, s, Apply(c, s, a), a.i);
    } else if a.Hand? {
      HandShape(c, s);
    }
  }

  lemma MovedShape(c: Config, s: State, t: State, i: nat)
    requires |s.phases| == |c.files| == |t.phases| && Shape(c, s) && Moved(c, s, t, i)
    ensures Shape(c, t)
  {
  }

  lemma HandShape(c: Config, s: State)
    requires |s.phases| == |c.files| && Enabled(c, s, Hand) && Shape(c, s)
    ensures Shape(c, Apply(c, s, Hand))
  {
  }

  /** The files announced by the detection events. */
  ghost function Detected(events: seq<Event>): multiset<nat>
    decreases |events|
  {
    if events == [] then multiset{}
    else
      var e := events[|events| - 1];
      Detected(events[..|events| - 1]) + (if e.Detection? then multiset{e.file} else multiset{})
  }

  lemma DetectedSnoc(events: seq<Event>, e: Event)
    ensures Detected(events + [e]) == Detected(events) + (if e.Detection? then multiset{e.file} else multiset{})
  {
    assert (events + [e])[..|events|] == events;
  }

  predicate GoodDetection(c: Config, e: Event) {
    e.Detection? ==> e.file < |c.files| && e.path == c.files[e.file].path && e.status == c.files[e.file].status
  }

  ghost predicate Log(c: Config, s: State)
    requires |s.phases| == |c.files|
  {
    && Detected(s.events) == multiset(AnnouncedFiles(c, s))
    && (forall i :: 0 <= i < |s.events| ==> GoodDetection(c, s.events[i]))
    && s.events != [] && s.events[0] == Start
    && (forall i :: 0 <= i < |s.events| ==> (s.events[i].Completed? <==> s.completed && i == |s.events| - 1))
    && (s.completed ==> s.events[|s.events| - 1] == Completed(s.malware, s.suspicious, s.scanned))
  }

  lemma KeepLog(c: Config, s: State, a: Action)
    requires |s.phases| == |c.files| && Enabled(c, s, a) && Shape(c, s) && Log(c, s)
    requires a.Work? && s.phases[a.i].Measuring? ==> s.toScan > 0
    ensures |Apply(c, s, a).phases| == |c.files| && Log(c, Apply(c, s, a))
  {
    if a.Work? {
      WorkLog(c, s, a.i, a.now);
    } else {
      var t := Apply(c, s, a);
      assert AnnouncedFiles(c, t) == AnnouncedFiles(c, s);
      if a.Complete? {
        DetectedSnoc(s.events, Completed(s.malware, s.suspicious, s.scanned));
      }
    }
  }

  lemma WorkLog(c: Config, s: State, i: nat, now: int)
    requires |s.phases| == |c.files| && Enabled(c, s, Work(i, now)) && Shape(c, s) && Log(c, s)
    requires s.phases[i].Measuring? ==> s.toScan > 0
    ensures |Worked(c, s, i, now).phases| == |c.files| && Log(c, Worked(c, s, i, now))
  {
    var t := Worked(c, s, i, now);
    WorkMoves(c, s, i, now);
    WorkEvents(c, s, i, now);
    if t.events == s.events {
      assert AnnouncedFiles(c, t) == AnnouncedFiles(c, s);
    } else {
      MovedLog(c, s, t, i, t.events[|s.events|]);
    }
  }

  lemma WorkEvents(c: Config, s: State, i: nat, now: int)
    requires |s.phases| == |c.files| && Enabled(c, s, Work(i, now))
    ensures var t := Worked(c, s, i, now);
            if s.phases[i].Started? && Bad(c.files[i]) then
              t.events == s.events + [Detection(i, c.files[i].path, c.files[i].status)]
            else t.events == s.events || exists e: Event :: e.Progress? && t.events == s.events + [e]
  {
  }

  lemma MovedLog(c: Config, s: State, t: State, i: nat, e: Event)
    requires |s.phases| == |c.files| == |t.phases| && Log(c, s) && Moved(c, s, t, i)
    requires !s.completed && t.events == s.events + [e]
    requires if s.phases[i].Started? && Bad(c.files[i]) then e == Detection(i, c.files[i].path, c.files[i].status)
             else e.Progress?
    ensures Log(c, t)
  {
    MovedDetected(c, s, t, i, e);
    MovedEvents(c, s, t, e);
  }

  lemma MovedDetected(c: Config, s: State, t: State, i: nat, e: Event)
    requires |s.phases| == |c.files| == |t.phases| && Moved(c, s, t, i)
    requires Detected(s.events) == multiset(AnnouncedFiles(c, s)) && t.events == s.events + [e]
    requires if s.phases[i].Started? && Bad(c.files[i]) then e == Detection(i, c.files[i].path, c.files[i].status)
             else e.Progress?
    ensures Detected(t.events) == multiset(AnnouncedFiles(c, t))
  {
    DetectedSnoc(s.events, e);
    if e.Detection? {
      assert AnnouncedFiles(c, t) == AnnouncedFiles(c, s) + {i};
      assert i !in AnnouncedFiles(c, s);
    } else {
      assert AnnouncedFiles(c, t) == AnnouncedFiles(c, s);
    }
  }

  lemma MovedEvents(c: Config, s: State, t: State, e: Event)
    requires |s.phases| == |c.files| == |t.phases| && Log(c, s) && !s.completed && !t.completed
    requires t.events == s.events + [e] && GoodDetection(c, e) && !e.Completed?
    ensures forall k :: 0 <= k < |t.events| ==> GoodDetection(c, t.events[k]) && !t.events[k].Completed?
    ensures t.events != [] && t.events[0] == Start
  {
    forall k | 0 <= k < |t.events| ensures GoodDetection(c, t.events[k]) && !t.events[k].Completed? {
      if k < |s.events| {
        assert t.events[k] == s.events[k];
      }
    }
  }

  // ---------------------------------------------------------------------
  // Every run
  // ---------------------------------------------------------------------

  ghost predicate Inv(c: Config, s: State) {
    |s.phases| == |c.files| && Shape(c, s) && Counters(c, s) && Values(c, s) && Log(c, s)
  }

  lemma InitInv(c: Config)
    ensures Inv(c, Init(c))
  {
    var s := Init(c);
    assert CountedFiles(s) == {} && TalliedFiles(c, s, Malware) == {} && TalliedFiles(c, s, Suspicious) == {};
    assert AnnouncedFiles(c, s) == {};
    assert [Start][..0] == [];
  }

  lemma StepInv(c: Config, s: State, a: Action)
    requires Inv(c, s) && Enabled(c, s, a)
    ensures Inv(c, Apply(c, s, a))
  {
    assert a.Work? ==> Local(s, s.phases[a.i]);
    KeepShape(c, s, a);
    KeepCounters(c, s, a);
    DetectedAtMostScanned(c, s);
    KeepValues(c, s, a);
    KeepLog(c, s, a);
  }

  lemma {:induction false} RunInv(c: Config, s: State, actions: seq<Action>)
    requires Inv(c, s) && Run(c, s, actions)
    ensures Inv(c, End(c, s, actions))
    decreases |actions|
  {
    if actions != [] {
      StepInv(c, s, actions[0]);
      RunInv(c, Apply(c, s, actions[0]), actions[1..]);
    }
  }

  /** The state at the end of a run of the whole scan. */
  function Scan(c: Config, actions: seq<Action>): State
    requires Run(c, Init(c), actions)
  {
    End(c, Init(c), actions)
  }

  /**
    In every interleaving, at every moment: the detected files are at most the
    scanned ones, also in every progress event though its counters are read one
    by one; every progress is a percentage; no file is announced twice.
   */
  lemma AlwaysConsistent(c: Config, actions: seq<Action>)
    requires Run(c, Init(c), actions)
    ensures var s := Scan(c, actions);
            && s.malware + s.suspicious <= s.scanned
            && (forall i :: 0 <= i < |s.events| && s.events[i].Progress? ==>
                  && 0 <= s.events[i].progress <= 100
                  && s.events[i].malware + s.events[i].suspicious <= s.events[i].scanned)
            && (forall i: nat :: Detected(s.events)[i] <= 1)
            && (forall i :: 0 <= i < |s.phases| && s.phases[i].Measuring? ==> s.toScan > 0)
  {
    InitInv(c);
    RunInv(c, Init(c), actions);
    var s := Scan(c, actions);
    DetectedAtMostScanned(c, s);
    assert forall i :: 0 <= i < |s.events| ==> GoodEvent(s.events[i]);
    assert forall i :: 0 <= i < |s.phases| ==> Local(s, s.phases[i]);
  }

  /** The files that are scanned: all those visited, but a pool skips those without a path. */
  ghost function ScannedFiles(c: Config): set<nat> {
    set i: nat | i < |c.files| && !(c.threaded && c.files[i].path.None?)
  }

  ghost function FilesWith(c: Config, status: FileStatus): set<nat> {
    set i: nat | i < |c.files| && c.files[i].status == status
  }

  /**
    When the completed event has been sent it is the last event, its totals are
    the numbers of files scanned and of those with each status, and every file
    found malicious or suspicious has been announced exactly once.
   */
  lemma TotalsAtCompletion(c: Config, actions: seq<Action>)
    requires Possible(c) && Run(c, Init(c), actions) && Scan(c, actions).completed
    ensures var s := Scan(c, actions);
            && s.events != [] && s.events[|s.events| - 1] == Completed(s.malware, s.suspicious, s.scanned)
            && s.scanned == |ScannedFiles(c)|
            && s.malware == |FilesWith(c, Malware)| && s.suspicious == |FilesWith(c, Suspicious)|
            && Detected(s.events) == multiset(FilesWith(c, Malware) + FilesWith(c, Suspicious))
            && |Detected(s.events)| == s.malware + s.suspicious
            && forall i :: 0 <= i < |s.events| - 1 ==> !s.events[i].Completed?
  {
    InitInv(c);
    RunInv(c, Init(c), actions);
    var s := Scan(c, actions);
    AtCompletion(c, s);
  }

  lemma AtCompletion(c: Config, s: State)
    requires Possible(c) && |s.phases| == |c.files| && s.completed && Shape(c, s) && Counters(c, s) && Log(c, s)
    ensures s.scanned == |ScannedFiles(c)| && s.malware == |FilesWith(c, Malware)| && s.suspicious == |FilesWith(c, Suspicious)|
    ensures Detected(s.events) == multiset(FilesWith(c, Malware) + FilesWith(c, Suspicious))
    ensures |Detected(s.events)| == s.malware + s.suspicious
  {
    assert forall i :: 0 <= i < |s.phases| ==> Over(s.phases[i]);
    AllScanned(c, s);
    AllTallied(c, s, Malware);
    AllTallied(c, s, Suspicious);
    AllAnnounced(c, s);
    assert FilesWith(c, Malware) !! FilesWith(c, Suspicious);
  }

  lemma AllScanned(c: Config, s: State)
    requires |s.phases| == |c.files| && Shape(c, s) && s.handed == |c.files|
    requires forall i :: 0 <= i < |s.phases| ==> Over(s.phases[i])
    ensures CountedFiles(s) == ScannedFiles(c)
  {
    forall i: nat | i < |c.files| ensures i in CountedFiles(s) <==> i in ScannedFiles(c) {
      assert Over(s.phases[i]);
    }
  }

  lemma AllAnnounced(c: Config, s: State)
    requires Possible(c) && |s.phases| == |c.files| && Shape(c, s) && s.handed == |c.files|
    requires forall i :: 0 <= i < |s.phases| ==> Over(s.phases[i])
    ensures AnnouncedFiles(c, s) == FilesWith(c, Malware) + FilesWith(c, Suspicious)
  {
    forall i: nat | i < |c.files|
      ensures i in AnnouncedFiles(c, s) <==> i in FilesWith(c, Malware) + FilesWith(c, Suspicious)
    {
      assert Over(s.phases[i]);
    }
  }

  lemma AllTallied(c: Config, s: State, status: FileStatus)
    requires Possible(c) && |s.phases| == |c.files| && Shape(c, s) && s.handed == |c.files|
    requires forall i :: 0 <= i < |s.phases| ==> Over(s.phases[i])
    requires status != InternalError
    ensures TalliedFiles(c, s, status) == FilesWith(c, status)
  {
    forall i: nat | i < |c.files| && c.files[i].status == status ensures s.phases[i].Done? {
      assert Over(s.phases[i]);
    }
  }

  /** After the completed event no event is sent and no counter changes. */
  lemma {:induction false} NothingAfterCompleted(c: Config, s: State, actions: seq<Action>)
    requires Inv(c, s) && s.completed && Run(c, s, actions)
    ensures var t := End(c, s, actions);
            t.completed && t.events == s.events
            && (t.scanned, t.malware, t.suspicious) == (s.scanned, s.malware, s.suspicious)
    decreases |actions|
  {
    if actions != [] {
      assert forall i :: 0 <= i < |s.phases| ==> Over(s.phases[i]);
      StepInv(c, s, actions[0]);
      NothingAfterCompleted(c, Apply(c, s, actions[0]), actions[1..]);
    }
  }

  // ---------------------------------------------------------------------
  // The pool
  // ---------------------------------------------------------------------

  /** At most MAX_THREADS files are in flight, and no file is taken before one that was handed over earlier. */
  ghost predicate Pooled(s: State) {
    && |FilesInFlight(s)| <= MAX_THREADS
    && forall i, j :: 0 <= j < i < |s.phases| && s.phases[j].Queued? ==> s.phases[i].Idle? || s.phases[i].Skipped? || s.phases[i].Queued?
  }

  lemma StepPooled(c: Config, s: State, a: Action)
    requires Inv(c, s) && Pooled(s) && Enabled(c, s, a)
    ensures Pooled(Apply(c, s, a))
  {
    if a.Work? {
      assert Local(s, s.phases[a.i]);
      WorkMoves(c, s, a.i, a.now);
      TakePooled(c, s, a.i, a.now);
    } else {
      assert FilesInFlight(Apply(c, s, a)) == FilesInFlight(s);
    }
  }

  lemma TakePooled(c: Config, s: State, i: nat, now: int)
    requires Inv(c, s) && Pooled(s) && Enabled(c, s, Work(i, now)) && Moved(c, s, Worked(c, s, i, now), i)
    ensures Pooled(Worked(c, s, i, now))
  {
    if s.phases[i].Queued? && !c.threaded {
      NoneInFlight(c, s, i);
    }
    TakeInFlight(c, s, Worked(c, s, i, now), i);
    TakeInOrder(c, s, Worked(c, s, i, now), i);
  }

  /** The walk itself scans one file after the other. */
  lemma NoneInFlight(c: Config, s: State, i: nat)
    requires Inv(c, s) && !c.threaded && i < |s.phases| && s.phases[i].Queued?
    ensures FilesInFlight(s) == {}
  {
    assert i == s.handed - 1;
  }

  lemma TakeInFlight(c: Config, s: State, t: State, i: nat)
    requires |s.phases| == |c.files| && Pooled(s) && Moved(c, s, t, i)
    requires s.phases[i].Queued? ==> |FilesInFlight(s)| < MAX_THREADS
    ensures |FilesInFlight(t)| <= MAX_THREADS
  {
    if s.phases[i].Queued? {
      SubsetSize(FilesInFlight(t), FilesInFlight(s) + {i});
    } else {
      SubsetSize(FilesInFlight(t), FilesInFlight(s));
    }
  }

  lemma TakeInOrder(c: Config, s: State, t: State, i: nat)
    requires Inv(c, s) && Pooled(s) && Moved(c, s, t, i)
    requires s.phases[i].Queued? && c.threaded ==> CanTake(s, i)
    ensures forall k, j :: 0 <= j < k < |t.phases| && t.phases[j].Queued? ==>
                             t.phases[k].Idle? || t.phases[k].Skipped? || t.phases[k].Queued?
  {
  }

  lemma {:induction false} RunPooled(c: Config, s: State, actions: seq<Action>)
    requires Inv(c, s) && Pooled(s) && Run(c, s, actions)
    ensures Pooled(End(c, s, actions))
    decreases |actions|
  {
    if actions != [] {
      StepInv(c, s, actions[0]);
      StepPooled(c, s, actions[0]);
      RunPooled(c, Apply(c, s, actions[0]), actions[1..]);
    }
  }

  /** In every interleaving, with a pool or without. */
  lemma AtMostMaxThreads(c: Config, actions: seq<Action>)
    requires Run(c, Init(c), actions)
    ensures Pooled(Scan(c, actions))
  {
    InitInv(c);
    assert FilesInFlight(Init(c)) == {};
    RunPooled(c, Init(c), actions);
  }

  // ---------------------------------------------------------------------
  // Every scan completes
  // ---------------------------------------------------------------------

  function Left(p: Phase): nat {
    match p
    case Idle => 12
    case Queued => 11
    case Started => 10
    case Announced => 9
    case Counted => 8
    case Tallied => 7
    case Measuring => 6
    case Measured(_) => 5
    case Sending(_, _) => 4
    case SawMalware(_, _, _) => 3
    case SawSuspicious(_, _, _, _) => 2
    case Sent(_, _) => 1
    case _ => 0
  }

  function Remaining(ps: seq<Phase>): nat {
    if ps == [] then 0 else Remaining(ps[..|ps| - 1]) + Left(ps[|ps| - 1])
  }

  lemma {:induction false} RemainingUpdate(ps: seq<Phase>, i: nat, p: Phase)
    requires i < |ps|
    ensures Remaining(ps[i := p]) == Remaining(ps) - Left(ps[i]) + Left(p)
  {
    var n := |ps| - 1;
    if i < n {
      RemainingUpdate(ps[..n], i, p);
      assert ps[i := p][..n] == ps[..n][i := p];
    } else {
      assert ps[i := p][..n] == ps[..n];
    }
  }

  function Steps(s: State): nat {
    Remaining(s.phases) + (if s.counting then 1 else 0) + (if s.completed then 0 else 1)
  }

  lemma StepDecreases(c: Config, s: State, a: Action)
    requires Inv(c, s) && Enabled(c, s, a)
    ensures Steps(Apply(c, s, a)) < Steps(s)
  {
    if a.Hand? {
      RemainingUpdate(s.phases, s.handed, if c.threaded && c.files[s.handed].path.None? then Skipped else Queued);
    } else if a.Work? {
      assert Local(s, s.phases[a.i]);
      WorkMoves(c, s, a.i, a.now);
      RemainingUpdate(s.phases, a.i, Apply(c, s, a).phases[a.i]);
      WorkLeft(c, s, a.i, a.now);
    }
  }

  lemma WorkLeft(c: Config, s: State, i: nat, now: int)
    requires |s.phases| == |c.files| && Enabled(c, s, Work(i, now))
    requires s.phases[i].Measuring? ==> s.toScan > 0
    ensures var t := Worked(c, s, i, now); |t.phases| == |s.phases| && Left(t.phases[i]) < Left(s.phases[i])
  {
  }

  lemma {:induction false} FirstQueued(s: State, i: nat) returns (k: nat)
    requires i < |s.phases| && s.phases[i].Queued?
    ensures k <= i && s.phases[k].Queued? && forall j :: 0 <= j < k ==> !s.phases[j].Queued?
  {
    if j: nat :| j < i && s.phases[j].Queued? {
      k := FirstQueued(s, j);
    } else {
      k := i;
    }
  }

  /** Until the scan is completed some thread can take a step. */
  lemma NotStuck(c: Config, s: State)
    requires Inv(c, s) && !s.completed
    ensures exists a :: Enabled(c, s, a)
  {
    if i: nat :| i < |s.phases| && InFlight(s.phases[i]) {
      assert Enabled(c, s, Work(i, 0));
    } else if i: nat :| i < |s.phases| && s.phases[i].Queued? {
      var k := FirstQueued(s, i);
      assert FilesInFlight(s) == {};
      assert Enabled(c, s, Work(k, 0));
    } else if s.handed < |c.files| {
      if !c.threaded && s.handed > 0 {
        var last := s.phases[s.handed - 1];
        assert Over(last) && !last.Skipped?;
      }
      assert Enabled(c, s, Hand);
    } else {
      assert Enabled(c, s, Complete);
    }
  }

  /** Every run is finite, and one that cannot be continued has completed the scan. */
  lemma {:induction false} EveryScanCompletes(c: Config, s: State, actions: seq<Action>)
    requires Inv(c, s) && Run(c, s, actions)
    ensures |actions| <= Steps(s)
    ensures !(exists a :: Enabled(c, End(c, s, actions), a)) ==> End(c, s, actions).completed
    decreases |actions|
  {
    if actions == [] {
      if !s.completed {
        NotStuck(c, s);
      }
    } else {
      StepInv(c, s, actions[0]);
      StepDecreases(c, s, actions[0]);
      EveryScanCompletes(c, Apply(c, s, actions[0]), actions[1..]);
    }
  }

}

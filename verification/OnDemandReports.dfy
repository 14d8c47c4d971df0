/**
  Which progress events an on-demand scan sends, and what they show
  (update_progress and must_send_progress_event of libcore/ondemand.c), and how
  many files its pool scans at once.
 */
module OnDemandReports {
  import opened Wrappers
  import opened FileStatus
  import opened OnDemand
  import opened OnDemandProgress

  // ---------------------------------------------------------------------
  // One step
  // ---------------------------------------------------------------------

  /** p is the greatest percentage that is not above scanned of toScan, at most 100. */
  predicate Shown(p: int, scanned: nat, toScan: nat) {
    && 0 <= p <= 100 && p * toScan <= 100 * scanned
    && forall q: int :: 0 <= q <= 100 && q * toScan <= 100 * scanned ==> q <= p
  }

  lemma PercentIsShown(scanned: nat, toScan: nat)
    requires toScan > 0
    ensures Shown(Percent(scanned, toScan), scanned, toScan)
  {
    var p := Percent(scanned, toScan);
    Quotient(100 * scanned, toScan, p);
    forall q: int | 0 <= q <= 100 && q * toScan <= 100 * scanned ensures q <= p {
      Quotient(100 * scanned, toScan, q);
    }
  }

  lemma Quotient(a: nat, n: nat, q: int)
    requires n > 0
    ensures q * n <= a <==> q <= a / n
  {
    var d := a / n;
    assert a == d * n + a % n;
    if q <= d {
      Times(q, d, n);
    } else {
      Times(d + 1, q, n);
      assert (d + 1) * n == d * n + n;
    }
  }

  lemma Times(a: int, b: int, n: nat)
    requires a <= b
    ensures a * n <= b * n
  {
    assert (b - a) * n >= 0;
  }

  /** The event of this progress at time now is one too many: its progress was shown less than a period ago. */
  predicate TooSoon(c: Config, s: State, p: int, now: int) {
    p == s.lastValue && s.lastTime != 0 && now - s.lastTime < c.period
  }

  /**
    Each step of the scan of a file.  A malicious or suspicious file with a path
    is announced, and every file is counted.  Then the file is measured if
    progress is wanted and the count is known; the progress is the percentage
    shown; no event is sent for a file without a path, nor too soon after the same
    progress; any other file sends one event, which then is the last one.
   */
  lemma StepReports(c: Config, s: State, i: nat, now: int)
    requires Inv(c, s) && Enabled(c, s, Work(i, now))
    ensures var f, t := c.files[i], Worked(c, s, i, now);
            match s.phases[i]
            case Tallied =>
              t == s.(phases := s.phases[i := if c.period > 0 && s.toScan > 0 then Measuring else Done])
            case Measuring =>
              exists p :: Shown(p, s.scanned, s.toScan) && t == s.(phases := s.phases[i := Measured(p)])
            case Measured(p) =>
              t == s.(phases := s.phases[i := if f.path.None? || TooSoon(c, s, p, now) then Done else Sending(p, now)])
            case SawSuspicious(p, time, m, n) =>
              t == s.(phases := s.phases[i := Sent(p, time)], events := s.events + [Progress(f.path, p, m, n, s.scanned)])
            case Sent(p, time) => t == s.(phases := s.phases[i := Done], lastTime := time, lastValue := p)
            case Sending(p, time) => t == s.(phases := s.phases[i := SawMalware(p, time, s.malware)])
            case SawMalware(p, time, m) => t == s.(phases := s.phases[i := SawSuspicious(p, time, m, s.suspicious)])
            case Queued => t == s.(phases := s.phases[i := Started])
            case Started =>
              t == s.(phases := s.phases[i := Announced],
                      events := s.events + if f.path.Some? && (f.status == Malware || f.status == Suspicious)
                                           then [Detection(i, f.path, f.status)] else [])
            case Announced => t == s.(phases := s.phases[i := Counted], scanned := s.scanned + 1)
            case Counted =>
              t == s.(phases := s.phases[i := Tallied],
                      malware := s.malware + if f.status == Malware then 1 else 0,
                      suspicious := s.suspicious + if f.status == Suspicious then 1 else 0)
            case _ => true
  {
    assert Local(s, s.phases[i]);
    if s.phases[i].Measuring? {
      PercentIsShown(s.scanned, s.toScan);
    }
  }

  // ---------------------------------------------------------------------
  // Every run
  // ---------------------------------------------------------------------

  /** The number of progress events with this path and progress. */
  function Shows(events: seq<Event>, path: Option<string>, v: int): nat {
    if events == [] then 0
    else
      var e := events[|events| - 1];
      Shows(events[..|events| - 1], path, v) + (if e.Progress? && e.path == path && e.progress == v then 1 else 0)
  }

  lemma ShowsSnoc(events: seq<Event>, e: Event, path: Option<string>, v: int)
    ensures Shows(events + [e], path, v) == Shows(events, path, v) + if e.Progress? && e.path == path && e.progress == v then 1 else 0
  {
    assert (events + [e])[..|events|] == events;
  }

  /** Whether the scan of a file has decided to send such an event, and not yet sent it. */
  function Pending(f: File, p: Phase, path: Option<string>, v: int): nat {
    if f.path == path && (p.Sending? || p.SawMalware? || p.SawSuspicious?) && p.progress == v then 1 else 0
  }

  function AllPending(files: seq<File>, ps: seq<Phase>, path: Option<string>, v: int): nat
    requires |files| == |ps|
    decreases |ps|
  {
    if ps == [] then 0
    else
      var n := |ps| - 1;
      AllPending(files[..n], ps[..n], path, v) + Pending(files[n], ps[n], path, v)
  }

  lemma {:induction false} PendingUpdate(files: seq<File>, ps: seq<Phase>, i: nat, p: Phase, path: Option<string>, v: int)
    requires i < |files| == |ps|
    ensures AllPending(files, ps[i := p], path, v)
         == AllPending(files, ps, path, v) - Pending(files[i], ps[i], path, v) + Pending(files[i], p, path, v)
    decreases |ps|
  {
    var n := |ps| - 1;
    if i < n {
      PendingUpdate(files[..n], ps[..n], i, p, path, v);
      assert ps[i := p][..n] == ps[..n][i := p];
    } else {
      assert ps[i := p][..n] == ps[..n];
    }
  }

  lemma {:induction false} NothingPending(files: seq<File>, ps: seq<Phase>, path: Option<string>, v: int)
    requires |files| == |ps|
    requires forall i :: 0 <= i < |ps| ==> ps[i].Idle? || Over(ps[i])
    ensures AllPending(files, ps, path, v) == 0
    decreases |ps|
  {
    if ps != [] {
      var n := |ps| - 1;
      NothingPending(files[..n], ps[..n], path, v);
    }
  }

  /** This step has measured this progress for a file of this path, and it is not too soon to show it. */
  predicate Decides(c: Config, s: State, a: Action, path: Option<string>, v: int)
    requires |s.phases| == |c.files| && Enabled(c, s, a)
  {
    && a.Work? && s.phases[a.i] == Measured(v) && c.files[a.i].path == path
    && path.Some? && !TooSoon(c, s, v, a.now)
  }

  function Decisions(c: Config, s: State, actions: seq<Action>, path: Option<string>, v: int): nat
    requires |s.phases| == |c.files| && Run(c, s, actions)
    decreases |actions|
  {
    if actions == [] then 0
    else
      ApplyShape(c, s, actions[0]);
      (if Decides(c, s, actions[0], path, v) then 1 else 0)
      + Decisions(c, Apply(c, s, actions[0]), actions[1..], path, v)
  }

  /** The events sent and those about to be sent. */
  function Balance(c: Config, s: State, path: Option<string>, v: int): nat
    requires |s.phases| == |c.files|
  {
    Shows(s.events, path, v) + AllPending(c.files, s.phases, path, v)
  }

  lemma WorkBalance(c: Config, s: State, i: nat, now: int, path: Option<string>, v: int)
    requires Inv(c, s) && Enabled(c, s, Work(i, now))
    ensures |Worked(c, s, i, now).phases| == |c.files|
    ensures Balance(c, Worked(c, s, i, now), path, v)
         == Balance(c, s, path, v) + if Decides(c, s, Work(i, now), path, v) then 1 else 0
  {
    var t := Worked(c, s, i, now);
    WorkShape(c, s, i, now);
    PendingUpdate(c.files, s.phases, i, t.phases[i], path, v);
    WorkShows(c, s, i, now, path, v);
  }

  lemma WorkShape(c: Config, s: State, i: nat, now: int)
    requires Inv(c, s) && Enabled(c, s, Work(i, now))
    ensures var t := Worked(c, s, i, now); |t.phases| == |c.files| && t.phases == s.phases[i := t.phases[i]]
  {
    assert Local(s, s.phases[i]);
    WorkMoves(c, s, i, now);
  }

  /** What a step adds to the events is what it takes from the pending ones, but for its decision. */
  lemma WorkShows(c: Config, s: State, i: nat, now: int, path: Option<string>, v: int)
    requires Inv(c, s) && Enabled(c, s, Work(i, now))
    ensures var f, t := c.files[i], Worked(c, s, i, now);
            && |t.phases| == |c.files|
            && Shows(t.events, path, v) + Pending(f, t.phases[i], path, v)
               == Shows(s.events, path, v) + Pending(f, s.phases[i], path, v)
                  + if Decides(c, s, Work(i, now), path, v) then 1 else 0
  {
    if s.phases[i].SawSuspicious? {
      SendStep(c, s, i, now, path, v);
    } else if s.phases[i].Measured? {
      DecideStep(c, s, i, now, path, v);
    } else {
      QuietStep(c, s, i, now, path, v);
    }
  }

  lemma SendStep(c: Config, s: State, i: nat, now: int, path: Option<string>, v: int)
    requires Inv(c, s) && Enabled(c, s, Work(i, now)) && s.phases[i].SawSuspicious?
    ensures var f, t := c.files[i], Worked(c, s, i, now);
            && |t.phases| == |c.files| && Pending(f, t.phases[i], path, v) == 0
            && Shows(t.events, path, v) == Shows(s.events, path, v) + Pending(f, s.phases[i], path, v)
  {
    var p := s.phases[i];
    ShowsSnoc(s.events, Progress(c.files[i].path, p.progress, p.malware, p.suspicious, s.scanned), path, v);
  }

  lemma DecideStep(c: Config, s: State, i: nat, now: int, path: Option<string>, v: int)
    requires Inv(c, s) && Enabled(c, s, Work(i, now)) && s.phases[i].Measured?
    ensures var f, t := c.files[i], Worked(c, s, i, now);
            && |t.phases| == |c.files| && Shows(t.events, path, v) == Shows(s.events, path, v)
            && Pending(f, s.phases[i], path, v) == 0
            && Pending(f, t.phases[i], path, v) == if Decides(c, s, Work(i, now), path, v) then 1 else 0
  {
    assert Local(s, s.phases[i]);
  }

  lemma QuietStep(c: Config, s: State, i: nat, now: int, path: Option<string>, v: int)
    requires Inv(c, s) && Enabled(c, s, Work(i, now)) && !s.phases[i].SawSuspicious? && !s.phases[i].Measured?
    ensures var f, t := c.files[i], Worked(c, s, i, now);
            && |t.phases| == |c.files| && Shows(t.events, path, v) == Shows(s.events, path, v)
            && Pending(f, t.phases[i], path, v) == Pending(f, s.phases[i], path, v)
  {
    assert Local(s, s.phases[i]);
    if s.phases[i].Started? && Bad(c.files[i]) {
      ShowsSnoc(s.events, Detection(i, c.files[i].path, c.files[i].status), path, v);
    }
  }

  lemma OtherBalance(c: Config, s: State, a: Action, path: Option<string>, v: int)
    requires Inv(c, s) && Enabled(c, s, a) && !a.Work?
    ensures |Apply(c, s, a).phases| == |c.files| && Balance(c, Apply(c, s, a), path, v) == Balance(c, s, path, v)
  {
    if a.Hand? {
      PendingUpdate(c.files, s.phases, s.handed, Apply(c, s, a).phases[s.handed], path, v);
    } else if a.Complete? {
      ShowsSnoc(s.events, Completed(s.malware, s.suspicious, s.scanned), path, v);
    }
  }

  lemma {:induction false} RunBalance(c: Config, s: State, actions: seq<Action>, path: Option<string>, v: int)
    requires Inv(c, s) && Run(c, s, actions)
    ensures Balance(c, End(c, s, actions), path, v) == Balance(c, s, path, v) + Decisions(c, s, actions, path, v)
    decreases |actions|
  {
    if actions != [] {
      var a := actions[0];
      if a.Work? {
        WorkBalance(c, s, a.i, a.now, path, v);
      } else {
        OtherBalance(c, s, a, path, v);
      }
      StepInv(c, s, a);
      RunBalance(c, Apply(c, s, a), actions[1..], path, v);
    }
  }

  lemma NothingShown(c: Config, path: Option<string>, v: int)
    ensures Balance(c, Init(c), path, v) == 0
  {
    NothingPending(c.files, Init(c).phases, path, v);
    ShowsSnoc([], Start, path, v);
    assert [] + [Start] == [Start];
  }

  /**
    A completed scan has sent, for every path and every progress, exactly as many
    events as files of that path were measured at that progress and not too soon.
   */
  lemma OneEventEach(c: Config, actions: seq<Action>, path: Option<string>, v: int)
    requires Run(c, Init(c), actions) && Scan(c, actions).completed
    ensures Shows(Scan(c, actions).events, path, v) == Decisions(c, Init(c), actions, path, v)
  {
    InitInv(c);
    RunInv(c, Init(c), actions);
    RunBalance(c, Init(c), actions, path, v);
    NothingShown(c, path, v);
    NothingPending(c.files, Scan(c, actions).phases, path, v);
  }

  // ---------------------------------------------------------------------
  // The scan of one file
  // ---------------------------------------------------------------------

  /** No progress event but one of 100 percent for this path. */
  ghost predicate OnlyShows(events: seq<Event>, path: Option<string>, n: nat) {
    && Shows(events, path, 100) == n
    && forall q, v :: q != path || v != 100 ==> Shows(events, q, v) == 0
  }

  lemma OnlyShowsSnoc(events: seq<Event>, e: Event, path: Option<string>, n: nat)
    requires OnlyShows(events, path, n) && (e.Progress? ==> e.path == path && e.progress == 100)
    ensures OnlyShows(events + [e], path, if e.Progress? then n + 1 else n)
  {
    ShowsSnoc(events, e, path, 100);
    forall q, v | q != path || v != 100 ensures Shows(events + [e], q, v) == 0 {
      ShowsSnoc(events, e, q, v);
    }
  }

  /** How far the events of a plain file are. */
  ghost predicate PlainShown(c: Config, s: State)
    requires |c.files| == |s.phases| == 1
  {
    var p := s.phases[0];
    && s.toScan == 1 && !s.counting && !p.Skipped?
    && (Held(p).Some? ==> Held(p).value == 100)
    && (p.Sent? || p.Done? || p.Sending? || p.SawMalware? || p.SawSuspicious? || s.lastValue == PROGRESS_UNKNOWN)
    && OnlyShows(s.events, c.files[0].path, if p.Sent? || p.Done? then 1 else 0)
  }

  lemma PlainStep(c: Config, s: State, a: Action)
    requires Inv(c, s) && |c.files| == 1 && c.files[0].path.Some? && c.period > 0 && PlainShown(c, s) && Enabled(c, s, a)
    ensures |Apply(c, s, a).phases| == 1 && PlainShown(c, Apply(c, s, a))
  {
    match a
    case Work(_, now) => PlainWork(c, s, now);
    case Complete => PlainComplete(c, s);
    case _ =>
  }

  lemma PlainComplete(c: Config, s: State)
    requires Inv(c, s) && |c.files| == 1 && PlainShown(c, s) && Enabled(c, s, Complete)
    ensures |Apply(c, s, Complete).phases| == 1 && PlainShown(c, Apply(c, s, Complete))
  {
    assert Over(s.phases[0]);
    OnlyShowsSnoc(s.events, Completed(s.malware, s.suspicious, s.scanned), c.files[0].path, 1);
  }

  lemma PlainWork(c: Config, s: State, now: int)
    requires Inv(c, s) && |c.files| == 1 && c.files[0].path.Some? && c.period > 0 && PlainShown(c, s)
    requires Enabled(c, s, Work(0, now))
    ensures |Worked(c, s, 0, now).phases| == 1 && PlainShown(c, Worked(c, s, 0, now))
  {
    var t := Worked(c, s, 0, now);
    WorkShape(c, s, 0, now);
    WorkMoves(c, s, 0, now);
    StepReports(c, s, 0, now);
    if s.phases[0].Measuring? {
      assert CountedFiles(s) == {0};
      assert Shown(100, s.scanned, s.toScan);
    } else if t.events != s.events {
      OnlyShowsSnoc(s.events, t.events[|s.events|], c.files[0].path, 0);
    }
  }

  lemma {:induction false} PlainRun(c: Config, s: State, actions: seq<Action>)
    requires Inv(c, s) && |c.files| == 1 && c.files[0].path.Some? && c.period > 0 && PlainShown(c, s) && Run(c, s, actions)
    ensures PlainShown(c, End(c, s, actions))
    decreases |actions|
  {
    if actions != [] {
      PlainStep(c, s, actions[0]);
      StepInv(c, s, actions[0]);
      PlainRun(c, Apply(c, s, actions[0]), actions[1..]);
    }
  }

  /** The completed scan of a plain file, with progress wanted, has shown 100 percent once, and nothing else. */
  lemma PlainFileIsShown(c: Config, actions: seq<Action>)
    requires c.root.PlainFile? && |c.files| == 1 && c.files[0].path.Some? && c.period > 0
    requires Run(c, Init(c), actions) && Scan(c, actions).completed
    ensures Shows(Scan(c, actions).events, c.files[0].path, 100) == 1
    ensures forall path, v :: path != c.files[0].path || v != 100 ==> Shows(Scan(c, actions).events, path, v) == 0
  {
    InitInv(c);
    assert OnlyShows([], c.files[0].path, 0);
    OnlyShowsSnoc([], Start, c.files[0].path, 0);
    assert [] + [Start] == [Start];
    PlainRun(c, Init(c), actions);
    RunInv(c, Init(c), actions);
    assert Over(Scan(c, actions).phases[0]);
  }

  // ---------------------------------------------------------------------
  // The size of the pool
  // ---------------------------------------------------------------------

  /** All files are handed over, and those below k that are scanned have been started. */
  ghost predicate StartedBelow(c: Config, s: State, k: nat) {
    && k <= |c.files| && |s.phases| == |c.files|
    && forall i :: 0 <= i < |c.files| ==>
         s.phases[i] == if c.files[i].path.None? then Skipped else if i < k then Started else Queued
  }

  function ScannedBelow(c: Config, k: nat): set<nat> {
    set i: nat | i < k && i < |c.files| && c.files[i].path.Some?
  }

  lemma InFlightBelow(c: Config, s: State, k: nat)
    requires StartedBelow(c, s, k)
    ensures FilesInFlight(s) == ScannedBelow(c, k)
  {
  }

  lemma {:induction false} HandAll(c: Config, k: nat) returns (s: State)
    requires c.threaded && k <= |c.files|
    ensures Reachable(c, s) && |s.phases| == |c.files| && s.handed == k && !s.completed
    ensures forall i :: 0 <= i < k ==> s.phases[i] == if c.files[i].path.None? then Skipped else Queued
  {
    if k == 0 {
      ReachableFirst(c);
      s := Init(c);
    } else {
      s := HandAll(c, k - 1);
      ReachableNext(c, s, Hand);
      s := Apply(c, s, Hand);
    }
  }

  lemma ScannedOneMore(c: Config, k: nat)
    requires k < |c.files|
    ensures |ScannedBelow(c, k + 1)| == |ScannedBelow(c, k)| + if c.files[k].path.Some? then 1 else 0
  {
    if c.files[k].path.Some? {
      assert ScannedBelow(c, k + 1) == ScannedBelow(c, k) + {k};
    } else {
      assert ScannedBelow(c, k + 1) == ScannedBelow(c, k);
    }
  }

  lemma {:induction false} StartFiles(c: Config, k: nat) returns (s: State)
    requires c.threaded && k <= |c.files| && |ScannedBelow(c, k)| <= 4
    ensures Reachable(c, s) && StartedBelow(c, s, k)
    decreases k
  {
    if k == 0 {
      s := HandAll(c, |c.files|);
    } else {
      ScannedOneMore(c, k - 1);
      s := StartFiles(c, k - 1);
      InFlightBelow(c, s, k - 1);
      if c.files[k - 1].path.Some? {
        ReachableNext(c, s, Work(k - 1, 0));
        s := Apply(c, s, Work(k - 1, 0));
      }
    }
  }

  /** A place below which exactly n files are scanned. */
  lemma {:induction false} PlaceOf(c: Config, n: nat, k: nat) returns (j: nat)
    requires k <= |c.files| && n <= |ScannedBelow(c, k)|
    ensures j <= k && |ScannedBelow(c, j)| == n
    decreases k
  {
    if |ScannedBelow(c, k)| == n {
      j := k;
    } else {
      assert k == 0 ==> ScannedBelow(c, k) == {};
      ScannedOneMore(c, k - 1);
      j := PlaceOf(c, n, k - 1);
    }
  }

  /** A pool scans as many files at once as there are, up to four and never more. */
  lemma PoolSizeExactly(c: Config, n: nat)
    requires c.threaded && n <= |ScannedFiles(c)|
    ensures (exists actions :: Run(c, Init(c), actions) && |FilesInFlight(Scan(c, actions))| == n) <==> n <= 4
  {
    if n <= 4 {
      assert ScannedBelow(c, |c.files|) == ScannedFiles(c);
      var k := PlaceOf(c, n, |c.files|);
      var s := StartFiles(c, k);
      InFlightBelow(c, s, k);
      var actions :| Run(c, Init(c), actions) && Scan(c, actions) == s;
    }
    forall actions | Run(c, Init(c), actions) ensures |FilesInFlight(Scan(c, actions))| <= 4 {
      AtMostMaxThreads(c, actions);
    }
  }

}

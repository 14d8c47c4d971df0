/**
  The object of libcore/ondemand.c, its fields updated in place, when the scan
  runs without a thread pool.  Its methods are runs of the steps of OnDemand.
 */
module OnDemandScan {
  import opened Wrappers
  import opened FileStatus
  import opened OnDemand
  import opened OnDemandProgress
  import OnDemandReports

  /** The detection event of file i, if it is bad. */
  function Announce(c: Config, s: State, i: nat): State
    requires i < |c.files|
  {
    var f := c.files[i];
    if Bad(f) then s.(events := s.events + [Detection(i, f.path, f.status)]) else s
  }

  function Count(c: Config, s: State, i: nat): State
    requires i < |c.files|
  {
    s.(scanned := s.scanned + 1,
       malware := s.malware + (if c.files[i].status == Malware then 1 else 0),
       suspicious := s.suspicious + (if c.files[i].status == Suspicious then 1 else 0))
  }

  /** The progress event at time now, if progress is wanted and known, and new or old enough. */
  function Report(c: Config, s: State, i: nat, now: int): State
    requires i < |c.files|
  {
    if c.period == 0 || s.toScan == 0 then s
    else
      var path, p := c.files[i].path, Percent(s.scanned, s.toScan);
      if !MustSend(c, s, path, p, now) then s
      else s.(lastTime := now, lastValue := p,
              events := s.events + [Progress(path, p, s.malware, s.suspicious, s.scanned)])
  }

  /**
    No event is sent unless progress is wanted, the count is known and the file
    has a path; nor for the percentage last shown, less than a period before, at a
    time other than 0.  Otherwise one event is sent, with the percentage and the
    counters, and remembered.
   */
  lemma ReportMeaning(c: Config, s: State, i: nat, now: int)
    requires i < |c.files|
    ensures var t, path := Report(c, s, i, now), c.files[i].path;
            if c.period == 0 || s.toScan == 0 || path.None? then t == s
            else exists p :: && OnDemandReports.Shown(p, s.scanned, s.toScan)
                             && t == if p == s.lastValue && s.lastTime != 0 && now - s.lastTime < c.period then s
                                     else s.(lastTime := now, lastValue := p,
                                             events := s.events + [Progress(path, p, s.malware, s.suspicious, s.scanned)])
  {
    if c.period > 0 && s.toScan > 0 {
      OnDemandReports.PercentIsShown(s.scanned, s.toScan);
    }
  }

  /** What the scan of file i leaves, but for the phases. */
  function After(c: Config, s: State, i: nat, now: int): State
    requires i < |c.files|
  {
    Report(c, Count(c, Announce(c, s, i), i), i, now)
  }

  lemma AfterElsewhere(c: Config, s: State, i: nat, now: int, ps: seq<Phase>, k: nat)
    requires i < |c.files|
    ensures After(c, s.(phases := ps, handed := k), i, now) == After(c, s, i, now).(phases := ps, handed := k)
  {
  }

  lemma CountElsewhere(c: Config, s: State, i: nat, ps: seq<Phase>, qs: seq<Phase>)
    requires i < |c.files|
    ensures Count(c, s.(phases := ps), i).(phases := qs) == Count(c, s, i).(phases := qs)
  {
  }

  lemma ReportElsewhere(c: Config, s: State, i: nat, now: int, ps: seq<Phase>, qs: seq<Phase>)
    requires i < |c.files|
    ensures Report(c, s.(phases := ps), i, now).(phases := qs) == Report(c, s, i, now).(phases := qs)
  {
  }

  class OnDemandScan {
    const config: Config
    var scannedCount: nat
    var malwareCount: nat
    var suspiciousCount: nat
    var toScanCount: nat
    var lastProgressTime: int
    var lastProgressValue: int
    var events: seq<Event>
    // how far the walk, each file, the counting thread and the whole scan are
    ghost var handed: nat
    ghost var phases: seq<Phase>
    ghost var counting: bool
    ghost var completed: bool

    ghost function Value(): State
      reads this
    {
      State(handed, phases, scannedCount, malwareCount, suspiciousCount, toScanCount, counting,
            lastProgressTime, lastProgressValue, events, completed)
    }

    ghost predicate Valid()
      reads this
    {
      |phases| == |config.files| && Reachable(config, Value())
    }

    constructor (c: Config)
      ensures Valid() && config == c && Value() == Init(c)
    {
      config := c;
      scannedCount, malwareCount, suspiciousCount := 0, 0, 0;
      toScanCount := if c.root.PlainFile? then 1 else 0;
      lastProgressTime, lastProgressValue := 0, PROGRESS_UNKNOWN;
      events := [Start];
      handed, phases, counting, completed := 0, seq(|c.files|, _ => Idle), c.root.Directory? && c.period != 0, false;
      new;
      ReachableFirst(c);
    }

    method FireDetectionEvent(i: nat, now: int)
      requires Valid() && i < |phases| && phases[i] == Started
      modifies this
      ensures Valid() && Value() == Worked(config, old(Value()), i, now)
      ensures phases == old(phases)[i := Announced] && Value() == Announce(config, old(Value()), i).(phases := phases)
    {
      ReachableNext(config, Value(), Work(i, now));
      if Bad(config.files[i]) {
        events := events + [Detection(i, config.files[i].path, config.files[i].status)];
      }
      phases := phases[i := Announced];
    }

    method CountScanned(i: nat, now: int)
      requires Valid() && i < |phases| && phases[i] == Announced
      modifies this
      ensures Valid() && Value() == Worked(config, old(Value()), i, now)
    {
      ReachableNext(config, Value(), Work(i, now));
      scannedCount := scannedCount + 1;
      phases := phases[i := Counted];
    }

    method CountStatus(i: nat, now: int)
      requires Valid() && i < |phases| && phases[i] == Counted
      modifies this
      ensures Valid() && Value() == Worked(config, old(Value()), i, now)
    {
      ReachableNext(config, Value(), Work(i, now));
      match config.files[i].status {
        case Suspicious => suspiciousCount := suspiciousCount + 1;
        case Malware => malwareCount := malwareCount + 1;
        case _ =>
      }
      phases := phases[i := Tallied];
    }

    // A step that only reads the shared fields.
    ghost method Advance(i: nat, now: int, p: Phase)
      requires Valid() && i < |phases| && InFlight(phases[i])
      requires Worked(config, Value(), i, now) == To(Value(), i, p)
      modifies this`phases
      ensures Valid() && phases == old(phases)[i := p]
    {
      ReachableNext(config, Value(), Work(i, now));
      phases := phases[i := p];
    }

    method ReadCounters(i: nat, progress: int, now: int) returns (malware: nat, suspicious: nat)
      requires Valid() && i < |phases| && phases[i] == Sending(progress, now)
      modifies this`phases
      ensures Valid() && (malware, suspicious) == (malwareCount, suspiciousCount)
      ensures phases == old(phases)[i := SawSuspicious(progress, now, malware, suspicious)]
    {
      malware := malwareCount;
      Advance(i, now, SawMalware(progress, now, malware));
      suspicious := suspiciousCount;
      Advance(i, now, SawSuspicious(progress, now, malware, suspicious));
    }

    method FireProgressEvent(i: nat, progress: int, now: int)
      requires Valid() && i < |phases| && phases[i] == Sending(progress, now)
      modifies this
      ensures Valid() && phases == old(phases)[i := Sent(progress, now)]
      ensures Value() == old(Value()).(phases := phases,
                events := old(events) + [Progress(config.files[i].path, progress, malwareCount, suspiciousCount, scannedCount)])
    {
      var malware, suspicious := ReadCounters(i, progress, now);
      ReachableNext(config, Value(), Work(i, now));
      events := events + [Progress(config.files[i].path, progress, malware, suspicious, scannedCount)];
      phases := phases[i := Sent(progress, now)];
    }

    /** The progress event that is due is sent and remembered. */
    method SendProgress(i: nat, progress: int, now: int)
      requires Valid() && i < |phases| && phases[i] == Sending(progress, now)
      modifies this
      ensures Valid() && phases == old(phases)[i := Done]
      ensures Value() == old(Value()).(phases := phases, lastTime := now, lastValue := progress,
                events := old(events) + [Progress(config.files[i].path, progress, malwareCount, suspiciousCount, scannedCount)])
    {
      FireProgressEvent(i, progress, now);
      ReachableNext(config, Value(), Work(i, now));
      lastProgressTime, lastProgressValue := now, progress;
      phases := phases[i := Done];
    }

    /** Whatever it does is a run of steps. */
    method UpdateProgress(i: nat, now: int)
      requires Valid() && i < |phases| && phases[i] == Tallied
      modifies this
      ensures Valid() && phases == old(phases)[i := Done]
      ensures Value() == Report(config, old(Value()), i, now).(phases := phases)
    {
      if config.period == 0 || toScanCount == 0 {
        Advance(i, now, Done);
        return;
      }
      Advance(i, now, Measuring);
      var progress := 100 * scannedCount / toScanCount;
      if progress > 100 {
        progress := 100;
      }
      Advance(i, now, Measured(progress));
      SendIfDue(i, progress, now);
    }

    method SendIfDue(i: nat, progress: int, now: int)
      requires Valid() && i < |phases| && phases[i] == Measured(progress)
      modifies this
      ensures Valid() && phases == old(phases)[i := Done]
      ensures var path := config.files[i].path;
              if MustSend(config, old(Value()), path, progress, now) then
                Value() == old(Value()).(phases := phases, lastTime := now, lastValue := progress,
                  events := old(events) + [Progress(path, progress, malwareCount, suspiciousCount, scannedCount)])
              else Value() == old(Value()).(phases := phases)
    {
      var path := config.files[i].path;
      if path.Some? && (lastProgressValue == PROGRESS_UNKNOWN || lastProgressValue != progress || lastProgressTime == 0
                        || now - lastProgressTime >= config.period) {
        Advance(i, now, Sending(progress, now));
        SendProgress(i, progress, now);
      } else {
        Advance(i, now, Done);
      }
    }

    ghost method Take(i: nat, now: int)
      requires Valid() && i < |phases| && phases[i] == Queued && (config.threaded ==> CanTake(Value(), i))
      modifies this`phases
      ensures Valid() && phases == old(phases)[i := Started]
    {
      ReachableNext(config, Value(), Work(i, now));
      phases := phases[i := Started];
    }

    /** scan_file, by the walk or by a thread of the pool, once the status of file i is known. */
    method ScanFile(i: nat, now: int)
      requires Valid() && i < |phases| && phases[i] == Queued && (config.threaded ==> CanTake(Value(), i))
      modifies this
      ensures Valid() && phases == old(phases)[i := Done]
      ensures Value() == After(config, old(Value()), i, now).(phases := phases)
    {
      ghost var s := Value();
      AnnounceAndCount(i, now);
      ghost var tallied := phases;
      UpdateProgress(i, now);
      ReportElsewhere(config, Count(config, Announce(config, s, i), i), i, now, tallied, phases);
    }

    method AnnounceAndCount(i: nat, now: int)
      requires Valid() && i < |phases| && phases[i] == Queued && (config.threaded ==> CanTake(Value(), i))
      modifies this
      ensures Valid() && phases == old(phases)[i := Tallied]
      ensures Value() == Count(config, Announce(config, old(Value()), i), i).(phases := phases)
    {
      ghost var s := Value();
      Take(i, now);
      FireDetectionEvent(i, now);
      ghost var announced := phases;
      UpdateCounters(i, now);
      CountElsewhere(config, Announce(config, s, i), i, announced, phases);
    }

    method UpdateCounters(i: nat, now: int)
      requires Valid() && i < |phases| && phases[i] == Announced
      modifies this
      ensures Valid() && phases == old(phases)[i := Tallied]
      ensures Value() == Count(config, old(Value()), i).(phases := phases)
    {
      CountScanned(i, now);
      CountStatus(i, now);
    }

    /** scan_entry on the next plain file, without a pool. */
    method ScanEntry(i: nat, now: int)
      requires Valid() && !config.threaded && !completed && i == handed < |phases|
      requires phases[i] == Idle && (i > 0 ==> phases[i - 1].Done?)
      modifies this
      ensures Valid() && phases == old(phases)[i := Done]
      ensures Value() == After(config, old(Value()), i, now).(phases := phases, handed := i + 1)
    {
      HandOver(i);
      AfterElsewhere(config, old(Value()), i, now, phases, handed);
      ScanFile(i, now);
    }

    ghost method HandOver(i: nat)
      requires Valid() && !config.threaded && !completed && i == handed < |phases|
      requires phases[i] == Idle && (i > 0 ==> phases[i - 1].Done?)
      modifies this`phases, this`handed
      ensures Valid() && phases == old(phases)[i := Queued] && handed == i + 1
    {
      ReachableNext(config, Value(), Hand);
      phases, handed := phases[i := Queued], handed + 1;
    }

    /**
      a6o_on_demand_run without a pool: the files are scanned in the order of the
      walk, and the completed event is the last one.  The counting thread stores
      its result before file countAt.
     */
    method OnDemandRun(times: seq<int>, countAt: nat)
      requires Valid() && Value() == Init(config) && Possible(config) && !config.threaded && |times| == |config.files|
      modifies this
      ensures Valid() && completed
      ensures Detected(events) == multiset(FilesWith(config, Malware) + FilesWith(config, Suspicious))
      ensures events != [] && events[|events| - 1]
           == Completed(|FilesWith(config, Malware)|, |FilesWith(config, Suspicious)|, |config.files|)
      ensures NoProgressBack(events)
    {
      for i := 0 to |config.files|
        invariant Valid() && !completed && handed == i
        invariant config.root.Directory? && config.period != 0 && i <= countAt ==> counting
        invariant forall j :: 0 <= j < i ==> phases[j] == Done
        invariant forall j :: i <= j < |config.files| ==> phases[j] == Idle
      {
        if config.root.Directory? && config.period != 0 && i == countAt {
          ReachableNext(config, Value(), StoreCount);
          toScanCount, counting := config.counted, false;
        }
        ScanEntry(i, times[i]);
      }
      ReachableNext(config, Value(), Complete);
      events, completed := events + [Completed(malwareCount, suspiciousCount, scannedCount)], true;
      AtTheEnd(config, Value());
    }
  }

  lemma AtTheEnd(c: Config, s: State)
    requires Possible(c) && !c.threaded && Reachable(c, s) && s.completed
    ensures Detected(s.events) == multiset(FilesWith(c, Malware) + FilesWith(c, Suspicious))
    ensures s.events != [] && s.events[|s.events| - 1]
         == Completed(|FilesWith(c, Malware)|, |FilesWith(c, Suspicious)|, |c.files|)
    ensures NoProgressBack(s.events)
  {
    var actions :| Run(c, Init(c), actions) && Scan(c, actions) == s;
    TotalsAtCompletion(c, actions);
    ProgressNeverGoesBack(c, actions);
    ScannedOfAll(c);
  }

}

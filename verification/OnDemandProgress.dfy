/**
  The order of the progress events of an on-demand scan, and the scan of a
  directory tree (libcore/ondemand.c with libcore/arch/linux/os/dir.c).
 */
module OnDemandProgress {
  import opened Wrappers
  import opened FileStatus
  import opened OnDemand
  import D = DirWalk

  // ---------------------------------------------------------------------
  // Without a thread pool progress never goes back
  // ---------------------------------------------------------------------

  /** The progress that a thread would compute now. */
  function Current(s: State): int {
    if s.toScan == 0 then 0 else Percent(s.scanned, s.toScan)
  }

  /** The progress that a thread has computed and may still send. */
  function Held(p: Phase): Option<int> {
    match p
    case Measured(v) => Some(v)
    case Sending(v, _) => Some(v)
    case SawMalware(v, _, _) => Some(v)
    case SawSuspicious(v, _, _, _) => Some(v)
    case Sent(v, _) => Some(v)
    case _ => None
  }

  predicate NoProgressBack(events: seq<Event>) {
    forall i, j :: 0 <= i < j < |events| && events[i].Progress? && events[j].Progress? ==> events[i].progress <= events[j].progress
  }

  ghost predicate Ordered(c: Config, s: State)
    requires |s.phases| == |c.files|
  {
    && NoProgressBack(s.events)
    && (forall i :: 0 <= i < |s.events| && s.events[i].Progress? ==> s.toScan > 0 && s.events[i].progress <= Current(s))
    && (forall i :: 0 <= i < |s.phases| && Held(s.phases[i]).Some? ==> s.toScan > 0 && Held(s.phases[i]).value == Current(s))
  }

  lemma PercentGrows(a: nat, b: nat, n: nat)
    requires a <= b && n > 0
    ensures Percent(a, n) <= Percent(b, n)
  {
    DivisionGrows(100 * a, 100 * b, n);
  }

  lemma DivisionGrows(a: nat, b: nat, n: nat)
    requires a <= b && n > 0
    ensures a / n <= b / n
  {
    var p, q := a / n, b / n;
    assert n * p + a % n == a && n * q + b % n == b;
    assert n * (q - p + 1) > 0;
  }

  lemma HandOrdered(c: Config, s: State)
    requires Inv(c, s) && Ordered(c, s) && Enabled(c, s, Hand)
    ensures |Apply(c, s, Hand).phases| == |c.files| && Ordered(c, Apply(c, s, Hand))
  {
  }

  lemma StoreCountOrdered(c: Config, s: State)
    requires Inv(c, s) && Ordered(c, s) && Enabled(c, s, StoreCount)
    ensures |Apply(c, s, StoreCount).phases| == |c.files| && Ordered(c, Apply(c, s, StoreCount))
  {
  }

  lemma CompleteOrdered(c: Config, s: State)
    requires Inv(c, s) && Ordered(c, s) && Enabled(c, s, Complete)
    ensures |Apply(c, s, Complete).phases| == |c.files| && Ordered(c, Apply(c, s, Complete))
  {
  }

  /** Without a pool only the file handed over last is being scanned. */
  lemma OnlyOneActive(c: Config, s: State, i: nat)
    requires Inv(c, s) && !c.threaded && i < |s.phases| && !s.phases[i].Idle? && !s.phases[i].Done?
    ensures i == s.handed - 1
    ensures forall j :: 0 <= j < |s.phases| && j != i ==> Held(s.phases[j]).None?
  {
  }

  lemma WorkOrdered(c: Config, s: State, i: nat, now: int)
    requires Inv(c, s) && Ordered(c, s) && !c.threaded && Enabled(c, s, Work(i, now))
    ensures |Worked(c, s, i, now).phases| == |c.files| && Ordered(c, Worked(c, s, i, now))
  {
    OnlyOneActive(c, s, i);
    var t := Worked(c, s, i, now);
    assert Local(s, s.phases[i]);
    WorkMoves(c, s, i, now);
    WorkEvents(c, s, i, now);
    WorkHolds(c, s, i, now);
    if s.toScan > 0 {
      PercentGrows(s.scanned, t.scanned, s.toScan);
    }
    MovedOrdered(c, s, t, i);
  }

  /** A step computes the current progress, or keeps the one it computed; it sends that one. */
  lemma WorkHolds(c: Config, s: State, i: nat, now: int)
    requires |s.phases| == |c.files| && Enabled(c, s, Work(i, now))
    requires Local(s, s.phases[i])
    ensures var t := Worked(c, s, i, now);
            && |t.phases| == |s.phases|
            && (Held(t.phases[i]).Some? && s.phases[i].Measuring? ==> Held(t.phases[i]) == Some(Current(s)))
            && (Held(t.phases[i]).Some? && !s.phases[i].Measuring? ==> Held(t.phases[i]) == Held(s.phases[i]))
            && (s.phases[i].Announced? ==> Held(t.phases[i]).None?)
            && (t.events == s.events
                || (|t.events| == |s.events| + 1 && t.events[..|s.events|] == s.events
                    && (t.events[|s.events|].Progress? ==> Held(s.phases[i]) == Some(t.events[|s.events|].progress))))
  {
  }

  lemma MovedOrdered(c: Config, s: State, t: State, i: nat)
    requires |s.phases| == |c.files| == |t.phases| && Ordered(c, s) && Moved(c, s, t, i)
    requires forall j :: 0 <= j < |s.phases| && j != i ==> Held(s.phases[j]).None?
    requires Current(s) <= Current(t)
    requires Held(t.phases[i]).Some? ==> t.toScan > 0 && Held(t.phases[i]).value == Current(t)
    requires t.events == s.events
             || (|t.events| == |s.events| + 1 && t.events[..|s.events|] == s.events
                 && (t.events[|s.events|].Progress? ==> Held(s.phases[i]) == Some(t.events[|s.events|].progress)))
    ensures Ordered(c, t)
  {
    forall k | 0 <= k < |t.events| && t.events[k].Progress?
      ensures t.toScan > 0 && t.events[k].progress <= Current(t)
    {
      if k < |s.events| {
        assert t.events[k] == s.events[k];
      }
    }
    forall k, l | 0 <= k < l < |t.events| && t.events[k].Progress? && t.events[l].Progress?
      ensures t.events[k].progress <= t.events[l].progress
    {
      assert t.events[k] == s.events[k];
      if l < |s.events| {
        assert t.events[l] == s.events[l];
      }
    }
  }

  lemma StepOrdered(c: Config, s: State, a: Action)
    requires Inv(c, s) && Ordered(c, s) && !c.threaded && Enabled(c, s, a)
    ensures |Apply(c, s, a).phases| == |c.files| && Ordered(c, Apply(c, s, a))
  {
    match a
    case Hand => HandOrdered(c, s);
    case Work(i, now) => WorkOrdered(c, s, i, now);
    case StoreCount => StoreCountOrdered(c, s);
    case Complete => CompleteOrdered(c, s);
  }

  lemma {:induction false} RunOrdered(c: Config, s: State, actions: seq<Action>)
    requires Inv(c, s) && Ordered(c, s) && !c.threaded && Run(c, s, actions)
    ensures Ordered(c, End(c, s, actions))
    decreases |actions|
  {
    if actions != [] {
      StepOrdered(c, s, actions[0]);
      StepInv(c, s, actions[0]);
      RunOrdered(c, Apply(c, s, actions[0]), actions[1..]);
    }
  }

  /** Without a pool the progress events of every run never go back. */
  lemma ProgressNeverGoesBack(c: Config, actions: seq<Action>)
    requires !c.threaded && Run(c, Init(c), actions)
    ensures NoProgressBack(Scan(c, actions).events)
  {
    InitInv(c);
    RunOrdered(c, Init(c), actions);
  }

  // ---------------------------------------------------------------------
  // With a thread pool it may, and exactly when
  // ---------------------------------------------------------------------

  /** Some run of the scan leads to s. */
  ghost predicate Reachable(c: Config, s: State) {
    exists actions :: Run(c, Init(c), actions) && Scan(c, actions) == s
  }

  lemma ReachableFirst(c: Config)
    ensures Reachable(c, Init(c))
  {
    assert Run(c, Init(c), []) && Scan(c, []) == Init(c);
  }

  lemma ReachableInv(c: Config, s: State)
    requires Reachable(c, s)
    ensures Inv(c, s)
  {
    var actions :| Run(c, Init(c), actions) && Scan(c, actions) == s;
    InitInv(c);
    RunInv(c, Init(c), actions);
  }

  lemma ReachableNext(c: Config, s: State, a: Action)
    requires Reachable(c, s) && |s.phases| == |c.files| && Enabled(c, s, a)
    ensures Reachable(c, Apply(c, s, a))
  {
    var actions :| Run(c, Init(c), actions) && Scan(c, actions) == s;
    RunAnd(c, Init(c), actions, a);
    assert Scan(c, actions + [a]) == Apply(c, s, a);
  }

  lemma {:induction false} RunAnd(c: Config, s: State, actions: seq<Action>, a: Action)
    requires |s.phases| == |c.files| && Run(c, s, actions) && Enabled(c, End(c, s, actions), a)
    ensures Run(c, s, actions + [a])
    ensures End(c, s, actions + [a]) == Apply(c, End(c, s, actions), a)
    decreases |actions|
  {
    if actions == [] {
      assert actions + [a] == [a];
      ApplyShape(c, s, a);
      assert [a][1..] == [];
    } else {
      assert (actions + [a])[0] == actions[0] && (actions + [a])[1..] == actions[1..] + [a];
      ApplyShape(c, s, actions[0]);
      RunAnd(c, Apply(c, s, actions[0]), actions[1..], a);
    }
  }

  // The progress that a counted directory shows after n files.
  function ShownAfter(c: Config, n: nat): int {
    if c.counted == 0 then 0 else Percent(n, c.counted)
  }

  /**
    Files are scanned by a pool, they are counted, and the first and the last of
    them show different progress.
   */
  ghost predicate CanGoBack(c: Config) {
    && c.threaded && c.root.Directory? && c.period > 0 && c.counted > 0
    && ShownAfter(c, 1) < ShownAfter(c, |ScannedFiles(c)|)
  }

  // --- such a run ------------------------------------------------------

  /** The pool has all files, the count is known, and no scan has begun. */
  ghost predicate Ready(c: Config, s: State, k: nat) {
    && |s.phases| == |c.files| && s.handed == k <= |c.files| && !s.completed
    && s.toScan == c.counted && s.scanned == 0
    && (forall i :: 0 <= i < k ==> s.phases[i] == if c.files[i].path.None? then Skipped else Queued)
  }

  lemma {:induction false} MakeReady(c: Config, k: nat) returns (s: State)
    requires c.threaded && c.root.Directory? && c.period > 0 && k <= |c.files|
    ensures Reachable(c, s) && Ready(c, s, k)
  {
    if k == 0 {
      ReachableFirst(c);
      ReachableNext(c, Init(c), StoreCount);
      s := Apply(c, Init(c), StoreCount);
    } else {
      var r := MakeReady(c, k - 1);
      ReachableNext(c, r, Hand);
      s := Apply(c, r, Hand);
    }
  }

  /** One step of the scan of file i, at a time at which progress must be sent. */
  lemma Step(c: Config, s: State, i: nat) returns (t: State)
    requires Reachable(c, s) && i < |s.phases| == |c.files| && Enabled(c, s, Work(i, s.lastTime + c.period))
    ensures Reachable(c, t) && t == Worked(c, s, i, s.lastTime + c.period)
    ensures Moved(c, s, t, i)
  {
    var now := s.lastTime + c.period;
    ReachableInv(c, s);
    assert Local(s, s.phases[i]);
    ReachableNext(c, s, Work(i, now));
    WorkMoves(c, s, i, now);
    t := Apply(c, s, Work(i, now));
  }

  /** What the scan of file i leaves alone. */
  predicate SameElse(s: State, t: State, i: nat) {
    && |t.phases| == |s.phases| && i < |s.phases|
    && t.phases == s.phases[i := t.phases[i]]
    && (t.handed, t.toScan, t.completed) == (s.handed, s.toScan, s.completed)
  }

  lemma CountFile(c: Config, s: State, i: nat) returns (t: State)
    requires Reachable(c, s) && i < |s.phases| == |c.files| && s.phases[i] == Queued && CanTake(s, i)
    ensures Reachable(c, t) && SameElse(s, t, i) && t.phases[i] == Counted && t.scanned == s.scanned + 1
  {
    t := Step(c, s, i);
    t := Step(c, t, i);
    t := Step(c, t, i);
  }

  lemma MeasureFile(c: Config, s: State, i: nat) returns (t: State)
    requires Reachable(c, s) && i < |s.phases| == |c.files| && s.phases[i] == Counted && c.period > 0 && s.toScan > 0
    ensures Reachable(c, t) && SameElse(s, t, i) && t.scanned == s.scanned
    ensures t.phases[i] == Measured(Percent(s.scanned, s.toScan))
  {
    t := Step(c, s, i);
    t := Step(c, t, i);
    t := Step(c, t, i);
  }

  lemma PrepareFile(c: Config, s: State, i: nat, p: int) returns (t: State)
    requires Reachable(c, s) && i < |s.phases| == |c.files| && s.phases[i] == Measured(p) && c.files[i].path.Some?
    ensures Reachable(c, t) && SameElse(s, t, i) && t.scanned == s.scanned && t.events == s.events
    ensures t.phases[i].SawSuspicious? && t.phases[i].progress == p
  {
    t := Step(c, s, i);
    t := Step(c, t, i);
    t := Step(c, t, i);
  }

  lemma SendFile(c: Config, s: State, i: nat, p: int) returns (t: State)
    requires Reachable(c, s) && i < |s.phases| == |c.files| && s.phases[i] == Measured(p) && c.files[i].path.Some?
    ensures Reachable(c, t) && SameElse(s, t, i) && t.phases[i] == Done && t.scanned == s.scanned
    ensures |t.events| == |s.events| + 1 && t.events[..|s.events|] == s.events && Shows(t, p)
  {
    t := PrepareFile(c, s, i, p);
    t := Step(c, t, i);
    t := Step(c, t, i);
  }

  /** The last event is of this progress. */
  predicate Shows(s: State, p: int) {
    s.events != [] && var e := s.events[|s.events| - 1]; e.Progress? && e.progress == p
  }

  /** File i has measured its progress when it was alone; the other files below k are done. */
  ghost predicate Halfway(c: Config, s: State, i: nat, k: nat) {
    && |s.phases| == |c.files| && i < k <= |c.files|
    && s.toScan == c.counted && s.handed == |c.files| && !s.completed
    && s.phases[i] == Measured(ShownAfter(c, 1))
    && (forall j :: 0 <= j < |c.files| && j != i ==>
          s.phases[j] == if c.files[j].path.None? then Skipped else if j < k then Done else Queued)
    && s.scanned >= 1 && (s.scanned > 1 ==> Shows(s, ShownAfter(c, s.scanned)))
  }

  /** A second thread takes file k, which finishes. */
  lemma PassFile(c: Config, s: State, i: nat, k: nat) returns (t: State)
    requires Reachable(c, s) && CanGoBack(c) && Halfway(c, s, i, k) && k < |c.files| && c.files[k].path.Some?
    ensures Reachable(c, t) && Halfway(c, t, i, k + 1)
  {
    assert FilesInFlight(s) == {i};
    t := CountFile(c, s, k);
    t := MeasureFile(c, t, k);
    t := SendFile(c, t, k, ShownAfter(c, s.scanned + 1));
  }

  lemma {:induction false} PassOthers(c: Config, s: State, i: nat, k: nat) returns (t: State)
    requires Reachable(c, s) && CanGoBack(c) && Halfway(c, s, i, i + 1) && i < k <= |c.files|
    ensures Reachable(c, t) && Halfway(c, t, i, k)
    decreases k
  {
    if k == i + 1 {
      t := s;
    } else {
      t := PassOthers(c, s, i, k - 1);
      if c.files[k - 1].path.Some? {
        t := PassFile(c, t, i, k - 1);
      }
    }
  }

  /** Then the counter is the number of files that are scanned. */
  lemma HalfwayScanned(c: Config, s: State, i: nat)
    requires Reachable(c, s) && c.threaded && Halfway(c, s, i, |c.files|) && c.files[i].path.Some?
    ensures s.scanned == |ScannedFiles(c)|
  {
    ReachableInv(c, s);
    forall j: nat | j < |c.files| ensures j in CountedFiles(s) <==> j in ScannedFiles(c) {
      if j != i {
        assert s.phases[j] == if c.files[j].path.None? then Skipped else Done;
      }
    }
    assert CountedFiles(s) == ScannedFiles(c);
  }

  /** The first file that is scanned. */
  lemma {:induction false} FirstScanned(c: Config, i: nat) returns (k: nat)
    requires i in ScannedFiles(c)
    ensures k in ScannedFiles(c) && forall j: nat :: j < k ==> j !in ScannedFiles(c)
  {
    if j: nat :| j < i && j in ScannedFiles(c) {
      k := FirstScanned(c, j);
    } else {
      k := i;
    }
  }

  lemma AtLeastTwo(c: Config)
    requires CanGoBack(c)
    ensures |ScannedFiles(c)| >= 2
  {
    var n := |ScannedFiles(c)|;
    if n < 2 {
      PercentGrows(n, 1, c.counted);
    }
  }

  /** The first file is taken, and measures its progress before any other is taken. */
  lemma FirstMeasures(c: Config, i: nat) returns (s: State)
    requires CanGoBack(c) && i in ScannedFiles(c) && forall j: nat :: j < i ==> j !in ScannedFiles(c)
    ensures Reachable(c, s) && Halfway(c, s, i, i + 1)
  {
    s := MakeReady(c, |c.files|);
    assert FilesInFlight(s) == {};
    forall j | 0 <= j < i ensures !s.phases[j].Queued? {
      assert j !in ScannedFiles(c);
    }
    s := CountFile(c, s, i);
    s := MeasureFile(c, s, i);
    forall j | 0 <= j < |c.files| && j != i
      ensures s.phases[j] == if c.files[j].path.None? then Skipped else if j < i + 1 then Done else Queued
    {
      assert j < i ==> j !in ScannedFiles(c);
    }
  }

  /**
    Two threads suffice: one measures the progress of the first file and is
    overtaken by the other, which scans all other files.
   */
  lemma GoesBack(c: Config) returns (actions: seq<Action>)
    requires CanGoBack(c)
    ensures Run(c, Init(c), actions) && !NoProgressBack(Scan(c, actions).events)
  {
    AtLeastTwo(c);
    var any :| any in ScannedFiles(c);
    var i := FirstScanned(c, any);
    var s := FirstMeasures(c, i);
    s := PassOthers(c, s, i, |c.files|);
    HalfwayScanned(c, s, i);
    var n := |s.events|;
    s := SendFile(c, s, i, ShownAfter(c, 1));
    assert s.events[n - 1] == s.events[..n][n - 1];
    actions :| Run(c, Init(c), actions) && Scan(c, actions) == s;
  }

  // --- all other runs --------------------------------------------------

  /** The number of files that progress is measured against once it is known; 0 if it is never measured. */
  function Total(c: Config): nat {
    if c.period == 0 then 0
    else match c.root
      case PlainFile => 1
      case Directory => c.counted
      case OtherRoot => 0
  }

  /** Progress is between what the first and what the last file show. */
  ghost predicate InRange(c: Config, p: int) {
    Total(c) > 0 && Percent(1, Total(c)) <= p <= Percent(|ScannedFiles(c)|, Total(c))
  }

  ghost predicate Bounded(c: Config, s: State)
    requires |s.phases| == |c.files|
  {
    && (c.period > 0 ==> s.toScan == 0 || s.toScan == Total(c))
    && (s.counting ==> c.root.Directory?)
    && (forall i :: 0 <= i < |s.phases| ==> (s.phases[i].Measuring? ==> Total(c) > 0)
                                            && (Held(s.phases[i]).Some? ==> InRange(c, Held(s.phases[i]).value)))
    && (forall i :: 0 <= i < |s.events| && s.events[i].Progress? ==> InRange(c, s.events[i].progress))
  }

  /** The files counted are some of those scanned in the end. */
  lemma ScannedBound(c: Config, s: State)
    requires Inv(c, s)
    ensures s.scanned <= |ScannedFiles(c)|
  {
    forall i | i in CountedFiles(s) ensures i in ScannedFiles(c) {
      assert IsCounted(s.phases[i]);
    }
    SubsetSize(CountedFiles(s), ScannedFiles(c));
  }

  lemma ScannedPositive(c: Config, s: State, i: nat)
    requires Inv(c, s) && i < |s.phases| && IsCounted(s.phases[i])
    ensures s.scanned >= 1
  {
    assert i in CountedFiles(s);
  }

  lemma WorkBounded(c: Config, s: State, i: nat, now: int)
    requires Inv(c, s) && Bounded(c, s) && Enabled(c, s, Work(i, now))
    ensures |Worked(c, s, i, now).phases| == |c.files| && Bounded(c, Worked(c, s, i, now))
  {
    var t := Worked(c, s, i, now);
    assert Local(s, s.phases[i]);
    WorkMoves(c, s, i, now);
    WorkHolds(c, s, i, now);
    if s.phases[i].Measuring? {
      ScannedBound(c, s);
      ScannedPositive(c, s, i);
      PercentGrows(1, s.scanned, Total(c));
      PercentGrows(s.scanned, |ScannedFiles(c)|, Total(c));
    }
    WorkMeasures(c, s, i, now);
    MovedBounded(c, s, t, i);
  }

  lemma WorkMeasures(c: Config, s: State, i: nat, now: int)
    requires |s.phases| == |c.files| && Enabled(c, s, Work(i, now))
    ensures var t := Worked(c, s, i, now);
            |t.phases| == |s.phases| && (t.phases[i].Measuring? && !s.phases[i].Measuring? ==> c.period > 0 && s.toScan > 0)
  {
  }

  lemma MovedBounded(c: Config, s: State, t: State, i: nat)
    requires |s.phases| == |c.files| == |t.phases| && Bounded(c, s) && Moved(c, s, t, i)
    requires t.phases[i].Measuring? ==> Total(c) > 0
    requires Held(t.phases[i]).Some? ==> InRange(c, Held(t.phases[i]).value)
    requires t.events == s.events
             || (|t.events| == |s.events| + 1 && t.events[..|s.events|] == s.events
                 && (t.events[|s.events|].Progress? ==> Held(s.phases[i]) == Some(t.events[|s.events|].progress)))
    ensures Bounded(c, t)
  {
    forall k | 0 <= k < |t.events| && t.events[k].Progress? ensures InRange(c, t.events[k].progress) {
      if k < |s.events| {
        assert t.events[k] == s.events[k];
      }
    }
  }

  lemma OtherBounded(c: Config, s: State, a: Action)
    requires Inv(c, s) && Bounded(c, s) && Enabled(c, s, a) && !a.Work?
    ensures |Apply(c, s, a).phases| == |c.files| && Bounded(c, Apply(c, s, a))
  {
  }

  lemma {:induction false} RunBounded(c: Config, s: State, actions: seq<Action>)
    requires Inv(c, s) && Bounded(c, s) && Run(c, s, actions)
    ensures Bounded(c, End(c, s, actions))
    decreases |actions|
  {
    if actions != [] {
      var a := actions[0];
      if a.Work? {
        WorkBounded(c, s, a.i, a.now);
      } else {
        OtherBounded(c, s, a);
      }
      StepInv(c, s, a);
      RunBounded(c, Apply(c, s, a), actions[1..]);
    }
  }

  /** When the first and the last file show the same progress, all events do. */
  lemma SameProgress(c: Config, actions: seq<Action>)
    requires Run(c, Init(c), actions) && c.threaded && !CanGoBack(c)
    ensures NoProgressBack(Scan(c, actions).events)
  {
    InitInv(c);
    RunBounded(c, Init(c), actions);
    var s := Scan(c, actions);
    var n := |ScannedFiles(c)|;
    forall i, j | 0 <= i < j < |s.events| && s.events[i].Progress? && s.events[j].Progress?
      ensures s.events[i].progress <= s.events[j].progress
    {
      assert InRange(c, s.events[i].progress) && InRange(c, s.events[j].progress);
      assert Percent(n, Total(c)) <= Percent(1, Total(c)) by {
        if c.root.PlainFile? {
          assert Total(c) == 1;
        } else {
          assert Total(c) == c.counted;
        }
      }
    }
  }

  /**
    The exact condition, for every configuration: some run sends a progress that
    is less than an earlier one if and only if a pool scans a directory whose
    files are counted and of which the last file shows more progress than the first.
   */
  lemma ProgressGoesBackExactly(c: Config)
    ensures (exists actions :: Run(c, Init(c), actions) && !NoProgressBack(Scan(c, actions).events)) <==> CanGoBack(c)
  {
    if CanGoBack(c) {
      var actions := GoesBack(c);
    } else {
      forall actions | Run(c, Init(c), actions) ensures NoProgressBack(Scan(c, actions).events) {
        if c.threaded {
          SameProgress(c, actions);
        } else {
          ProgressNeverGoesBack(c, actions);
        }
      }
    }
  }

  // ---------------------------------------------------------------------
  // The scan of a directory
  // ---------------------------------------------------------------------

  /** The scan of tree t at path, when the scan of its i-th file reports status(i). */
  function ScanOf(path: string, t: D.Tree, recurse: bool, threaded: bool, period: nat, status: nat -> FileStatus): Config
    requires t.Dir?
  {
    var files := D.Files(D.Walk(path, t, recurse, D.ScanEntry).0);
    Config(Directory,
           seq(|files|, i requires 0 <= i < |files| => File(files[i], if files[i].None? then InternalError else status(i))),
           threaded, period, |D.Files(D.Walk(path, t, recurse, D.CountEntry).0)|)
  }

  /**
    A completed scan has scanned at most the files counted, and exactly the files
    counted if nothing is hidden behind an unreadable directory and the pool, if
    there is one, has skipped no file.
   */
  lemma ScanOfDirectory(path: string, t: D.Tree, recurse: bool, threaded: bool, period: nat,
                        status: nat -> FileStatus, actions: seq<Action>)
    requires t.Dir?
    requires var c := ScanOf(path, t, recurse, threaded, period, status);
             Run(c, Init(c), actions) && Scan(c, actions).completed
    ensures var c := ScanOf(path, t, recurse, threaded, period, status);
            var s := Scan(c, actions);
            && s.scanned <= c.counted == |D.FilesIn(t, recurse)|
            && (s.scanned == c.counted <==>
                  D.Complete(t, recurse) && (threaded ==> forall i :: 0 <= i < |c.files| ==> c.files[i].path.Some?))
  {
    var c := ScanOf(path, t, recurse, threaded, period, status);
    var s := Scan(c, actions);
    TotalsAtCompletion(c, actions);
    D.CountVisitsAll(path, t, recurse);
    D.ScanVisits(path, t, recurse);
    D.SubsequenceSame(D.Files(D.Walk(path, t, recurse, D.ScanEntry).0), D.FilesIn(t, recurse));
    ScannedOfAll(c);
  }

  /** A pool scans all the files visited exactly when every path is known. */
  lemma ScannedOfAll(c: Config)
    ensures |ScannedFiles(c)| <= |c.files|
    ensures |ScannedFiles(c)| == |c.files| <==> (c.threaded ==> forall i :: 0 <= i < |c.files| ==> c.files[i].path.Some?)
  {
    var all := Upto(|c.files|);
    SubsetSize(ScannedFiles(c), all);
    if i: nat :| c.threaded && i < |c.files| && c.files[i].path.None? {
      SubsetSize(ScannedFiles(c), all - {i});
    } else {
      assert ScannedFiles(c) == all;
    }
  }

  ghost function Upto(n: nat): (r: set<nat>)
    ensures |r| == n && forall i: nat :: i in r <==> i < n
  {
    if n == 0 then {} else Upto(n - 1) + {n - 1}
  }

}

/**
  The context of one file scan (libcore/scanctx.c) and its use for one file of an
  on-demand scan (libcore/ondemand.c).
 */
module ScanContext {
  import opened Wrappers
  import opened FileStatus
  import opened ScanDecision
  import S = ScanConf
  import O = OnDemand

  datatype ContextStatus = MustScan | WhiteListedDirectory | FileTypeNotScanned | FileOpenError

  // The fields of a context; a context that was never filled holds arbitrary ones.
  datatype Context = Context(
    status: ContextStatus, fd: int, path: Option<string>, mimeType: Option<string>, modules: S.Applicable)

  // What the system answers: the descriptor open would return, and the guessed mime type.
  datatype File = File(opens: Option<nat>, mimeType: Option<string>)

  /** The descriptor scanned, once opened if none was given. */
  function Descriptor(fd: int, f: File): int {
    if fd >= 0 then fd else if f.opens.Some? then f.opens.value else -1
  }

  /**
    The context filled, and the status reported if any; whiteListed and modules
    are the configuration's answers.  The file is to be scanned exactly when it
    can be opened, is not white-listed and some module applies; a status is
    reported exactly otherwise.
   */
  function Fill(c: Context, fd: int, path: Option<string>, f: File, whiteListed: bool, modules: S.Applicable)
    : (r: (Context, Option<FileStatus>))
    ensures r.0.status == MustScan <==> LooksUp(fd, path, f, path.Some? && whiteListed) && modules.Some?
    ensures r.1 == None <==> r.0.status == MustScan
    ensures r.0.fd == if fd < 0 && path.None? then c.fd else if path.Some? && whiteListed then fd else Descriptor(fd, f)
  {
    var d := Descriptor(fd, f);
    if fd < 0 && path.None? then (c.(status := FileOpenError), Some(InternalError))
    else if path.Some? && whiteListed then (Context(WhiteListedDirectory, fd, None, None, None), Some(WhiteListed))
    else if d < 0 then (Context(FileOpenError, d, None, None, None), Some(InternalError))
    else if f.mimeType.None? || modules.None? then
      (Context(FileTypeNotScanned, d, None, None, None), Some(UnknownType))
    else (Context(MustScan, d, path, f.mimeType, modules), None)
  }

  /** Whether the configuration is asked for the modules of the file's mime type. */
  predicate LooksUp(fd: int, path: Option<string>, f: File, whiteListed: bool) {
    && !(fd < 0 && path.None?) && !(path.Some? && whiteListed)
    && Descriptor(fd, f) >= 0 && f.mimeType.Some?
  }

  class Descriptors {
    var closed: seq<int>

    constructor ()
      ensures closed == []
    {
      closed := [];
    }

    method Close(fd: int)
      modifies this
      ensures closed == old(closed) + [fd]
    {
      closed := closed + [fd];
    }
  }

  class ScanContext {
    var status: ContextStatus
    var fd: int
    var path: Option<string>
    var mimeType: Option<string>
    var modules: S.Applicable

    function Value(): Context
      reads this
    {
      Context(status, fd, path, mimeType, modules)
    }

    // A context on the stack, with whatever was there.
    constructor (junk: Context)
      ensures Value() == junk
    {
      status, fd, path, mimeType, modules := junk.status, junk.fd, junk.path, junk.mimeType, junk.modules;
    }

    /** a6o_scan_context_get. */
    method Get(newFd: int, newPath: Option<string>, conf: S.ScanConf, f: File, report: Report?, heap: Heap)
        returns (r: ContextStatus)
      modifies this, conf`cache, report, heap
      ensures var white := newPath.Some? && S.WhiteListed(conf.whiteList, newPath.value);
              var modules := if f.mimeType.Some? then S.Lookup(old(conf.Value()), f.mimeType.value) else None;
              var filled := Fill(old(Value()), newFd, newPath, f, white, modules);
              && Value() == filled.0 && r == filled.0.status
              && (report != null ==>
                    report.Value() == if filled.1.Some? then Change(old(report.Value()), filled.1.value, None, None)
                                      else old(report.Value()))
              && conf.Value() == (if LooksUp(newFd, newPath, f, white) then S.Do(S.Get(f.mimeType.value), old(conf.Value()))
                                  else old(conf.Value()))
      ensures heap.freed == old(heap.freed)
    {
      if newFd < 0 && newPath.None? {
        status := FileOpenError;
        ChangeIfAny(report, InternalError, heap);
        return status;
      }
      status, fd, path, mimeType, modules := MustScan, newFd, None, None, None;
      if newPath.Some? {
        var white := conf.IsWhiteListed(newPath.value);
        if white {
          status := WhiteListedDirectory;
          ChangeIfAny(report, WhiteListed, heap);
          return status;
        }
      }
      if fd < 0 {
        fd := if f.opens.Some? then f.opens.value else -1;
        if fd < 0 {
          status := FileOpenError;
          ChangeIfAny(report, InternalError, heap);
          return status;
        }
      }
      if f.mimeType.None? {
        ChangeIfAny(report, UnknownType, heap);
        status := FileTypeNotScanned;
        return status;
      }
      var applicable := conf.GetApplicableModules(f.mimeType.value);
      if applicable.None? {
        ChangeIfAny(report, UnknownType, heap);
        status := FileTypeNotScanned;
        return status;
      }
      path, mimeType, modules := newPath, f.mimeType, applicable;
      return status;
    }

    /** a6o_scan_context_close. */
    method Close(os: Descriptors)
      modifies this`fd, os
      ensures fd == (if old(fd) < 0 then old(fd) else -1)
      ensures os.closed == old(os.closed) + if old(fd) < 0 then [] else [old(fd)]
    {
      if fd < 0 {
        return;
      }
      os.Close(fd);
      fd := -1;
    }
  }

  method ChangeIfAny(report: Report?, status: FileStatus, heap: Heap)
    modifies report, heap
    ensures report != null ==> report.Value() == Change(old(report.Value()), status, None, None)
    ensures heap.freed == old(heap.freed)
  {
    if report != null {
      report.ReportChange(heap, status, None, None);
    }
  }

  // The status of a scan_file, whether it is announced, and whether the program stopped in it.
  datatype Scanned = Scanned(status: FileStatus, detected: bool, aborted: bool)

  /** The outcome of one file of an on-demand scan. */
  function FileOutcome(path: Option<string>, f: File, whiteListed: bool, modules: S.Applicable, answers: seq<Answer>): Scanned
    requires modules.Some? ==> |answers| == |modules.value|
  {
    if path.None? then Scanned(InternalError, false, false)
    else if whiteListed then Scanned(WhiteListed, false, false)
    else if f.opens.None? then Scanned(InternalError, false, false)
    else if f.mimeType.None? || modules.None? then Scanned(UnknownType, false, false)
    else
      var r := Apply(Called(modules.value, answers), START);
      Scanned(r.1.report.status, r.0.Verdict? && (r.1.report.status == Malware || r.1.report.status == Suspicious),
              r.0.AssertionFails?)
  }

  predicate Undecisive(c: Call) {
    c.answer.Returned? && c.answer.status in {FileStatus.Undecided, FileStatus.Clean, FileStatus.InternalError, FileStatus.Suspicious}
  }

  predicate OutsideOrder(c: Call) {
    c.answer.Returned? && (c.answer.status == FileStatus.UnknownType || c.answer.status == FileStatus.Invalid)
  }

  /**
    The comparison stops the program: the answers of calls k to l - 1 are the
    same status outside the order, and that of call l is another.  No earlier
    answer is authoritative or outside the order, and every seek before succeeds.
   */
  ghost predicate StopsAt(cs: seq<Call>, k: nat, l: nat) {
    && k < l < |cs|
    && (forall i :: 0 <= i < k ==> Undecisive(cs[i]))
    && OutsideOrder(cs[k])
    && (forall i :: k < i < l ==> cs[i].answer.Returned? && cs[i].answer.status == cs[k].answer.status)
    && cs[l].answer.Returned? && cs[l].answer.status != cs[k].answer.status
  }

  lemma StopsThere(cs: seq<Call>)
    requires Apply(cs, START).0.AssertionFails?
    ensures exists k, l :: StopsAt(cs, k, l)
  {
    VerdictOnEveryInput(cs, START);
    var k := FirstDecisive(cs);
    var tail, u := cs[k + 1..], cs[k].answer.status;
    var l := k + 1 + FirstOther(tail, u);
    forall i | 0 <= i < k ensures Undecisive(cs[i]) {
      assert !Decisive(cs[i]);
    }
    SameUpTo(cs, k, u);
    assert StopsAt(cs, k, l);
  }

  lemma SameUpTo(cs: seq<Call>, k: nat, u: FileStatus)
    requires k < |cs|
    ensures var l := k + 1 + FirstOther(cs[k + 1..], u);
            && l <= |cs| && (l < |cs| ==> !Answers(cs[l], u) && cs[l] == cs[k + 1..][l - k - 1])
            && forall i :: k < i < l ==> Answers(cs[i], u)
  {
    var tail := cs[k + 1..];
    forall i | k < i < k + 1 + FirstOther(tail, u) ensures Answers(cs[i], u) {
      assert cs[i] == tail[i - k - 1];
    }
  }

  lemma StopsOnly(cs: seq<Call>, k: nat, l: nat)
    requires StopsAt(cs, k, l)
    ensures Apply(cs, START).0.AssertionFails?
  {
    VerdictOnEveryInput(cs, START);
    FirstIsDecisive(cs, k);
    OtherIs(cs, k, l);
  }

  lemma FirstIsDecisive(cs: seq<Call>, k: nat)
    requires k < |cs| && (forall i :: 0 <= i < k ==> Undecisive(cs[i])) && OutsideOrder(cs[k])
    ensures FirstDecisive(cs) == k
  {
    assert Decisive(cs[k]) && forall i :: 0 <= i < k ==> !Decisive(cs[i]);
  }

  lemma OtherIs(cs: seq<Call>, k: nat, l: nat)
    requires StopsAt(cs, k, l)
    ensures FirstOther(cs[k + 1..], cs[k].answer.status) == l - k - 1 && cs[k + 1..][l - k - 1] == cs[l]
  {
    var tail, u := cs[k + 1..], cs[k].answer.status;
    forall i | 0 <= i < l - k - 1 ensures Answers(tail[i], u) {
      assert tail[i] == cs[i + k + 1];
    }
    assert tail[l - k - 1] == cs[l] && !Answers(cs[l], u);
  }

  /**
    What the modules make of a file: its status is that of the first answer of
    the highest rank, and the program stops exactly if two answers cannot be
    compared.
   */
  lemma AskedMeaning(path: Option<string>, f: File, modules: seq<Module>, answers: seq<Answer>)
    requires path.Some? && f.opens.Some? && f.mimeType.Some? && |answers| == |modules|
    ensures FileOutcome(path, f, false, Some(modules), answers).aborted <==> exists k, l :: StopsAt(Called(modules, answers), k, l)
    ensures HasHighest(Called(modules, answers), FileOutcome(path, f, false, Some(modules), answers).status)
  {
    AnswersMeaning(Called(modules, answers));
    AskedOutcome(path, f, modules, answers);
  }

  lemma AskedOutcome(path: Option<string>, f: File, modules: seq<Module>, answers: seq<Answer>)
    requires path.Some? && f.opens.Some? && f.mimeType.Some? && |answers| == |modules|
    ensures var r, all := FileOutcome(path, f, false, Some(modules), answers), Apply(Called(modules, answers), START);
            r.status == all.1.report.status && r.aborted == all.0.AssertionFails?
  {
  }

  /** The status of the first answer of the highest rank among those that take effect, or Undecided if there is none. */
  ghost predicate HasHighest(cs: seq<Call>, status: FileStatus) {
    && (forall j: nat :: Naming(cs, Taken(cs), j) ==> status == StatusOf(cs[j]))
    && ((forall j: nat :: !Naming(cs, Taken(cs), j)) ==> status == Undecided)
  }

  lemma AnswersMeaning(cs: seq<Call>)
    ensures Apply(cs, START).0.AssertionFails? <==> exists k, l :: StopsAt(cs, k, l)
    ensures HasHighest(cs, Apply(cs, START).1.report.status)
  {
    if Apply(cs, START).0.AssertionFails? {
      StopsThere(cs);
    }
    if k, l :| StopsAt(cs, k, l) {
      StopsOnly(cs, k, l);
    }
    ReportOfScan(cs, 0);
    forall j: nat | Naming(cs, Taken(cs), j) ensures Apply(cs, START).1.report.status == StatusOf(cs[j]) {
      ReportOfScan(cs, j);
    }
  }

  /** The status of a file that is not given to the modules, and which files are announced. */
  lemma FileOutcomeMeaning(path: Option<string>, f: File, whiteListed: bool, modules: S.Applicable, answers: seq<Answer>)
    requires modules.Some? ==> |answers| == |modules.value|
    ensures var r := FileOutcome(path, f, whiteListed, modules, answers);
            && (!r.aborted ==> (r.detected <==> path.Some? && (r.status == Malware || r.status == Suspicious)))
            && (path.None? ==> r == Scanned(InternalError, false, false))
            && (path.Some? && whiteListed ==> r == Scanned(WhiteListed, false, false))
            && (path.Some? && !whiteListed && f.opens.None? ==> r == Scanned(InternalError, false, false))
            && (path.Some? && !whiteListed && f.opens.Some? && (f.mimeType.None? || modules.None?) ==>
                  r == Scanned(UnknownType, false, false))
  {
  }

  /** What a context is filled with, and what is reported, in every case. */
  lemma FillMeaning(c: Context, fd: int, path: Option<string>, f: File, whiteListed: bool, modules: S.Applicable)
    ensures var (d, status) := Fill(c, fd, path, f, whiteListed, modules);
            if fd < 0 && path.None? then d == c.(status := FileOpenError) && status == Some(InternalError)
            else if path.Some? && whiteListed then d.status == WhiteListedDirectory && status == Some(WhiteListed)
            else if fd < 0 && f.opens.None? then d.status == FileOpenError && status == Some(InternalError)
            else if f.mimeType.None? || modules.None? then d.status == FileTypeNotScanned && status == Some(UnknownType)
            else d == Context(MustScan, if fd < 0 then f.opens.value else fd, path, f.mimeType, modules) && status == None
  {
  }

  /** The texts given by the modules that were called. */
  function TextsGiven(path: Option<string>, f: File, whiteListed: bool, modules: S.Applicable, answers: seq<Answer>): seq<Ptr>
    requires modules.Some? ==> |answers| == |modules.value|
  {
    if path.None? || whiteListed || f.opens.None? || f.mimeType.None? || modules.None? then []
    else
      var cs := Called(modules.value, answers);
      Texts(cs, Taken(cs))
  }

  /**
    scan_file up to its counters: a descriptor opened here is closed here, once,
    and every text given by a module is freed once.  A file without a path leaves
    the context unfilled, and a descriptor that happens to be in it is closed.
   */
  method ScanFile(path: Option<string>, conf: S.ScanConf, f: File, answers: seq<Answer>, junk: Context,
                  heap: Heap, os: Descriptors)
      returns (r: Scanned)
    requires f.mimeType.Some? && S.Lookup(conf.Value(), f.mimeType.value).Some?
             ==> |answers| == |S.Lookup(conf.Value(), f.mimeType.value).value|
    modifies conf`cache, heap, os
    ensures var white := path.Some? && S.WhiteListed(conf.whiteList, path.value);
            var modules := if f.mimeType.Some? then S.Lookup(old(conf.Value()), f.mimeType.value) else None;
            && r == FileOutcome(path, f, white, modules, answers)
            && (!r.aborted ==> (r.detected <==> O.Bad(O.File(path, r.status))))
            && (!r.aborted ==>
                  && os.closed == old(os.closed)
                       + (if path.None? then (if junk.fd < 0 then [] else [junk.fd])
                          else if white || f.opens.None? then [] else [f.opens.value])
                  && multiset(heap.freed) == multiset(old(heap.freed))
                                             + multiset(TextsGiven(path, f, white, modules, answers)))
  {
    var report := new Report();
    var context := new ScanContext(junk);
    var status := context.Get(-1, path, conf, f, report, heap);
    if status == MustScan {
      var outcome := ScanApplyModules(context.modules.value, answers, report, heap);
      FreedAppends(Called(context.modules.value, answers), old(heap.freed));
      if outcome.AssertionFails? {
        return Scanned(report.status, false, true);
      }
      TextsFreedOnce(Called(context.modules.value, answers));
    }
    r := Scanned(report.status, path.Some? && (report.status == Malware || report.status == Suspicious), false);
    context.Close(os);
    report.ReportDestroy(heap);
  }

  lemma FreedAppends(cs: seq<Call>, pre: seq<Ptr>)
    ensures var r, q := Apply(cs, START), Apply(cs, START.(freed := pre));
            q.0 == r.0 && q.1 == r.1.(freed := pre + r.1.freed) && q.2 == r.2
  {
    assert pre + [] == pre;
    FreedAppendsFrom(cs, START, pre);
  }

  lemma {:induction false} FreedAppendsFrom(cs: seq<Call>, s: State, pre: seq<Ptr>)
    ensures var r, q := Apply(cs, s), Apply(cs, s.(freed := pre + s.freed));
            q.0 == r.0 && q.1 == r.1.(freed := pre + r.1.freed) && q.2 == r.2
    decreases |cs|
  {
    if cs != [] && Effective(cs[0], s) {
      var t := Step(cs[0], s);
      assert Step(cs[0], s.(freed := pre + s.freed)) == t.(freed := pre + t.freed);
      if !Authoritative(t.current) {
        FreedAppendsFrom(cs[1..], t, pre);
      }
    }
  }

}

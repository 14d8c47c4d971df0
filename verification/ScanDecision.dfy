/**
  The decision on one file: the modules are applied in order, the report follows
  the highest status (libcore/scanctx.c, libcore/report.c).
 */
module ScanDecision {
  import opened Wrappers
  import opened FileStatus

  type Ptr = nat

  datatype Module = Module(name: string, ok: bool, supported: seq<string>)

  // What happens when a module is called: the seek before it fails, or it returns
  // a status and perhaps a newly allocated text.
  datatype Answer = SeekFails | Returned(status: FileStatus, text: Option<Ptr>)

  datatype Call = Call(name: string, answer: Answer)

  /** The calls to make if nothing stops the loop: those of the modules in status OK. */
  function Called(modules: seq<Module>, answers: seq<Answer>): seq<Call>
    requires |modules| == |answers|
    decreases |modules|
  {
    if modules == [] then []
    else (if modules[0].ok then [Call(modules[0].name, answers[0])] else []) + Called(modules[1..], answers[1..])
  }

  /** The calls are those of the modules at these places. */
  ghost predicate CalledAt(modules: seq<Module>, answers: seq<Answer>, calls: seq<Call>, at: seq<int>)
    requires |modules| == |answers|
  {
    && |at| == |calls|
    && (forall j :: 0 <= j < |at| ==> 0 <= at[j] < |modules| && calls[j] == Call(modules[at[j]].name, answers[at[j]]))
    && (forall j, k :: 0 <= j < k < |at| ==> at[j] < at[k])
  }

  /** Exactly the modules in status OK are at these places. */
  ghost predicate OkAt(modules: seq<Module>, at: seq<int>) {
    forall i :: i in at <==> 0 <= i < |modules| && modules[i].ok
  }

  /** Exactly the modules in status OK are called, in their order. */
  lemma {:induction false} CalledMeaning(modules: seq<Module>, answers: seq<Answer>) returns (at: seq<int>)
    requires |modules| == |answers|
    ensures CalledAt(modules, answers, Called(modules, answers), at) && OkAt(modules, at)
    decreases |modules|
  {
    at := [];
    if modules != [] {
      var rest := CalledMeaning(modules[1..], answers[1..]);
      CalledLater(modules, answers, Called(modules[1..], answers[1..]), rest);
      OkLater(modules, rest);
      at := Later(rest);
      if modules[0].ok {
        CalledFirst(modules, answers, Called(modules[1..], answers[1..]), at);
        at := [0] + at;
      }
    }
  }

  lemma OkLater(modules: seq<Module>, at: seq<int>)
    requires modules != [] && OkAt(modules[1..], at)
    ensures OkAt(modules, if modules[0].ok then [0] + Later(at) else Later(at))
  {
    assert forall i :: 1 <= i < |modules| ==> modules[i] == modules[1..][i - 1];
    assert forall i :: i in [0] + Later(at) <==> i == 0 || i in Later(at);
  }

  function Later(at: seq<int>): (r: seq<int>)
    ensures |r| == |at| && forall j :: 0 <= j < |at| ==> r[j] == at[j] + 1
    ensures forall i :: i in r <==> i - 1 in at
  {
    if at == [] then [] else [at[0] + 1] + Later(at[1..])
  }

  lemma CalledLater(modules: seq<Module>, answers: seq<Answer>, calls: seq<Call>, at: seq<int>)
    requires |modules| == |answers| && modules != [] && CalledAt(modules[1..], answers[1..], calls, at)
    ensures CalledAt(modules, answers, calls, Later(at)) && forall j :: 0 <= j < |at| ==> Later(at)[j] > 0
  {
    forall j | 0 <= j < |at|
      ensures 0 < at[j] + 1 < |modules| && calls[j] == Call(modules[at[j] + 1].name, answers[at[j] + 1])
    {
      assert modules[1..][at[j]] == modules[at[j] + 1] && answers[1..][at[j]] == answers[at[j] + 1];
    }
  }

  lemma CalledFirst(modules: seq<Module>, answers: seq<Answer>, calls: seq<Call>, at: seq<int>)
    requires |modules| == |answers| && modules != [] && CalledAt(modules, answers, calls, at)
    requires forall j :: 0 <= j < |at| ==> at[j] > 0
    ensures CalledAt(modules, answers, [Call(modules[0].name, answers[0])] + calls, [0] + at)
  {
  }

  datatype ReportValue = ReportValue(status: FileStatus, name: Option<string>, text: Option<Ptr>)

  const NEW_REPORT := ReportValue(Undecided, None, None)

  datatype State = State(current: FileStatus, report: ReportValue, freed: seq<Ptr>)

  const START := State(Undecided, NEW_REPORT, [])

  function Change(r: ReportValue, status: FileStatus, name: Option<string>, text: Option<Ptr>): ReportValue {
    ReportValue(status, if name.Some? then name else r.name, if text.Some? then text else r.text)
  }

  function FreedByChange(r: ReportValue, text: Option<Ptr>): seq<Ptr> {
    if text.Some? && r.text.Some? then [r.text.value] else []
  }

  /** A change sets the status; a name or a text that is not given stays, and a text replaced is freed. */
  lemma ChangeMeaning(r: ReportValue, status: FileStatus, name: string, text: Ptr)
    ensures Change(r, status, None, None) == r.(status := status) && FreedByChange(r, None) == []
    ensures Change(r, status, Some(name), None) == r.(status := status, name := Some(name))
    ensures Change(r, status, Some(name), Some(text)) == ReportValue(status, Some(name), Some(text))
    ensures FreedByChange(r, Some(text)) == if r.text.Some? then [r.text.value] else []
  {
  }

  /** One call whose status can be compared. */
  function Step(c: Call, s: State): State
    requires c.answer.Returned?
  {
    var Returned(status, text) := c.answer;
    if Rank(s.current) < Rank(status) then
      State(status, Change(s.report, status, Some(c.name), text), s.freed + FreedByChange(s.report, text))
    else if text.Some? then s.(freed := s.freed + [text.value])
    else s
  }

  // A status is returned, or the comparison's assertion fails.
  datatype Outcome = Verdict(status: FileStatus) | AssertionFails

  /** The outcome, the state at the end, and the number of calls that took effect. */
  function Apply(cs: seq<Call>, s: State): (r: (Outcome, State, nat))
    ensures r.2 <= |cs|
    ensures forall i :: 0 <= i < r.2 ==> cs[i].answer.Returned?
    decreases |cs|
  {
    if cs == [] then (Verdict(s.current), s, 0)
    else if cs[0].answer.SeekFails? then (Verdict(InternalError), s, 0)
    else if Cmp(s.current, cs[0].answer.status) == None then (AssertionFails, s, 0)
    else
      var t := Step(cs[0], s);
      if Authoritative(t.current) then (Verdict(t.current), t, 1)
      else
        var r := Apply(cs[1..], t);
        (r.0, r.1, r.2 + 1)
  }

  // ---------------------------------------------------------------------
  // In place
  // ---------------------------------------------------------------------

  // The strings that have been given back.
  class Heap {
    var freed: seq<Ptr>

    constructor ()
      ensures freed == []
    {
      freed := [];
    }

    method Free(p: Ptr)
      modifies this
      ensures freed == old(freed) + [p]
    {
      freed := freed + [p];
    }
  }

  class Report {
    var status: FileStatus
    var moduleName: Option<string>
    var moduleReport: Option<Ptr>

    function Value(): ReportValue
      reads this
    {
      ReportValue(status, moduleName, moduleReport)
    }

    /** a6o_report_init. */
    constructor ()
      ensures Value() == NEW_REPORT
    {
      status, moduleName, moduleReport := Undecided, None, None;
    }

    method ReportChange(heap: Heap, s: FileStatus, name: Option<string>, text: Option<Ptr>)
      modifies this, heap
      ensures Value() == Change(old(Value()), s, name, text)
      ensures heap.freed == old(heap.freed) + FreedByChange(old(Value()), text)
    {
      status := s;
      if name.Some? {
        moduleName := name;
      }
      if text.Some? {
        if moduleReport.Some? {
          heap.Free(moduleReport.value);
        }
        moduleReport := text;
      }
    }

    /** a6o_report_destroy. */
    method ReportDestroy(heap: Heap)
      modifies heap
      ensures heap.freed == old(heap.freed) + Owned(Value())
    {
      if moduleReport.Some? {
        heap.Free(moduleReport.value);
      }
    }
  }

  function Owned(r: ReportValue): seq<Ptr> {
    if r.text.Some? then [r.text.value] else []
  }

  /** scan_apply_modules. */
  method ScanApplyModules(modules: seq<Module>, answers: seq<Answer>, report: Report, heap: Heap) returns (outcome: Outcome)
    requires |modules| == |answers|
    modifies report, heap
    ensures var r := Apply(Called(modules, answers), State(Undecided, old(report.Value()), old(heap.freed)));
            outcome == r.0 && report.Value() == r.1.report && heap.freed == r.1.freed
  {
    var current := Undecided;
    var i := 0;
    ghost var all := Apply(Called(modules, answers), State(Undecided, report.Value(), heap.freed));
    while i < |modules|
      invariant 0 <= i <= |modules|
      invariant !Authoritative(current)
      invariant var now := Apply(Called(modules[i..], answers[i..]), State(current, report.Value(), heap.freed));
                now.0 == all.0 && now.1 == all.1
    {
      var mod, answer := modules[i], answers[i];
      ghost var before := State(current, report.Value(), heap.freed);
      CalledNext(modules, answers, i);
      i := i + 1;
      if !mod.ok {
        continue;
      }
      if answer.SeekFails? {
        return Verdict(InternalError);
      }
      var c := Cmp(current, answer.status);
      if c == None {
        return AssertionFails;
      }
      if c.value < 0 {
        current := answer.status;
        report.ReportChange(heap, answer.status, Some(mod.name), answer.text);
      } else if answer.text.Some? {
        heap.Free(answer.text.value);
      }
      assert State(current, report.Value(), heap.freed) == Step(Call(mod.name, answer), before);
      if current == WhiteListed || current == Malware {
        break;
      }
    }
    return Verdict(current);
  }

  lemma CalledNext(modules: seq<Module>, answers: seq<Answer>, i: nat)
    requires |modules| == |answers| && i < |modules|
    ensures var now, next := Called(modules[i..], answers[i..]), Called(modules[i + 1..], answers[i + 1..]);
            if modules[i].ok then now != [] && now[0] == Call(modules[i].name, answers[i]) && now[1..] == next
            else now == next
  {
    assert modules[i..][1..] == modules[i + 1..];
    assert answers[i..][1..] == answers[i + 1..];
  }

  // ---------------------------------------------------------------------
  // The verdict
  // ---------------------------------------------------------------------

  // The calls that decide at once, or spoil the comparisons that follow.
  predicate Decisive(c: Call) {
    c.answer.SeekFails? || Authoritative(c.answer.status) || !Ordered(c.answer.status)
  }

  /** The index of the first decisive call. */
  function FirstDecisive(cs: seq<Call>): (k: nat)
    ensures k <= |cs| && (k < |cs| ==> Decisive(cs[k]))
    ensures forall i :: 0 <= i < k ==> !Decisive(cs[i])
  {
    if cs == [] || Decisive(cs[0]) then 0 else FirstDecisive(cs[1..]) + 1
  }

  predicate Answers(c: Call, s: FileStatus) {
    c.answer.Returned? && c.answer.status == s
  }

  /** The index of the first call that does not answer s. */
  function FirstOther(cs: seq<Call>, s: FileStatus): (k: nat)
    ensures k <= |cs| && (k < |cs| ==> !Answers(cs[k], s))
    ensures forall i :: 0 <= i < k ==> Answers(cs[i], s)
  {
    if cs == [] || !Answers(cs[0], s) then 0 else FirstOther(cs[1..], s) + 1
  }

  ghost predicate IsMaximum(m: FileStatus, s: FileStatus, cs: seq<Call>)
    requires forall i :: 0 <= i < |cs| ==> cs[i].answer.Returned?
  {
    && (m == s || exists i :: 0 <= i < |cs| && cs[i].answer.status == m)
    && Rank(s) <= Rank(m)
    && forall i :: 0 <= i < |cs| ==> Rank(cs[i].answer.status) <= Rank(m)
  }

  /**
    The outcome on every input.  Without a decisive call it is the maximum;
    otherwise the first decisive call is an authoritative status, which is the
    outcome, or a failing seek, or a status outside the six: then every later call
    must return the same status, up to a failing seek, or the assertion fails.
   */
  lemma {:induction false} VerdictOnEveryInput(cs: seq<Call>, s: State)
    requires Ordered(s.current) && !Authoritative(s.current)
    ensures var k, outcome := FirstDecisive(cs), Apply(cs, s).0;
            if k == |cs| then outcome.Verdict? && IsMaximum(outcome.status, s.current, cs)
            else if cs[k].answer.SeekFails? then outcome == Verdict(InternalError)
            else if Authoritative(cs[k].answer.status) then outcome == Verdict(cs[k].answer.status)
            else outcome == AfterUnordered(cs[k + 1..], cs[k].answer.status)
    decreases |cs|
  {
    if cs != [] && cs[0].answer.Returned? {
      var t := Step(cs[0], s);
      if Decisive(cs[0]) {
        if !Ordered(cs[0].answer.status) {
          UnorderedThen(cs[1..], t);
        }
      } else {
        VerdictOnEveryInput(cs[1..], t);
        var k := FirstDecisive(cs[1..]);
        if k == |cs[1..]| {
          forall i | 0 <= i < |cs| ensures !Decisive(cs[i]) {
            if i > 0 {
              assert cs[1..][i - 1] == cs[i];
            }
          }
          MaximumStep(cs, s);
        } else {
          assert cs[1..][k + 1..] == cs[k + 2..];
        }
      }
    }
  }

  function AfterUnordered(cs: seq<Call>, u: FileStatus): Outcome {
    var k := FirstOther(cs, u);
    if k == |cs| then Verdict(u)
    else if cs[k].answer.SeekFails? then Verdict(InternalError)
    else AssertionFails
  }

  lemma {:induction false} UnorderedThen(cs: seq<Call>, s: State)
    requires !Ordered(s.current)
    ensures Apply(cs, s).0 == AfterUnordered(cs, s.current)
    decreases |cs|
  {
    if cs != [] && Answers(cs[0], s.current) {
      UnorderedThen(cs[1..], Step(cs[0], s));
    }
  }

  lemma MaximumStep(cs: seq<Call>, s: State)
    requires cs != [] && Ordered(s.current)
    requires forall i :: 0 <= i < |cs| ==> cs[i].answer.Returned? && Ordered(cs[i].answer.status)
    requires var r := Apply(cs[1..], Step(cs[0], s)).0;
             r.Verdict? && IsMaximum(r.status, Step(cs[0], s).current, cs[1..])
    ensures var r := Apply(cs[1..], Step(cs[0], s)).0;
            IsMaximum(r.status, s.current, cs)
  {
    var t, m := Step(cs[0], s).current, Apply(cs[1..], Step(cs[0], s)).0.status;
    if m != t {
      var i: nat :| i < |cs[1..]| && cs[1..][i].answer.status == m;
      assert cs[i + 1].answer.status == m;
    } else if m != s.current {
      assert cs[0].answer.status == m;
    }
    forall i | 0 <= i < |cs| ensures Rank(cs[i].answer.status) <= Rank(m) {
      if i > 0 {
        assert cs[1..][i - 1] == cs[i];
      }
    }
  }

  // ---------------------------------------------------------------------
  // The order of the modules
  // ---------------------------------------------------------------------

  // Every seek succeeds and every status is one of the six.
  predicate Calm(cs: seq<Call>) {
    forall i :: 0 <= i < |cs| ==> cs[i].answer.Returned? && Ordered(cs[i].answer.status)
  }

  function Statuses(cs: seq<Call>): (r: seq<FileStatus>)
    requires Calm(cs)
    ensures |r| == |cs| && forall i :: 0 <= i < |cs| ==> r[i] == cs[i].answer.status
  {
    seq(|cs|, i requires 0 <= i < |cs| => cs[i].answer.status)
  }

  ghost predicate SameAnswers(cs: seq<Call>, ds: seq<Call>) {
    && Calm(cs) && Calm(ds)
    && multiset(Statuses(cs)) == multiset(Statuses(ds))
  }

  ghost predicate BothAuthoritative(cs: seq<Call>)
    requires Calm(cs)
  {
    WhiteListed in Statuses(cs) && Malware in Statuses(cs)
  }

  /** Unless both authoritative statuses are among the answers, the verdict is their maximum. */
  lemma VerdictIsMaximum(cs: seq<Call>)
    requires Calm(cs) && !BothAuthoritative(cs)
    ensures var r := Apply(cs, START).0; r.Verdict? && IsMaximum(r.status, Undecided, cs)
  {
    VerdictOnEveryInput(cs, START);
    var k := FirstDecisive(cs);
    if k < |cs| {
      assert Statuses(cs)[k] == cs[k].answer.status;
      forall i | 0 <= i < |cs| ensures Rank(cs[i].answer.status) <= Rank(cs[k].answer.status) {
        assert Statuses(cs)[i] == cs[i].answer.status;
      }
    }
  }

  lemma MaximumUnique(cs: seq<Call>, ds: seq<Call>, m: FileStatus, n: FileStatus)
    requires SameAnswers(cs, ds)
    requires IsMaximum(m, Undecided, cs) && IsMaximum(n, Undecided, ds)
    ensures m == n
  {
    var a, b := Statuses(cs), Statuses(ds);
    if m != Undecided {
      assert m in multiset(a) && m in b;
    }
    if n != Undecided {
      assert n in multiset(b) && n in a;
    }
    assert Rank(m) == Rank(n);
  }

  /**
    The verdict does not depend on the order of the modules exactly when
    WhiteListed and Malware are not both among their answers.
   */
  lemma OrderIndependent(cs: seq<Call>)
    requires Calm(cs)
    ensures (forall ds :: SameAnswers(cs, ds) ==> Apply(ds, START).0 == Apply(cs, START).0) <==> !BothAuthoritative(cs)
  {
    if BothAuthoritative(cs) {
      var i: nat :| i < |cs| && Statuses(cs)[i] == WhiteListed;
      var j: nat :| j < |cs| && Statuses(cs)[j] == Malware;
      MovedToFront(cs, i);
      MovedToFront(cs, j);
      assert Apply(ToFront(cs, i), START).0 != Apply(ToFront(cs, j), START).0;
    } else {
      forall ds | SameAnswers(cs, ds) ensures Apply(ds, START).0 == Apply(cs, START).0 {
        forall x ensures x in Statuses(ds) ==> x in Statuses(cs) {
          assert x in Statuses(ds) ==> x in multiset(Statuses(cs));
        }
        VerdictIsMaximum(cs);
        VerdictIsMaximum(ds);
        MaximumUnique(cs, ds, Apply(cs, START).0.status, Apply(ds, START).0.status);
      }
    }
  }

  function ToFront(cs: seq<Call>, i: nat): seq<Call>
    requires i < |cs|
  {
    [cs[i]] + cs[..i] + cs[i + 1..]
  }

  lemma MovedToFront(cs: seq<Call>, i: nat)
    requires Calm(cs) && i < |cs| && Authoritative(cs[i].answer.status)
    ensures SameAnswers(cs, ToFront(cs, i))
    ensures Apply(ToFront(cs, i), START).0 == Verdict(cs[i].answer.status)
  {
    FrontStatuses(cs, i);
    FrontMultiset(Statuses(cs), i);
    AuthoritativeFirst(ToFront(cs, i));
  }

  lemma FrontStatuses(cs: seq<Call>, i: nat)
    requires Calm(cs) && i < |cs|
    ensures var a := Statuses(cs); Calm(ToFront(cs, i)) && Statuses(ToFront(cs, i)) == [a[i]] + a[..i] + a[i + 1..]
  {
  }

  lemma FrontMultiset<T>(a: seq<T>, i: nat)
    requires i < |a|
    ensures multiset([a[i]] + a[..i] + a[i + 1..]) == multiset(a)
  {
    assert a == a[..i] + [a[i]] + a[i + 1..];
  }

  lemma AuthoritativeFirst(cs: seq<Call>)
    requires cs != [] && cs[0].answer.Returned? && Authoritative(cs[0].answer.status)
    ensures Apply(cs, START).0 == Verdict(cs[0].answer.status)
  {
  }

  // ---------------------------------------------------------------------
  // The report
  // ---------------------------------------------------------------------

  function StatusOf(c: Call): FileStatus {
    if c.answer.Returned? then c.answer.status else Undecided
  }

  function TextOf(c: Call): Option<Ptr> {
    if c.answer.Returned? then c.answer.text else None
  }

  /** Call j raises the status: it is above every earlier one. */
  predicate Raises(cs: seq<Call>, j: nat)
    requires j < |cs|
  {
    && StatusOf(cs[j]) != Undecided
    && forall i :: 0 <= i < j ==> Rank(StatusOf(cs[i])) < Rank(StatusOf(cs[j]))
  }

  /** The name is that of the first call with the final status, among the first n. */
  ghost predicate NameIsFirst(cs: seq<Call>, n: nat, status: FileStatus, name: Option<string>)
    requires n <= |cs|
  {
    if name.None? then status == Undecided
    else exists j: nat :: j < n && Raises(cs, j) && StatusOf(cs[j]) == status && name == Some(cs[j].name)
  }

  /** Call j is the last one among the first n that raised the status and gave a text. */
  ghost predicate LastText(cs: seq<Call>, n: nat, j: nat)
    requires j < n <= |cs|
  {
    && Raises(cs, j) && TextOf(cs[j]).Some?
    && forall k :: j < k < n && Raises(cs, k) ==> TextOf(cs[k]) == None
  }

  ghost predicate TextIsLast(cs: seq<Call>, n: nat, text: Option<Ptr>)
    requires n <= |cs|
  {
    if text.None? then forall j :: 0 <= j < n && Raises(cs, j) ==> TextOf(cs[j]) == None
    else exists j: nat :: j < n && LastText(cs, n, j) && TextOf(cs[j]) == text
  }

  /** The texts given by the first n calls. */
  function Texts(cs: seq<Call>, n: nat): seq<Ptr>
    requires n <= |cs|
  {
    if n == 0 then []
    else Texts(cs, n - 1) + (if TextOf(cs[n - 1]).Some? then [TextOf(cs[n - 1]).value] else [])
  }

  predicate Bounded(cs: seq<Call>, n: nat, status: FileStatus)
    requires n <= |cs|
  {
    forall i :: 0 <= i < n ==> Rank(StatusOf(cs[i])) <= Rank(status)
  }

  ghost predicate Conserved(cs: seq<Call>, n: nat, s: State)
    requires n <= |cs|
  {
    multiset(s.freed) + multiset(Owned(s.report)) == multiset(Texts(cs, n))
  }

  ghost predicate Named(cs: seq<Call>, n: nat, s: State)
    requires n <= |cs|
  {
    && s.report.status == s.current
    && Bounded(cs, n, s.current)
    && NameIsFirst(cs, n, s.current, s.report.name)
  }

  lemma StepRaises(cs: seq<Call>, n: nat, current: FileStatus, name: Option<string>)
    requires n < |cs| && Bounded(cs, n, current) && NameIsFirst(cs, n, current, name)
    ensures Raises(cs, n) <==> Rank(current) < Rank(StatusOf(cs[n]))
  {
    if name.Some? {
      var j: nat :| j < n && Raises(cs, j) && StatusOf(cs[j]) == current && name == Some(cs[j].name);
      if Raises(cs, n) {
        assert Rank(StatusOf(cs[j])) < Rank(StatusOf(cs[n]));
      }
    }
  }

  lemma StepText(cs: seq<Call>, n: nat, text: Option<Ptr>)
    requires n < |cs| && TextIsLast(cs, n, text)
    ensures TextIsLast(cs, n + 1, if Raises(cs, n) && TextOf(cs[n]).Some? then TextOf(cs[n]) else text)
  {
    if Raises(cs, n) && TextOf(cs[n]).Some? {
      assert LastText(cs, n + 1, n);
    } else if text.Some? {
      var j: nat :| j < n && LastText(cs, n, j) && TextOf(cs[j]) == text;
      assert LastText(cs, n + 1, j);
    }
  }

  lemma StepConserved(cs: seq<Call>, n: nat, s: State)
    requires n < |cs| && cs[n].answer.Returned? && Conserved(cs, n, s)
    ensures Conserved(cs, n + 1, Step(cs[n], s))
  {
    var t, text := Step(cs[n], s), cs[n].answer.text;
    if text.Some? {
      MultisetSnoc(Texts(cs, n), text.value);
      MultisetSnoc(s.freed, text.value);
      if s.report.text.Some? {
        MultisetSnoc(s.freed, s.report.text.value);
      } else {
        assert s.freed + [] == s.freed;
      }
    } else {
      assert Texts(cs, n) + [] == Texts(cs, n);
      assert s.freed + [] == s.freed;
    }
  }

  lemma MultisetSnoc<T>(s: seq<T>, x: T)
    ensures multiset(s + [x]) == multiset(s) + multiset{x}
  {
  }

  lemma StepName(cs: seq<Call>, n: nat, s: State)
    requires n < |cs| && Named(cs, n, s) && Effective(cs[n], s)
    ensures Named(cs, n + 1, Step(cs[n], s))
  {
    StepRaises(cs, n, s.current, s.report.name);
  }

  lemma ApplyNext(cs: seq<Call>, n: nat, s: State)
    requires n < |cs| && cs[n].answer.Returned? && Cmp(s.current, cs[n].answer.status).Some?
    ensures var r, t := Apply(cs[n..], s), Step(cs[n], s);
            if Authoritative(t.current) then r.2 == 1 && r.1 == t
            else r.2 == Apply(cs[n + 1..], t).2 + 1 && r.1 == Apply(cs[n + 1..], t).1
  {
    assert cs[n..][1..] == cs[n + 1..];
  }

  lemma ApplyNothing(cs: seq<Call>, n: nat, s: State)
    requires n <= |cs|
    requires n < |cs| && cs[n].answer.Returned? ==> Cmp(s.current, cs[n].answer.status).None?
    ensures Apply(cs[n..], s).2 == 0 && Apply(cs[n..], s).1 == s
  {
  }

  // A call that takes effect.
  predicate Effective(c: Call, s: State) {
    c.answer.Returned? && Cmp(s.current, c.answer.status).Some?
  }

  /** What every step keeps holds at the end. */
  lemma {:induction false} ApplyKeeps(cs: seq<Call>, n: nat, s: State, m: nat, end: State, inv: (int, State) -> bool)
    requires n <= |cs| && inv(n, s)
    requires forall k, t :: 0 <= k < |cs| && inv(k, t) && Effective(cs[k], t) ==> inv(k + 1, Step(cs[k], t))
    requires m == n + Apply(cs[n..], s).2 && end == Apply(cs[n..], s).1
    ensures inv(m, end)
    decreases |cs| - n
  {
    if n < |cs| && Effective(cs[n], s) {
      ApplyNext(cs, n, s);
      if !Authoritative(Step(cs[n], s).current) {
        ApplyKeeps(cs, n + 1, Step(cs[n], s), m, end, inv);
      }
    } else {
      ApplyNothing(cs, n, s);
    }
  }

  ghost predicate NamedAt(cs: seq<Call>, k: int, t: State) {
    0 <= k <= |cs| && Named(cs, k, t)
  }

  ghost predicate TextAt(cs: seq<Call>, k: int, t: State) {
    0 <= k <= |cs| && Named(cs, k, t) && TextIsLast(cs, k, t.report.text)
  }

  ghost predicate ConservedAt(cs: seq<Call>, k: int, t: State) {
    0 <= k <= |cs| && Conserved(cs, k, t)
  }

  lemma ApplyNamed(cs: seq<Call>, m: nat, end: State)
    requires m == Apply(cs, START).2 && end == Apply(cs, START).1
    ensures Named(cs, m, end)
  {
    var inv := (k: int, t: State) => NamedAt(cs, k, t);
    forall k, t | 0 <= k < |cs| && inv(k, t) && Effective(cs[k], t) ensures inv(k + 1, Step(cs[k], t)) {
      StepName(cs, k, t);
    }
    assert cs[0..] == cs;
    ApplyKeeps(cs, 0, START, m, end, inv);
  }

  lemma ApplyTexts(cs: seq<Call>, m: nat, end: State)
    requires m == Apply(cs, START).2 && end == Apply(cs, START).1
    ensures TextIsLast(cs, m, end.report.text)
  {
    var inv := (k: int, t: State) => TextAt(cs, k, t);
    forall k, t | 0 <= k < |cs| && inv(k, t) && Effective(cs[k], t) ensures inv(k + 1, Step(cs[k], t)) {
      StepName(cs, k, t);
      StepRaises(cs, k, t.current, t.report.name);
      StepText(cs, k, t.report.text);
    }
    assert cs[0..] == cs;
    ApplyKeeps(cs, 0, START, m, end, inv);
  }

  lemma ConservedFirst(cs: seq<Call>)
    ensures ConservedAt(cs, 0, START)
  {
  }

  lemma ConservedNext(cs: seq<Call>, k: int, t: State)
    requires 0 <= k < |cs| && ConservedAt(cs, k, t) && Effective(cs[k], t)
    ensures ConservedAt(cs, k + 1, Step(cs[k], t))
  {
    StepConserved(cs, k, t);
  }

  lemma ApplyConserved(cs: seq<Call>, m: nat, end: State)
    requires m == Apply(cs, START).2 && end == Apply(cs, START).1
    ensures Conserved(cs, m, end)
  {
    var inv := (k: int, t: State) => ConservedAt(cs, k, t);
    forall k, t | 0 <= k < |cs| && inv(k, t) && Effective(cs[k], t) ensures inv(k + 1, Step(cs[k], t)) {
      ConservedNext(cs, k, t);
    }
    ConservedFirst(cs);
    assert cs[0..] == cs;
    ApplyKeeps(cs, 0, START, m, end, inv);
  }

  lemma {:induction false} HowItEnds(cs: seq<Call>, s: State)
    requires !Authoritative(s.current)
    ensures var r := Apply(cs, s);
            r.0.Verdict? ==> r.0.status == if SeekStopped(cs, r.1, r.2) then InternalError else r.1.current
    decreases |cs|
  {
    if cs != [] && cs[0].answer.Returned? && Cmp(s.current, cs[0].answer.status).Some? {
      var t := Step(cs[0], s);
      if !Authoritative(t.current) {
        HowItEnds(cs[1..], t);
      }
    }
  }

  /** The loop ended before a call because its seek failed. */
  predicate SeekStopped(cs: seq<Call>, s: State, n: nat) {
    !Authoritative(s.current) && n < |cs| && cs[n].answer.SeekFails?
  }

  // ---------------------------------------------------------------------
  // The report, told from the answers
  // ---------------------------------------------------------------------

  /** The number of calls that take effect. */
  function Taken(cs: seq<Call>): (n: nat)
    ensures n <= |cs|
  {
    var k := FirstDecisive(cs);
    if k == |cs| || cs[k].answer.SeekFails? then k
    else if Authoritative(cs[k].answer.status) then k + 1
    else k + 1 + FirstOther(cs[k + 1..], cs[k].answer.status)
  }

  /** The first decisive call is an authoritative answer. */
  predicate Decided(cs: seq<Call>) {
    var k := FirstDecisive(cs);
    k < |cs| && cs[k].answer.Returned? && Authoritative(cs[k].answer.status)
  }

  lemma {:induction false} TakenIsApplied(cs: seq<Call>, s: State)
    requires Ordered(s.current) && !Authoritative(s.current)
    ensures Apply(cs, s).2 == Taken(cs)
    ensures Authoritative(Apply(cs, s).1.current) <==> Decided(cs)
    decreases |cs|
  {
    if cs != [] && cs[0].answer.Returned? {
      var t := Step(cs[0], s);
      if Decisive(cs[0]) {
        if !Ordered(cs[0].answer.status) {
          UnorderedTaken(cs[1..], t);
        }
      } else {
        TakenIsApplied(cs[1..], t);
        var k := FirstDecisive(cs[1..]);
        if k < |cs[1..]| {
          assert cs[1..][k + 1..] == cs[k + 2..];
        }
      }
    }
  }

  lemma {:induction false} UnorderedTaken(cs: seq<Call>, s: State)
    requires !Ordered(s.current)
    ensures Apply(cs, s).2 == FirstOther(cs, s.current) && Apply(cs, s).1.current == s.current
    decreases |cs|
  {
    if cs != [] && Answers(cs[0], s.current) {
      UnorderedTaken(cs[1..], Step(cs[0], s));
    }
  }

  /** Call j is the first one with the highest status among the first n, and that is not Undecided. */
  predicate Naming(cs: seq<Call>, n: nat, j: nat)
    requires n <= |cs|
  {
    j < n && Raises(cs, j) && Bounded(cs, n, StatusOf(cs[j]))
  }

  /** A seek fails before the first authoritative answer, and before the comparison fails. */
  predicate SeekReached(cs: seq<Call>) {
    !Decided(cs) && Taken(cs) < |cs| && cs[Taken(cs)].answer.SeekFails?
  }

  /**
    The report of a scan, told from the answers of the modules.  Its module and
    its status are those of the first call with the highest status among those
    that take effect.  Every text given by a module has been freed once or is
    owned by the report.
   */
  lemma ReportOfScan(cs: seq<Call>, j: nat)
    ensures var s, n := Apply(cs, START).1, Taken(cs);
            && Apply(cs, START).2 == n && Conserved(cs, n, s)
            && (Naming(cs, n, j) ==> s.report.name == Some(cs[j].name) && s.report.status == StatusOf(cs[j]))
            && ((forall i: nat :: !Naming(cs, n, i)) ==> s.report == NEW_REPORT)
  {
    var r, n := Apply(cs, START), Taken(cs);
    TakenIsApplied(cs, START);
    ApplyNamed(cs, n, r.1);
    ApplyTexts(cs, n, r.1);
    ApplyConserved(cs, n, r.1);
    if r.1.report.name.Some? {
      var i: nat :| i < n && Raises(cs, i) && StatusOf(cs[i]) == r.1.current && r.1.report.name == Some(cs[i].name);
      assert Naming(cs, n, i);
      if Naming(cs, n, j) {
        NamingUnique(cs, n, i, j);
      }
    } else {
      NothingRaised(cs, n, r.1);
    }
  }

  lemma NamingUnique(cs: seq<Call>, n: nat, i: nat, j: nat)
    requires n <= |cs| && Naming(cs, n, i) && Naming(cs, n, j)
    ensures i == j
  {
    assert Rank(StatusOf(cs[i])) <= Rank(StatusOf(cs[j])) && Rank(StatusOf(cs[j])) <= Rank(StatusOf(cs[i]));
  }

  lemma NothingRaised(cs: seq<Call>, n: nat, s: State)
    requires n <= |cs| && Named(cs, n, s) && TextIsLast(cs, n, s.report.text) && s.report.name == None
    ensures s.report == NEW_REPORT && forall i: nat :: !Naming(cs, n, i)
  {
    forall i | 0 <= i < n ensures !Raises(cs, i) {
      assert Rank(StatusOf(cs[i])) <= Rank(Undecided);
    }
  }

  /**
    The text of the report is that of the module it names exactly when that
    module gave one, or no module that raised the status before gave one.
   */
  lemma TextOfNamedModule(cs: seq<Call>, j: nat)
    requires Naming(cs, Taken(cs), j)
    ensures var report := Apply(cs, START).1.report;
            && report.name == Some(cs[j].name)
            && (report.text == TextOf(cs[j]) <==>
                  TextOf(cs[j]).Some? || forall i :: 0 <= i < j && Raises(cs, i) ==> TextOf(cs[i]) == None)
  {
    var s, n := Apply(cs, START).1, Taken(cs);
    ReportOfScan(cs, j);
    ApplyTexts(cs, n, s);
    forall k | j < k < n ensures !Raises(cs, k) {
      assert Rank(StatusOf(cs[k])) <= Rank(StatusOf(cs[j]));
    }
  }

  /** The highest status among the first n calls. */
  ghost predicate Highest(cs: seq<Call>, n: nat, status: FileStatus)
    requires n <= |cs|
  {
    exists j: nat :: Naming(cs, n, j) && StatusOf(cs[j]) == status
  }

  lemma HighestIsReported(cs: seq<Call>, status: FileStatus)
    requires status != Undecided
    ensures Highest(cs, Taken(cs), status) <==> Apply(cs, START).1.report.status == status
  {
    if j: nat :| Naming(cs, Taken(cs), j) {
      ReportOfScan(cs, j);
      forall i: nat | Naming(cs, Taken(cs), i) ensures i == j {
        NamingUnique(cs, Taken(cs), i, j);
      }
    } else {
      ReportOfScan(cs, 0);
    }
  }

  /**
    The verdict is the status of the report exactly unless the loop reaches a
    seek that fails and the highest status before it is not InternalError.
   */
  lemma VerdictIsReported(cs: seq<Call>)
    requires Apply(cs, START).0.Verdict?
    ensures Apply(cs, START).0.status == Apply(cs, START).1.report.status <==>
              !SeekReached(cs) || Highest(cs, Taken(cs), InternalError)
  {
    var r := Apply(cs, START);
    TakenIsApplied(cs, START);
    HowItEnds(cs, START);
    ReportedIsCurrent(cs);
    HighestIsReported(cs, InternalError);
  }

  lemma ReportedIsCurrent(cs: seq<Call>)
    ensures Apply(cs, START).1.report.status == Apply(cs, START).1.current
  {
    ApplyNamed(cs, Apply(cs, START).2, Apply(cs, START).1);
  }

  /** After the report is destroyed every text given by a module that was called has been freed exactly once. */
  lemma TextsFreedOnce(cs: seq<Call>)
    ensures var r := Apply(cs, START);
            multiset(r.1.freed + Owned(r.1.report)) == multiset(Texts(cs, Taken(cs)))
  {
    ReportOfScan(cs, 0);
  }

  /** A scan in which the text is not that of the module named. */
  lemma TextOfAnotherModule()
    ensures var cs := [Call("first", Returned(Suspicious, Some(1))), Call("second", Returned(Malware, None))];
            Apply(cs, START).1.report == ReportValue(Malware, Some("second"), Some(1))
  {
    var a, b := Call("first", Returned(Suspicious, Some(1))), Call("second", Returned(Malware, None));
    assert [a, b][1..] == [b];
  }

}

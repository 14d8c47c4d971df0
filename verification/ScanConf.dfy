/**
  The scan configuration (libcore/scanconf.c): the modules that apply to a mime
  type, with a cache, and the white list of directories.
 */
module ScanConf {
  import opened Wrappers
  import opened ScanDecision

  predicate Contains(mimeTypes: seq<string>, m: string) {
    exists i :: 0 <= i < |mimeTypes| && (mimeTypes[i] == m || mimeTypes[i] == "*")
  }

  function Supporting(modules: seq<Module>, m: string): seq<Module> {
    if modules == [] then []
    else
      var n := |modules| - 1;
      Supporting(modules[..n], m) + (if Contains(modules[n].supported, m) then [modules[n]] else [])
  }

  // NULL when no module applies.
  type Applicable = Option<seq<Module>>

  /** The direct filter: the modules that support m, if m is configured and there are any. */
  function Filter(mimeTypes: seq<string>, modules: seq<Module>, m: string): Applicable {
    if Contains(mimeTypes, m) && Supporting(modules, m) != [] then Some(Supporting(modules, m)) else None
  }

  /** The filter keeps exactly the supporting modules, each as many times as it is configured. */
  lemma {:induction false} SupportingIsFilter(modules: seq<Module>, m: string, x: Module)
    ensures multiset(Supporting(modules, m))[x] == if Contains(x.supported, m) then multiset(modules)[x] else 0
  {
    if modules != [] {
      var n := |modules| - 1;
      SupportingIsFilter(modules[..n], m, x);
      assert modules == modules[..n] + [modules[n]];
    }
  }

  /** Every directory character but the last is compared; the last stands for any character. */
  predicate StrPrefix(s: string, p: string) {
    && |p| <= |s|
    && (forall i :: 0 <= i < |p| - 1 ==> s[i] == p[i])
    && AtBoundary(s, |p|)
  }

  predicate AtBoundary(s: string, n: nat)
    requires n <= |s|
  {
    n == |s| || s[n] == '/' || s[n] == '\\'
  }

  /** The path s is the directory p or below it. */
  predicate Below(s: string, p: string) {
    p <= s && AtBoundary(s, |p|)
  }

  /** The names differ at most in the last character. */
  predicate Similar(p: string, q: string) {
    |q| == |p| && forall i :: 0 <= i < |p| - 1 ==> q[i] == p[i]
  }

  /** A white-listed directory covers every path below a directory of a similar name. */
  lemma StrPrefixIsWildcard(s: string, p: string)
    ensures StrPrefix(s, p) <==> exists q :: Similar(p, q) && Below(s, q)
  {
    if StrPrefix(s, p) {
      assert Similar(p, s[..|p|]) && Below(s, s[..|p|]);
    }
    if q :| Similar(p, q) && Below(s, q) {
      forall i | 0 <= i < |p| - 1 ensures s[i] == p[i] {
        assert s[i] == q[i];
      }
    }
  }

  /** The path is below a directory whose name differs from p in the last character, and nowhere else. */
  predicate LastDiffers(s: string, p: string) {
    && 1 <= |p| <= |s|
    && (forall i :: 0 <= i < |p| - 1 ==> s[i] == p[i])
    && s[|p| - 1] != p[|p| - 1]
    && AtBoundary(s, |p|)
  }

  /**
    The test accepts the paths below the directory, and those below a directory
    that differs in the last character: after as many characters as the
    directory has, the path ends or goes on with a separator.
   */
  lemma StrPrefixExact(s: string, p: string)
    ensures StrPrefix(s, p) <==> Below(s, p) || LastDiffers(s, p)
    ensures !(Below(s, p) && LastDiffers(s, p))
    ensures Below(s, p) <==> p <= s && (|s| == |p| || s[|p|] == '/' || s[|p|] == '\\')
    ensures LastDiffers(s, p) <==>
            && 1 <= |p| <= |s| && s[..|p| - 1] == p[..|p| - 1] && s[|p| - 1] != p[|p| - 1]
            && (|s| == |p| || s[|p|] == '/' || s[|p|] == '\\')
  {
    if LastDiffers(s, p) {
      assert s[..|p| - 1] == p[..|p| - 1];
    }
    if 1 <= |p| <= |s| && s[..|p| - 1] == p[..|p| - 1] {
      forall i | 0 <= i < |p| - 1 ensures s[i] == p[i] {
        assert s[i] == s[..|p| - 1][i];
      }
    }
    if StrPrefix(s, p) && !LastDiffers(s, p) {
      assert s[..|p|] == p;
    }
    if Below(s, p) {
      assert s[..|p|] == p;
    }
  }

  /**
    The white list is wrong about a path exactly when the path is below none of
    the directories, and the name of one differs in the last character.
   */
  lemma WhiteListExact(dirs: seq<string>, path: string)
    ensures (WhiteListed(dirs, path) <==> exists i :: 0 <= i < |dirs| && Below(path, dirs[i])) <==>
            !((forall i :: 0 <= i < |dirs| ==> !Below(path, dirs[i])) && exists i :: 0 <= i < |dirs| && LastDiffers(path, dirs[i]))
  {
    forall i | 0 <= i < |dirs|
      ensures StrPrefix(path, dirs[i]) <==> Below(path, dirs[i]) || LastDiffers(path, dirs[i])
    {
      StrPrefixExact(path, dirs[i]);
    }
  }

  lemma OtherDirectoryWhiteListed()
    ensures StrPrefix("/home/b/x", "/home/a") && !Below("/home/b/x", "/home/a")
  {
    assert "/home/b/x"[6] != "/home/a"[6];
  }

  /** Advances over both strings at once, past a first difference too. */
  method StringPrefix(s: string, prefix: string) returns (r: bool)
    ensures r == StrPrefix(s, prefix)
  {
    var i := 0;
    while i < |prefix| && i < |s|
      invariant 0 <= i <= |prefix| && i <= |s|
      invariant forall k :: 0 <= k < i ==> s[k] == prefix[k]
      decreases |prefix| - i
    {
      i := i + 1;
      if prefix[i - 1] != s[i - 1] {
        break;
      }
    }
    if i == |prefix| {
      return i == |s| || s[i] == '/' || s[i] == '\\';
    }
    return false;
  }

  predicate WhiteListed(dirs: seq<string>, path: string) {
    exists i :: 0 <= i < |dirs| && StrPrefix(path, dirs[i])
  }

  method MimeTypeContains(mimeTypes: seq<string>, m: string) returns (r: bool)
    ensures r == Contains(mimeTypes, m)
  {
    for i := 0 to |mimeTypes|
      invariant forall k :: 0 <= k < i ==> mimeTypes[k] != m && mimeTypes[k] != "*"
    {
      if mimeTypes[i] == m || mimeTypes[i] == "*" {
        return true;
      }
    }
    return false;
  }

  // What a configuration holds.
  datatype Conf = Conf(mimeTypes: seq<string>, modules: seq<Module>, cache: map<string, Applicable>)

  const EMPTY := Conf([], [], map[])

  function Direct(c: Conf, m: string): Applicable {
    Filter(c.mimeTypes, c.modules, m)
  }

  /** The answer of one lookup. */
  function Lookup(c: Conf, m: string): Applicable {
    if m in c.cache then c.cache[m] else Direct(c, m)
  }

  datatype Op = AddMimeType(m: string) | AddModule(mod: Module) | Get(m: string)

  function Do(op: Op, c: Conf): Conf {
    match op
    case AddMimeType(m) => c.(mimeTypes := c.mimeTypes + [m])
    case AddModule(mod) => c.(modules := c.modules + [mod])
    case Get(m) => c.(cache := c.cache[m := Lookup(c, m)])
  }

  function Run(ops: seq<Op>): Conf
    decreases |ops|
  {
    if ops == [] then EMPTY else Do(ops[|ops| - 1], Run(ops[..|ops| - 1]))
  }

  class ScanConf {
    var mimeTypes: seq<string>
    var modules: seq<Module>
    var cache: map<string, Applicable>
    var whiteList: seq<string>

    function Value(): Conf
      reads this
    {
      Conf(mimeTypes, modules, cache)
    }

    constructor ()
      ensures Value() == EMPTY && whiteList == []
    {
      mimeTypes, modules, cache, whiteList := [], [], map[], [];
    }

    method WhiteListDirectory(path: string)
      modifies this`whiteList
      ensures whiteList == old(whiteList) + [path]
    {
      whiteList := whiteList + [path];
    }

    method IsWhiteListed(path: string) returns (r: bool)
      ensures r == WhiteListed(whiteList, path)
    {
      for i := 0 to |whiteList|
        invariant forall k :: 0 <= k < i ==> !StrPrefix(path, whiteList[k])
      {
        var under := StringPrefix(path, whiteList[i]);
        if under {
          return true;
        }
      }
      return false;
    }

    method AddMimeType(m: string)
      modifies this`mimeTypes
      ensures Value() == Do(Op.AddMimeType(m), old(Value()))
    {
      mimeTypes := mimeTypes + [m];
    }

    method AddModule(mod: Module)
      modifies this`modules
      ensures Value() == Do(Op.AddModule(mod), old(Value()))
    {
      modules := modules + [mod];
    }

    method BuildModuleArray(m: string) returns (r: Applicable)
      ensures r == if Supporting(modules, m) == [] then None else Some(Supporting(modules, m))
    {
      var found: seq<Module> := [];
      for i := 0 to |modules|
        invariant found == Supporting(modules[..i], m)
      {
        assert modules[..i + 1][..i] == modules[..i];
        var supports := MimeTypeContains(modules[i].supported, m);
        if supports {
          found := found + [modules[i]];
        }
      }
      assert modules[..|modules|] == modules;
      return if found == [] then None else Some(found);
    }

    method GetApplicableModules(m: string) returns (r: Applicable)
      modifies this`cache
      ensures r == Lookup(old(Value()), m)
      ensures Value() == Do(Get(m), old(Value()))
    {
      if m in cache {
        r := cache[m];
        assert cache == cache[m := r];
        return;
      }
      var configured := MimeTypeContains(mimeTypes, m);
      if !configured {
        cache := cache[m := None];
        return None;
      }
      r := BuildModuleArray(m);
      cache := cache[m := r];
    }
  }

  // ---------------------------------------------------------------------
  // The cache
  // ---------------------------------------------------------------------

  /** The index of the first lookup of m. */
  function FirstGet(ops: seq<Op>, m: string): (k: nat)
    ensures k <= |ops|
    ensures k < |ops| ==> ops[k] == Get(m)
    ensures forall i :: 0 <= i < k ==> ops[i] != Get(m)
    decreases |ops|
  {
    if ops == [] then 0
    else
      var n := |ops| - 1;
      var k := FirstGet(ops[..n], m);
      if k < n || ops[n] == Get(m) then k else n + 1
  }

  /** A step leaves a cached answer alone, and caches one just when it looks it up. */
  lemma DoLookup(c: Conf, op: Op, m: string)
    ensures m in Do(op, c).cache <==> m in c.cache || op == Get(m)
    ensures m in c.cache || op == Get(m) ==> Lookup(Do(op, c), m) == Lookup(c, m)
  {
  }

  /**
    After any run, a lookup gives what the filter gave when the mime type was
    first looked up, or gives now if this is the first time.
   */
  lemma {:induction false} LookupIsFirstFilter(ops: seq<Op>, m: string)
    ensures Lookup(Run(ops), m) == Direct(Run(ops[..FirstGet(ops, m)]), m)
    ensures m in Run(ops).cache <==> FirstGet(ops, m) < |ops|
    decreases |ops|
  {
    if ops == [] {
      assert ops[..FirstGet(ops, m)] == ops;
    } else {
      var n := |ops| - 1;
      LookupIsFirstFilter(ops[..n], m);
      DoLookup(Run(ops[..n]), ops[n], m);
      var k := FirstGet(ops[..n], m);
      if k < n {
        assert ops[..n][..k] == ops[..k];
      } else {
        assert ops[..n][..k] == ops[..n];
        assert ops[..n + 1] == ops;
      }
    }
  }

  // ---------------------------------------------------------------------
  // What a lookup answers, told from the operations
  // ---------------------------------------------------------------------

  /** The mime type m, or any mime type, is listed. */
  predicate Names(mimeTypes: seq<string>, m: string) {
    m in mimeTypes || "*" in mimeTypes
  }

  /** Operation i adds the mime type m, or all of them. */
  predicate Configures(ops: seq<Op>, i: int, m: string)
    requires 0 <= i < |ops|
  {
    ops[i].AddMimeType? && (ops[i].m == m || ops[i].m == "*")
  }

  /** Operation i adds a module that supports m. */
  predicate AddsFor(ops: seq<Op>, i: int, m: string)
    requires 0 <= i < |ops|
  {
    ops[i].AddModule? && Names(ops[i].mod.supported, m)
  }

  /** The modules found are those added by the operations at these places, in this order. */
  ghost predicate AddedAt(ops: seq<Op>, found: seq<Module>, at: seq<int>) {
    && |at| == |found|
    && (forall j :: 0 <= j < |at| ==> 0 <= at[j] < |ops| && ops[at[j]] == AddModule(found[j]))
    && (forall j, k :: 0 <= j < k < |at| ==> at[j] < at[k])
  }

  lemma {:induction false} RunMimeTypes(ops: seq<Op>, m: string)
    ensures Contains(Run(ops).mimeTypes, m) <==> exists i :: 0 <= i < |ops| && Configures(ops, i, m)
    decreases |ops|
  {
    if ops != [] {
      var n := |ops| - 1;
      RunMimeTypes(ops[..n], m);
      var c, d := Run(ops[..n]), Run(ops);
      assert Contains(d.mimeTypes, m) <==> Contains(c.mimeTypes, m) || Configures(ops, n, m) by {
        if ops[n].AddMimeType? {
          ContainsSnoc(c.mimeTypes, ops[n].m, m);
        }
      }
      assert forall i :: 0 <= i < n ==> (Configures(ops, i, m) <==> Configures(ops[..n], i, m));
    }
  }

  lemma ContainsSnoc(mimeTypes: seq<string>, x: string, m: string)
    ensures Contains(mimeTypes + [x], m) <==> Contains(mimeTypes, m) || x == m || x == "*"
  {
    var r := mimeTypes + [x];
    if i :| 0 <= i < |mimeTypes| && (mimeTypes[i] == m || mimeTypes[i] == "*") {
      assert r[i] == mimeTypes[i];
    }
    assert r[|mimeTypes|] == x;
  }

  lemma ContainsIsNames(mimeTypes: seq<string>, m: string)
    ensures Contains(mimeTypes, m) <==> Names(mimeTypes, m)
  {
  }

  lemma SupportingSnoc(modules: seq<Module>, x: Module, m: string)
    ensures Supporting(modules + [x], m) == Supporting(modules, m) + (if Names(x.supported, m) then [x] else [])
  {
    assert (modules + [x])[..|modules|] == modules;
    ContainsIsNames(x.supported, m);
  }

  /** These are the places of the modules that support m. */
  ghost predicate PlacesFor(ops: seq<Op>, at: seq<int>, m: string) {
    forall i :: i in at <==> 0 <= i < |ops| && AddsFor(ops, i, m)
  }

  lemma PlacesNext(ops: seq<Op>, at: seq<int>, m: string)
    requires ops != [] && PlacesFor(ops[..|ops| - 1], at, m)
    ensures var n := |ops| - 1; PlacesFor(ops, if AddsFor(ops, n, m) then at + [n] else at, m)
  {
    var n := |ops| - 1;
    assert forall i :: 0 <= i < n ==> (AddsFor(ops, i, m) <==> AddsFor(ops[..n], i, m));
  }

  lemma {:induction false} RunModules(ops: seq<Op>, m: string) returns (at: seq<int>)
    ensures AddedAt(ops, Supporting(Run(ops).modules, m), at) && PlacesFor(ops, at, m)
    decreases |ops|
  {
    at := [];
    if ops != [] {
      var n := |ops| - 1;
      at := RunModules(ops[..n], m);
      PlacesNext(ops, at, m);
      var found := Supporting(Run(ops[..n]).modules, m);
      AddedLonger(ops, found, at);
      if ops[n].AddModule? {
        SupportingSnoc(Run(ops[..n]).modules, ops[n].mod, m);
      }
      if AddsFor(ops, n, m) {
        AddedSnoc(ops, found, at);
        at := at + [n];
      }
    }
  }

  lemma AddedLonger(ops: seq<Op>, found: seq<Module>, at: seq<int>)
    requires ops != [] && AddedAt(ops[..|ops| - 1], found, at)
    ensures AddedAt(ops, found, at) && forall j :: 0 <= j < |at| ==> at[j] < |ops| - 1
  {
    forall j | 0 <= j < |at| ensures at[j] < |ops| - 1 && ops[at[j]] == AddModule(found[j]) {
      assert ops[..|ops| - 1][at[j]] == ops[at[j]];
    }
  }

  lemma AddedSnoc(ops: seq<Op>, found: seq<Module>, at: seq<int>)
    requires ops != [] && AddedAt(ops, found, at) && ops[|ops| - 1].AddModule?
    requires forall j :: 0 <= j < |at| ==> at[j] < |ops| - 1
    ensures AddedAt(ops, found + [ops[|ops| - 1].mod], at + [|ops| - 1])
  {
  }

  /**
    What a lookup of m answers after any run, k being the place of the first
    lookup of m, or the end.  It answers NULL exactly if before that no mime type
    m or "*" was added, or no module that supports m or "*"; otherwise all the
    modules added before that support m or "*", in the order in which they were
    added.
   */
  lemma LookupMeaning(ops: seq<Op>, m: string, k: nat)
    requires k <= |ops| && (forall i :: 0 <= i < k ==> ops[i] != Get(m)) && (k < |ops| ==> ops[k] == Get(m))
    ensures Lookup(Run(ops), m) == None <==>
            || (forall i :: 0 <= i < k ==> !Configures(ops, i, m))
            || (forall i :: 0 <= i < k ==> !AddsFor(ops, i, m))
    ensures var r := Lookup(Run(ops), m);
            r.Some? ==> exists at :: AddedAt(ops, r.value, at) && forall i :: i in at <==> 0 <= i < k && AddsFor(ops, i, m)
  {
    var c := Run(ops[..k]);
    LookupAtFirst(ops, m, k);
    FirstMimeTypes(ops, m, k);
    var at := FirstModules(ops, m, k);
    NoneFound(ops, Supporting(c.modules, m), at, m, k);
    FilterIs(c.mimeTypes, c.modules, m);
  }

  lemma LookupAtFirst(ops: seq<Op>, m: string, k: nat)
    requires k <= |ops| && (forall i :: 0 <= i < k ==> ops[i] != Get(m)) && (k < |ops| ==> ops[k] == Get(m))
    ensures Lookup(Run(ops), m) == Filter(Run(ops[..k]).mimeTypes, Run(ops[..k]).modules, m)
  {
    LookupIsFirstFilter(ops, m);
    assert FirstGet(ops, m) == k;
  }

  lemma FilterIs(mimeTypes: seq<string>, modules: seq<Module>, m: string)
    ensures Filter(mimeTypes, modules, m) == None <==> !Contains(mimeTypes, m) || Supporting(modules, m) == []
    ensures Filter(mimeTypes, modules, m).Some? ==> Filter(mimeTypes, modules, m) == Some(Supporting(modules, m))
  {
  }

  lemma FirstMimeTypes(ops: seq<Op>, m: string, k: nat)
    requires k <= |ops|
    ensures Contains(Run(ops[..k]).mimeTypes, m) <==> !(forall i :: 0 <= i < k ==> !Configures(ops, i, m))
  {
    RunMimeTypes(ops[..k], m);
    assert forall i :: 0 <= i < k ==> (Configures(ops[..k], i, m) <==> Configures(ops, i, m));
  }

  lemma FirstModules(ops: seq<Op>, m: string, k: nat) returns (at: seq<int>)
    requires k <= |ops|
    ensures AddedAt(ops, Supporting(Run(ops[..k]).modules, m), at)
    ensures forall i :: i in at <==> 0 <= i < k && AddsFor(ops, i, m)
  {
    at := RunModules(ops[..k], m);
    assert forall i :: 0 <= i < k ==> ops[..k][i] == ops[i] && (AddsFor(ops[..k], i, m) <==> AddsFor(ops, i, m));
  }

  lemma NoneFound(ops: seq<Op>, found: seq<Module>, at: seq<int>, m: string, k: nat)
    requires k <= |ops| && AddedAt(ops, found, at) && forall i :: i in at <==> 0 <= i < k && AddsFor(ops, i, m)
    ensures found == [] <==> forall i :: 0 <= i < k ==> !AddsFor(ops, i, m)
  {
    if found != [] {
      assert at[0] in at;
    }
  }

  /** The configuration phase is over: only lookups follow. */
  predicate OnlyGets(ops: seq<Op>, from: nat) {
    forall i :: from <= i < |ops| ==> ops[i].Get?
  }

  lemma {:induction false} GetsKeepFilter(ops: seq<Op>, k: nat, m: string)
    requires k <= |ops| && OnlyGets(ops, k)
    ensures Direct(Run(ops), m) == Direct(Run(ops[..k]), m)
    decreases |ops|
  {
    if k == |ops| {
      assert ops[..k] == ops;
    } else {
      var n := |ops| - 1;
      GetsKeepFilter(ops[..n], k, m);
      assert ops[..n][..k] == ops[..k];
    }
  }

  /**
    The cache is transparent: if nothing is added after the first lookup, every
    lookup of every later run of lookups is the direct filter.
   */
  lemma CacheIsTransparent(ops: seq<Op>, m: string)
    requires forall i, j :: 0 <= i < j < |ops| && ops[i].Get? ==> ops[j].Get?
    ensures Lookup(Run(ops), m) == Direct(Run(ops), m)
  {
    LookupIsFirstFilter(ops, m);
    GetsKeepFilter(ops, FirstGet(ops, m), m);
  }

  lemma RunNext(ops: seq<Op>, op: Op)
    ensures Run(ops + [op]) == Do(op, Run(ops))
  {
    assert (ops + [op])[..|ops|] == ops;
  }

  lemma OneModule(c: Conf, mod: Module, m: string)
    requires c.mimeTypes == [m] && mod.supported == ["*"]
    ensures c.modules == [] ==> Direct(c, m) == None
    ensures c.modules == [mod] ==> Direct(c, m) == Some([mod])
  {
    assert c.mimeTypes[0] == m && mod.supported[0] == "*";
    assert Contains(mod.supported, m) && Contains(c.mimeTypes, m);
    if c.modules == [mod] {
      assert c.modules[..0] == [] && c.modules[0] == mod;
      assert Supporting(c.modules, m) == [] + [mod] == [mod];
    }
  }

  /** A module added after the first lookup of a mime type is not seen by later ones. */
  lemma StaleAfterAdding(mod: Module, m: string)
    requires mod.supported == ["*"]
    ensures var c := Run([AddMimeType(m)] + [Get(m)] + [AddModule(mod)]);
            Lookup(c, m) == None && Direct(c, m) == Some([mod])
  {
    RunNext([], AddMimeType(m));
    assert [] + [AddMimeType(m)] == [AddMimeType(m)];
    RunNext([AddMimeType(m)], Get(m));
    RunNext([AddMimeType(m)] + [Get(m)], AddModule(mod));
    var before, c := Run([AddMimeType(m)]), Run([AddMimeType(m)] + [Get(m)] + [AddModule(mod)]);
    OneModule(before, mod, m);
    OneModule(c, mod, m);
  }

}

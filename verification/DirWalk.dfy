/**
  The directory walk of libcore/arch/linux/os/dir.c and its two uses in
  libcore/ondemand.c: counting the files, and scanning them.
 */
module DirWalk {
  import opened Wrappers

  datatype Flag = PlainFile | Directory | Device | Ipc | Link | Unknown | Error

  // What readdir and opendir show: realPath is the result of realpath, None if it fails;
  // a directory whose readError is set ends with an error instead of its end.
  datatype Tree =
    | Other(name: string, flag: Flag, realPath: Option<string>)
    | Dir(name: string, realPath: Option<string>, readable: bool, entries: seq<Tree>, readError: bool)

  // One call of the callback.
  datatype Call = Call(path: Option<string>, flag: Flag)

  // What the callback returns depends only on the flag.
  type Callback = Flag -> int

  function ScanEntry(flag: Flag): int {
    if flag == PlainFile then 0 else 1
  }

  function CountEntry(flag: Flag): int {
    0
  }

  predicate IsDots(t: Tree) {
    t.Dir? && (t.name == "." || t.name == "..")
  }

  function EntryFlag(t: Tree): Flag {
    if t.Dir? then Directory else t.flag
  }

  /** The calls made for directory t, and the value returned. */
  function Walk(path: string, t: Tree, recurse: bool, cb: Callback): (seq<Call>, int)
    requires t.Dir?
    decreases t, 1
  {
    if !t.readable then ([Call(Some(path), Error)], cb(Error))
    else (WalkEntries(path, t.entries, t.readError, recurse, cb), 0)
  }

  /**
    The rest of the reading loop.  Only a subdirectory that was descended into
    can stop it, by a non-zero return.
   */
  function WalkEntries(path: string, es: seq<Tree>, readError: bool, recurse: bool, cb: Callback): seq<Call>
    decreases es, 0
  {
    if es == [] then (if readError then [Call(Some(path), Error)] else [])
    else if IsDots(es[0]) then WalkEntries(path, es[1..], readError, recurse, cb)
    else if es[0].Dir? && recurse then
      var r := Walk(path + "/" + es[0].name, es[0], recurse, cb);
      if r.1 != 0 then r.0 else r.0 + WalkEntries(path, es[1..], readError, recurse, cb)
    else [Call(es[0].realPath, EntryFlag(es[0]))] + WalkEntries(path, es[1..], readError, recurse, cb)
  }

  // The callback's data: the calls received.
  class Visitor {
    const cb: Callback
    var log: seq<Call>

    constructor (cb: Callback)
      ensures this.cb == cb && log == []
    {
      this.cb := cb;
      log := [];
    }

    method Entry(path: Option<string>, flag: Flag) returns (ret: int)
      modifies this
      ensures log == old(log) + [Call(path, flag)] && ret == cb(flag)
    {
      log := log + [Call(path, flag)];
      return cb(flag);
    }

    /** os_dir_map. */
    method DirMap(path: string, t: Tree, recurse: bool) returns (ret: int)
      requires t.Dir?
      modifies this
      ensures (log, ret) == (old(log) + Walk(path, t, recurse, cb).0, Walk(path, t, recurse, cb).1)
      decreases t
    {
      if !t.readable {
        ret := Entry(Some(path), Error);
        return;
      }
      var i := 0;
      ghost var all := WalkEntries(path, t.entries, t.readError, recurse, cb);
      while true
        invariant 0 <= i <= |t.entries|
        invariant log + WalkEntries(path, t.entries[i..], t.readError, recurse, cb) == old(log) + all
        decreases |t.entries| - i
      {
        if i == |t.entries| {
          assert t.entries[i..] == [];
          if t.readError {
            var _ := Entry(Some(path), Error);
          }
          assert log == old(log) + all;
          break;
        }
        var e := t.entries[i];
        assert t.entries[i..][1..] == t.entries[i + 1..];
        i := i + 1;
        if IsDots(e) {
          continue;
        }
        if e.Dir? && recurse {
          var r := DirMap(path + "/" + e.name, e, recurse);
          if r != 0 {
            assert log == old(log) + all;
            break;
          }
        } else {
          var _ := Entry(e.realPath, EntryFlag(e));
        }
      }
      return 0;
    }
  }

  // ---------------------------------------------------------------------
  // Files visited
  // ---------------------------------------------------------------------

  /** The plain files among the calls, in order. */
  function Files(log: seq<Call>): seq<Option<string>> {
    if log == [] then []
    else (if log[0].flag == PlainFile then [log[0].path] else []) + Files(log[1..])
  }

  lemma {:induction false} FilesConcat(a: seq<Call>, b: seq<Call>)
    ensures Files(a + b) == Files(a) + Files(b)
  {
    if a == [] {
      assert a + b == b;
    } else {
      var first := if a[0].flag == PlainFile then [a[0].path] else [];
      assert (a + b)[0] == a[0] && (a + b)[1..] == a[1..] + b;
      FilesConcat(a[1..], b);
      assert first + (Files(a[1..]) + Files(b)) == (first + Files(a[1..])) + Files(b);
    }
  }

  lemma ErrorHasNoFile(path: string)
    ensures Files([]) == [] && Files([Call(Some(path), Error)]) == []
  {
    assert [Call(Some(path), Error)][1..] == [];
  }

  /** The plain files that can be reached through readable directories, in directory order. */
  function FilesIn(t: Tree, recurse: bool): seq<Option<string>>
    decreases t, 1
  {
    if t.Dir? && t.readable then FilesOf(t.entries, recurse) else []
  }

  function FilesOf(es: seq<Tree>, recurse: bool): seq<Option<string>>
    decreases es, 0
  {
    if es == [] then []
    else
      (match es[0]
       case Other(_, flag, p) => if flag == PlainFile then [p] else []
       case Dir(_, _, _, _, _) => if Entered(es[0], recurse) then FilesIn(es[0], recurse) else [])
      + FilesOf(es[1..], recurse)
  }

  /** Counting visits every reachable plain file exactly once, in order. */
  lemma {:induction false} CountVisitsAll(path: string, t: Tree, recurse: bool)
    requires t.Dir?
    ensures Files(Walk(path, t, recurse, CountEntry).0) == FilesIn(t, recurse)
    ensures Walk(path, t, recurse, CountEntry).1 == 0
    decreases t, 1
  {
    if t.readable {
      CountVisitsEntries(path, t.entries, t.readError, recurse);
    }
  }

  lemma {:induction false} CountVisitsEntries(path: string, es: seq<Tree>, readError: bool, recurse: bool)
    ensures Files(WalkEntries(path, es, readError, recurse, CountEntry)) == FilesOf(es, recurse)
    decreases es, 0
  {
    if es != [] {
      CountVisitsEntries(path, es[1..], readError, recurse);
      var rest := WalkEntries(path, es[1..], readError, recurse, CountEntry);
      if Entered(es[0], recurse) {
        CountVisitsAll(path + "/" + es[0].name, es[0], recurse);
        FilesConcat(Walk(path + "/" + es[0].name, es[0], recurse, CountEntry).0, rest);
      } else if !IsDots(es[0]) {
        FilesConcat([Call(es[0].realPath, EntryFlag(es[0]))], rest);
      }
    }
  }

  /** Whether the walk descends into this entry. */
  predicate Entered(t: Tree, recurse: bool) {
    t.Dir? && recurse && !IsDots(t)
  }

  /** Whether the loop over a directory is stopped at this entry. */
  predicate Stops(t: Tree, recurse: bool) {
    Entered(t, recurse) && !t.readable
  }

  /** No file is lost below t: in every directory, only entries without files follow an unreadable subdirectory. */
  predicate Complete(t: Tree, recurse: bool)
    decreases t, 1
  {
    t.Dir? && t.readable ==> CompleteEntries(t.entries, recurse)
  }

  predicate CompleteEntries(es: seq<Tree>, recurse: bool)
    decreases es, 0
  {
    if es == [] then true
    else if Stops(es[0], recurse) then FilesOf(es[1..], recurse) == []
    else (Entered(es[0], recurse) ==> Complete(es[0], recurse)) && CompleteEntries(es[1..], recurse)
  }

  /** a is obtained from b by leaving elements out. */
  ghost predicate Subsequence<T>(a: seq<T>, b: seq<T>)
    decreases |b|
  {
    if a == [] then true
    else if b == [] then false
    else (a[0] == b[0] && Subsequence(a[1..], b[1..])) || Subsequence(a, b[1..])
  }

  lemma {:induction false} SubsequenceSelf<T>(a: seq<T>)
    ensures Subsequence(a, a)
    decreases |a|
  {
    if a != [] {
      SubsequenceSelf(a[1..]);
    }
  }

  lemma {:induction false} SubsequenceLonger<T>(a: seq<T>, b: seq<T>, c: seq<T>)
    requires Subsequence(a, b)
    ensures Subsequence(a, b + c)
    decreases |b|
  {
    if a != [] {
      assert (b + c)[1..] == b[1..] + c;
      if a[0] == b[0] && Subsequence(a[1..], b[1..]) {
        SubsequenceLonger(a[1..], b[1..], c);
      } else {
        SubsequenceLonger(a, b[1..], c);
      }
    }
  }

  lemma {:induction false} SubsequenceConcat<T>(a: seq<T>, b: seq<T>, c: seq<T>, d: seq<T>)
    requires Subsequence(a, b) && Subsequence(c, d)
    ensures Subsequence(a + c, b + d)
    decreases |b|
  {
    if a == [] {
      assert a + c == c;
      SubsequencePrepend(c, b, d);
    } else {
      assert (b + d)[1..] == b[1..] + d;
      assert (a + c)[1..] == a[1..] + c;
      if a[0] == b[0] && Subsequence(a[1..], b[1..]) {
        SubsequenceConcat(a[1..], b[1..], c, d);
      } else {
        SubsequenceConcat(a, b[1..], c, d);
      }
    }
  }

  lemma {:induction false} SubsequencePrepend<T>(c: seq<T>, b: seq<T>, d: seq<T>)
    requires Subsequence(c, d)
    ensures Subsequence(c, b + d)
    decreases |b|
  {
    if b == [] {
      assert b + d == d;
    } else {
      assert (b + d)[1..] == b[1..] + d;
      SubsequencePrepend(c, b[1..], d);
    }
  }

  lemma {:induction false} SubsequenceLength<T>(a: seq<T>, b: seq<T>)
    requires Subsequence(a, b)
    ensures |a| <= |b|
    decreases |b|
  {
    if a != [] {
      if a[0] == b[0] && Subsequence(a[1..], b[1..]) {
        SubsequenceLength(a[1..], b[1..]);
      } else {
        SubsequenceLength(a, b[1..]);
      }
    }
  }

  lemma {:induction false} SubsequenceSame<T>(a: seq<T>, b: seq<T>)
    requires Subsequence(a, b)
    ensures |a| <= |b|
    ensures |a| == |b| <==> a == b
    decreases |b|
  {
    SubsequenceLength(a, b);
    if a != [] && |a| == |b| {
      if a[0] == b[0] && Subsequence(a[1..], b[1..]) {
        SubsequenceSame(a[1..], b[1..]);
        assert a == [a[0]] + a[1..] && b == [b[0]] + b[1..];
      } else {
        SubsequenceLength(a, b[1..]);
      }
    }
  }

  /**
    The files scanned are a subsequence of the files counted, and they are all
    of them exactly when no unreadable subdirectory hides files behind it.
   */
  lemma {:induction false} ScanVisits(path: string, t: Tree, recurse: bool)
    requires t.Dir?
    ensures ScanMatches(Files(Walk(path, t, recurse, ScanEntry).0), FilesIn(t, recurse), Complete(t, recurse))
    decreases t, 1
  {
    ErrorHasNoFile(path);
    if t.readable {
      ScanVisitsEntries(path, t.entries, t.readError, recurse);
    }
  }

  lemma {:induction false} ScanVisitsEntries(path: string, es: seq<Tree>, readError: bool, recurse: bool)
    ensures ScanMatches(Files(WalkEntries(path, es, readError, recurse, ScanEntry)), FilesOf(es, recurse),
                        CompleteEntries(es, recurse))
    decreases es, 0
  {
    ErrorHasNoFile(path);
    if es != [] {
      ScanVisitsEntries(path, es[1..], readError, recurse);
      if Entered(es[0], recurse) {
        ScanVisits(path + "/" + es[0].name, es[0], recurse);
        ScanVisitsDirectory(path, es, readError, recurse);
      } else {
        ScanVisitsEntry(path, es, readError, recurse);
      }
    }
  }

  ghost predicate ScanMatches(scanned: seq<Option<string>>, all: seq<Option<string>>, complete: bool) {
    Subsequence(scanned, all) && (scanned == all <==> complete)
  }

  lemma ScanVisitsEntry(path: string, es: seq<Tree>, readError: bool, recurse: bool)
    requires es != [] && !Entered(es[0], recurse)
    requires ScanMatches(Files(WalkEntries(path, es[1..], readError, recurse, ScanEntry)), FilesOf(es[1..], recurse),
                         CompleteEntries(es[1..], recurse))
    ensures ScanMatches(Files(WalkEntries(path, es, readError, recurse, ScanEntry)), FilesOf(es, recurse),
                        CompleteEntries(es, recurse))
  {
    var rest := WalkEntries(path, es[1..], readError, recurse, ScanEntry);
    if IsDots(es[0]) {
      assert [] + FilesOf(es[1..], recurse) == FilesOf(es[1..], recurse);
    } else {
      var here := [Call(es[0].realPath, EntryFlag(es[0]))];
      assert here[1..] == [];
      assert FilesOf(es, recurse) == Files(here) + FilesOf(es[1..], recurse);
      SubsequenceSelf(Files(here));
      BothParts(here, Files(here), rest, FilesOf(es[1..], recurse));
    }
  }

  lemma ScanVisitsDirectory(path: string, es: seq<Tree>, readError: bool, recurse: bool)
    requires es != [] && Entered(es[0], recurse)
    requires ScanMatches(Files(Walk(path + "/" + es[0].name, es[0], recurse, ScanEntry).0), FilesIn(es[0], recurse),
                         Complete(es[0], recurse))
    requires ScanMatches(Files(WalkEntries(path, es[1..], readError, recurse, ScanEntry)), FilesOf(es[1..], recurse),
                         CompleteEntries(es[1..], recurse))
    ensures ScanMatches(Files(WalkEntries(path, es, readError, recurse, ScanEntry)), FilesOf(es, recurse),
                        CompleteEntries(es, recurse))
  {
    var rest := WalkEntries(path, es[1..], readError, recurse, ScanEntry);
    var here := Walk(path + "/" + es[0].name, es[0], recurse, ScanEntry).0;
    if es[0].readable {
      BothParts(here, FilesIn(es[0], recurse), rest, FilesOf(es[1..], recurse));
    } else {
      assert [] + FilesOf(es[1..], recurse) == FilesOf(es[1..], recurse);
    }
  }

  lemma BothParts(here: seq<Call>, there: seq<Option<string>>, rest: seq<Call>, more: seq<Option<string>>)
    requires Subsequence(Files(here), there) && Subsequence(Files(rest), more)
    ensures Subsequence(Files(here + rest), there + more)
    ensures Files(here + rest) == there + more <==> Files(here) == there && Files(rest) == more
  {
    FilesConcat(here, rest);
    SubsequenceConcat(Files(here), there, Files(rest), more);
    BothEqual(Files(here), there, Files(rest), more);
  }

  lemma BothEqual<T>(a: seq<T>, b: seq<T>, c: seq<T>, d: seq<T>)
    requires Subsequence(a, b) && Subsequence(c, d)
    ensures a + c == b + d <==> a == b && c == d
  {
    SubsequenceLength(a, b);
    SubsequenceLength(c, d);
    if a + c == b + d {
      assert |a| == |b|;
      assert (a + c)[..|a|] == a && (b + d)[..|b|] == b;
      assert (a + c)[|a|..] == c && (b + d)[|b|..] == d;
    }
  }

  // ---------------------------------------------------------------------
  // The calls made, entry by entry
  // ---------------------------------------------------------------------

  /** A directory that cannot be opened is one call, with the error, and its value is that of the callback. */
  lemma UnreadableCalls(path: string, t: Tree, recurse: bool, cb: Callback)
    requires t.Dir? && !t.readable
    ensures Walk(path, t, recurse, cb) == ([Call(Some(path), Error)], cb(Error))
  {
  }

  /** A directory that can be opened gives 0, whatever happens below it. */
  lemma ReadableCalls(path: string, t: Tree, recurse: bool, cb: Callback)
    requires t.Dir? && t.readable
    ensures Walk(path, t, recurse, cb) == (WalkEntries(path, t.entries, t.readError, recurse, cb), 0)
  {
  }

  /** What one entry adds to the calls. */
  predicate EntryCalls(path: string, e: Tree, recurse: bool, cb: Callback, calls: seq<Call>) {
    match e
    case Other(_, flag, realPath) => calls == [Call(realPath, flag)]
    case Dir(name, realPath, _, _, _) =>
      if name == "." || name == ".." then calls == []
      else if recurse then calls == Walk(path + "/" + name, e, recurse, cb).0
      else calls == [Call(realPath, Directory)]
  }

  /** The loop ends at this entry: a subdirectory that cannot be opened, and the callback's value for that is not 0. */
  predicate EndsLoop(e: Tree, recurse: bool, cb: Callback) {
    e.Dir? && e.name != "." && e.name != ".." && recurse && !e.readable && cb(Error) != 0
  }

  /**
    The calls made for the entries of a directory are those of each entry in
    turn, up to the first that ends the loop; if none does, a reading error is one
    more call.
   */
  lemma {:induction false} CallsOfEntries(path: string, es: seq<Tree>, readError: bool, recurse: bool, cb: Callback)
      returns (parts: seq<seq<Call>>)
    ensures |parts| <= |es| && WalkEntries(path, es, readError, recurse, cb)
                               == Joined(parts) + if |parts| == |es| && readError && NoneEnds(es, recurse, cb)
                                                  then [Call(Some(path), Error)] else []
    ensures forall i :: 0 <= i < |parts| ==> EntryCalls(path, es[i], recurse, cb, parts[i])
    ensures forall i :: 0 <= i < |parts| - 1 ==> !EndsLoop(es[i], recurse, cb)
    ensures |parts| < |es| ==> parts != [] && EndsLoop(es[|parts| - 1], recurse, cb)
  {
    if es == [] {
      parts := [];
    } else {
      var here := EntryPart(path, es[0], recurse, cb);
      if EndsLoop(es[0], recurse, cb) {
        parts := [here];
        assert Joined(parts[1..]) == [];
      } else {
        var rest := CallsOfEntries(path, es[1..], readError, recurse, cb);
        parts := [here] + rest;
        assert parts[1..] == rest;
        EntryThenRest(path, es, readError, recurse, cb, here);
        assert NoneEnds(es, recurse, cb) <==> NoneEnds(es[1..], recurse, cb);
      }
    }
  }

  predicate NoneEnds(es: seq<Tree>, recurse: bool, cb: Callback) {
    forall i :: 0 <= i < |es| ==> !EndsLoop(es[i], recurse, cb)
  }

  function Joined(parts: seq<seq<Call>>): seq<Call> {
    if parts == [] then [] else parts[0] + Joined(parts[1..])
  }

  function EntryPart(path: string, e: Tree, recurse: bool, cb: Callback): (calls: seq<Call>)
    ensures EntryCalls(path, e, recurse, cb, calls)
  {
    if IsDots(e) then []
    else if e.Dir? && recurse then Walk(path + "/" + e.name, e, recurse, cb).0
    else [Call(e.realPath, EntryFlag(e))]
  }

  lemma EntryThenRest(path: string, es: seq<Tree>, readError: bool, recurse: bool, cb: Callback, here: seq<Call>)
    requires es != [] && here == EntryPart(path, es[0], recurse, cb)
    ensures WalkEntries(path, es, readError, recurse, cb)
         == here + if EndsLoop(es[0], recurse, cb) then [] else WalkEntries(path, es[1..], readError, recurse, cb)
  {
  }

  /** Every directory of the tree can be opened. */
  predicate AllReadable(t: Tree)
    decreases t, 1
  {
    t.Dir? && !IsDots(t) ==> t.readable && AllReadableEntries(t.entries)
  }

  predicate AllReadableEntries(es: seq<Tree>)
    decreases es, 0
  {
    es == [] || (AllReadable(es[0]) && AllReadableEntries(es[1..]))
  }

  lemma {:induction false} ReadableIsComplete(t: Tree, recurse: bool)
    requires AllReadable(t) && !IsDots(t)
    ensures Complete(t, recurse)
    decreases t, 1
  {
    if t.Dir? {
      ReadableEntriesComplete(t.entries, recurse);
    }
  }

  lemma {:induction false} ReadableEntriesComplete(es: seq<Tree>, recurse: bool)
    requires AllReadableEntries(es)
    ensures CompleteEntries(es, recurse)
    decreases es, 0
  {
    if es != [] {
      if Entered(es[0], recurse) {
        ReadableIsComplete(es[0], recurse);
      }
      ReadableEntriesComplete(es[1..], recurse);
    }
  }

  /** When every directory is readable, scanning and counting visit the same files, all of them. */
  lemma ScanEqualsCount(path: string, t: Tree, recurse: bool)
    requires t.Dir? && AllReadable(t) && !IsDots(t)
    ensures Files(Walk(path, t, recurse, ScanEntry).0) == Files(Walk(path, t, recurse, CountEntry).0) == FilesIn(t, recurse)
  {
    ReadableIsComplete(t, recurse);
    ScanVisits(path, t, recurse);
    CountVisitsAll(path, t, recurse);
  }

}

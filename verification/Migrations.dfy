/** The migration runner, restarted any number of times over a fixed directory. */
module Migrations {
  import opened Prelude
  import opened Ordering

  const SEPARATOR := "---- create above / drop below ----"

  /** strings.Index: where the first occurrence starts, or -1. */
  function IndexOf(s: string, pattern: string): int {
    if pattern <= s then 0
    else if s == "" then -1
    else
      var rest := IndexOf(s[1..], pattern);
      if rest < 0 then -1 else rest + 1
  }

  /** What is executed of a file: everything before the separator, unless it stands at the very start. */
  function UpPart(content: string): string {
    var i := IndexOf(content, SEPARATOR);
    if 0 < i <= |content| then content[..i] else content
  }

  predicate Occurs(s: string, pattern: string) {
    exists i :: 0 <= i <= |s| && pattern <= s[i..]
  }

  lemma {:induction false} IndexFindsFirst(s: string, pattern: string)
    ensures var i := IndexOf(s, pattern);
            && (i < 0 <==> !Occurs(s, pattern))
            && (i >= 0 ==> i <= |s| && pattern <= s[i..] && forall j :: 0 <= j < i ==> !(pattern <= s[j..]))
  {
    if pattern <= s {
      assert s[0..] == s;
    } else if s != "" {
      IndexFindsFirst(s[1..], pattern);
      var rest := IndexOf(s[1..], pattern);
      forall j | 0 <= j <= |s| ensures s[j..] == if j == 0 then s else s[1..][j - 1..] {
      }
      if rest >= 0 {
        assert s[rest + 1..] == s[1..][rest..];
      }
      if j :| 0 <= j <= |s| && pattern <= s[j..] {
        assert j > 0 && pattern <= s[1..][j - 1..];
      }
    }
  }

  /** The drop half of a file is never executed, except exactly when the file begins with the separator. */
  lemma DropHalfIsExecutedExactly(content: string)
    ensures Occurs(UpPart(content), SEPARATOR) <==> SEPARATOR <= content
  {
    IndexFindsFirst(content, SEPARATOR);
    var i := IndexOf(content, SEPARATOR);
    if SEPARATOR <= content {
      assert content[0..] == content;
      assert Occurs(content, SEPARATOR);
    } else if 0 < i <= |content| {
      forall j | 0 <= j <= i ensures !(SEPARATOR <= content[..i][j..]) {
        if SEPARATOR <= content[..i][j..] {
          NoOccurrenceInPrefix(content, i, j);
          assert false;
        }
      }
    }
  }

  lemma NoOccurrenceInPrefix(content: string, i: nat, j: nat)
    requires j <= i <= |content| && forall k :: 0 <= k < i ==> !(SEPARATOR <= content[k..])
    ensures !(SEPARATOR <= content[..i][j..])
  {
    if j < i {
      var tail, whole := content[..i][j..], content[j..];
      assert whole == tail + content[i..];
      assert SEPARATOR <= tail ==> SEPARATOR <= whole;
    }
  }

  /**
   * What is executed is everything before the first separator, or the whole file
   * where there is none or the file begins with one.
   */
  lemma UpPartExactly(content: string)
    ensures var up, separator := UpPart(content), "---- create above / drop below ----";
            && up <= content
            && (up == content <==> !Occurs(content, separator) || separator <= content)
            && (up != content ==>
                  separator <= content[|up|..] && forall j :: 0 <= j < |up| ==> !(separator <= content[j..]))
  {
    IndexFindsFirst(content, SEPARATOR);
    if SEPARATOR <= content {
      assert content[0..] == content;
    }
  }

  // ----- One run -----

  /** Where a run stops, counted in the files it has yet to apply. */
  datatype Stop = Never | ReadFails(at: nat) | SqlFails(at: nat) | RecordFails(at: nat)

  /** The files still to apply, in order. */
  function Pending(files: seq<string>, applied: set<string>): seq<string> {
    if files == [] then []
    else (if files[0] in applied then [] else [files[0]]) + Pending(files[1..], applied)
  }

  function Names(files: seq<string>): set<string> { set f | f in files }

  lemma NamesAppend(a: seq<string>, b: seq<string>)
    ensures Names(a + b) == Names(a) + Names(b)
  {
  }

  lemma NamesSnoc(a: seq<string>, f: string)
    ensures Names(a + [f]) == Names(a) + {f}
  {
    NamesAppend(a, [f]);
    assert Names([f]) == {f};
  }

  function StopsAt(stop: Stop, pending: nat): nat {
    if stop.Never? || stop.at >= pending then pending else stop.at
  }

  predicate Hits(stop: Stop, pending: nat) { !stop.Never? && stop.at < pending }

  /** Versions recorded by a run, files it executed, and whether it succeeded. */
  function RunOnce(files: seq<string>, applied: set<string>, stop: Stop): (set<string>, seq<string>, bool) {
    var pending := Pending(files, applied);
    var n := StopsAt(stop, |pending|);
    (applied + Names(pending[..n]),
     pending[..n] + (if stop.RecordFails? && Hits(stop, |pending|) then [pending[n]] else []),
     !Hits(stop, |pending|))
  }

  datatype DirEntry = DirEntry(name: string, isDir: bool)

  predicate HasSuffix(s: string, suffix: string) {
    |suffix| <= |s| && s[|s| - |suffix|..] == suffix
  }

  predicate IsMigration(e: DirEntry) { !e.isDir && HasSuffix(e.name, ".sql") }

  /** Names of the .sql files of a directory. */
  function SqlFiles(entries: seq<DirEntry>): seq<string> {
    if entries == [] then []
    else (if IsMigration(entries[0]) then [entries[0].name] else []) + SqlFiles(entries[1..])
  }

  lemma SqlFilesHead(entries: seq<DirEntry>, names: seq<string>)
    requires entries != []
    ensures names + SqlFiles(entries)
         == (if IsMigration(entries[0]) then names + [entries[0].name] else names) + SqlFiles(entries[1..])
  {
    if !IsMigration(entries[0]) {
      assert SqlFiles(entries) == SqlFiles(entries[1..]);
    }
  }

  lemma PendingHere(files: seq<string>, applied: set<string>)
    requires files != []
    ensures var pending, rest := Pending(files, applied), Pending(files[1..], applied);
            if files[0] in applied then pending == rest
            else pending != [] && pending[0] == files[0] && pending[1..] == rest
  {
  }

  lemma Regroup(a: seq<string>, b: seq<string>, c: seq<string>)
    ensures (a + b) + c == a + (b + c)
  {
  }

  /** Where a run that has applied `done` files and goes no further stands. */
  lemma StoppedAt(files: seq<string>, applied: set<string>, stop: Stop, done: nat)
    requires done <= |Pending(files, applied)| && (stop.Never? || done <= stop.at)
    requires done == |Pending(files, applied)| || (!stop.Never? && stop.at == done)
    ensures var pending := Pending(files, applied);
            RunOnce(files, applied, stop)
            == (applied + Names(pending[..done]),
                pending[..done] + (if stop.RecordFails? && done < |pending| then [pending[done]] else []),
                done == |pending|)
  {
  }

  lemma {:induction false} SqlFilesExactly(entries: seq<DirEntry>, f: string)
    ensures f in SqlFiles(entries)
       <==> exists e, base :: e in entries && !e.isDir && e.name == f && f == base + ".sql"
  {
    if entries != [] {
      var first, rest := entries[0], entries[1..];
      SqlFilesExactly(rest, f);
      assert entries == [first] + rest;
      if IsMigration(first) && first.name == f {
        assert f == f[..|f| - 4] + ".sql";
      }
      if e, base :| e in entries && !e.isDir && e.name == f && f == base + ".sql" {
        if e !in rest { assert f[|f| - 4..] == ".sql"; }
      }
    }
  }

  /** What is executed of each of the files. */
  function Texts(content: string -> string, files: seq<string>): seq<string> {
    seq(|files|, i requires 0 <= i < |files| => UpPart(content(files[i])))
  }

  /** Logs grow by one file and its text. */
  lemma OneMore(content: string -> string, files: seq<string>, texts: seq<string>, done: seq<string>, f: string)
    ensures (files + done) + [f] == files + (done + [f])
    ensures (texts + Texts(content, done)) + [UpPart(content(f))] == texts + Texts(content, done + [f])
  {
    assert Texts(content, done + [f]) == Texts(content, done) + [UpPart(content(f))];
  }

  class Migrator {
    var applied: set<string>    // schema_migrations
    var executed: seq<string>   // files whose SQL went through
    var statements: seq<string> // the text executed of each

    constructor ()
      ensures applied == {} && executed == [] && statements == []
    {
      applied, executed, statements := {}, [], [];
    }

    /** os.ReadDir's entries, filtered and sorted. */
    method ListFiles(entries: seq<DirEntry>) returns (files: seq<string>)
      ensures files == Sorted(SqlFiles(entries)) && Ascending(files)
      ensures forall f :: f in files
                     <==> exists e, base :: e in entries && !e.isDir && e.name == f && f == base + ".sql"
    {
      var names: seq<string> := [];
      assert entries[0..] == entries && names + SqlFiles(entries) == SqlFiles(entries);
      for k := 0 to |entries|
        invariant SqlFiles(entries) == names + SqlFiles(entries[k..])
      {
        assert entries[k..][1..] == entries[k + 1..];
        SqlFilesHead(entries[k..], names);
        if IsMigration(entries[k]) {
          names := names + [entries[k].name];
        }
      }
      assert entries[|entries|..] == [];
      assert names + [] == names;
      SortedIsAscending(names);
      files := Sorted(names);
      forall f ensures f in files <==> exists e, base :: e in entries && !e.isDir && e.name == f && f == base + ".sql" {
        SqlFilesExactly(entries, f);
      }
    }

    /** The up part of one file goes through. */
    method Execute(
      file: string, content: string -> string,
      ghost done: seq<string>, ghost files: seq<string>, ghost texts: seq<string>)
      requires executed == files + done && statements == texts + Texts(content, done)
      modifies this`executed, this`statements
      ensures executed == files + (done + [file]) && statements == texts + Texts(content, done + [file])
    {
      OneMore(content, files, texts, done, file);
      executed := executed + [file];
      statements := statements + [UpPart(content(file))];
    }

    /** Skip what is applied, execute and record one file at a time, stop at the first failure. */
    method Apply(files: seq<string>, content: string -> string, stop: Stop) returns (ok: bool)
      modifies this
      ensures var (recorded, log, success) := RunOnce(files, old(applied), stop);
              && applied == recorded && executed == old(executed) + log && ok == success
              && statements == old(statements) + Texts(content, log)
    {
      ghost var pending := Pending(files, applied);
      var before := applied;
      var done: nat := 0;
      assert files[0..] == files && pending[0..] == pending && before + Names(pending[..0]) == before;
      for k := 0 to |files|
        invariant done <= |pending| && Pending(files[k..], before) == pending[done..]
        invariant stop.Never? || done <= stop.at
        invariant applied == before + Names(pending[..done])
        invariant executed == old(executed) + pending[..done]
        invariant statements == old(statements) + Texts(content, pending[..done])
      {
        assert files[k..][1..] == files[k + 1..];
        PendingHere(files[k..], before);
        if files[k] in before {
          continue;
        }
        assert pending[..done + 1] == pending[..done] + [files[k]];
        if !stop.Never? && stop.at == done {
          StoppedAt(files, before, stop, done);
          if stop.RecordFails? {
            Execute(files[k], content, pending[..done], old(executed), old(statements));
          } else {
            assert pending[..done] + [] == pending[..done];
          }
          return false;
        }
        Execute(files[k], content, pending[..done], old(executed), old(statements));
        NamesSnoc(pending[..done], files[k]);
        applied := applied + {files[k]};
        done := done + 1;
      }
      assert files[|files|..] == [] && done == |pending|;
      StoppedAt(files, before, stop, done);
      assert pending[..done] + [] == pending[..done];
      ok := true;
    }

    /** The tracking table and the directory are read first; where either fails, nothing is executed. */
    method Migrate(tracked: bool, entries: Option<seq<DirEntry>>, content: string -> string, stop: Stop)
      returns (ok: bool)
      modifies this
      ensures !tracked || entries.None? ==>
                !ok && applied == old(applied) && executed == old(executed) && statements == old(statements)
      ensures tracked && entries.Some? ==>
                var (recorded, log, success) := RunOnce(Sorted(SqlFiles(entries.value)), old(applied), stop);
                && applied == recorded && executed == old(executed) + log && ok == success
                && statements == old(statements) + Texts(content, log)
    {
      if !tracked || entries.None? {
        return false;
      }
      var files := ListFiles(entries.value);
      ok := Apply(files, content, stop);
    }
  }

  // ----- Any number of runs -----

  function AppliedAfter(files: seq<string>, applied: set<string>, stops: seq<Stop>): set<string>
    decreases |stops|
  {
    if stops == [] then applied else AppliedAfter(files, RunOnce(files, applied, stops[0]).0, stops[1..])
  }

  /** The concatenated execution logs. */
  function Log(files: seq<string>, applied: set<string>, stops: seq<Stop>): seq<string>
    decreases |stops|
  {
    if stops == [] then []
    else RunOnce(files, applied, stops[0]).1 + Log(files, RunOnce(files, applied, stops[0]).0, stops[1..])
  }

  /** The file, if any, whose SQL went through in this run and whose record failed. */
  function LostBy(pending: seq<string>, stop: Stop): seq<string> {
    if stop.RecordFails? && Hits(stop, |pending|) then [pending[stop.at]] else []
  }

  /** Over all runs, in order. */
  function Lost(files: seq<string>, applied: set<string>, stops: seq<Stop>): seq<string>
    decreases |stops|
  {
    if stops == [] then []
    else LostBy(Pending(files, applied), stops[0]) + Lost(files, RunOnce(files, applied, stops[0]).0, stops[1..])
  }

  lemma {:induction false} PendingMembers(files: seq<string>, applied: set<string>)
    ensures forall f :: f in Pending(files, applied) <==> f in files && f !in applied
  {
    if files != [] {
      PendingMembers(files[1..], applied);
      assert files == [files[0]] + files[1..];
    }
  }

  /** Applying a prefix of the pending files leaves the rest of them, in the same order. */
  lemma {:induction false} PendingAfterPrefix(files: seq<string>, applied: set<string>, n: nat)
    requires Ascending(files) && n <= |Pending(files, applied)|
    ensures Pending(files, applied + Names(Pending(files, applied)[..n])) == Pending(files, applied)[n..]
  {
    if files != [] {
      var rest := files[1..];
      PendingMembers(rest, applied);
      TailMembers(files);
      if files[0] in applied {
        PendingHere(files, applied);
        PendingAfterPrefix(rest, applied, n);
        PendingHere(files, applied + Names(Pending(files, applied)[..n]));
      } else if n == 0 {
        assert applied + Names(Pending(files, applied)[..0]) == applied;
      } else {
        PendingAfterPrefix(rest, applied, n - 1);
        var tail := Pending(rest, applied);
        PendingHead(files, applied, tail, n);
        PendingIgnores(rest, applied + Names(tail[..n - 1]), files[0]);
      }
    }
  }

  lemma ConsSlices(x: string, tail: seq<string>, n: nat)
    requires 0 < n <= |tail| + 1
    ensures ([x] + tail)[n..] == tail[n - 1..]
    ensures ([x] + tail)[..n] == [x] + tail[..n - 1]
    ensures Names(([x] + tail)[..n]) == Names(tail[..n - 1]) + {x}
  {
    assert ([x] + tail)[..n] == [x] + tail[..n - 1];
    NamesCons(x, tail[..n - 1]);
  }

  lemma NamesCons(x: string, a: seq<string>)
    ensures Names([x] + a) == Names(a) + {x}
  {
    assert forall y :: y in [x] + a <==> y == x || y in a;
  }

  lemma PendingHead(files: seq<string>, applied: set<string>, tail: seq<string>, n: nat)
    requires files != [] && files[0] !in applied && tail == Pending(files[1..], applied) && 0 < n <= |tail| + 1
    ensures Pending(files, applied)[n..] == tail[n - 1..]
    ensures applied + Names(Pending(files, applied)[..n]) == applied + Names(tail[..n - 1]) + {files[0]}
  {
    ConsSlices(files[0], tail, n);
  }

  lemma {:induction false} PendingIgnores(files: seq<string>, applied: set<string>, f: string)
    requires f !in files
    ensures Pending(files, applied + {f}) == Pending(files, applied)
  {
    if files != [] { PendingIgnores(files[1..], applied, f); }
  }

  lemma OneRun(files: seq<string>, applied: set<string>, stop: Stop)
    requires Ascending(files)
    ensures var pending := Pending(files, applied);
            var (recorded, log, ok) := RunOnce(files, applied, stop);
            && Pending(files, recorded) == pending[StopsAt(stop, |pending|)..]
            && log == pending[..StopsAt(stop, |pending|)] + LostBy(pending, stop)
  {
    PendingAfterPrefix(files, applied, StopsAt(stop, |Pending(files, applied)|));
  }

  /** How many files the runs record between them. */
  function Recorded(files: seq<string>, applied: set<string>, stops: seq<Stop>): nat
    decreases |stops|
  {
    if stops == [] then 0
    else StopsAt(stops[0], |Pending(files, applied)|) + Recorded(files, RunOnce(files, applied, stops[0]).0, stops[1..])
  }

  lemma JoinPrefixes(pending: seq<string>, m: nat, k: nat)
    requires m <= |pending| && k <= |pending[m..]|
    ensures pending[..m + k] == pending[..m] + pending[m..][..k]
    ensures Names(pending[..m + k]) == Names(pending[..m]) + Names(pending[m..][..k])
  {
    assert pending[..m + k] == pending[..m] + pending[m..][..k];
    NamesAppend(pending[..m], pending[m..][..k]);
  }

  /** What has been recorded is a prefix of the pending files, in order. */
  lemma {:induction false} RunsApplyAPrefix(files: seq<string>, applied: set<string>, stops: seq<Stop>)
    requires Ascending(files)
    ensures var n := Recorded(files, applied, stops);
            && n <= |Pending(files, applied)|
            && AppliedAfter(files, applied, stops) == applied + Names(Pending(files, applied)[..n])
    decreases |stops|
  {
    var pending := Pending(files, applied);
    if stops == [] {
      assert applied + Names(pending[..0]) == applied;
    } else {
      var m, after := StopsAt(stops[0], |pending|), RunOnce(files, applied, stops[0]).0;
      OneRun(files, applied, stops[0]);
      RunsApplyAPrefix(files, after, stops[1..]);
      JoinPrefixes(pending, m, Recorded(files, after, stops[1..]));
    }
  }

  /** The log walks the pending files in order, repeating one before it moves on to the next. */
  ghost predicate Walks(log: seq<string>, pending: seq<string>)
    decreases |log|
  {
    log == [] || (pending != [] && log[0] == pending[0] && (Walks(log[1..], pending) || Walks(log[1..], pending[1..])))
  }

  lemma {:induction false} WalkOn(pending: seq<string>, m: nat, log: seq<string>)
    requires m <= |pending| && Walks(log, pending[m..])
    ensures Walks(pending[..m] + log, pending)
    decreases m
  {
    if m == 0 {
      assert pending[..0] + log == log && pending[0..] == pending;
    } else {
      var rest := pending[1..];
      assert rest[m - 1..] == pending[m..];
      WalkOn(rest, m - 1, log);
      assert (pending[..m] + log)[1..] == rest[..m - 1] + log;
    }
  }

  /** What one run executes, followed by what the rest execute, from where the run stopped. */
  lemma OneRunWalks(pending: seq<string>, stop: Stop, log: seq<string>)
    requires Walks(log, pending[StopsAt(stop, |pending|)..])
    ensures Walks(pending[..StopsAt(stop, |pending|)] + LostBy(pending, stop) + log, pending)
  {
    var m := StopsAt(stop, |pending|);
    var lost := LostBy(pending, stop);
    if lost != [] {
      assert (lost + log)[1..] == log && pending[m..][0] == lost[0];
    } else {
      assert lost + log == log;
    }
    WalkOn(pending, m, lost + log);
    Regroup(pending[..m], lost, log);
  }

  /** Whatever fails, no file is executed before those ahead of it have been. */
  lemma {:induction false} LogWalks(files: seq<string>, applied: set<string>, stops: seq<Stop>)
    requires Ascending(files)
    ensures Walks(Log(files, applied, stops), Pending(files, applied))
    decreases |stops|
  {
    if stops != [] {
      var after := RunOnce(files, applied, stops[0]).0;
      OneRun(files, applied, stops[0]);
      LogWalks(files, after, stops[1..]);
      OneRunWalks(Pending(files, applied), stops[0], Log(files, after, stops[1..]));
    }
  }

  lemma JoinCounts(a: seq<string>, lost: seq<string>, b: seq<string>, rest: seq<string>, more: seq<string>)
    requires multiset(rest) == multiset(b) + multiset(more)
    ensures multiset(a + lost + rest) == multiset(a + b) + multiset(lost + more)
  {
  }

  /** The log holds each recorded file once, and once more for every time its record was lost. */
  lemma {:induction false} LogCounts(files: seq<string>, applied: set<string>, stops: seq<Stop>)
    requires Ascending(files)
    ensures Recorded(files, applied, stops) <= |Pending(files, applied)|
    ensures multiset(Log(files, applied, stops))
         == multiset(Pending(files, applied)[..Recorded(files, applied, stops)]) + multiset(Lost(files, applied, stops))
    decreases |stops|
  {
    RunsApplyAPrefix(files, applied, stops);
    if stops != [] {
      var pending, after := Pending(files, applied), RunOnce(files, applied, stops[0]).0;
      var m, k := StopsAt(stops[0], |pending|), Recorded(files, after, stops[1..]);
      OneRun(files, applied, stops[0]);
      LogCounts(files, after, stops[1..]);
      JoinPrefixes(pending, m, k);
      JoinCounts(pending[..m], LostBy(pending, stops[0]), pending[m..][..k],
                 Log(files, after, stops[1..]), Lost(files, after, stops[1..]));
    }
  }

  lemma {:induction false} LogIsPrefix(files: seq<string>, applied: set<string>, stops: seq<Stop>)
    requires Ascending(files) && Lost(files, applied, stops) == []
    requires Recorded(files, applied, stops) <= |Pending(files, applied)|
    ensures Log(files, applied, stops) == Pending(files, applied)[..Recorded(files, applied, stops)]
    decreases |stops|
  {
    if stops != [] {
      var pending, after := Pending(files, applied), RunOnce(files, applied, stops[0]).0;
      var m, rest := StopsAt(stops[0], |pending|), Log(files, after, stops[1..]);
      OneRun(files, applied, stops[0]);
      assert LostBy(pending, stops[0]) == [] && Lost(files, after, stops[1..]) == [];
      assert pending[..m] + [] + rest == pending[..m] + rest;
      RunsApplyAPrefix(files, after, stops[1..]);
      LogIsPrefix(files, after, stops[1..]);
      JoinPrefixes(pending, m, Recorded(files, after, stops[1..]));
    }
  }

  /**
   * However often the runner is stopped and restarted, what is recorded beyond
   * the start is a prefix of the sorted pending files; the concatenated log walks
   * them in order, with one execution for each recorded file and one for each
   * record that was lost; and it is that very prefix exactly if no record was lost.
   */
  lemma RestartsAreSafe(files: seq<string>, applied: set<string>, stops: seq<Stop>)
    requires Ascending(files)
    ensures exists n :: 0 <= n <= |Pending(files, applied)|
              && AppliedAfter(files, applied, stops) == applied + Names(Pending(files, applied)[..n])
              && multiset(Log(files, applied, stops))
                 == multiset(Pending(files, applied)[..n]) + multiset(Lost(files, applied, stops))
              && (Log(files, applied, stops) == Pending(files, applied)[..n] <==> Lost(files, applied, stops) == [])
    ensures Walks(Log(files, applied, stops), Pending(files, applied))
  {
    RunsApplyAPrefix(files, applied, stops);
    LogCounts(files, applied, stops);
    LogWalks(files, applied, stops);
    var n := Recorded(files, applied, stops);
    if Lost(files, applied, stops) == [] {
      LogIsPrefix(files, applied, stops);
    } else {
      assert |multiset(Lost(files, applied, stops))| == |Lost(files, applied, stops)|;
      assert |multiset(Pending(files, applied)[..n])| == n;
      assert |multiset(Log(files, applied, stops))| == |Log(files, applied, stops)|;
    }
    assert |Pending(files, applied)[..n]| == n;
  }

  lemma {:induction false} PendingOnce(files: seq<string>, applied: set<string>)
    requires Ascending(files)
    ensures forall f :: f in Pending(files, applied) ==> multiset(Pending(files, applied))[f] == 1
  {
    if files != [] {
      var tail := Pending(files[1..], applied);
      PendingOnce(files[1..], applied);
      PendingMembers(files[1..], applied);
      TailMembers(files);
      if files[0] !in applied {
        assert Pending(files, applied) == [files[0]] + tail;
        assert multiset(tail)[files[0]] == 0;
      }
    }
  }

  /**
   * Once the files are all applied, each of them has been executed once and once
   * more for every lost record of it, so the log is that of one uninterrupted run
   * exactly if no record was lost.
   */
  lemma CompletedRunsExecute(files: seq<string>, applied: set<string>, stops: seq<Stop>)
    requires Ascending(files) && Names(files) <= AppliedAfter(files, applied, stops)
    ensures var log, lost := Log(files, applied, stops), Lost(files, applied, stops);
            && (forall f :: f in Pending(files, applied) ==> multiset(log)[f] == 1 + multiset(lost)[f])
            && (forall f :: f in log || f in lost ==> f in Pending(files, applied))
            && (log == RunOnce(files, applied, Never).1 <==> lost == [])
  {
    var pending, log, lost := Pending(files, applied), Log(files, applied, stops), Lost(files, applied, stops);
    RunsApplyAPrefix(files, applied, stops);
    LogCounts(files, applied, stops);
    LogWalks(files, applied, stops);
    PendingOnce(files, applied);
    AllRecorded(files, applied, stops);
    assert pending[..|pending|] == pending && pending + [] == pending;
    WalkStays(log, pending);
    forall f | f in lost ensures f in pending {
      assert multiset(lost)[f] > 0;
      assert multiset(log)[f] > 0;
    }
    if lost == [] {
      LogIsPrefix(files, applied, stops);
    } else {
      assert multiset(lost)[lost[0]] > 0;
    }
  }

  lemma {:induction false} WalkStays(log: seq<string>, pending: seq<string>)
    requires Walks(log, pending)
    ensures forall f :: f in log ==> f in pending
    decreases |log|
  {
    if log != [] {
      if Walks(log[1..], pending) { WalkStays(log[1..], pending); } else { WalkStays(log[1..], pending[1..]); }
      assert log == [log[0]] + log[1..] && pending == [pending[0]] + pending[1..];
    }
  }

  lemma NotAmongEarlier(pending: seq<string>, n: nat)
    requires n < |pending| && multiset(pending)[pending[n]] == 1
    ensures pending[n] in pending && pending[n] !in Names(pending[..n])
  {
    assert pending == pending[..n] + [pending[n]] + pending[n + 1..];
    assert multiset(pending) == multiset(pending[..n]) + multiset{pending[n]} + multiset(pending[n + 1..]);
    assert multiset(pending[..n])[pending[n]] == 0;
  }

  lemma AllRecorded(files: seq<string>, applied: set<string>, stops: seq<Stop>)
    requires Ascending(files) && Names(files) <= AppliedAfter(files, applied, stops)
    ensures Recorded(files, applied, stops) == |Pending(files, applied)|
  {
    var pending, n := Pending(files, applied), Recorded(files, applied, stops);
    RunsApplyAPrefix(files, applied, stops);
    PendingMembers(files, applied);
    PendingOnce(files, applied);
    if n < |pending| {
      NotAmongEarlier(pending, n);
      assert false;
    }
  }

  /** A run succeeds exactly if it leaves every file recorded, and one that nothing stops does. */
  lemma SucceedsExactly(files: seq<string>, applied: set<string>, stop: Stop)
    requires Ascending(files)
    ensures RunOnce(files, applied, stop).2 <==> Names(files) <= RunOnce(files, applied, stop).0
    ensures RunOnce(files, applied, Never).2
  {
    var pending := Pending(files, applied);
    var n := StopsAt(stop, |pending|);
    PendingMembers(files, applied);
    if n < |pending| {
      PendingOnce(files, applied);
      NotAmongEarlier(pending, n);
      assert pending[n] in files && pending[n] !in applied;
      assert pending[n] in Names(files) && pending[n] !in RunOnce(files, applied, stop).0;
    } else {
      assert pending[..n] == pending;
    }
  }

  /** One lost record, then a restart: the file's SQL goes through twice. */
  lemma LostRecordRunsTwice()
    ensures Log(["a.sql"], {}, [RecordFails(0), Never]) == ["a.sql", "a.sql"]
    ensures AppliedAfter(["a.sql"], {}, [RecordFails(0), Never]) == {"a.sql"}
  {
    var files, stops := ["a.sql"], [RecordFails(0), Never];
    assert Pending(files, {}) == files && stops[1..] == [Never] && stops[1..][1..] == [];
    assert files[..0] == [] && Names([]) == {} && Names(files) == {"a.sql"} && files[..1] == files;
    var none: set<string> := {};
    assert none + Names(files[..0]) == none && none + Names(files[..1]) == {"a.sql"};
    assert files[..0] + [files[0]] == files && files[..1] + [] == files;
    assert RunOnce(files, none, RecordFails(0)) == (none, files, false);
    assert RunOnce(files, none, Never) == ({"a.sql"}, files, true);
  }

  lemma {:induction false} NothingPending(files: seq<string>, applied: set<string>)
    requires Names(files) <= applied
    ensures Pending(files, applied) == []
  {
    if files != [] {
      assert files[0] in Names(files) && Names(files[1..]) <= Names(files);
      NothingPending(files[1..], applied);
    }
  }

  /** Once a run succeeds everything is applied, and another run executes nothing. */
  lemma SuccessIsFinal(files: seq<string>, applied: set<string>, stops: seq<Stop>, last: Stop)
    requires Ascending(files)
    requires RunOnce(files, AppliedAfter(files, applied, stops), last).2
    ensures var after := RunOnce(files, AppliedAfter(files, applied, stops), last).0;
            && after == applied + Names(files)
            && forall again :: RunOnce(files, after, again) == (after, [], true)
  {
    RunsApplyAPrefix(files, applied, stops);
    var middle := AppliedAfter(files, applied, stops);
    var pending := Pending(files, middle);
    var after := RunOnce(files, middle, last).0;
    assert pending[..|pending|] == pending;
    PendingMembers(files, applied);
    PendingMembers(files, middle);
    assert after == applied + Names(files);
    NothingPending(files, after);
    forall again ensures RunOnce(files, after, again) == (after, [], true) {
      assert after + Names([]) == after;
      assert Pending(files, after)[..0] == [];
    }
  }
}

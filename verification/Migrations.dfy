/**
 The migration runner: what one `Apply` does to the database, and any number of
 replicas calling it at once, with failures, lost locks, crashes and commits
 whose outcome the caller never learns.
 */
module Migrations {
  // --- Listing the directory --------------------------------------------------------

  datatype DirEntry = DirEntry(name: string, isDir: bool)

  /** The order of names, byte by byte. */
  predicate Before(a: string, b: string) {
    b != "" && (a == "" || a[0] < b[0] || (a[0] == b[0] && Before(a[1..], b[1..])))
  }

  lemma {:induction false} BeforeTotal(a: string, b: string)
    ensures Before(a, b) <==> a != b && !Before(b, a)
  {
    if a != "" && b != "" {
      BeforeTotal(a[1..], b[1..]);
      assert a == [a[0]] + a[1..] && b == [b[0]] + b[1..];
    }
  }

  /** One name comes before another if it is a proper prefix, or smaller at the first place where they differ. */
  lemma {:induction false} BeforeIff(a: string, b: string)
    ensures Before(a, b) <==>
            || a < b
            || exists k :: 0 <= k < |a| && k < |b| && a[..k] == b[..k] && a[k] < b[k]
  {
    if a != "" && b != "" {
      var x, y := a[1..], b[1..];
      assert a == [a[0]] + x && b == [b[0]] + y;
      BeforeIff(x, y);
      if k :| 0 <= k < |x| && k < |y| && x[..k] == y[..k] && x[k] < y[k] {
        assert a[..k + 1] == [a[0]] + x[..k] && b[..k + 1] == [b[0]] + y[..k];
        assert a[0] == b[0] ==> a[..k + 1] == b[..k + 1] && a[k + 1] < b[k + 1];
      }
      if k :| 0 <= k < |a| && k < |b| && a[..k] == b[..k] && a[k] < b[k] {
        if k > 0 {
          assert a[..k][0] == b[..k][0] && x[..k - 1] == a[..k][1..] && y[..k - 1] == b[..k][1..];
          assert x[..k - 1] == y[..k - 1] && x[k - 1] < y[k - 1];
        }
      }
      if a[0] < b[0] {
        assert a[..0] == b[..0];
      }
      assert a < b <==> a[0] == b[0] && x < y;
    }
  }

  lemma {:induction false} BeforeTransitive(a: string, b: string, c: string)
    requires Before(a, b) && Before(b, c)
    ensures Before(a, c)
  {
    if a != "" && a[0] == b[0] == c[0] {
      BeforeTransitive(a[1..], b[1..], c[1..]);
    }
  }

  predicate IsSqlFile(e: DirEntry) {
    !e.isDir && |e.name| >= 4 && e.name[|e.name| - 4..] == ".sql"
  }

  lemma SqlFileIff(e: DirEntry)
    ensures IsSqlFile(e) <==> !e.isDir && exists stem :: e.name == stem + ".sql"
  {
    if IsSqlFile(e) {
      assert e.name == e.name[..|e.name| - 4] + ".sql";
    }
  }

  ghost predicate Ascending(names: seq<string>) {
    forall i, j :: 0 <= i < j < |names| ==> Before(names[i], names[j])
  }

  function InsertName(sorted: seq<string>, name: string): seq<string> {
    if sorted == [] then [name]
    else if Before(name, sorted[0]) then [name] + sorted
    else [sorted[0]] + InsertName(sorted[1..], name)
  }

  /** The names of the directory's `.sql` files, sorted. */
  function Listing(entries: seq<DirEntry>): seq<string> {
    if entries == [] then []
    else if IsSqlFile(entries[0]) then InsertName(Listing(entries[1..]), entries[0].name)
    else Listing(entries[1..])
  }

  lemma {:induction false} InsertNameLaws(sorted: seq<string>, name: string)
    requires Ascending(sorted) && name !in sorted
    ensures Ascending(InsertName(sorted, name))
    ensures forall x :: x in InsertName(sorted, name) <==> x == name || x in sorted
  {
    if sorted != [] {
      var head, tail := sorted[0], sorted[1..];
      assert sorted == [head] + tail;
      if Before(name, head) {
        forall x | x in tail
          ensures Before(name, x)
        {
          BeforeTransitive(name, head, x);
        }
      } else {
        InsertNameLaws(tail, name);
        BeforeTotal(name, head);
        assert forall x :: x in InsertName(tail, name) ==> Before(head, x);
      }
    }
  }

  /** A directory names every entry once; then the listing is strictly ascending and holds exactly the SQL files. */
  lemma {:induction false} ListingLaws(entries: seq<DirEntry>)
    requires forall i, j :: 0 <= i < j < |entries| ==> entries[i].name != entries[j].name
    ensures Ascending(Listing(entries))
    ensures forall x :: x in Listing(entries) <==>
        exists i :: 0 <= i < |entries| && entries[i].name == x && IsSqlFile(entries[i])
  {
    if entries != [] {
      var tail := entries[1..];
      ListingLaws(tail);
      if IsSqlFile(entries[0]) {
        assert entries[0].name !in Listing(tail);
        InsertNameLaws(Listing(tail), entries[0].name);
      }
      forall x
        ensures x in Listing(entries) <==>
            exists i :: 0 <= i < |entries| && entries[i].name == x && IsSqlFile(entries[i])
      {
        if i :| 0 <= i < |entries| && entries[i].name == x && IsSqlFile(entries[i]) {
          assert i > 0 ==> tail[i - 1] == entries[i];
        }
        if x in Listing(tail) {
          var i :| 0 <= i < |tail| && tail[i].name == x && IsSqlFile(tail[i]);
          assert entries[i + 1] == tail[i];
        }
      }
    }
  }

  // --- One call ---------------------------------------------------------------------

  /** What goes wrong with one file: a step before the commit, or the commit's answer is lost. */
  datatype Fault = NoFault | BeforeCommit | AnswerLost(committed: bool)

  /** The files not recorded yet, in order. */
  function Missing(files: seq<string>, recorded: set<string>): seq<string> {
    if files == [] then []
    else if files[|files| - 1] in recorded then Missing(files[..|files| - 1], recorded)
    else Missing(files[..|files| - 1], recorded) + [files[|files| - 1]]
  }

  lemma MissingSnoc(files: seq<string>, recorded: set<string>, k: nat)
    requires k < |files|
    ensures Missing(files[..k + 1], recorded) ==
            if files[k] in recorded then Missing(files[..k], recorded) else Missing(files[..k], recorded) + [files[k]]
  {
    assert files[..k + 1][..k] == files[..k];
  }

  lemma {:induction false} MissingPrefix(files: seq<string>, recorded: set<string>, k: nat)
    requires k <= |files|
    ensures Missing(files[..k], recorded) <= Missing(files, recorded)
    decreases |files| - k
  {
    if k == |files| {
      assert files[..k] == files;
    } else {
      MissingSnoc(files, recorded, k);
      MissingPrefix(files, recorded, k + 1);
    }
  }

  lemma {:induction false} InMissing(files: seq<string>, recorded: set<string>, x: string)
    ensures x in Missing(files, recorded) <==> x in files && x !in recorded
  {
    if files != [] {
      InMissing(files[..|files| - 1], recorded, x);
      assert files == files[..|files| - 1] + [files[|files| - 1]];
    }
  }

  /** The missing files keep the order of the directory. */
  lemma {:induction false} MissingAscends(files: seq<string>, recorded: set<string>)
    requires Ascending(files)
    ensures Ascending(Missing(files, recorded))
    ensures forall x :: x in Missing(files, recorded) <==> x in files && x !in recorded
  {
    forall x
      ensures x in Missing(files, recorded) <==> x in files && x !in recorded
    {
      InMissing(files, recorded, x);
    }
    if files != [] {
      var front := files[..|files| - 1];
      MissingAscends(front, recorded);
      var missing := Missing(front, recorded);
      forall j | 0 <= j < |missing|
        ensures Before(missing[j], files[|files| - 1])
      {
        InMissing(front, recorded, missing[j]);
        var i :| 0 <= i < |front| && front[i] == missing[j];
        assert files[i] == missing[j];
      }
    }
  }

  function Names(s: seq<string>): set<string> {
    set x | x in s
  }

  /** No file earlier in the order is the same file. */
  lemma NotYet(files: seq<string>, recorded: set<string>, k: nat)
    requires Ascending(files) && k < |files|
    ensures files[k] !in Missing(files[..k], recorded)
  {
    InMissing(files[..k], recorded, files[k]);
    forall m | 0 <= m < k
      ensures files[m] != files[k]
    {
      BeforeTotal(files[m], files[k]);
    }
  }

  lemma NamesSnoc(s: seq<string>, x: string)
    ensures Names(s + [x]) == Names(s) + {x}
  {
  }

  /**
   A call runs the missing files in order up to the first faulty one. The last file it
   committed is missing from its result exactly when that commit's answer was lost.
   */
  ghost predicate CallResult(missing: seq<string>, fault: string -> Fault, applied: seq<string>,
                             committed: seq<string>, ok: bool) {
    && applied <= missing
    && (forall f :: f in applied ==> fault(f).NoFault?)
    && (ok <==> applied == missing)
    && (ok ==> committed == applied)
    && (!ok ==> |applied| < |missing| && !fault(missing[|applied|]).NoFault? &&
                committed ==
                applied + if fault(missing[|applied|]) == AnswerLost(true) then [missing[|applied|]] else [])
  }

  /** The migration table, and the files whose SQL has committed, oldest first. */
  class Database {
    var recorded: set<string>
    var executed: seq<string>

    /** The transaction that runs one file and records it; `landed` is not known to the caller. */
    method RunTx(name: string, fault: Fault) returns (done: bool, ghost landed: bool)
      modifies this
      ensures done <==> fault.NoFault?
      ensures landed <==> done || fault == AnswerLost(true)
      ensures recorded == (if landed then old(recorded) + {name} else old(recorded))
      ensures executed == (if landed then old(executed) + [name] else old(executed))
    {
      done, landed := fault.NoFault?, fault.NoFault? || fault == AnswerLost(true);
      if fault.NoFault? || fault == AnswerLost(true) {
        recorded, executed := recorded + {name}, executed + [name];
      }
    }

    /**
     One call that holds the lock throughout, with its own fault for every file. `ready` is
     false when no connection, lock, table or directory could be had.
     */
    method Apply(entries: seq<DirEntry>, ready: bool, fault: string -> Fault)
      returns (applied: seq<string>, ok: bool, ghost committed: seq<string>)
      requires forall i, j :: 0 <= i < j < |entries| ==> entries[i].name != entries[j].name
      modifies this
      ensures executed == old(executed) + committed && recorded == old(recorded) + Names(committed)
      ensures if ready then CallResult(Missing(Listing(entries), old(recorded)), fault, applied, committed, ok)
              else !ok && applied == committed == []
      ensures ok ==> forall f :: f in Listing(entries) ==> f in recorded
    {
      if !ready {
        return [], false, [];
      }
      ListingAscends(entries);
      applied, ok, committed := ApplyFiles(Listing(entries), fault);
    }

    method ApplyFiles(files: seq<string>, fault: string -> Fault)
      returns (applied: seq<string>, ok: bool, ghost committed: seq<string>)
      requires Ascending(files)
      modifies this
      ensures executed == old(executed) + committed && recorded == old(recorded) + Names(committed)
      ensures CallResult(Missing(files, old(recorded)), fault, applied, committed, ok)
      ensures ok ==> forall f :: f in files ==> f in recorded
    {
      applied, ok, committed := [], false, [];
      ghost var before, log := recorded, executed;
      ProgressStarts(files, before, fault);
      for k := 0 to |files|
        invariant Progress(files, before, fault, k, applied)
        invariant committed == applied && executed == log + committed && recorded == before + Names(committed)
      {
        ProgressStep(files, before, fault, k, applied);
        var name := files[k];
        if name in recorded {
          continue;
        }
        var done, landed := RunTx(name, fault(name));
        if landed {
          NamesSnoc(committed, name);
          committed := committed + [name];
        }
        if !done {
          return;
        }
        applied := applied + [name];
      }
      ProgressDone(files, before, fault, applied);
      ok := true;
    }
  }

  lemma ListingAscends(entries: seq<DirEntry>)
    requires forall i, j :: 0 <= i < j < |entries| ==> entries[i].name != entries[j].name
    ensures Ascending(Listing(entries))
  {
    ListingLaws(entries);
  }

  /** After `k` files, the missing ones among them went through without a fault. */
  ghost predicate Progress(files: seq<string>, before: set<string>, fault: string -> Fault, k: nat,
                           applied: seq<string>)
    requires k <= |files|
  {
    && applied == Missing(files[..k], before) && applied <= Missing(files, before)
    && forall f :: f in applied ==> fault(f).NoFault?
  }

  lemma ProgressStarts(files: seq<string>, before: set<string>, fault: string -> Fault)
    ensures Progress(files, before, fault, 0, [])
  {
  }

  lemma ProgressStep(files: seq<string>, before: set<string>, fault: string -> Fault, k: nat, applied: seq<string>)
    requires Ascending(files) && k < |files| && Progress(files, before, fault, k, applied)
    ensures files[k] in before ==> Progress(files, before, fault, k + 1, applied)
    ensures files[k] !in before ==> files[k] !in before + Names(applied)
    ensures files[k] !in before && fault(files[k]).NoFault? ==>
        Progress(files, before, fault, k + 1, applied + [files[k]])
    ensures files[k] !in before && fault(files[k]) == AnswerLost(true) ==>
              CallResult(Missing(files, before), fault, applied, applied + [files[k]], false)
    ensures files[k] !in before && (fault(files[k]) == AnswerLost(false) || fault(files[k]).BeforeCommit?) ==>
              CallResult(Missing(files, before), fault, applied, applied, false)
  {
    NextMissing(files, before, k);
  }

  lemma ProgressDone(files: seq<string>, before: set<string>, fault: string -> Fault, applied: seq<string>)
    requires Progress(files, before, fault, |files|, applied)
    ensures CallResult(Missing(files, before), fault, applied, applied, true)
    ensures forall f :: f in files ==> f in before + Names(applied)
  {
    assert files[..|files|] == files;
    forall f | f in files
      ensures f in before + Names(applied)
    {
      InMissing(files, before, f);
    }
  }

  /** The next file is recorded by now exactly if it was before the call; otherwise it is the next missing one. */
  lemma NextMissing(files: seq<string>, before: set<string>, k: nat)
    requires Ascending(files) && k < |files|
    ensures var done := Missing(files[..k], before); var missing := Missing(files, before);
            && files[k] !in Names(done)
            && Missing(files[..k + 1], before) == (if files[k] in before then done else done + [files[k]])
            && Missing(files[..k + 1], before) <= missing
            && (files[k] !in before ==> |done| < |missing| && missing[|done|] == files[k])
  {
    NotYet(files, before, k);
    MissingSnoc(files, before, k);
    MissingPrefix(files, before, k + 1);
    var next := Missing(files[..k + 1], before);
    assert files[k] !in before ==> next[|next| - 1] == files[k];
  }
}

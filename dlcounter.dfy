/** The ingestion control flow of `dlcounter/dlcounter.py`: `log_to_sql`,
    `main` and `init_db`. A log file is given as its lines, or as `None`
    when opening it raises `FileNotFoundError`. */
module DlCounter {
  import opened Common
  import opened LogLine
  import opened Store
  import opened Ingest

  /** The `time_format` attributes, passed explicitly: the format for
      reading access logs and the one for writing the HTML page. */
  datatype TimeFormat = TimeFormat(read: string, write: string)

  /** `get_record` as this program calls it, with `time_format.read`. */
  function RecordsOf(tf: TimeFormat, parse: TimeParser): Extractor {
    (line, p) => GetRecord(line, p, tf.read, parse)
  }

  /** `if not timecheck: timecheck = datetime.min` (a `datetime` is never
      false, so only a missing `timecheck` is replaced). */
  function Threshold(timecheck: Option<Timestamp>): (r: Timestamp)
    ensures timecheck.None? ==> r == MinTimestamp
    ensures timecheck.Some? ==> r == timecheck.value
  {
    if timecheck.None? then MinTimestamp else timecheck.value
  }

  /** One file of the loop in `main` or `init_db`: a missing file is
      skipped; otherwise `log_to_sql` runs on a fresh `_modified` and its
      result is ASSIGNED to the caller's flag, which a failure leaves as
      it was. */
  function FileStep(st: Progress, log: Option<seq<string>>, pats: seq<Pattern>, wm: Timestamp, ex: Extractor): Progress {
    if st.failure.Some? || log.None? then st
    else
      var r := Run(Progress(st.rows, false, None), Pairs(log.value, pats), wm, ex);
      Progress(r.rows, if r.failure.Some? then st.modified else r.modified, r.failure)
  }

  /** `FileStep` over the files in the order given. */
  function FilesRun(st: Progress, logs: seq<Option<seq<string>>>, pats: seq<Pattern>, wm: Timestamp, ex: Extractor): Progress {
    if logs == [] then st
    else FileStep(FilesRun(st, logs[..|logs| - 1], pats, wm, ex), logs[|logs| - 1], pats, wm, ex)
  }

  /** `main`: every file filtered against the one watermark read before the
      first file. */
  function IncrementalRun(rows: seq<Row>, logs: seq<Option<seq<string>>>, pats: seq<Pattern>, ex: Extractor): Progress {
    FilesRun(Progress(rows, false, None), logs, pats, Watermark(rows), ex)
  }

  /** `init_db`: an emptied table, and `log_to_sql` without `timecheck`. */
  function Reinitialized(logs: seq<Option<seq<string>>>, pats: seq<Pattern>, ex: Extractor): Progress {
    FilesRun(Progress([], false, None), logs, pats, MinTimestamp, ex)
  }

  /** `log_to_sql`: every line against every pattern; `update_db` for each
      event strictly newer than `timecheck`; the result says whether an
      update happened. A failure ends the run at once. */
  method LogToSql(db: Database, log: seq<string>, searchstring: seq<Pattern>, timecheck: Option<Timestamp>,
                  tf: TimeFormat, parse: TimeParser)
    returns (modified: bool, failure: Option<Fatal>)
    requires db.Valid() && db.present
    modifies db
    ensures db.Valid() && db.present
    ensures Progress(db.rows, modified, failure)
         == Run(Progress(old(db.rows), false, None), Pairs(log, searchstring), Threshold(timecheck), RecordsOf(tf, parse))
  {
    var wm := Threshold(timecheck);
    var ex := RecordsOf(tf, parse);
    ghost var start := Progress(db.rows, false, None);
    modified, failure := false, None;
    var i := 0;
    while i < |log|
      invariant 0 <= i <= |log|
      invariant db.Valid() && db.present
      invariant Progress(db.rows, modified, None) == Run(start, Pairs(log[..i], searchstring), wm, ex)
    {
      ghost var before := Pairs(log[..i], searchstring);
      var j := 0;
      assert LinePairs(log[i], searchstring[..0]) == [];
      assert before + [] == before;
      while j < |searchstring|
        invariant 0 <= j <= |searchstring|
        invariant db.Valid() && db.present
        invariant Progress(db.rows, modified, None) == Run(start, before + LinePairs(log[i], searchstring[..j]), wm, ex)
      {
        StepLine(start, log, searchstring, i, j, wm, ex);
        var f;
        modified, f := Visit(db, log[i], searchstring[j], wm, ex, modified);
        if f.Some? {
          failure := f;
          AbortEndsRun(start, log, searchstring, i, j, wm, ex);
          return;
        }
        j := j + 1;
      }
      assert searchstring[..j] == searchstring;
      PairsNext(log, searchstring, i);
      i := i + 1;
    }
    assert log[..i] == log;
  }

  /** The body of the file loop in `main` and `init_db`: a file whose
      `open` raises `FileNotFoundError` is skipped; otherwise `log_to_sql`'s
      result replaces the flag, unless the run failed. */
  method ReadLog(db: Database, log: Option<seq<string>>, searchstring: seq<Pattern>, timecheck: Option<Timestamp>,
                 tf: TimeFormat, parse: TimeParser, modified: bool)
    returns (modified': bool, failure: Option<Fatal>)
    requires db.Valid() && db.present
    modifies db
    ensures db.Valid() && db.present
    ensures Progress(db.rows, modified', failure)
         == FileStep(Progress(old(db.rows), modified, None), log, searchstring, Threshold(timecheck), RecordsOf(tf, parse))
  {
    modified', failure := modified, None;
    if log.Some? {
      var m, f := LogToSql(db, log.value, searchstring, timecheck, tf, parse);
      if f.Some? {
        failure := f;
      } else {
        modified' := m;
      }
    }
  }

  /** `main`: create the table if needed, read the watermark once, then run
      `log_to_sql` on each file that opens. */
  method UpdateFromLogs(db: Database, acclogs: seq<Option<seq<string>>>, searchstring: seq<Pattern>,
              tf: TimeFormat, parse: TimeParser)
    returns (modified: bool, failure: Option<Fatal>)
    requires db.Valid()
    modifies db
    ensures db.Valid() && db.present
    ensures Progress(db.rows, modified, failure) == IncrementalRun(old(db.rows), acclogs, searchstring, RecordsOf(tf, parse))
  {
    modified, failure := false, None;
    db.SqlTable();
    var dbLastUpdated := db.GetDbTime();
    ghost var start := Progress(db.rows, false, None);
    ghost var ex := RecordsOf(tf, parse);
    var n := 0;
    while n < |acclogs|
      invariant 0 <= n <= |acclogs|
      invariant db.Valid() && db.present
      invariant failure.None?
      invariant Progress(db.rows, modified, None) == FilesRun(start, acclogs[..n], searchstring, dbLastUpdated, ex)
    {
      FilesRunSnoc(start, acclogs, n, searchstring, dbLastUpdated, ex);
      modified, failure := ReadLog(db, acclogs[n], searchstring, Some(dbLastUpdated), tf, parse, modified);
      if failure.Some? {
        FilesRunStopsAt(start, acclogs, n, searchstring, dbLastUpdated, ex);
        return;
      }
      n := n + 1;
    }
    assert acclogs[..n] == acclogs;
  }

  /** `init_db`: drop and recreate the table, then run `log_to_sql` without
      a watermark on every file. */
  method InitDb(db: Database, logs: seq<Option<seq<string>>>, searchstring: seq<Pattern>,
                tf: TimeFormat, parse: TimeParser)
    returns (failure: Option<Fatal>)
    modifies db
    ensures db.Valid() && db.present
    ensures db.rows == Reinitialized(logs, searchstring, RecordsOf(tf, parse)).rows
    ensures failure == Reinitialized(logs, searchstring, RecordsOf(tf, parse)).failure
  {
    db.DropTable();
    db.SqlTable();
    failure := None;
    var modified := false;  // threaded through `ReadLog`; `init_db` never reads it
    ghost var start := Progress([], false, None);
    ghost var ex := RecordsOf(tf, parse);
    var n := 0;
    while n < |logs|
      invariant 0 <= n <= |logs|
      invariant db.Valid() && db.present
      invariant failure.None?
      invariant Progress(db.rows, modified, None) == FilesRun(start, logs[..n], searchstring, MinTimestamp, ex)
    {
      FilesRunSnoc(start, logs, n, searchstring, MinTimestamp, ex);
      modified, failure := ReadLog(db, logs[n], searchstring, None, tf, parse, modified);
      if failure.Some? {
        FilesRunStopsAt(start, logs, n, searchstring, MinTimestamp, ex);
        return;
      }
      n := n + 1;
    }
    assert logs[..n] == logs;
  }

  // ---------------------------------------------------------------------

  /** One more pattern tried on line `i`. */
  lemma StepLine(st: Progress, lines: seq<string>, pats: seq<Pattern>, i: nat, j: nat, wm: Timestamp, ex: Extractor)
    requires i < |lines| && j < |pats|
    ensures Run(st, Pairs(lines[..i], pats) + LinePairs(lines[i], pats[..j + 1]), wm, ex)
         == Step(Run(st, Pairs(lines[..i], pats) + LinePairs(lines[i], pats[..j]), wm, ex), ex(lines[i], pats[j]), wm)
  {
    var done := Pairs(lines[..i], pats) + LinePairs(lines[i], pats[..j]);
    assert done + [(lines[i], pats[j])] == Pairs(lines[..i], pats) + LinePairs(lines[i], pats[..j + 1]);
    RunSnoc(st, done, lines[i], pats[j], wm, ex);
  }

  /** A failure on pattern `j` of line `i` is the outcome of the whole log. */
  lemma AbortEndsRun(st: Progress, lines: seq<string>, pats: seq<Pattern>, i: nat, j: nat, wm: Timestamp, ex: Extractor)
    requires i < |lines| && j < |pats|
    requires Run(st, Pairs(lines[..i], pats) + LinePairs(lines[i], pats[..j + 1]), wm, ex).failure.Some?
    ensures Run(st, Pairs(lines, pats), wm, ex) == Run(st, Pairs(lines[..i], pats) + LinePairs(lines[i], pats[..j + 1]), wm, ex)
  {
    PairsSplit(lines, pats, i, j + 1);
    RunAfterFailure(st, Pairs(lines[..i], pats) + LinePairs(lines[i], pats[..j + 1]),
                    LinePairs(lines[i], pats[j + 1..]) + Pairs(lines[i + 1..], pats), wm, ex);
  }

  /** The fold by its last file. */
  lemma FilesRunSnoc(st: Progress, logs: seq<Option<seq<string>>>, n: nat, pats: seq<Pattern>, wm: Timestamp, ex: Extractor)
    requires n < |logs|
    ensures FilesRun(st, logs[..n + 1], pats, wm, ex) == FileStep(FilesRun(st, logs[..n], pats, wm, ex), logs[n], pats, wm, ex)
  {
    assert logs[..n + 1][..n] == logs[..n];
  }

  /** Once a file has ended the run, later files are not read. */
  lemma {:induction false} FilesRunStops(st: Progress, a: seq<Option<seq<string>>>, b: seq<Option<seq<string>>>,
                                         pats: seq<Pattern>, wm: Timestamp, ex: Extractor)
    requires FilesRun(st, a, pats, wm, ex).failure.Some?
    ensures FilesRun(st, a + b, pats, wm, ex) == FilesRun(st, a, pats, wm, ex)
    decreases |b|
  {
    if b != [] {
      var init := b[..|b| - 1];
      assert (a + b)[..|a + b| - 1] == a + init;
      FilesRunStops(st, a, init, pats, wm, ex);
      var prev := FilesRun(st, a + init, pats, wm, ex);
      assert prev == FilesRun(st, a, pats, wm, ex);
      assert FilesRun(st, a + b, pats, wm, ex) == FileStep(prev, (a + b)[|a + b| - 1], pats, wm, ex);
    } else {
      assert a + b == a;
    }
  }

  /** A failure in file `n` is the outcome of all the files. */
  lemma FilesRunStopsAt(st: Progress, logs: seq<Option<seq<string>>>, n: nat, pats: seq<Pattern>, wm: Timestamp, ex: Extractor)
    requires n < |logs| && FilesRun(st, logs[..n + 1], pats, wm, ex).failure.Some?
    ensures FilesRun(st, logs, pats, wm, ex) == FilesRun(st, logs[..n + 1], pats, wm, ex)
  {
    FilesRunStops(st, logs[..n + 1], logs[n + 1..], pats, wm, ex);
    assert logs[..n + 1] + logs[n + 1..] == logs;
  }

  /** Every file that opens is read to its end without a failure. */
  predicate FilesNoAbort(logs: seq<Option<seq<string>>>, pats: seq<Pattern>, ex: Extractor) {
    forall n :: 0 <= n < |logs| && logs[n].Some? ==> NoAbort(Pairs(logs[n].value, pats), ex)
  }

  /** No pair of any file that opens yields an event newer than `wm`. */
  predicate NothingNewer(logs: seq<Option<seq<string>>>, pats: seq<Pattern>, wm: Timestamp, ex: Extractor) {
    forall n :: 0 <= n < |logs| && logs[n].Some? ==> NoneAccepted(Pairs(logs[n].value, pats), wm, ex)
  }

  /** The accepted downloads of `f` over every file that opens. */
  function AcceptedInFiles(logs: seq<Option<seq<string>>>, pats: seq<Pattern>, wm: Timestamp, ex: Extractor, f: string): nat {
    if logs == [] then 0
    else
      var last := logs[|logs| - 1];
      AcceptedInFiles(logs[..|logs| - 1], pats, wm, ex, f)
        + (if last.Some? then AcceptedFor(Pairs(last.value, pats), wm, ex, f) else 0)
  }

  lemma FilesNoAbortPrefix(logs: seq<Option<seq<string>>>, pats: seq<Pattern>, ex: Extractor, m: nat)
    requires m <= |logs| && FilesNoAbort(logs, pats, ex)
    ensures FilesNoAbort(logs[..m], pats, ex)
  {
    forall n | 0 <= n < m && logs[..m][n].Some?
      ensures NoAbort(Pairs(logs[..m][n].value, pats), ex)
    {
      assert logs[..m][n] == logs[n];
    }
  }

  /** The flag `main` and `init_db` keep after a file that opens and runs to
      its end says whether THAT file had an accepted event: what earlier
      files did is forgotten, because `log_to_sql`'s result is assigned. */
  lemma {:induction false} ModifiedIsPerFile(st: Progress, lines: seq<string>, pats: seq<Pattern>, wm: Timestamp, ex: Extractor)
    requires st.failure.None? && NoAbort(Pairs(lines, pats), ex)
    ensures FileStep(st, Some(lines), pats, wm, ex).failure.None?
    ensures FileStep(st, Some(lines), pats, wm, ex).modified <==> SomeAccepted(Pairs(lines, pats), wm, ex)
  {
    var r := Run(Progress(st.rows, false, None), Pairs(lines, pats), wm, ex);
    RunModified(Progress(st.rows, false, None), Pairs(lines, pats), wm, ex);
    NoAbortKeepsRunning(Progress(st.rows, false, None), Pairs(lines, pats), wm, ex);
    assert FileStep(st, Some(lines), pats, wm, ex) == r;
  }

  /** Accumulation across files: with no failure, each filename's total
      grows by exactly the number of its accepted events, file after file,
      and the table stays well formed. */
  lemma {:induction false} FilesRunCounts(st: Progress, logs: seq<Option<seq<string>>>, pats: seq<Pattern>,
                                          wm: Timestamp, ex: Extractor, f: string)
    requires WellFormed(st.rows) && st.failure.None? && FilesNoAbort(logs, pats, ex)
    ensures FilesRun(st, logs, pats, wm, ex).failure.None?
    ensures WellFormed(FilesRun(st, logs, pats, wm, ex).rows)
    ensures TotalOf(FilesRun(st, logs, pats, wm, ex).rows, f) == TotalOf(st.rows, f) + AcceptedInFiles(logs, pats, wm, ex, f)
    decreases |logs|
  {
    if logs != [] {
      var init := logs[..|logs| - 1];
      FilesNoAbortPrefix(logs, pats, ex, |logs| - 1);
      FilesRunCounts(st, init, pats, wm, ex, f);
      var prev := FilesRun(st, init, pats, wm, ex);
      var last := logs[|logs| - 1];
      if last.Some? {
        RunCounts(Progress(prev.rows, false, None), Pairs(last.value, pats), wm, ex, f);
        RunKeepsWellFormed(Progress(prev.rows, false, None), Pairs(last.value, pats), wm, ex);
      }
    }
  }

  lemma {:induction false} AcceptedInFilesAppend(a: seq<Option<seq<string>>>, b: seq<Option<seq<string>>>,
                                                 pats: seq<Pattern>, wm: Timestamp, ex: Extractor, f: string)
    ensures AcceptedInFiles(a + b, pats, wm, ex, f) == AcceptedInFiles(a, pats, wm, ex, f) + AcceptedInFiles(b, pats, wm, ex, f)
    decreases |b|
  {
    if b == [] {
      assert a + b == a;
    } else {
      assert (a + b)[..|a + b| - 1] == a + b[..|b| - 1];
      AcceptedInFilesAppend(a, b[..|b| - 1], pats, wm, ex, f);
    }
  }

  /** Bulk load: after `init_db`, each filename's total is the number of its
      matching events with a timestamp above `datetime.min`, summed over the
      files. */
  lemma BulkLoadCounts(logs: seq<Option<seq<string>>>, pats: seq<Pattern>, ex: Extractor, f: string)
    requires FilesNoAbort(logs, pats, ex)
    ensures Reinitialized(logs, pats, ex).failure.None?
    ensures TotalOf(Reinitialized(logs, pats, ex).rows, f) == AcceptedInFiles(logs, pats, MinTimestamp, ex, f)
  {
    FilesRunCounts(Progress([], false, None), logs, pats, MinTimestamp, ex, f);
  }

  /** The totals of a bulk load do not depend on the order in which the two
      groups of files are given (the timestamps kept may). */
  lemma BulkLoadOrderFree(a: seq<Option<seq<string>>>, b: seq<Option<seq<string>>>, pats: seq<Pattern>, ex: Extractor, f: string)
    requires FilesNoAbort(a + b, pats, ex)
    ensures TotalOf(Reinitialized(a + b, pats, ex).rows, f) == TotalOf(Reinitialized(b + a, pats, ex).rows, f)
  {
    assert FilesNoAbort(b + a, pats, ex) by {
      forall n | 0 <= n < |b + a| && (b + a)[n].Some?
        ensures NoAbort(Pairs((b + a)[n].value, pats), ex)
      {
        if n < |b| {
          assert (b + a)[n] == (a + b)[|a| + n];
        } else {
          assert (b + a)[n] == (a + b)[n - |b|];
        }
      }
    }
    BulkLoadCounts(a + b, pats, ex, f);
    BulkLoadCounts(b + a, pats, ex, f);
    AcceptedInFilesAppend(a, b, pats, MinTimestamp, ex, f);
    AcceptedInFilesAppend(b, a, pats, MinTimestamp, ex, f);
  }

  /** Swapping two neighbouring files leaves every `init_db` total as it
      was; since adjacent swaps reach every order, the totals do not depend
      on the order `iglob` yields the files in. */
  lemma BulkLoadSwapFree(a: seq<Option<seq<string>>>, x: Option<seq<string>>, y: Option<seq<string>>,
                         c: seq<Option<seq<string>>>, pats: seq<Pattern>, ex: Extractor, f: string)
    requires FilesNoAbort(a + [x, y] + c, pats, ex)
    ensures TotalOf(Reinitialized(a + [x, y] + c, pats, ex).rows, f) == TotalOf(Reinitialized(a + [y, x] + c, pats, ex).rows, f)
  {
    var l, r := a + [x, y] + c, a + [y, x] + c;
    assert FilesNoAbort(r, pats, ex) by {
      forall n | 0 <= n < |r| && r[n].Some?
        ensures NoAbort(Pairs(r[n].value, pats), ex)
      {
        if n == |a| {
          assert r[n] == l[n + 1];
        } else if n == |a| + 1 {
          assert r[n] == l[n - 1];
        } else {
          assert r[n] == l[n];
        }
      }
    }
    BulkLoadCounts(l, pats, ex, f);
    BulkLoadCounts(r, pats, ex, f);
    AcceptedInFilesAppend(a + [x, y], c, pats, MinTimestamp, ex, f);
    AcceptedInFilesAppend(a + [y, x], c, pats, MinTimestamp, ex, f);
    AcceptedInFilesAppend(a, [x, y], pats, MinTimestamp, ex, f);
    AcceptedInFilesAppend(a, [y, x], pats, MinTimestamp, ex, f);
    AcceptedInFilesAppend([x], [y], pats, MinTimestamp, ex, f);
    AcceptedInFilesAppend([y], [x], pats, MinTimestamp, ex, f);
    assert [x] + [y] == [x, y] && [y] + [x] == [y, x];
  }

  /** With nothing newer than `wm` in any file, the files leave the table
      alone and never raise the flag. */
  lemma {:induction false} FilesRunNothingNewer(st: Progress, logs: seq<Option<seq<string>>>, pats: seq<Pattern>,
                                                wm: Timestamp, ex: Extractor)
    requires st.failure.None? && FilesNoAbort(logs, pats, ex) && NothingNewer(logs, pats, wm, ex)
    ensures FilesRun(st, logs, pats, wm, ex).rows == st.rows
    ensures FilesRun(st, logs, pats, wm, ex).failure.None?
    ensures FilesRun(st, logs, pats, wm, ex).modified ==> st.modified
    decreases |logs|
  {
    if logs != [] {
      var init := logs[..|logs| - 1];
      FilesNoAbortPrefix(logs, pats, ex, |logs| - 1);
      assert NothingNewer(init, pats, wm, ex) by {
        forall n | 0 <= n < |init| && init[n].Some?
          ensures NoneAccepted(Pairs(init[n].value, pats), wm, ex)
        {
          assert init[n] == logs[n];
        }
      }
      FilesRunNothingNewer(st, init, pats, wm, ex);
      var prev := FilesRun(st, init, pats, wm, ex);
      var last := logs[|logs| - 1];
      if last.Some? {
        RunWithNothingNewer(Progress(prev.rows, false, None), Pairs(last.value, pats), wm, ex);
      }
    }
  }

  /** Running `main` again over logs with nothing newer than the stored
      watermark changes nothing and reports no modification, so nothing is
      committed. */
  lemma RerunChangesNothing(rows: seq<Row>, logs: seq<Option<seq<string>>>, pats: seq<Pattern>, ex: Extractor)
    requires FilesNoAbort(logs, pats, ex) && NothingNewer(logs, pats, Watermark(rows), ex)
    ensures IncrementalRun(rows, logs, pats, ex) == Progress(rows, false, None)
  {
    FilesRunNothingNewer(Progress(rows, false, None), logs, pats, Watermark(rows), ex);
  }

  /** With no patterns no line is examined, so every file leaves the table
      as it was. */
  lemma {:induction false} FilesRunNoPatterns(st: Progress, logs: seq<Option<seq<string>>>, wm: Timestamp, ex: Extractor)
    ensures FilesRun(st, logs, [], wm, ex).rows == st.rows
    ensures FilesRun(st, logs, [], wm, ex).failure == st.failure
    decreases |logs|
  {
    if logs != [] {
      FilesRunNoPatterns(st, logs[..|logs| - 1], wm, ex);
      var last := logs[|logs| - 1];
      if last.Some? {
        NoPatternsNoPairs(last.value);
      }
    }
  }

  /** An empty suffix list builds no pattern and counts nothing. */
  lemma NoSuffixesCountNothing(rows: seq<Row>, logs: seq<Option<seq<string>>>, path: string, ex: Extractor)
    ensures IncrementalRun(rows, logs, BuildPatterns(path, []), ex).rows == rows
    ensures IncrementalRun(rows, logs, BuildPatterns(path, []), ex).failure.None?
  {
    assert BuildPatterns(path, []) == [];
    FilesRunNoPatterns(Progress(rows, false, None), logs, Watermark(rows), ex);
  }
}

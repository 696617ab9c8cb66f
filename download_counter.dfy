/** The ingestion loop of `download_counter/download_counter.py` and the
    override logic of its `get_args`. Unlike `dlcounter`, the file is read
    inside the loop over patterns, and `_modified` is never reset. A log
    file is given as its lines, or as `None` when opening it raises
    `FileNotFoundError`. */
module DownloadCounter {
  import opened Common
  import opened LogLine
  import opened Store
  import opened Ingest
  import DlCounter

  /** `default_date_time_format()`: the timestamp layout of an access log. */
  const DefaultDateTimeFormat: string := "%d/%b/%Y:%H:%M:%S %z"

  /** `get_record` as this program calls it: `get_time` always reads with
      the default format. */
  function RecordsOf(parse: TimeParser): Extractor {
    (line, p) => GetRecord(line, p, DefaultDateTimeFormat, parse)
  }

  /** Every timestamp is read with the access-log layout
      `day/month-name/year:hour:minute:second offset`, whatever the line. */
  lemma ReadsWithDefaultFormat(parse: TimeParser, line: string, p: Pattern)
    ensures RecordsOf(parse)(line, p) == GetRecord(line, p, "%d/%b/%Y:%H:%M:%S %z", parse)
  {
  }

  /** An open text file: its lines and how far `readlines()` has read. */
  class LogFile {
    const lines: seq<string>
    var pos: nat

    ghost predicate Valid()
      reads this
    {
      pos <= |lines|
    }

    /** `open(log, 'r')`. */
    constructor Open(content: seq<string>)
      ensures Valid() && lines == content && pos == 0
    {
      lines := content;
      pos := 0;
    }

    /** `readlines()`: every line not yet read, which leaves nothing for a
        later call. */
    method ReadLines() returns (log: seq<string>)
      requires Valid()
      modifies this
      ensures Valid() && log == old(lines[pos..]) && pos == |lines|
    {
      log := lines[pos..];
      pos := |lines|;
    }
  }

  /** The pairs of every line with one pattern, in line order. */
  function ColumnPairs(lines: seq<string>, p: Pattern): (r: seq<(string, Pattern)>)
    ensures |r| == |lines|
    ensures forall k :: 0 <= k < |lines| ==> r[k] == (lines[k], p)
  {
    seq(|lines|, k requires 0 <= k < |lines| => (lines[k], p))
  }

  /** The first pattern alone, or none when there is none. */
  function FirstPattern(pats: seq<Pattern>): (r: seq<Pattern>)
    ensures pats == [] ==> r == []
    ensures pats != [] ==> r == [pats[0]]
  {
    if pats == [] then [] else pats[..1]
  }

  /** The (line, pattern) pairs `main` examines in one file: the first
      pattern meets every line; the first `readlines()` has consumed the
      file, so every later pattern meets none. */
  function FilePairs(lines: seq<string>, pats: seq<Pattern>): seq<(string, Pattern)> {
    if pats == [] then [] else ColumnPairs(lines, pats[0])
  }

  /** The pairs `main` examines in one file are the pairs the line-major
      loop of `dlcounter` would visit with the first pattern alone. */
  lemma FilePairsAreLineMajor(lines: seq<string>, pats: seq<Pattern>)
    ensures FilePairs(lines, pats) == Pairs(lines, FirstPattern(pats))
  {
    if pats == [] {
      NoPatternsNoPairs(lines);
    } else {
      ColumnPairsAreLineMajor(lines, pats[0]);
    }
  }

  /** One file of `main`: a missing file is skipped; otherwise its pairs
      feed the same table and the same `_modified`, which stays set once
      set. */
  function FileStep(st: Progress, log: Option<seq<string>>, pats: seq<Pattern>, wm: Timestamp, ex: Extractor): Progress {
    if st.failure.Some? || log.None? then st
    else Run(st, FilePairs(log.value, pats), wm, ex)
  }

  /** `FileStep` over the files in the order given. */
  function FilesRun(st: Progress, logs: seq<Option<seq<string>>>, pats: seq<Pattern>, wm: Timestamp, ex: Extractor): Progress {
    if logs == [] then st
    else FileStep(FilesRun(st, logs[..|logs| - 1], pats, wm, ex), logs[|logs| - 1], pats, wm, ex)
  }

  /** `main`: every file filtered against the one watermark read before the
      first file. */
  function IncrementalRun(rows: seq<Row>, logs: seq<Option<seq<string>>>, pats: seq<Pattern>, ex: Extractor): Progress {
    FilesRun(Progress(rows, false, None), logs, pats, Watermark(rows), ex)
  }

  /** `main`: create the table if needed, read the watermark once, then for
      each file that opens, for each pattern, read the file's lines and
      `update_db` every event newer than the watermark. */
  method UpdateFromLogs(db: Database, acclogs: seq<Option<seq<string>>>, searchstring: seq<Pattern>, parse: TimeParser)
    returns (modified: bool, failure: Option<Fatal>)
    requires db.Valid()
    modifies db
    ensures db.Valid() && db.present
    ensures Progress(db.rows, modified, failure) == IncrementalRun(old(db.rows), acclogs, searchstring, RecordsOf(parse))
  {
    modified, failure := false, None;
    db.SqlTable();
    var dbLastUpdated := db.GetDbTime();
    var ex := RecordsOf(parse);
    ghost var start := Progress(db.rows, false, None);
    var n := 0;
    while n < |acclogs|
      invariant 0 <= n <= |acclogs|
      invariant db.Valid() && db.present && failure.None?
      invariant Progress(db.rows, modified, None) == FilesRun(start, acclogs[..n], searchstring, dbLastUpdated, ex)
    {
      FilesRunSnoc(start, acclogs, n, searchstring, dbLastUpdated, ex);
      modified, failure := ScanFile(db, acclogs[n], searchstring, dbLastUpdated, ex, modified);
      if failure.Some? {
        FilesRunStopsAt(start, acclogs, n, searchstring, dbLastUpdated, ex);
        return;
      }
      n := n + 1;
    }
    assert acclogs[..n] == acclogs;
  }

  /** The body of the loop over files in `main`: a file whose `open`
      raises `FileNotFoundError` is skipped; otherwise the loop over
      patterns, each calling `readlines()` on the same open file. */
  method ScanFile(db: Database, log: Option<seq<string>>, searchstring: seq<Pattern>, wm: Timestamp, ex: Extractor, modified: bool)
    returns (modified': bool, failure: Option<Fatal>)
    requires db.Valid() && db.present
    modifies db
    ensures db.Valid() && db.present
    ensures Progress(db.rows, modified', failure) == FileStep(Progress(old(db.rows), modified, None), log, searchstring, wm, ex)
  {
    modified', failure := modified, None;
    if log.None? {
      return;
    }
    var file := new LogFile.Open(log.value);
    ghost var start := Progress(db.rows, modified, None);
    var j := 0;
    while j < |searchstring|
      invariant 0 <= j <= |searchstring|
      invariant db.Valid() && db.present && file.Valid()
      invariant file.lines == log.value && file.pos == (if j == 0 then 0 else |log.value|)
      invariant failure.None?
      invariant Progress(db.rows, modified', None) == Run(start, FilePairs(log.value, searchstring[..j]), wm, ex)
    {
      var lines := file.ReadLines();
      FilePairsNext(log.value, searchstring, j, lines);
      RunAppend(start, FilePairs(log.value, searchstring[..j]), ColumnPairs(lines, searchstring[j]), wm, ex);
      modified', failure := ScanColumn(db, lines, searchstring[j], wm, ex, modified');
      if failure.Some? {
        assert FilePairs(log.value, searchstring[..j + 1]) == FilePairs(log.value, searchstring);
        return;
      }
      j := j + 1;
    }
    assert searchstring[..j] == searchstring;
  }

  /** The loop over the lines one `readlines()` returned, all under one
      pattern. */
  method ScanColumn(db: Database, lines: seq<string>, p: Pattern, wm: Timestamp, ex: Extractor, modified: bool)
    returns (modified': bool, failure: Option<Fatal>)
    requires db.Valid() && db.present
    modifies db
    ensures db.Valid() && db.present
    ensures Progress(db.rows, modified', failure) == Run(Progress(old(db.rows), modified, None), ColumnPairs(lines, p), wm, ex)
  {
    ghost var start := Progress(db.rows, modified, None);
    modified', failure := modified, None;
    var i := 0;
    assert ColumnPairs(lines[..0], p) == [];
    while i < |lines|
      invariant 0 <= i <= |lines|
      invariant db.Valid() && db.present && failure.None?
      invariant Progress(db.rows, modified', None) == Run(start, ColumnPairs(lines[..i], p), wm, ex)
    {
      assert ColumnPairs(lines[..i], p) + [(lines[i], p)] == ColumnPairs(lines[..i + 1], p);
      RunSnoc(start, ColumnPairs(lines[..i], p), lines[i], p, wm, ex);
      modified', failure := Visit(db, lines[i], p, wm, ex, modified');
      if failure.Some? {
        ColumnStops(start, lines, p, i, wm, ex);
        return;
      }
      i := i + 1;
    }
    assert lines[..i] == lines;
  }

  // ---------------------------------------------------------------------
  // FilesRunSnoc, FilesRunStops, FilesRunStopsAt and FilesNoAbortPrefix
  // below are the lemmas of the same names in `DlCounter`, restated for
  // this module's `FileStep`, whose flag is sticky and whose pairs come
  // from `FilePairs`.

  /** The pairs of pattern `j`: every line under the first pattern, none
      under a later one, whose `readlines()` finds the file exhausted. */
  lemma FilePairsNext(content: seq<string>, pats: seq<Pattern>, j: nat, lines: seq<string>)
    requires j < |pats| && lines == (if j == 0 then content else [])
    ensures FilePairs(content, pats[..j + 1]) == FilePairs(content, pats[..j]) + ColumnPairs(lines, pats[j])
  {
    if j == 0 {
      assert pats[..1][0] == pats[0];
    } else {
      assert pats[..j + 1][0] == pats[..j][0];
    }
  }

  /** A failure on line `i` is the outcome of the whole column. */
  lemma ColumnStops(st: Progress, lines: seq<string>, p: Pattern, i: nat, wm: Timestamp, ex: Extractor)
    requires i < |lines|
    requires Run(st, ColumnPairs(lines[..i + 1], p), wm, ex).failure.Some?
    ensures Run(st, ColumnPairs(lines, p), wm, ex) == Run(st, ColumnPairs(lines[..i + 1], p), wm, ex)
  {
    assert ColumnPairs(lines, p) == ColumnPairs(lines[..i + 1], p) + ColumnPairs(lines[i + 1..], p);
    RunAfterFailure(st, ColumnPairs(lines[..i + 1], p), ColumnPairs(lines[i + 1..], p), wm, ex);
  }

  /** A failure in file `n` is the outcome of all the files. */
  lemma FilesRunStopsAt(st: Progress, logs: seq<Option<seq<string>>>, n: nat, pats: seq<Pattern>, wm: Timestamp, ex: Extractor)
    requires n < |logs| && FilesRun(st, logs[..n + 1], pats, wm, ex).failure.Some?
    ensures FilesRun(st, logs, pats, wm, ex) == FilesRun(st, logs[..n + 1], pats, wm, ex)
  {
    FilesRunStops(st, logs[..n + 1], logs[n + 1..], pats, wm, ex);
    assert logs[..n + 1] + logs[n + 1..] == logs;
  }

  /** The fold by its last file. */
  lemma FilesRunSnoc(st: Progress, logs: seq<Option<seq<string>>>, n: nat, pats: seq<Pattern>, wm: Timestamp, ex: Extractor)
    requires n < |logs|
    ensures FilesRun(st, logs[..n + 1], pats, wm, ex) == FileStep(FilesRun(st, logs[..n], pats, wm, ex), logs[n], pats, wm, ex)
  {
    assert logs[..n + 1][..n] == logs[..n];
  }

  /** Once a file has ended the run, later files are not read. */
  lemma {:induction false} FilesRunStops(st: Progress, a: seq<Option<seq<string>>>, b: seq<Option<seq<string>>>,
                                         pats: seq<Pattern>, wm: Timestamp, ex: Extractor)
    requires FilesRun(st, a, pats, wm, ex).failure.Some?
    ensures FilesRun(st, a + b, pats, wm, ex) == FilesRun(st, a, pats, wm, ex)
    decreases |b|
  {
    if b != [] {
      var init := b[..|b| - 1];
      assert (a + b)[..|a + b| - 1] == a + init;
      FilesRunStops(st, a, init, pats, wm, ex);
      var prev := FilesRun(st, a + init, pats, wm, ex);
      assert prev == FilesRun(st, a, pats, wm, ex);
      assert FilesRun(st, a + b, pats, wm, ex) == FileStep(prev, (a + b)[|a + b| - 1], pats, wm, ex);
    } else {
      assert a + b == a;
    }
  }

  /** Only the first pattern counts: the outcome of `main` is the same
      when every pattern after the first is dropped. */
  lemma {:induction false} LaterPatternsCountNothing(st: Progress, logs: seq<Option<seq<string>>>, pats: seq<Pattern>,
                                                     wm: Timestamp, ex: Extractor)
    requires pats != []
    ensures FilesRun(st, logs, pats, wm, ex) == FilesRun(st, logs, pats[..1], wm, ex)
    decreases |logs|
  {
    if logs != [] {
      LaterPatternsCountNothing(st, logs[..|logs| - 1], pats, wm, ex);
      var last := logs[|logs| - 1];
      if last.Some? {
        assert FilePairs(last.value, pats) == FilePairs(last.value, pats[..1]);
      }
    }
  }

  /** With a single pattern, the column order and the line-major order
      visit the same (line, pattern) pairs. */
  lemma {:induction false} ColumnPairsAreLineMajor(lines: seq<string>, p: Pattern)
    ensures ColumnPairs(lines, p) == Pairs(lines, [p])
    decreases |lines|
  {
    if lines != [] {
      var init := lines[..|lines| - 1];
      ColumnPairsAreLineMajor(init, p);
      assert ColumnPairs(lines, p) == ColumnPairs(init, p) + [(lines[|lines| - 1], p)];
      assert LinePairs(lines[|lines| - 1], [p]) == [(lines[|lines| - 1], p)];
    }
  }

  /** Every file that opens is read to its end without a failure. */
  predicate FilesNoAbort(logs: seq<Option<seq<string>>>, pats: seq<Pattern>, ex: Extractor) {
    forall n :: 0 <= n < |logs| && logs[n].Some? ==> NoAbort(FilePairs(logs[n].value, pats), ex)
  }

  /** Some file that opens holds an event newer than `wm`. */
  ghost predicate SomeFileAccepted(logs: seq<Option<seq<string>>>, pats: seq<Pattern>, wm: Timestamp, ex: Extractor) {
    exists n :: 0 <= n < |logs| && logs[n].Some? && SomeAccepted(FilePairs(logs[n].value, pats), wm, ex)
  }

  lemma FilesNoAbortPrefix(logs: seq<Option<seq<string>>>, pats: seq<Pattern>, ex: Extractor, m: nat)
    requires m <= |logs| && FilesNoAbort(logs, pats, ex)
    ensures FilesNoAbort(logs[..m], pats, ex)
  {
    forall n | 0 <= n < m && logs[..m][n].Some?
      ensures NoAbort(FilePairs(logs[..m][n].value, pats), ex)
    {
      assert logs[..m][n] == logs[n];
    }
  }

  /** Some file held an accepted event: an earlier one, or the last. */
  lemma SomeFileAcceptedSnoc(logs: seq<Option<seq<string>>>, pats: seq<Pattern>, wm: Timestamp, ex: Extractor)
    requires logs != []
    ensures var last := logs[|logs| - 1];
      SomeFileAccepted(logs, pats, wm, ex) <==>
        SomeFileAccepted(logs[..|logs| - 1], pats, wm, ex) || (last.Some? && SomeAccepted(FilePairs(last.value, pats), wm, ex))
  {
    var init := logs[..|logs| - 1];
    if SomeFileAccepted(logs, pats, wm, ex) {
      var n :| 0 <= n < |logs| && logs[n].Some? && SomeAccepted(FilePairs(logs[n].value, pats), wm, ex);
      if n < |init| {
        assert init[n] == logs[n];
      }
    }
    if SomeFileAccepted(init, pats, wm, ex) {
      var n :| 0 <= n < |init| && init[n].Some? && SomeAccepted(FilePairs(init[n].value, pats), wm, ex);
      assert init[n] == logs[n];
    }
  }

  /** `_modified` is sticky: without a failure, `main` ends with it set
      exactly when some file held an accepted event (or it was set to begin
      with); a later file without one does not clear it. */
  lemma {:induction false} ModifiedIsSticky(st: Progress, logs: seq<Option<seq<string>>>, pats: seq<Pattern>,
                                            wm: Timestamp, ex: Extractor)
    requires st.failure.None? && FilesNoAbort(logs, pats, ex)
    ensures FilesRun(st, logs, pats, wm, ex).failure.None?
    ensures FilesRun(st, logs, pats, wm, ex).modified <==> st.modified || SomeFileAccepted(logs, pats, wm, ex)
    decreases |logs|
  {
    if logs != [] {
      var init := logs[..|logs| - 1];
      FilesNoAbortPrefix(logs, pats, ex, |logs| - 1);
      ModifiedIsSticky(st, init, pats, wm, ex);
      var prev := FilesRun(st, init, pats, wm, ex);
      var last := logs[|logs| - 1];
      if last.Some? {
        RunModified(prev, FilePairs(last.value, pats), wm, ex);
        NoAbortKeepsRunning(prev, FilePairs(last.value, pats), wm, ex);
      }
      SomeFileAcceptedSnoc(logs, pats, wm, ex);
    }
  }

  /** The table and the failure `main` ends with are those of `dlcounter`'s
      `main` given only the first pattern: the two programs differ only in
      the `_modified` flag and in ignoring the later patterns. */
  lemma {:induction false} SameTableAsDlCounter(st: Progress, logs: seq<Option<seq<string>>>, pats: seq<Pattern>,
                                                wm: Timestamp, ex: Extractor)
    requires st.failure.None?
    ensures FilesRun(st, logs, pats, wm, ex).rows == DlCounter.FilesRun(st, logs, FirstPattern(pats), wm, ex).rows
    ensures FilesRun(st, logs, pats, wm, ex).failure == DlCounter.FilesRun(st, logs, FirstPattern(pats), wm, ex).failure
    decreases |logs|
  {
    if logs != [] {
      var init := logs[..|logs| - 1];
      SameTableAsDlCounter(st, init, pats, wm, ex);
      var prev := FilesRun(st, init, pats, wm, ex);
      var prevD := DlCounter.FilesRun(st, init, FirstPattern(pats), wm, ex);
      var last := logs[|logs| - 1];
      if prev.failure.None? && last.Some? {
        FilePairsAreLineMajor(last.value, pats);
        assert prev == Progress(prevD.rows, false, None).(modified := prev.modified);
        RunIgnoresFlag(Progress(prevD.rows, false, None), prev.modified, Pairs(last.value, FirstPattern(pats)), wm, ex);
      }
    }
  }

  /** Accumulation across files: with no failure, each filename's total
      grows by exactly the number of its accepted events under the first
      pattern, file after file, and the table stays well formed. */
  lemma FilesRunCounts(st: Progress, logs: seq<Option<seq<string>>>, pats: seq<Pattern>,
                       wm: Timestamp, ex: Extractor, f: string)
    requires WellFormed(st.rows) && st.failure.None? && FilesNoAbort(logs, pats, ex)
    ensures FilesRun(st, logs, pats, wm, ex).failure.None?
    ensures WellFormed(FilesRun(st, logs, pats, wm, ex).rows)
    ensures TotalOf(FilesRun(st, logs, pats, wm, ex).rows, f)
         == TotalOf(st.rows, f) + DlCounter.AcceptedInFiles(logs, FirstPattern(pats), wm, ex, f)
  {
    assert DlCounter.FilesNoAbort(logs, FirstPattern(pats), ex) by {
      forall n | 0 <= n < |logs| && logs[n].Some?
        ensures NoAbort(Pairs(logs[n].value, FirstPattern(pats)), ex)
      {
        FilePairsAreLineMajor(logs[n].value, pats);
      }
    }
    SameTableAsDlCounter(st, logs, pats, wm, ex);
    DlCounter.FilesRunCounts(st, logs, FirstPattern(pats), wm, ex, f);
  }

  /** The configuration file's values, as `list_section` and
      `first_item_in_section` return them. */
  datatype ConfigFile = ConfigFile(accesslogs: seq<string>, sqlite: string, files: seq<string>, path: string, webpage: string)

  /** What `get_args` returns. */
  datatype Options = Options(acclogs: seq<string>, dbase: string, searchstring: seq<Pattern>, htmlOut: string)

  /** `if not x: x = cfg_x` for an optional string: an absent or empty
      command-line value gives way to the configured one. */
  function Prefer(cli: Option<string>, cfg: string): (r: string)
    ensures cli.Some? && cli.value != "" ==> r == cli.value
    ensures cli.None? || cli.value == "" ==> r == cfg
  {
    if cli.None? || cli.value == "" then cfg else cli.value
  }

  /** `if not x: x = cfg_x` for a list: an empty command-line list gives way
      to the configured one. */
  function PreferList(cli: seq<string>, cfg: seq<string>): (r: seq<string>)
    ensures cli != [] ==> r == cli
    ensures cli == [] ==> r == cfg
  {
    if cli == [] then cfg else cli
  }

  /** `get_args`: command-line values win when given and non-empty; one
      pattern per resulting file suffix, behind the resulting path. */
  function GetArgs(accesslogs: seq<string>, sqlite: Option<string>, files: seq<string>, path: Option<string>,
                   webpage: Option<string>, cfg: ConfigFile): (r: Options)
    ensures r.acclogs == PreferList(accesslogs, cfg.accesslogs)
    ensures r.dbase == Prefer(sqlite, cfg.sqlite)
    ensures r.htmlOut == Prefer(webpage, cfg.webpage)
    ensures |r.searchstring| == |PreferList(files, cfg.files)|
    ensures forall k :: 0 <= k < |r.searchstring| ==>
              r.searchstring[k] == Pattern(Prefer(path, cfg.path), PreferList(files, cfg.files)[k])
  {
    var files' := PreferList(files, cfg.files);
    Options(PreferList(accesslogs, cfg.accesslogs), Prefer(sqlite, cfg.sqlite),
            BuildPatterns(Prefer(path, cfg.path), files'), Prefer(webpage, cfg.webpage))
  }
}

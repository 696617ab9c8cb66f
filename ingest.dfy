/** What the ingestion loops of both programs do to the table, stated as a
    fold over the (line, pattern) pairs in the order the loops visit them.
    The imperative drivers in `DlCounter` and `DownloadCounter` are proved
    to end in the state this fold computes. */
module Ingest {
  import opened Common
  import opened LogLine
  import opened Store

  /** What the loops call on each (line, pattern) pair: `get_record` with
      a fixed timestamp read format. */
  type Extractor = (string, Pattern) -> Extract

  /** Where an ingestion stands: the table, the `_modified` flag, and the
      failure that ended the run, if one did. */
  datatype Progress = Progress(rows: seq<Row>, modified: bool, failure: Option<Fatal>)

  /** The loop body, given what `get_record` returned for the pair: call
      `update_db` when the event is strictly newer than the watermark `wm`
      and set `_modified`; a failure ends the run, after which nothing
      changes any more. */
  function Step(st: Progress, x: Extract, wm: Timestamp): Progress {
    if st.failure.Some? then st
    else
      match x
      case NoEvent => st
      case Abort(e) => st.(failure := Some(e))
      case Event(name, t) =>
        if t > wm then Progress(Upsert(st.rows, name, t), true, None) else st
  }

  /** The pairs of one line with each pattern, in pattern order. */
  function LinePairs(line: string, pats: seq<Pattern>): (r: seq<(string, Pattern)>)
    ensures |r| == |pats|
    ensures forall k :: 0 <= k < |pats| ==> r[k] == (line, pats[k])
  {
    seq(|pats|, k requires 0 <= k < |pats| => (line, pats[k]))
  }

  /** The pairs visited by `for line in log: for regex in searchstring`. */
  function Pairs(lines: seq<string>, pats: seq<Pattern>): seq<(string, Pattern)> {
    if lines == [] then []
    else Pairs(lines[..|lines| - 1], pats) + LinePairs(lines[|lines| - 1], pats)
  }

  /** `Step` applied to the pairs from first to last. */
  function Run(st: Progress, ps: seq<(string, Pattern)>, wm: Timestamp, ex: Extractor): Progress {
    if ps == [] then st
    else
      var last := ps[|ps| - 1];
      Step(Run(st, ps[..|ps| - 1], wm, ex), ex(last.0, last.1), wm)
  }

  /** The (line, pattern) pair yields a download at a time strictly after
      the watermark: the pairs that `update_db` is called for. */
  predicate IsAccepted(pair: (string, Pattern), wm: Timestamp, ex: Extractor) {
    ex(pair.0, pair.1).Event? && ex(pair.0, pair.1).time > wm
  }

  /** How many pairs yield an accepted download of `f`. */
  function AcceptedFor(ps: seq<(string, Pattern)>, wm: Timestamp, ex: Extractor, f: string): nat {
    if ps == [] then 0
    else
      var last := ps[|ps| - 1];
      AcceptedFor(ps[..|ps| - 1], wm, ex, f)
        + (if IsAccepted(last, wm, ex) && ex(last.0, last.1).filename == f then 1 else 0)
  }

  /** Some pair is accepted. */
  predicate SomeAccepted(ps: seq<(string, Pattern)>, wm: Timestamp, ex: Extractor) {
    exists k :: 0 <= k < |ps| && IsAccepted(ps[k], wm, ex)
  }

  /** No pair is accepted. */
  predicate NoneAccepted(ps: seq<(string, Pattern)>, wm: Timestamp, ex: Extractor) {
    forall k :: 0 <= k < |ps| ==> !IsAccepted(ps[k], wm, ex)
  }

  /** No pair aborts the run. */
  predicate NoAbort(ps: seq<(string, Pattern)>, ex: Extractor) {
    forall k :: 0 <= k < |ps| ==> !ex(ps[k].0, ps[k].1).Abort?
  }

  /** The innermost loop body of both programs, for one line and one
      pattern: `update_db` and `_modified = True` for an event newer than
      `wm`; a failure is handed back to end the run. */
  method Visit(db: Database, line: string, p: Pattern, wm: Timestamp, ex: Extractor, modified: bool)
    returns (modified': bool, failure: Option<Fatal>)
    requires db.Valid() && db.present
    modifies db
    ensures db.Valid() && db.present
    ensures Progress(db.rows, modified', failure) == Step(Progress(old(db.rows), modified, None), ex(line, p), wm)
  {
    modified', failure := modified, None;
    match ex(line, p) {
      case NoEvent =>
      case Abort(e) =>
        failure := Some(e);
      case Event(name, t) =>
        if t > wm {
          db.UpdateDb(name, t);
          modified' := true;
        }
    }
  }

  // ---------------------------------------------------------------------

  lemma {:induction false} PairsAppend(a: seq<string>, b: seq<string>, pats: seq<Pattern>)
    ensures Pairs(a + b, pats) == Pairs(a, pats) + Pairs(b, pats)
    decreases |b|
  {
    if b == [] {
      assert a + b == a;
    } else {
      var n := |b| - 1;
      assert (a + b)[..|a + b| - 1] == a + b[..n];
      PairsAppend(a, b[..n], pats);
    }
  }

  /** Feeding `a` then `b` is feeding `a + b`. */
  lemma {:induction false} RunAppend(st: Progress, a: seq<(string, Pattern)>, b: seq<(string, Pattern)>, wm: Timestamp, ex: Extractor)
    ensures Run(st, a + b, wm, ex) == Run(Run(st, a, wm, ex), b, wm, ex)
    decreases |b|
  {
    if b == [] {
      assert a + b == a;
    } else {
      var n := |b| - 1;
      assert (a + b)[..|a + b| - 1] == a + b[..n];
      assert (a + b)[|a + b| - 1] == b[n];
      RunAppend(st, a, b[..n], wm, ex);
    }
  }

  /** Once a prefix of the pairs has ended the run, the rest of the pairs
      change nothing. */
  lemma RunAfterFailure(st: Progress, a: seq<(string, Pattern)>, b: seq<(string, Pattern)>, wm: Timestamp, ex: Extractor)
    requires Run(st, a, wm, ex).failure.Some?
    ensures Run(st, a + b, wm, ex) == Run(st, a, wm, ex)
  {
    RunAppend(st, a, b, wm, ex);
    RunStopsAtFailure(Run(st, a, wm, ex), b, wm, ex);
  }

  /** Feeding one more pair is one more `Step`. */
  lemma RunSnoc(st: Progress, ps: seq<(string, Pattern)>, line: string, p: Pattern, wm: Timestamp, ex: Extractor)
    ensures Run(st, ps + [(line, p)], wm, ex) == Step(Run(st, ps, wm, ex), ex(line, p), wm)
  {
    assert (ps + [(line, p)])[..|ps|] == ps;
  }

  /** The pairs of `lines` split at line `i` and, within that line, at
      pattern `j`. */
  lemma PairsSplit(lines: seq<string>, pats: seq<Pattern>, i: nat, j: nat)
    requires i < |lines| && j <= |pats|
    ensures Pairs(lines, pats) ==
            (Pairs(lines[..i], pats) + LinePairs(lines[i], pats[..j]))
            + (LinePairs(lines[i], pats[j..]) + Pairs(lines[i + 1..], pats))
  {
    var head, tail := lines[..i + 1], lines[i + 1..];
    assert head + tail == lines;
    PairsAppend(head, tail, pats);
    PairsNext(lines, pats, i);
    LinePairsSplit(lines[i], pats, j);
    SeqRegroup(Pairs(lines[..i], pats), LinePairs(lines[i], pats[..j]), LinePairs(lines[i], pats[j..]), Pairs(tail, pats));
  }

  lemma SeqRegroup<T>(a: seq<T>, b: seq<T>, c: seq<T>, d: seq<T>)
    ensures (a + (b + c)) + d == (a + b) + (c + d)
  {
  }

  lemma LinePairsSplit(line: string, pats: seq<Pattern>, j: nat)
    requires j <= |pats|
    ensures LinePairs(line, pats) == LinePairs(line, pats[..j]) + LinePairs(line, pats[j..])
  {
  }

  /** The pairs of the first `i + 1` lines are those of the first `i` lines
      followed by line `i` with every pattern. */
  lemma PairsNext(lines: seq<string>, pats: seq<Pattern>, i: nat)
    requires i < |lines|
    ensures Pairs(lines[..i + 1], pats) == Pairs(lines[..i], pats) + LinePairs(lines[i], pats)
  {
    assert lines[..i + 1][..i] == lines[..i];
  }

  /** After a failure nothing more happens: `sys.exit` ends the loops. */
  lemma {:induction false} RunStopsAtFailure(st: Progress, ps: seq<(string, Pattern)>, wm: Timestamp, ex: Extractor)
    requires st.failure.Some?
    ensures Run(st, ps, wm, ex) == st
    decreases |ps|
  {
    if ps != [] {
      RunStopsAtFailure(st, ps[..|ps| - 1], wm, ex);
    }
  }

  /** The ingestion keeps the table well formed. */
  lemma {:induction false} RunKeepsWellFormed(st: Progress, ps: seq<(string, Pattern)>, wm: Timestamp, ex: Extractor)
    requires WellFormed(st.rows)
    ensures WellFormed(Run(st, ps, wm, ex).rows)
    decreases |ps|
  {
    if ps != [] {
      var mid := Run(st, ps[..|ps| - 1], wm, ex);
      RunKeepsWellFormed(st, ps[..|ps| - 1], wm, ex);
      var last := ps[|ps| - 1];
      var x := ex(last.0, last.1);
      if mid.failure.None? && x.Event? && x.time > wm {
        UpsertKeepsWellFormed(mid.rows, x.filename, x.time);
      }
    }
  }

  /** Accumulation: when no line aborts, the total of every filename grows by
      exactly the number of (line, pattern) pairs that yield a download of
      it strictly after the watermark, each pair counted once. */
  lemma {:induction false} RunCounts(st: Progress, ps: seq<(string, Pattern)>, wm: Timestamp, ex: Extractor, f: string)
    requires WellFormed(st.rows) && st.failure.None? && NoAbort(ps, ex)
    ensures Run(st, ps, wm, ex).failure.None?
    ensures TotalOf(Run(st, ps, wm, ex).rows, f) == TotalOf(st.rows, f) + AcceptedFor(ps, wm, ex, f)
    decreases |ps|
  {
    if ps != [] {
      var init := ps[..|ps| - 1];
      assert NoAbort(init, ex) by {
        forall k | 0 <= k < |init| ensures !ex(init[k].0, init[k].1).Abort? {
          assert init[k] == ps[k];
        }
      }
      RunCounts(st, init, wm, ex, f);
      RunKeepsWellFormed(st, init, wm, ex);
      var mid := Run(st, init, wm, ex);
      var last := ps[|ps| - 1];
      assert !ex(last.0, last.1).Abort?;
      var x := ex(last.0, last.1);
      if x.Event? && x.time > wm {
        UpsertCounts(mid.rows, x.filename, x.time, f);
      }
    }
  }

  /** Monotonicity: every call to `update_db` is committed, so even a run
      that a fatal line ends never lowers a count. */
  lemma {:induction false} RunTotalsGrow(st: Progress, ps: seq<(string, Pattern)>, wm: Timestamp, ex: Extractor, f: string)
    requires WellFormed(st.rows)
    ensures TotalOf(Run(st, ps, wm, ex).rows, f) >= TotalOf(st.rows, f)
    decreases |ps|
  {
    if ps != [] {
      var init := ps[..|ps| - 1];
      RunTotalsGrow(st, init, wm, ex, f);
      RunKeepsWellFormed(st, init, wm, ex);
      var mid := Run(st, init, wm, ex);
      var last := ps[|ps| - 1];
      var x := ex(last.0, last.1);
      if mid.failure.None? && x.Event? && x.time > wm {
        UpsertCounts(mid.rows, x.filename, x.time, f);
      }
    }
  }

  /** The table and the failure a run ends with do not depend on the
      `_modified` flag it starts with. */
  lemma {:induction false} RunIgnoresFlag(st: Progress, b: bool, ps: seq<(string, Pattern)>, wm: Timestamp, ex: Extractor)
    ensures Run(st.(modified := b), ps, wm, ex).rows == Run(st, ps, wm, ex).rows
    ensures Run(st.(modified := b), ps, wm, ex).failure == Run(st, ps, wm, ex).failure
    decreases |ps|
  {
    if ps != [] {
      RunIgnoresFlag(st, b, ps[..|ps| - 1], wm, ex);
    }
  }

  /** Idempotence: pairs that hold no download strictly after the watermark
      (and do not abort) leave the table and the `_modified` flag as they
      were. Re-reading a log whose every download is at or before the
      stored watermark changes nothing. */
  lemma {:induction false} RunWithNothingNewer(st: Progress, ps: seq<(string, Pattern)>, wm: Timestamp, ex: Extractor)
    requires NoAbort(ps, ex) && NoneAccepted(ps, wm, ex)
    ensures Run(st, ps, wm, ex) == st
    decreases |ps|
  {
    if ps != [] {
      var init := ps[..|ps| - 1];
      forall k | 0 <= k < |init|
        ensures !ex(init[k].0, init[k].1).Abort? && !IsAccepted(init[k], wm, ex)
      {
        assert init[k] == ps[k];
      }
      RunWithNothingNewer(st, init, wm, ex);
      assert !IsAccepted(ps[|ps| - 1], wm, ex);
      assert !ex(ps[|ps| - 1].0, ps[|ps| - 1].1).Abort?;
    }
  }

  /** The `_modified` flag: when no line aborts, the run ends with the flag
      set exactly when it was set before or some pair was accepted. */
  lemma {:induction false} RunModified(st: Progress, ps: seq<(string, Pattern)>, wm: Timestamp, ex: Extractor)
    requires st.failure.None? && NoAbort(ps, ex)
    ensures Run(st, ps, wm, ex).modified <==> st.modified || SomeAccepted(ps, wm, ex)
    decreases |ps|
  {
    if ps != [] {
      var init := ps[..|ps| - 1];
      assert NoAbort(init, ex) by {
        forall k | 0 <= k < |init| ensures !ex(init[k].0, init[k].1).Abort? {
          assert init[k] == ps[k];
        }
      }
      RunModified(st, init, wm, ex);
      assert Run(st, init, wm, ex).failure.None? by {
        NoAbortKeepsRunning(st, init, wm, ex);
      }
      assert !ex(ps[|ps| - 1].0, ps[|ps| - 1].1).Abort?;
      if SomeAccepted(ps, wm, ex) {
        var k :| 0 <= k < |ps| && IsAccepted(ps[k], wm, ex);
        if k < |init| {
          assert init[k] == ps[k];
        }
      }
      forall k | 0 <= k < |init| && IsAccepted(init[k], wm, ex) ensures IsAccepted(ps[k], wm, ex) {
        assert init[k] == ps[k];
      }
    }
  }

  lemma {:induction false} NoAbortKeepsRunning(st: Progress, ps: seq<(string, Pattern)>, wm: Timestamp, ex: Extractor)
    requires st.failure.None? && NoAbort(ps, ex)
    ensures Run(st, ps, wm, ex).failure.None?
    decreases |ps|
  {
    if ps != [] {
      var init := ps[..|ps| - 1];
      assert NoAbort(init, ex) by {
        forall k | 0 <= k < |init| ensures !ex(init[k].0, init[k].1).Abort? {
          assert init[k] == ps[k];
        }
      }
      NoAbortKeepsRunning(st, init, wm, ex);
      assert !ex(ps[|ps| - 1].0, ps[|ps| - 1].1).Abort?;
    }
  }

  /** The watermark is strict: a download of `f` stamped exactly at the
      watermark is not counted, one stamped later is counted once. */
  lemma WatermarkIsStrict(st: Progress, f: string, t: Timestamp, wm: Timestamp)
    requires WellFormed(st.rows) && st.failure.None?
    ensures TotalOf(Step(st, Event(f, t), wm).rows, f) == TotalOf(st.rows, f) + (if t > wm then 1 else 0)
    ensures Step(st, Event(f, t), wm).modified == (st.modified || t > wm)
  {
    UpsertCounts(st.rows, f, t, f);
  }

  /** Without patterns there are no pairs: an empty suffix list counts
      nothing. */
  lemma {:induction false} NoPatternsNoPairs(lines: seq<string>)
    ensures Pairs(lines, []) == []
    decreases |lines|
  {
    if lines != [] {
      NoPatternsNoPairs(lines[..|lines| - 1]);
    }
  }

  /** Every row of `base` is still in `rows` at its place or carries a
      timestamp after `wm`, and every added row does. */
  predicate KeptOrAfter(base: seq<Row>, rows: seq<Row>, wm: Timestamp) {
    && |base| <= |rows|
    && forall k :: 0 <= k < |rows| ==> (k < |base| && rows[k] == base[k]) || rows[k].timestamp > wm
  }

  lemma KeptOrAfterUpsert(base: seq<Row>, rows: seq<Row>, f: string, t: Timestamp, wm: Timestamp)
    requires KeptOrAfter(base, rows, wm) && t > wm
    ensures KeptOrAfter(base, Upsert(rows, f, t), wm)
  {
    var r := Upsert(rows, f, t);
    UpsertTouchesOnly(rows, f, t);
    forall k | 0 <= k < |r|
      ensures (k < |base| && r[k] == base[k]) || r[k].timestamp > wm
    {
      if r[k].timestamp != t {
        assert k < |rows| && r[k] == rows[k];
      }
    }
  }

  /** The strict filter, on the table: every row a run added or changed
      carries a timestamp after the watermark; rows are never removed. */
  lemma {:induction false} OnlyNewerWritten(st: Progress, ps: seq<(string, Pattern)>, wm: Timestamp, ex: Extractor)
    ensures KeptOrAfter(st.rows, Run(st, ps, wm, ex).rows, wm)
    decreases |ps|
  {
    if ps != [] {
      var init := ps[..|ps| - 1];
      OnlyNewerWritten(st, init, wm, ex);
      var prev := Run(st, init, wm, ex);
      var last := ps[|ps| - 1];
      var x := ex(last.0, last.1);
      if prev.failure.None? && x.Event? && x.time > wm {
        KeptOrAfterUpsert(st.rows, prev.rows, x.filename, x.time, wm);
      }
    }
  }

  /** In consequence the watermark never falls during a run whose
      threshold is at least the stored watermark, as in `main`. */
  lemma WatermarkNeverFalls(st: Progress, ps: seq<(string, Pattern)>, wm: Timestamp, ex: Extractor)
    requires Watermark(st.rows) <= wm
    ensures Watermark(st.rows) <= Watermark(Run(st, ps, wm, ex).rows)
  {
    var r := Run(st, ps, wm, ex).rows;
    OnlyNewerWritten(st, ps, wm, ex);
    if Watermark(st.rows) != MinTimestamp {
      var k :| 0 <= k < |st.rows| && st.rows[k].timestamp == Watermark(st.rows);
      assert r[k].timestamp <= Watermark(r);
    }
  }
}

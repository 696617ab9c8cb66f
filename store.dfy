/** The counter store: table `downloads` of the SQLite database, held in
    memory as its rows in rowid order. `sql_table`, `update_db` and
    `get_db_time` are the same code in both source files. */
module Store {
  import opened Common

  /** One row `(id, filename, timestamp, total)`. */
  datatype Row = Row(id: nat, filename: string, timestamp: Timestamp, total: int)

  /** No filename appears twice (`filename TEXT NOT NULL UNIQUE`). */
  ghost predicate UniqueFilenames(rows: seq<Row>) {
    forall a, b :: 0 <= a < b < |rows| ==> rows[a].filename != rows[b].filename
  }

  /** What every reachable table satisfies: unique filenames, positive and
      ascending rowids, and totals of at least 1 (a row is only ever created
      by an insert with total 1 and then only incremented). */
  ghost predicate WellFormed(rows: seq<Row>) {
    && UniqueFilenames(rows)
    && (forall a, b :: 0 <= a < b < |rows| ==> rows[a].id < rows[b].id)
    && (forall k :: 0 <= k < |rows| ==> rows[k].id >= 1 && rows[k].total >= 1)
  }

  /** The rowid SQLite gives the next inserted row of an `INTEGER PRIMARY
      KEY` table: one more than the largest rowid in use, 1 for an empty
      table. */
  function NextId(rows: seq<Row>): (r: nat)
    ensures r >= 1
    ensures forall k :: 0 <= k < |rows| ==> rows[k].id < r
    ensures rows == [] ==> r == 1
    ensures rows != [] ==> exists k :: 0 <= k < |rows| && r == rows[k].id + 1
  {
    if rows == [] then 1
    else
      var n := |rows| - 1;
      var rest := NextId(rows[..n]);
      var last := rows[n].id + 1;
      if last > rest then last
      else if n == 0 then
        assert rest == 1 && last == 1;
        last
      else
        assert exists k :: 0 <= k < n && rest == rows[..n][k].id + 1;
        var k :| 0 <= k < n && rest == rows[..n][k].id + 1;
        assert rows[..n][k] == rows[k];
        rest
  }

  /** Where `f` is stored, if anywhere. */
  function IndexOf(rows: seq<Row>, f: string): (r: Option<nat>)
    ensures r.Some? ==> r.value < |rows| && rows[r.value].filename == f
    ensures r.None? ==> forall k :: 0 <= k < |rows| ==> rows[k].filename != f
  {
    if rows == [] then None
    else if rows[|rows| - 1].filename == f then Some(|rows| - 1)
    else IndexOf(rows[..|rows| - 1], f)
  }

  /** The filenames the table holds. */
  function Names(rows: seq<Row>): set<string> {
    set k | 0 <= k < |rows| :: rows[k].filename
  }

  /** The downloads counted so far for `f`: the total of its row, 0 when it
      has none (summed over matching rows, which are at most one). */
  function TotalOf(rows: seq<Row>, f: string): int {
    if rows == [] then 0
    else TotalOf(rows[..|rows| - 1], f) + (if rows[|rows| - 1].filename == f then rows[|rows| - 1].total else 0)
  }

  /** The reference upsert: overwrite the timestamp and add one to the total
      of the row for `f`, or append a new row with total 1. */
  function Upsert(rows: seq<Row>, f: string, t: Timestamp): seq<Row> {
    match IndexOf(rows, f)
    case Some(k) => rows[k := rows[k].(timestamp := t, total := rows[k].total + 1)]
    case None => rows + [Row(NextId(rows), f, t, 1)]
  }

  // ----- the three statements of update_db, as SQLite executes them -----

  /** `UPDATE downloads SET timestamp = ? WHERE filename = ?`: the rows
      named `f` now carry `t`; no row is added or removed, and no id,
      filename or total changes. */
  function SetTimestamp(rows: seq<Row>, f: string, t: Timestamp): (r: seq<Row>)
    ensures |r| == |rows|
    ensures forall k :: 0 <= k < |rows| ==>
              r[k].id == rows[k].id && r[k].filename == rows[k].filename && r[k].total == rows[k].total
    ensures forall k :: 0 <= k < |rows| && rows[k].filename == f ==> r[k].timestamp == t
    ensures forall k :: 0 <= k < |rows| && rows[k].filename != f ==> r[k] == rows[k]
  {
    seq(|rows|, k requires 0 <= k < |rows| =>
      if rows[k].filename == f then rows[k].(timestamp := t) else rows[k])
  }

  /** `UPDATE downloads SET total = total + 1 WHERE filename = ?`: no row
      is added or removed, no id, filename or timestamp changes, and the
      rows not named `f` stay as they were. */
  function AddOne(rows: seq<Row>, f: string): (r: seq<Row>)
    ensures |r| == |rows|
    ensures forall k :: 0 <= k < |rows| ==>
              r[k].id == rows[k].id && r[k].filename == rows[k].filename && r[k].timestamp == rows[k].timestamp
    ensures forall k :: 0 <= k < |rows| && rows[k].filename != f ==> r[k] == rows[k]
  {
    seq(|rows|, k requires 0 <= k < |rows| =>
      if rows[k].filename == f then rows[k].(total := rows[k].total + 1) else rows[k])
  }

  /** `INSERT OR IGNORE INTO downloads (filename, timestamp, total) VALUES
      (?, ?, ?)`: the UNIQUE constraint on filename makes it a no-op when
      `f` is already stored. Afterwards `f` is stored, the old rows are
      a prefix of the new ones, and a row added is the last, under a rowid
      above all others. */
  function InsertOrIgnore(rows: seq<Row>, f: string, t: Timestamp, total: int): (r: seq<Row>)
    ensures |rows| <= |r| && r[..|rows|] == rows
    ensures Names(r) == Names(rows) + {f}
    ensures |r| == |rows| + (if f in Names(rows) then 0 else 1)
    ensures |r| > |rows| ==> r[|rows|] == Row(NextId(rows), f, t, total)
  {
    if exists k :: 0 <= k < |rows| && rows[k].filename == f then rows
    else
      var r := rows + [Row(NextId(rows), f, t, total)];
      assert r[|rows|].filename == f;
      assert forall k :: 0 <= k < |rows| ==> r[k] == rows[k];
      r
  }

  /** The first `UPDATE` changes no count. */
  lemma {:induction false} SetTimestampKeepsTotals(rows: seq<Row>, f: string, t: Timestamp, g: string)
    ensures TotalOf(SetTimestamp(rows, f, t), g) == TotalOf(rows, g)
    decreases |rows|
  {
    if rows != [] {
      var n := |rows| - 1;
      assert SetTimestamp(rows, f, t)[..n] == SetTimestamp(rows[..n], f, t);
      SetTimestampKeepsTotals(rows[..n], f, t, g);
    }
  }

  /** The second `UPDATE` adds one to the count of `f` when `f` is stored,
      and changes no other count. */
  lemma {:induction false} AddOneCounts(rows: seq<Row>, f: string, g: string)
    requires UniqueFilenames(rows)
    ensures TotalOf(AddOne(rows, f), g) == TotalOf(rows, g) + (if g == f && f in Names(rows) then 1 else 0)
    decreases |rows|
  {
    if rows != [] {
      var n := |rows| - 1;
      var init := rows[..n];
      assert AddOne(rows, f)[..n] == AddOne(init, f);
      AddOneCounts(init, f, g);
      NamesSnoc(rows, f);
    }
  }

  /** A name is stored when it is stored before the last row or in it; in a
      table with unique filenames, not both. */
  lemma NamesSnoc(rows: seq<Row>, f: string)
    requires rows != [] && UniqueFilenames(rows)
    ensures var n := |rows| - 1;
      && (f in Names(rows) <==> f in Names(rows[..n]) || rows[n].filename == f)
      && !(f in Names(rows[..n]) && rows[n].filename == f)
  {
    var n := |rows| - 1;
    if f in Names(rows[..n]) {
      var k :| 0 <= k < n && rows[..n][k].filename == f;
      assert rows[k].filename == f;
    }
    if f in Names(rows) && rows[n].filename != f {
      var k :| 0 <= k < |rows| && rows[k].filename == f;
      assert rows[..n][k].filename == f;
    }
    if rows[n].filename == f {
      assert rows[n].filename in Names(rows);
    }
  }

  /** The `INSERT OR IGNORE` counts `total` downloads of `f` when `f` was
      not stored, changes no other count, and keeps filenames unique. */
  lemma InsertOrIgnoreCounts(rows: seq<Row>, f: string, t: Timestamp, total: int, g: string)
    requires UniqueFilenames(rows)
    ensures UniqueFilenames(InsertOrIgnore(rows, f, t, total))
    ensures TotalOf(InsertOrIgnore(rows, f, t, total), g)
         == TotalOf(rows, g) + (if g == f && f !in Names(rows) then total else 0)
  {
    var r := InsertOrIgnore(rows, f, t, total);
    if f !in Names(rows) {
      assert r[..|r| - 1] == rows;
      forall k | 0 <= k < |rows| ensures rows[k].filename != f {
        assert rows[k].filename in Names(rows);
      }
    }
  }

  lemma NamesOfIndex(rows: seq<Row>, f: string)
    ensures f in Names(rows) <==> IndexOf(rows, f).Some?
  {
    if f in Names(rows) {
      var k :| 0 <= k < |rows| && rows[k].filename == f;
    }
  }

  /** The three statements run one after another have the effect of the one
      atomic upsert, on any table with unique filenames. */
  lemma ThreeStatementsAreUpsert(rows: seq<Row>, f: string, t: Timestamp)
    requires UniqueFilenames(rows)
    ensures InsertOrIgnore(AddOne(SetTimestamp(rows, f, t), f), f, t, 1) == Upsert(rows, f, t)
  {
    var mid := AddOne(SetTimestamp(rows, f, t), f);
    match IndexOf(rows, f)
    case Some(i) =>
      UpdatesOfStored(rows, f, t, i);
      assert mid[i].filename == f;
    case None =>
      UpdatesOfAbsent(rows, f, t);
      assert f !in Names(rows) by {
        NamesOfIndex(rows, f);
      }
  }

  /** The two `UPDATE`s on a stored name change its one row only. */
  lemma UpdatesOfStored(rows: seq<Row>, f: string, t: Timestamp, i: nat)
    requires UniqueFilenames(rows) && i < |rows| && rows[i].filename == f
    ensures AddOne(SetTimestamp(rows, f, t), f) == rows[i := rows[i].(timestamp := t, total := rows[i].total + 1)]
  {
    var mid := AddOne(SetTimestamp(rows, f, t), f);
    var up := rows[i := rows[i].(timestamp := t, total := rows[i].total + 1)];
    forall k | 0 <= k < |rows| ensures mid[k] == up[k] {
      if k != i {
        assert rows[k].filename != f;
      }
    }
  }

  /** The two `UPDATE`s on an absent name change nothing. */
  lemma UpdatesOfAbsent(rows: seq<Row>, f: string, t: Timestamp)
    requires IndexOf(rows, f).None?
    ensures AddOne(SetTimestamp(rows, f, t), f) == rows
  {
    var mid := AddOne(SetTimestamp(rows, f, t), f);
    forall k | 0 <= k < |rows| ensures mid[k] == rows[k] {
      assert rows[k].filename != f;
    }
  }

  /** The running-max reference for `get_db_time`: the largest stored
      timestamp, `datetime.min` for an empty table. */
  function Watermark(rows: seq<Row>): (r: Timestamp)
    ensures forall k :: 0 <= k < |rows| ==> rows[k].timestamp <= r
    ensures r == MinTimestamp || exists k :: 0 <= k < |rows| && rows[k].timestamp == r
  {
    if rows == [] then MinTimestamp
    else
      var rest := Watermark(rows[..|rows| - 1]);
      var last := rows[|rows| - 1].timestamp;
      if last > rest then last else rest
  }

  /** What one call to `update_db` does to the rows: the row for `f` now
      carries `t` (even if older than before: last write wins); every other
      row keeps its place and contents; rowids and filenames stay put and
      only `f` can be added. */
  lemma UpsertShape(rows: seq<Row>, f: string, t: Timestamp)
    requires UniqueFilenames(rows)
    ensures var r := Upsert(rows, f, t);
      && Names(r) == Names(rows) + {f}
      && |r| == |rows| + (if f in Names(rows) then 0 else 1)
      && (forall k :: 0 <= k < |rows| && rows[k].filename != f ==> r[k] == rows[k])
      && (forall k :: 0 <= k < |rows| ==> r[k].id == rows[k].id && r[k].filename == rows[k].filename)
      && IndexOf(r, f).Some? && r[IndexOf(r, f).value].timestamp == t
  {
    var r := Upsert(rows, f, t);
    NamesOfIndex(rows, f);
    match IndexOf(rows, f)
    case Some(i) =>
      assert Names(r) == Names(rows) by {
        forall k | 0 <= k < |rows| ensures r[k].filename == rows[k].filename { }
      }
      UniqueIndex(r, f, i);
    case None =>
      assert Names(r) == Names(rows) + {f} by {
        assert r[|rows|].filename == f;
        forall k | 0 <= k < |rows| ensures r[k] == rows[k] { }
      }
      UniqueIndex(r, f, |rows|);
  }

  /** An upsert keeps the table well formed: filenames stay unique, a new
      row gets a rowid above all others, totals stay positive. */
  lemma UpsertKeepsWellFormed(rows: seq<Row>, f: string, t: Timestamp)
    requires WellFormed(rows)
    ensures WellFormed(Upsert(rows, f, t))
  {
    var r := Upsert(rows, f, t);
    match IndexOf(rows, f)
    case Some(i) =>
      assert forall k :: 0 <= k < |rows| ==> r[k].id == rows[k].id && r[k].filename == rows[k].filename;
    case None =>
      assert forall k :: 0 <= k < |rows| ==> r[k] == rows[k];
      assert r[|rows|] == Row(NextId(rows), f, t, 1);
  }

  /** One upsert counts exactly one more download of `f` and changes the
      count of no other filename. */
  lemma UpsertCounts(rows: seq<Row>, f: string, t: Timestamp, g: string)
    requires UniqueFilenames(rows)
    ensures TotalOf(Upsert(rows, f, t), g) == TotalOf(rows, g) + (if g == f then 1 else 0)
  {
    var r := Upsert(rows, f, t);
    match IndexOf(rows, f)
    case Some(i) =>
      var row := rows[i].(timestamp := t, total := rows[i].total + 1);
      assert r == rows[i := row];
      TotalOfUpdate(rows, i, row, g);
    case None =>
      assert r == rows + [Row(NextId(rows), f, t, 1)];
      assert r[..|r| - 1] == rows;
  }

  /** `Upsert` keeps every row in place and adds at most one: each row it
      leaves different carries the new timestamp. */
  lemma UpsertTouchesOnly(rows: seq<Row>, f: string, t: Timestamp)
    ensures var r := Upsert(rows, f, t);
      && |rows| <= |r| <= |rows| + 1
      && forall k :: 0 <= k < |r| ==> (k < |rows| && r[k] == rows[k]) || r[k].timestamp == t
  {
  }

  /** In a table with unique filenames, `IndexOf` finds the one row. */
  lemma UniqueIndex(rows: seq<Row>, f: string, i: nat)
    requires UniqueFilenames(rows) && i < |rows| && rows[i].filename == f
    ensures IndexOf(rows, f) == Some(i)
  {
  }

  /** In a table with unique filenames the count of `f` is the `total`
      column of its one row, 0 when it has none. */
  lemma {:induction false} TotalOfIsRowTotal(rows: seq<Row>, f: string)
    requires UniqueFilenames(rows)
    ensures TotalOf(rows, f) == (if IndexOf(rows, f).Some? then rows[IndexOf(rows, f).value].total else 0)
    decreases |rows|
  {
    if rows != [] {
      var n := |rows| - 1;
      TotalOfIsRowTotal(rows[..n], f);
      if rows[n].filename == f {
        assert IndexOf(rows[..n], f).None? by {
          forall k | 0 <= k < n ensures rows[..n][k].filename != f {
            assert rows[k].filename != rows[n].filename;
          }
        }
      }
    }
  }

  /** Replacing row `i` by a row with the same filename and changed total
      changes `TotalOf` of that filename by the difference, and no other. */
  lemma {:induction false} TotalOfUpdate(rows: seq<Row>, i: nat, row: Row, g: string)
    requires i < |rows| && row.filename == rows[i].filename
    ensures TotalOf(rows[i := row], g) ==
            TotalOf(rows, g) + (if g == row.filename then row.total - rows[i].total else 0)
    decreases |rows|
  {
    var r := rows[i := row];
    var n := |rows| - 1;
    if i == n {
      assert r[..n] == rows[..n];
    } else {
      assert r[..n] == rows[..n][i := row];
      TotalOfUpdate(rows[..n], i, row, g);
    }
  }

  /** The table of the SQLite database file. */
  class Database {
    /** Whether table `downloads` exists. */
    var present: bool
    /** Its rows in rowid order (what `SELECT * FROM downloads` yields). */
    var rows: seq<Row>

    ghost predicate Valid()
      reads this
    {
      WellFormed(rows) && (!present ==> rows == [])
    }

    /** A database file that does not hold the table yet. */
    constructor ()
      ensures Valid() && !present && rows == []
    {
      present := false;
      rows := [];
    }

    /** `sql_table`: `CREATE TABLE IF NOT EXISTS downloads (...)`; an
        existing table keeps its rows. */
    method SqlTable()
      requires Valid()
      modifies this
      ensures Valid() && present
      ensures rows == old(rows)
      ensures !old(present) ==> rows == []
    {
      present := true;
    }

    /** `DROP TABLE IF EXISTS downloads`. */
    method DropTable()
      modifies this
      ensures Valid() && !present && rows == []
    {
      present := false;
      rows := [];
    }

    /** `update_db`: the three statements, in the order the source runs them. */
    method UpdateDb(fname: string, timestamp: Timestamp)
      requires Valid() && present
      modifies this
      ensures Valid() && present
      ensures rows == Upsert(old(rows), fname, timestamp)
    {
      ThreeStatementsAreUpsert(rows, fname, timestamp);
      UpsertKeepsWellFormed(rows, fname, timestamp);
      rows := SetTimestamp(rows, fname, timestamp);
      rows := AddOne(rows, fname);
      rows := InsertOrIgnore(rows, fname, timestamp, 1);
    }

    /** `get_db_time`: a running maximum over `SELECT timestamp FROM
        downloads`, starting at `datetime.min`. A missing table makes the
        SELECT fail; the error is printed and the empty cursor leaves the
        sentinel, which is what an empty row list gives here too. */
    method GetDbTime() returns (recent: Timestamp)
      requires Valid()
      ensures recent == Watermark(rows)
      ensures forall k :: 0 <= k < |rows| ==> rows[k].timestamp <= recent
      ensures recent == MinTimestamp || exists k :: 0 <= k < |rows| && rows[k].timestamp == recent
    {
      var table := rows;
      recent := MinTimestamp;
      var i := 0;
      while i < |table|
        invariant 0 <= i <= |table|
        invariant recent == Watermark(table[..i])
      {
        assert table[..i + 1][..i] == table[..i];
        if table[i].timestamp > recent {
          recent := table[i].timestamp;
        }
        i := i + 1;
      }
      assert table[..i] == table;
    }
  }
}

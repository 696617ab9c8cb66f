# Download counter: the log-ingestion core in Dafny

The download counter scans web-server access logs for `GET` requests of
configured files. It keeps one SQLite row per short filename in table
`downloads` (`id`, `filename`, `timestamp`, `total`). A normal run counts only
requests stamped strictly after the newest timestamp already stored (the
watermark). A reinitialising run (`init_db`) drops the table and counts
every event after `datetime.min` again. The repository holds two
near-identical programs, `dlcounter/dlcounter.py` and `download_counter/download_counter.py`. This
project models their shared ingestion core and the places where the two
differ.

Modules, in dependency order:

- `Common` holds `Option`, `Result` and `Timestamp`. A timestamp is a `nat`
  counting from `datetime.min`. `MinTimestamp` (0) stands for both
  `datetime.min` and `datetime(1, 1, 1)`, which are the same instant.
- `Text` turns the three fixed regular expressions into explicit searches:
  - `GET <prefix>.*<suffix>` and `\[.*\]` each find the leftmost start, then
    the longest greedy `.*`, which never crosses a line feed;
  - the status expression `"(.+?)"(\s\d{3}){1}` finds the leftmost quote,
    then the shortest lazy quoted text;
  - `Text` also provides `split('/')[-1]` and `strip('[]')`.
- `LogLine` models `get_record`, `get_time` and the pattern comprehension.
  `datetime.strptime` is an opaque parameter `parse`, and the read format
  is an explicit argument.
- `Store` models the `downloads` table as a sequence of rows. It gives the
  reference upsert, proves the three SQL statements of `update_db` equal to
  it, and defines the watermark. Class `Database` carries the table state
  and the methods `sql_table`, `DROP TABLE`, `update_db` and
  `get_db_time`.
- `Ingest` states ingestion as a left fold `Run` over the (line, pattern)
  pairs, in the order the loops visit them. It also proves the run-level
  properties: exact counting, the strict watermark, the `_modified` flag,
  and stopping at the first fatal line.
- `DlCounter` models `log_to_sql`, `main` and `init_db` of
  `dlcounter/dlcounter.py`. The imperative methods are proved to end in the
  state the fold computes.
- `DownloadCounter` models `main` and `get_args` of
  `download_counter/download_counter.py`. It includes the file object whose
  `readlines()` is called once per pattern. `default_date_time_format()` is
  the constant `DownloadCounter.DefaultDateTimeFormat`.

Both programs share these functions, and each one maps to a single member:

| function | dlcounter | download_counter | member |
|---|---|---|---|
| `get_record` | 292-319 | 188-202 | `LogLine.GetRecord` |
| `get_time` | 322-345 | 205-217 | `LogLine.GetTime` |
| `get_db_time` | 243-267 | 162-174 | `Store.Database.GetDbTime` |
| `sql_table` | 270-289 | 177-184 | `Store.Database.SqlTable` |
| `update_db` | 348-376 | 220-232 | `Store.Database.UpdateDb` |

The read format is the only difference between the two `get_time`s.
`dlcounter` takes it from `time_format.read`. `download_counter` uses the
default format.

Where the code and its own docstrings disagree, or the code does
something its docstrings do not mention, the model follows the code:

- **An event at exactly `datetime.min` is never counted.** `log_to_sql`
  replaces only a missing `timecheck` by `datetime.min`, because a
  `datetime` is never false. It then still filters with a strict `>`. So
  `init_db` counts every event except one stamped exactly
  `0001-01-01 00:00:00`. Its docstring (`dlcounter/dlcounter.py:420-421`)
  says it "does NOT check timestamp before counting", and the `--init`
  help (`dlcounter/dlcounter.py:37-38`) says downloads are counted
  "regardless of when they were downloaded".
- **`dlcounter` forgets `_modified` between files.** `main` assigns
  `log_to_sql`'s result to `_modified` for each file. The flag after the
  loop therefore reflects only the last file that opened and ran to its
  end
  (`DlCounter.ModifiedIsPerFile`). In `download_counter` the flag is sticky
  (`DownloadCounter.ModifiedIsSticky`).
- **In `download_counter`, only the first pattern sees any lines.**
  `main` calls `readlines()` inside the loop over patterns. Every pattern
  after the first reads an exhausted file
  (`DownloadCounter.LaterPatternsCountNothing`).
- **A line with no status token ends the run.** If the download pattern
  matches but no status token follows, `.group()` is called on `None` and
  raises. The model treats this as a fatal `Abort(NoStatusToken)`.

## Model

| member | source | states |
|---|---|---|
| `Text.FindSpan` | dlcounter/dlcounter.py:310 | `re.search` of `head.*tail` finds a match exactly when one exists. The match it returns starts at the leftmost possible place and, from there, runs to the last `tail` reachable without crossing a line feed. |
| `Text.SpanFound` | dlcounter/dlcounter.py:310 | The leftmost-longest match is unique: whichever span is leftmost-longest is the one the search returns. |
| `Text.FindStatus` | dlcounter/dlcounter.py:313-316 | The status search finds a match exactly when one exists. The match starts at the leftmost `"` that has a match, and at that quote it is the shortest quoted text followed by whitespace and three digits. |
| `Text.Basename` | dlcounter/dlcounter.py:315 | `split('/')[-1]` is a suffix of the span with no `/` in it, and a `/` comes right before it whenever it is shorter than the span. |
| `Text.BasenameIgnoresDirectory` | dlcounter/dlcounter.py:315 | A directory prefix never changes the key, so `/a/x/report.zip` and `/a/y/report.zip` both count as `report.zip`. |
| `Text.BasenameOfPlainName` | dlcounter/dlcounter.py:315 | A name without `/` is its own key. |
| `Text.Strip` | dlcounter/dlcounter.py:337 | `strip('[]')` keeps a middle slice of the text that starts where the leading brackets end. Everything cut from either end is a bracket, and the slice neither starts nor ends with one. |
| `LogLine.BuildPatterns` | dlcounter/dlcounter.py:594-595 | There is one pattern per configured suffix, in suffix order, each behind the configured path. |
| `LogLine.TimeField` | dlcounter/dlcounter.py:335-337 | The field is absent exactly when no `[...]` occurs in the line. Otherwise it is the leftmost-longest `[...]` text, brackets included. |
| `LogLine.GetTime` | dlcounter/dlcounter.py:335-345 | Failure `NoTimestampField` happens exactly when the line has no `[...]` field. Otherwise the field is stripped of brackets and parsed. A text `strptime` rejects gives `BadTimestamp` of that text, and a parsed one gives its wall-clock time with the UTC offset dropped. |
| `LogLine.StatusOkAt` | dlcounter/dlcounter.py:316-317 | Once the status search has found its match, the line is OK exactly when that match's three digits are `200`. |
| `LogLine.CheckStatus` | dlcounter/dlcounter.py:316-318 | With no status token the result is a fatal `NoStatusToken`. With a status other than `200` there is no event. With `200` the outcome is `get_time`'s, either an event or its failure. |
| `LogLine.MatchedText` | dlcounter/dlcounter.py:310 | The download pattern fails exactly when `GET <prefix>.*<suffix>` occurs nowhere in the line. Otherwise the text is its leftmost-longest match. |
| `LogLine.GetRecord` | dlcounter/dlcounter.py:310-319 | Without a pattern match there is no event. Otherwise the status decides as in `CheckStatus`, and an event is keyed by the basename of the matched text. |
| `Store.NextId` | dlcounter/dlcounter.py:285 | A new row's `INTEGER PRIMARY KEY` is 1 in an empty table. Otherwise it is one more than an existing id and above every existing id, that is, the largest rowid plus 1. |
| `Store.SetTimestamp` | dlcounter/dlcounter.py:369-374 | The first `UPDATE` adds and removes no row and changes no id, filename or total. The rows named `f` carry `t`, and all other rows are untouched. |
| `Store.SetTimestampKeepsTotals` | dlcounter/dlcounter.py:369-374 | The first `UPDATE` changes the count of no filename. |
| `Store.AddOne` | dlcounter/dlcounter.py:370-375 | The second `UPDATE` adds and removes no row and changes no id, filename or timestamp. Rows not named `f` are untouched. |
| `Store.AddOneCounts` | dlcounter/dlcounter.py:370-375 | On a table with unique filenames, the second `UPDATE` raises the count of `g` by 1 exactly when `g` is `f` and `f` is stored. Every other count stays the same. |
| `Store.InsertOrIgnore` | dlcounter/dlcounter.py:371-376 | Afterwards `f` is stored and no other name is added. The old rows are a prefix of the new ones. One row is added exactly when `f` was absent: the last row, holding `f`, `t`, the given total and the next id. |
| `Store.InsertOrIgnoreCounts` | dlcounter/dlcounter.py:371-376 | The insert keeps filenames unique. It adds `total` to the count of `f` when `f` was absent and changes no other count. |
| `Store.TotalOfIsRowTotal` | dlcounter/dlcounter.py:284-288 | In a table with unique filenames, the count of `f` is the `total` column of its one row, or 0 when it has none. |
| `Store.ThreeStatementsAreUpsert` | dlcounter/dlcounter.py:369-375 | On a table with unique filenames, the three statements together equal one atomic upsert. |
| `Store.UpsertShape` | dlcounter/dlcounter.py:348-376 | After `update_db(f, t)`, `f` is present with timestamp `t`, even if `t` is older (last write wins). A row is added only when `f` was absent. Every other row keeps its place and contents. |
| `Store.UpsertKeepsWellFormed` | dlcounter/dlcounter.py:284-288 | The upsert keeps filenames unique, ids positive and ascending, and totals at least 1. |
| `Store.UpsertCounts` | dlcounter/dlcounter.py:370-373 | The count of `f` grows by exactly 1, and the count of every other filename is unchanged. |
| `Store.Watermark` | dlcounter/dlcounter.py:263-267 | The watermark bounds every stored timestamp from above, and it is one of them or `datetime.min`. |
| `Store.Database.constructor` | dlcounter/dlcounter.py:494-496 | A new database file holds no table and no rows. |
| `Store.Database.SqlTable` | dlcounter/dlcounter.py:282-289 | `CREATE TABLE IF NOT EXISTS` leaves the table present and keeps any existing rows. |
| `Store.Database.DropTable` | dlcounter/dlcounter.py:443 | `DROP TABLE IF EXISTS` discards every row. |
| `Store.Database.UpdateDb` | dlcounter/dlcounter.py:366-376 | Running the three statements in sequence leaves the table equal to the reference upsert, and the table stays valid. |
| `Store.Database.GetDbTime` | dlcounter/dlcounter.py:256-267 | The running-maximum loop returns the watermark: an upper bound of all timestamps that is one of them or `datetime.min`. |
| `Ingest.Visit` | dlcounter/dlcounter.py:556-560 | The loop body calls `update_db` and sets `_modified` exactly for an event newer than the threshold. A fatal line hands back its failure. |
| `Ingest.RunStopsAtFailure` | dlcounter/dlcounter.py:343-345 | After a fatal line nothing changes any more. |
| `Ingest.RunAfterFailure` | dlcounter/dlcounter.py:343-345 | Pairs that follow a fatal line have no effect. |
| `Ingest.RunKeepsWellFormed` | dlcounter/dlcounter.py:554-560 | Any sequence of pairs keeps the table well formed. |
| `Ingest.RunCounts` | dlcounter/dlcounter.py:554-560 | Each (line, pattern) pair counts at most once. Without a fatal line, the count of each filename grows by exactly its number of accepted pairs. |
| `Ingest.RunTotalsGrow` | dlcounter/dlcounter.py:554-560 | No count ever decreases during a run, even one that a fatal line ends, because every `update_db` is committed. |
| `Ingest.RunIgnoresFlag` | dlcounter/dlcounter.py:556-560 | The table and the failure a run ends with do not depend on the `_modified` flag it starts with. |
| `Ingest.RunWithNothingNewer` | dlcounter/dlcounter.py:558 | Pairs with no event newer than the threshold leave the table and the flag as they were. |
| `Ingest.RunModified` | dlcounter/dlcounter.py:550-561 | Without a fatal line, `_modified` ends set exactly when it was set before or some pair was accepted. |
| `Ingest.NoAbortKeepsRunning` | dlcounter/dlcounter.py:554-560 | Pairs none of which is fatal never end the run. |
| `Ingest.WatermarkIsStrict` | dlcounter/dlcounter.py:558-560 | An event at the threshold is not counted, and one after it is counted once and sets the flag. |
| `Ingest.NoPatternsNoPairs` | dlcounter/dlcounter.py:555 | With no pattern, no line is ever examined. |
| `Ingest.OnlyNewerWritten` | dlcounter/dlcounter.py:558-559 | A run removes no row, and every row it adds or changes carries a timestamp after the threshold. |
| `Ingest.WatermarkNeverFalls` | dlcounter/dlcounter.py:501-507 | With a threshold at or above the stored watermark, as in `main`, the watermark after the run is at least the one before. |
| `DlCounter.Threshold` | dlcounter/dlcounter.py:551-552 | A missing `timecheck` becomes `datetime.min`, and a given one is kept as it is. |
| `DlCounter.LogToSql` | dlcounter/dlcounter.py:550-561 | The nested line and pattern loops end in the state of the fold. The threshold is `timecheck`, or `datetime.min` when it is missing, and the result is the run's `_modified`. |
| `DlCounter.ReadLog` | dlcounter/dlcounter.py:503-510 | A file whose `open` raises `FileNotFoundError` is skipped and leaves the flag alone. Otherwise `log_to_sql`'s result replaces the flag, unless the file failed. |
| `DlCounter.UpdateFromLogs` | dlcounter/dlcounter.py:492-507 | `main` up to its output: the table is created if needed and the watermark is read once before any file. The run then equals the file-by-file fold against that single snapshot, skipping missing files. |
| `DlCounter.InitDb` | dlcounter/dlcounter.py:443-457 | Starting from an empty table, every file is run with no watermark, that is, the `datetime.min` threshold. |
| `DlCounter.FilesRunStops` | dlcounter/dlcounter.py:343-345 | A fatal line ends the whole run, and later files are not read. |
| `DlCounter.ModifiedIsPerFile` | dlcounter/dlcounter.py:506 | After a file that runs to its end, `_modified` says whether that file alone had an accepted event. Earlier files are forgotten. |
| `DlCounter.FilesRunCounts` | dlcounter/dlcounter.py:501-507 | Across files, each count grows by exactly the accepted events of every file that opens, and the table stays well formed. |
| `DlCounter.BulkLoadCounts` | dlcounter/dlcounter.py:441-457 | After `init_db`, each total is the number of that filename's accepted events over all files. |
| `DlCounter.BulkLoadOrderFree` | dlcounter/dlcounter.py:445 | The totals of `init_db` do not depend on the order in which `iglob` yields two groups of files. |
| `DlCounter.BulkLoadSwapFree` | dlcounter/dlcounter.py:445 | Swapping two neighbouring files leaves every `init_db` total unchanged. Since adjacent swaps reach every order, the totals do not depend on the order `iglob` yields. |
| `DlCounter.FilesRunNothingNewer` | dlcounter/dlcounter.py:501-507 | Files with nothing newer than the threshold leave the table alone and never raise the flag. |
| `DlCounter.RerunChangesNothing` | dlcounter/dlcounter.py:496-507 | Running `main` over logs with nothing newer than the stored watermark leaves the table unchanged and `_modified` false, so nothing is committed. |
| `DlCounter.FilesRunNoPatterns` | dlcounter/dlcounter.py:555 | With no pattern, no file changes the table or fails. |
| `DlCounter.NoSuffixesCountNothing` | dlcounter/dlcounter.py:594-595 | An empty suffix list builds no pattern and counts nothing. |
| `DownloadCounter.ReadsWithDefaultFormat` | download_counter/download_counter.py:138-140 | `get_time` always reads timestamps with `default_date_time_format()`, the access-log layout `%d/%b/%Y:%H:%M:%S %z`. |
| `DownloadCounter.LogFile.Open` | download_counter/download_counter.py:277 | A freshly opened file has read nothing yet. |
| `DownloadCounter.LogFile.ReadLines` | download_counter/download_counter.py:279 | `readlines()` returns every line not yet read and leaves the file exhausted. |
| `DownloadCounter.ScanFile` | download_counter/download_counter.py:276-288 | A file whose `open` raises `FileNotFoundError` is skipped. Otherwise the pattern loop, which calls `readlines()` once per pattern, ends in the state of the fold over the first pattern's pairs. |
| `DownloadCounter.ScanColumn` | download_counter/download_counter.py:280-285 | The loop over the lines of one `readlines()` ends in the state of the fold over those lines paired with the current pattern, and stops at a fatal line. |
| `DownloadCounter.UpdateFromLogs` | download_counter/download_counter.py:264-285 | `main` up to its output: the table is created if needed and the watermark is read once. The run then equals the file-by-file fold against that single snapshot, with a sticky `_modified`. |
| `DownloadCounter.FilesRunStops` | download_counter/download_counter.py:215-217 | A fatal line ends the whole run, and later files are not read. |
| `DownloadCounter.LaterPatternsCountNothing` | download_counter/download_counter.py:278-281 | The outcome of `main` is the same when every pattern after the first is dropped. |
| `DownloadCounter.ColumnPairsAreLineMajor` | download_counter/download_counter.py:280-281 | One `readlines()` result under one pattern yields the same (line, pattern) pairs as `dlcounter`'s line-major loop with that single pattern. |
| `DownloadCounter.FilePairsAreLineMajor` | download_counter/download_counter.py:278-281 | The pairs `main` examines in one file, with `readlines()` inside the pattern loop, are the line-major pairs of the first pattern alone, and none when there is no pattern. |
| `DownloadCounter.SameTableAsDlCounter` | download_counter/download_counter.py:264-285 | `main` ends with the table and the failure that `dlcounter`'s `main` would reach with only the first pattern. The two differ only in the `_modified` flag. |
| `DownloadCounter.FilesRunCounts` | download_counter/download_counter.py:276-285 | Across files, with no fatal line, each count grows by exactly the accepted events of the first pattern in every file that opens, and the table stays well formed. |
| `DownloadCounter.ModifiedIsSticky` | download_counter/download_counter.py:283-285 | Without a fatal line, `_modified` ends set exactly when it started set or some file had an accepted event. A later file never clears it. |
| `DownloadCounter.Prefer` | download_counter/download_counter.py:327-334 | A command-line string that is given and non-empty wins. Otherwise the configured value is used. |
| `DownloadCounter.PreferList` | download_counter/download_counter.py:325-330 | A non-empty command-line list wins. Otherwise the configured list is used. |
| `DownloadCounter.GetArgs` | download_counter/download_counter.py:325-338 | Each option is overridden independently. There is one pattern per resulting suffix, in order, each behind the resulting path. |

## Left out

- SQLite itself is not modelled: connections, `detect_types`, SQL text, `commit`, `VACUUM` and the `finally` clean-up. `update_db` commits after every call, so the table the model keeps after a fatal line is the committed one. The `VACUUM` that `_modified` guards is a storage-size detail.
- `sqlite3.OperationalError` and the `sys.exit` it leads to are not modelled. The table is always present once `sql_table` has run.
- Opening files, `gzip.open`, `iglob` and the `FileNotFoundError` branch are not modelled. A run takes the log files as a sequence in which a missing file is `None`, in the order the caller or `iglob` yields them.
- Only `FileNotFoundError` is caught around a file (`dlcounter/dlcounter.py:508`, `download_counter/download_counter.py:286`). Any other error from `open`, such as `PermissionError` or `IsADirectoryError`, ends the whole run, and so does a `UnicodeDecodeError` from `readlines()` under `encoding="utf-8"`. These errors are not modelled: every file in the model either is missing (`None`) or opens and decodes.
- `datetime.strptime` is an opaque parameter. Format interpretation, the year range 1-9999 and microsecond resolution are not modelled, and timestamps are unbounded naturals.
- `strftime`, `format_datetime_output`, `write_html`, the two `*_html.py` template files and `print_table` are left out. They produce output only and never feed back into the table.
- argparse, `--docs`, `--version`, `--verbose` and `--debug` are not modelled. They are command-line plumbing and printing.
- Configuration loading (`get_config`, `list_section`, `first_item_in_section`, `check_path`, `db_path`) is not modelled. `DownloadCounter.GetArgs` takes the configured values as a `ConfigFile` argument, so it does not model the `KeyError` or `IndexError` of a missing section.
- The `time_format` function attributes are replaced by an explicit `DlCounter.TimeFormat` argument. Only its read format reaches the modelled core.
- Text.FindStatus: `\d` is modelled as the ASCII digits 0-9. Python's `str` patterns also accept other Unicode decimal digits, which could change which status token is found only on lines that contain such digits.
- Store.Database.SqlTable: `total INTEGER DEFAULT 0` is not modelled, because every insert supplies a total of 1. SQLite's 64-bit integer limit on `total` is not modelled either, and totals are unbounded.
- `DlCounter.UpdateFromLogs` models only the ingestion control flow. The HTML output branch and the closing `if _modified: commit/VACUUM` come after it and are left out as above.

/** The line extractor: what `get_record` and `get_time` make of one access
    log line and one download pattern. Both source files carry the same two
    functions; they differ only in where the timestamp read format comes
    from, which is a parameter here. */
module LogLine {
  import opened Common
  import opened Text

  /** One search expression `GET <prefix>.*<suffix>`, both parts literal
      (they went through `re.escape`). */
  datatype Pattern = Pattern(prefix: string, suffix: string)

  /** The search expressions of a run: one per configured file suffix,
      each behind the same path prefix, in the order of the suffixes. */
  function BuildPatterns(path: string, files: seq<string>): (r: seq<Pattern>)
    ensures |r| == |files|
    ensures forall k :: 0 <= k < |files| ==> r[k].prefix == path && r[k].suffix == files[k]
  {
    seq(|files|, k requires 0 <= k < |files| => Pattern(path, files[k]))
  }

  /** The literal text in front of the `.*`. */
  function Head(p: Pattern): string {
    "GET " + p.prefix
  }

  /** What `datetime.strptime` yields: a wall-clock value and, when the
      format has `%z`, a UTC offset in minutes. */
  datatype ParsedTime = ParsedTime(wall: Timestamp, offset: Option<int>)

  /** `datetime.strptime(text, format)`, an opaque library call: `None`
      stands for the `ValueError` it raises on text that does not fit. */
  type TimeParser = (string, string) -> Option<ParsedTime>

  /** The ways one line ends the whole run. */
  datatype Fatal =
    | NoStatusToken           // `.group()` called on the `None` of a failed status search
    | NoTimestampField        // `sys.exit('Could not read timestamp from log.')`
    | BadTimestamp(text: string)  // `sys.exit(err)` on strptime's `ValueError`

  /** The outcome of `get_record`: `None`, a `(filename, time)` tuple, or the
      end of the run. */
  datatype Extract =
    | NoEvent
    | Event(filename: string, time: Timestamp)
    | Abort(failure: Fatal)

  /** The status search found a token and its three digits are `200`
      ("OK", section 15.3.1 of RFC 9110). */
  ghost predicate StatusOk(line: string) {
    exists q, k :: LeftmostShortest(line, q, k) && line[k + 2..k + 5] == "200"
  }

  /** The status search finds nothing in the line. */
  ghost predicate NoStatus(line: string) {
    forall q, k :: !StatusMatch(line, q, k)
  }

  /** The field `re.search(r"\[.*\]", line)` finds: the leftmost-longest
      `[...]` text of the line, brackets included, if the line has one. */
  function TimeField(line: string): (r: Option<string>)
    ensures r.None? <==> NoSpan(line, "[", "]")
    ensures r.Some? ==> exists i, j :: LeftmostLongest(line, "[", "]", i, j) && r.value == line[i..j + 1]
  {
    var span := FindSpan(line, "[", "]");
    if span.None? then None
    else
      var (i, j) := span.value;
      Some(line[i..j + 1])
  }

  /** `get_time`: the field parsed with `readFormat`, the UTC offset dropped,
      not applied; `sys.exit` when there is no field or `strptime` rejects
      its text. */
  function GetTime(line: string, readFormat: string, parse: TimeParser): (r: Result<Timestamp, Fatal>)
    ensures TimeField(line).None? <==> r == Failure(NoTimestampField)
    ensures TimeField(line).Some? ==>
              var text := Strip(TimeField(line).value);
              match parse(readFormat, text)
              case None => r == Failure(BadTimestamp(text))
              case Some(pt) => r == Success(pt.wall)
  {
    match TimeField(line)
    case None => Failure(NoTimestampField)
    case Some(field) =>
      var text := Strip(field);
      match parse(readFormat, text)
      case None => Failure(BadTimestamp(text))
      case Some(pt) => Success(pt.wall)
  }

  /** Once the status search has returned `(q, k)`, the status is OK exactly
      when the three digits of that match are `200`. */
  lemma StatusOkAt(line: string, q: int, k: int)
    requires LeftmostShortest(line, q, k)
    ensures !NoStatus(line)
    ensures StatusOk(line) <==> line[k + 2..k + 5] == "200"
  {
    if StatusOk(line) {
      var q', k' :| LeftmostShortest(line, q', k') && line[k' + 2..k' + 5] == "200";
      assert q == q' && k == k';
    }
  }

  /** The part of `get_record` that runs once the download pattern has
      matched: the status search, the `200$` test and `get_time`. */
  function CheckStatus(line: string, filename: string, readFormat: string, parse: TimeParser): (r: Extract)
    ensures NoStatus(line) ==> r == Abort(NoStatusToken)
    ensures !NoStatus(line) && !StatusOk(line) ==> r == NoEvent
    ensures StatusOk(line) ==>
              || (r.Event? && GetTime(line, readFormat, parse) == Success(r.time))
              || (r.Abort? && GetTime(line, readFormat, parse) == Failure(r.failure))
    ensures r.Event? ==> r.filename == filename
  {
    match FindStatus(line)
    case None => Abort(NoStatusToken)
    case Some((q, k)) =>
      StatusOkAt(line, q, k);
      if line[k + 2..k + 5] == "200" then
        match GetTime(line, readFormat, parse)
        case Success(t) => Event(filename, t)
        case Failure(e) => Abort(e)
      else NoEvent
  }

  /** The text the download pattern matches, `re.search(...).group()`, if
      it matches: the leftmost-longest `GET <prefix>...<suffix>`. */
  function MatchedText(line: string, p: Pattern): (r: Option<string>)
    ensures r.None? <==> NoSpan(line, Head(p), p.suffix)
    ensures r.Some? ==> exists i, j :: LeftmostLongest(line, Head(p), p.suffix, i, j) && r.value == line[i..j + |p.suffix|]
  {
    var span := FindSpan(line, Head(p), p.suffix);
    if span.None? then None
    else
      var (i, j) := span.value;
      Some(line[i..j + |p.suffix|])
  }

  /** `get_record`: no event unless the download pattern occurs; then the
      status decides. */
  function GetRecord(line: string, p: Pattern, readFormat: string, parse: TimeParser): (r: Extract)
    ensures MatchedText(line, p).None? ==> r == NoEvent
    ensures MatchedText(line, p).Some? ==> r == CheckStatus(line, Basename(MatchedText(line, p).value), readFormat, parse)
  {
    match MatchedText(line, p)
    case None => NoEvent
    case Some(text) => CheckStatus(line, Basename(text), readFormat, parse)
  }

}

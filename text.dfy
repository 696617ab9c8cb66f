/** The behaviour of Python's `re.search` on the three fixed pattern shapes
    the download counter uses, written as explicit string searches:

    - `head.*tail` with literal `head` and `tail` (the download pattern
      `GET <prefix>.*<suffix>` and the timestamp pattern `\[.*\]`): the
      leftmost start, and at that start the longest match, because `.*` is
      greedy;
    - `"(.+?)"(\s\d{3}){1}` (the status token): the leftmost opening quote,
      and at that quote the shortest quoted text, because `.+?` is lazy. */
module Text {
  import opened Common

  /** `.` matches every character except a line feed. */
  predicate IsDot(c: char) {
    c != '\n'
  }

  /** `\s` in a `str` pattern: the characters for which `str.isspace()` holds. */
  predicate IsSpace(c: char) {
    c == ' ' || '\t' <= c <= '\r' || '\U{1c}' <= c <= '\U{1f}' || c == '\U{85}' || c == '\U{a0}'
    || c == '\U{1680}' || '\U{2000}' <= c <= '\U{200a}' || c == '\U{2028}' || c == '\U{2029}'
    || c == '\U{202f}' || c == '\U{205f}' || c == '\U{3000}'
  }

  /** `\d`, restricted to the ASCII digits. */
  predicate IsDigit(c: char) {
    '0' <= c <= '9'
  }

  /** The literal `lit` occurs in `s` starting at index `i`. */
  predicate Occurs(s: string, lit: string, i: int) {
    0 <= i && i + |lit| <= |s| && s[i..i + |lit|] == lit
  }

  /** `s[a..b]` is matched by `.*`. */
  predicate DotRun(s: string, a: int, b: int) {
    0 <= a <= b <= |s| && forall k :: a <= k < b ==> IsDot(s[k])
  }

  // ---------------------------------------------------------------------
  // head.*tail
  // ---------------------------------------------------------------------

  /** `head.*tail` matches `s[i..j + |tail|]`, the `.*` covering
      `s[i + |head|..j]`. */
  ghost predicate SpanMatch(s: string, head: string, tail: string, i: int, j: int) {
    Occurs(s, head, i) && TailEnd(s, tail, i + |head|, j)
  }

  /** `j` is a place where `.*tail` can end its `.*` when started at `lo`. */
  ghost predicate TailEnd(s: string, tail: string, lo: int, j: int) {
    DotRun(s, lo, j) && Occurs(s, tail, j)
  }

  /** Scans `k = lo, lo + 1, ...` while the characters are dots, keeping the
      last place at which `tail` occurs. */
  function LastTail(s: string, tail: string, lo: nat, k: nat, best: Option<nat>): (r: Option<nat>)
    requires DotRun(s, lo, k)
    requires best.Some? ==> TailEnd(s, tail, lo, best.value)
    requires forall j :: TailEnd(s, tail, lo, j) && j < k ==> best.Some? && j <= best.value
    ensures r.Some? ==> TailEnd(s, tail, lo, r.value)
    ensures forall j :: TailEnd(s, tail, lo, j) ==> r.Some? && j <= r.value
    decreases |s| - k
  {
    var best' := if Occurs(s, tail, k) then Some(k) else best;
    if k < |s| && IsDot(s[k]) then LastTail(s, tail, lo, k + 1, best') else best'
  }

  /** Where the greedy `.*tail` started at `lo` ends its `.*`, if it matches. */
  function GreedyEnd(s: string, tail: string, lo: nat): (r: Option<nat>)
    requires lo <= |s|
    ensures r.Some? ==> TailEnd(s, tail, lo, r.value)
    ensures forall j :: TailEnd(s, tail, lo, j) ==> r.Some? && j <= r.value
  {
    LastTail(s, tail, lo, lo, None)
  }

  /** The leftmost match of `head.*tail` that starts at `i` or later. */
  function FindSpanFrom(s: string, head: string, tail: string, i: nat): (r: Option<(nat, nat)>)
    ensures r.Some? ==> i <= r.value.0 && SpanMatch(s, head, tail, r.value.0, r.value.1)
    ensures r.Some? ==> forall i', j' :: SpanMatch(s, head, tail, i', j') && i <= i' ==> r.value.0 <= i'
    ensures r.Some? ==> forall j' :: SpanMatch(s, head, tail, r.value.0, j') ==> j' <= r.value.1
    ensures r.None? ==> forall i', j' :: SpanMatch(s, head, tail, i', j') ==> i' < i
    decreases |s| + 1 - i
  {
    if i + |head| > |s| then None
    else if Occurs(s, head, i) && GreedyEnd(s, tail, i + |head|).Some? then
      Some((i, GreedyEnd(s, tail, i + |head|).value))
    else FindSpanFrom(s, head, tail, i + 1)
  }

  /** The span `(i, j)` that `re.search` returns for `head.*tail`: the match
      is `s[i..j + |tail|]`. */
  function FindSpan(s: string, head: string, tail: string): (r: Option<(nat, nat)>)
    ensures r.Some? ==> LeftmostLongest(s, head, tail, r.value.0, r.value.1)
    ensures r.None? <==> NoSpan(s, head, tail)
  {
    FindSpanFrom(s, head, tail, 0)
  }

  /** `head.*tail` occurs nowhere in `s`. */
  ghost predicate NoSpan(s: string, head: string, tail: string) {
    forall i, j :: !SpanMatch(s, head, tail, i, j)
  }

  /** `(i, j)` is the leftmost match, and the longest one at that start. */
  ghost predicate LeftmostLongest(s: string, head: string, tail: string, i: int, j: int) {
    && SpanMatch(s, head, tail, i, j)
    && (forall i', j' :: SpanMatch(s, head, tail, i', j') ==> i <= i')
    && (forall j' :: SpanMatch(s, head, tail, i, j') ==> j' <= j)
  }

  /** There is only one leftmost-longest match, so it is the one `FindSpan`
      returns. */
  lemma SpanFound(s: string, head: string, tail: string, i: int, j: int)
    requires LeftmostLongest(s, head, tail, i, j)
    ensures FindSpan(s, head, tail) == Some((i, j))
  {
  }

  // ---------------------------------------------------------------------
  // "(.+?)"(\s\d{3}){1}
  // ---------------------------------------------------------------------

  /** At index `k` stand a closing quote, one `\s` character and three digits. */
  predicate StatusAt(s: string, k: int) {
    0 <= k && k + 5 <= |s| && s[k] == '"' && IsSpace(s[k + 1])
    && IsDigit(s[k + 2]) && IsDigit(s[k + 3]) && IsDigit(s[k + 4])
  }

  /** The status pattern matches `s[q..k + 5]`: an opening quote at `q`, at
      least one dot character, the closing quote at `k`. */
  ghost predicate StatusMatch(s: string, q: int, k: int) {
    0 <= q && q + 2 <= k && DotRun(s, q + 1, k) && s[q] == '"' && StatusAt(s, k)
  }

  /** `(q, k)` is the leftmost match, and the shortest one at that start. */
  ghost predicate LeftmostShortest(s: string, q: int, k: int) {
    && StatusMatch(s, q, k)
    && (forall q', k' :: StatusMatch(s, q', k') ==> q <= q')
    && (forall k' :: StatusMatch(s, q, k') ==> k <= k')
  }

  /** Extends the lazy `.+?` one character at a time until the rest of the
      pattern matches. */
  function LazyClose(s: string, q: nat, k: nat): (r: Option<nat>)
    requires q + 2 <= k && DotRun(s, q + 1, k) && s[q] == '"'
    requires forall k' :: q + 2 <= k' < k ==> !StatusAt(s, k')
    ensures r.Some? ==> StatusMatch(s, q, r.value)
    ensures r.Some? ==> forall k' :: StatusMatch(s, q, k') ==> r.value <= k'
    ensures r.None? ==> forall k' :: !StatusMatch(s, q, k')
    decreases |s| - k
  {
    if StatusAt(s, k) then Some(k)
    else if k < |s| && IsDot(s[k]) then LazyClose(s, q, k + 1)
    else None
  }

  /** The leftmost match of the status pattern that starts at `q` or later. */
  function FindStatusFrom(s: string, q: nat): (r: Option<(nat, nat)>)
    ensures r.Some? ==> q <= r.value.0 && StatusMatch(s, r.value.0, r.value.1)
    ensures r.Some? ==> forall q', k' :: StatusMatch(s, q', k') && q <= q' ==> r.value.0 <= q'
    ensures r.Some? ==> forall k' :: StatusMatch(s, r.value.0, k') ==> r.value.1 <= k'
    ensures r.None? ==> forall q', k' :: StatusMatch(s, q', k') ==> q' < q
    decreases |s| - q
  {
    if q + 2 > |s| then None
    else if s[q] == '"' && IsDot(s[q + 1]) && LazyClose(s, q, q + 2).Some? then
      Some((q, LazyClose(s, q, q + 2).value))
    else FindStatusFrom(s, q + 1)
  }

  /** The match `(q, k)` that `re.search` returns for the status pattern: the
      whole match is `s[q..k + 5]` and its last three characters are the
      status code. */
  function FindStatus(s: string): (r: Option<(nat, nat)>)
    ensures r.Some? ==> LeftmostShortest(s, r.value.0, r.value.1)
    ensures r.None? <==> forall q, k :: !StatusMatch(s, q, k)
  {
    FindStatusFrom(s, 0)
  }

  // ---------------------------------------------------------------------
  // str.split('/')[-1] and str.strip('[]')
  // ---------------------------------------------------------------------

  /** The last `/`-separated segment of `s`. */
  function Basename(s: string): (r: string)
    ensures '/' !in r
    ensures |r| <= |s| && r == s[|s| - |r|..]
    ensures |r| < |s| ==> s[|s| - |r| - 1] == '/'
  {
    if s == [] then []
    else if s[|s| - 1] == '/' then []
    else Basename(s[..|s| - 1]) + [s[|s| - 1]]
  }

  /** Basename by its last character. */
  lemma BasenameSnoc(s: string, c: char)
    ensures Basename(s + [c]) == if c == '/' then [] else Basename(s) + [c]
  {
    assert (s + [c])[..|s|] == s;
  }

  /** Every directory in front of the last segment is discarded: two paths
      that end in the same segment have the same basename. */
  lemma {:induction false} BasenameIgnoresDirectory(dir: string, rest: string)
    ensures Basename(dir + "/" + rest) == Basename(rest)
    decreases |rest|
  {
    if rest == [] {
      BasenameSnoc(dir, '/');
    } else {
      var init, c := rest[..|rest| - 1], rest[|rest| - 1];
      assert dir + "/" + rest == (dir + "/" + init) + [c];
      assert rest == init + [c];
      BasenameSnoc(dir + "/" + init, c);
      BasenameSnoc(init, c);
      BasenameIgnoresDirectory(dir, init);
    }
  }

  /** A string with no `/` is its own basename. */
  lemma {:induction false} BasenameOfPlainName(name: string)
    requires '/' !in name
    ensures Basename(name) == name
    decreases |name|
  {
    if name != [] {
      assert name[|name| - 1] in name;
      var init := name[..|name| - 1];
      assert forall c :: c in init ==> c in name;
      BasenameOfPlainName(init);
      assert init + [name[|name| - 1]] == name;
    }
  }

  predicate IsBracket(c: char) {
    c == '[' || c == ']'
  }

  /** Where the leading `[` and `]` characters of `s[a..]` end. */
  function LeftEnd(s: string, a: nat): (r: nat)
    requires a <= |s|
    ensures a <= r <= |s|
    ensures forall k :: a <= k < r ==> IsBracket(s[k])
    ensures r == |s| || !IsBracket(s[r])
    decreases |s| - a
  {
    if a < |s| && IsBracket(s[a]) then LeftEnd(s, a + 1) else a
  }

  /** Where the trailing `[` and `]` characters of `s[lo..b]` start. */
  function RightEnd(s: string, lo: nat, b: nat): (r: nat)
    requires lo <= b <= |s|
    ensures lo <= r <= b
    ensures forall k :: r <= k < b ==> IsBracket(s[k])
    ensures r == lo || !IsBracket(s[r - 1])
    decreases b
  {
    if lo < b && IsBracket(s[b - 1]) then RightEnd(s, lo, b - 1) else b
  }

  /** `r` is what is left of `s` once the brackets are cut from both ends:
      the slice of `s` from `a` on, every character cut away a bracket, and
      `r` neither starting nor ending with one. */
  ghost predicate StrippedAt(s: string, a: int, r: string) {
    && 0 <= a && a + |r| <= |s| && r == s[a..a + |r|]
    && (forall k :: 0 <= k < a ==> IsBracket(s[k]))
    && (forall k :: a + |r| <= k < |s| ==> IsBracket(s[k]))
    && (r == [] || (!IsBracket(r[0]) && !IsBracket(r[|r| - 1])))
  }

  /** `s.strip('[]')`: leading brackets first, then trailing ones. */
  function Strip(s: string): (r: string)
    ensures StrippedAt(s, LeftEnd(s, 0), r)
  {
    var a := LeftEnd(s, 0);
    var b := RightEnd(s, a, |s|);
    s[a..b]
  }
}

/** Case-insensitive search in the scrollback of a pane, and stepping through its matches. */
module ScrollbackSearch {
  import opened Wrappers

  const U16_MAX := 65535

  datatype Point = Point(row: nat, col: nat)

  datatype SearchMatch = SearchMatch(start: Point, end: Point)

  // ------------------------------------------------------------- occurrences

  predicate OccursAt(haystack: string, needle: string, i: nat) {
    i + |needle| <= |haystack| && haystack[i..i + |needle|] == needle
  }

  /** The first occurrence at or behind `from`. */
  function FindFrom(haystack: string, needle: string, from: nat): (r: Option<nat>)
    ensures r.Some? ==> from <= r.value && r.value + |needle| <= |haystack|
    decreases |haystack| - from
  {
    if from + |needle| > |haystack| then None
    else if OccursAt(haystack, needle, from) then Some(from)
    else if from == |haystack| then None
    else FindFrom(haystack, needle, from + 1)
  }

  lemma {:induction false} FindsAnOccurrence(haystack: string, needle: string, from: nat)
    ensures var r := FindFrom(haystack, needle, from);
      r.Some? ==> OccursAt(haystack, needle, r.value)
    decreases |haystack| - from
  {
    if from < |haystack| {
      FindsAnOccurrence(haystack, needle, from + 1);
    }
  }

  lemma {:induction false} FindsTheFirst(haystack: string, needle: string, from: nat, i: nat)
    requires from <= i && OccursAt(haystack, needle, i)
    ensures var r := FindFrom(haystack, needle, from);
      r.Some? && r.value <= i
    decreases i - from
  {
    if !OccursAt(haystack, needle, from) {
      FindsTheFirst(haystack, needle, from + 1, i);
    }
  }

  /** The occurrences met when each search resumes behind the previous find. */
  function Greedy(haystack: string, needle: string, from: nat): seq<nat>
    requires needle != ""
    decreases |haystack| - from
  {
    var found := FindFrom(haystack, needle, from);
    if found.None? then [] else [found.value] + Greedy(haystack, needle, found.value + |needle|)
  }

  /** Pairwise disjoint occurrences from `from` on, in order. */
  predicate Packing(haystack: string, needle: string, from: nat, starts: seq<nat>) {
    && (forall k | 0 <= k < |starts| :: from <= starts[k] && OccursAt(haystack, needle, starts[k]))
    && (forall j, k | 0 <= j < k < |starts| :: starts[j] + |needle| <= starts[k])
  }

  predicate Covered(starts: seq<nat>, width: nat, i: nat) {
    exists k | 0 <= k < |starts| :: starts[k] <= i < starts[k] + width
  }

  lemma {:induction false} GreedyIsPacking(haystack: string, needle: string, from: nat)
    requires needle != ""
    ensures Packing(haystack, needle, from, Greedy(haystack, needle, from))
    decreases |haystack| - from
  {
    var found := FindFrom(haystack, needle, from);
    if found.Some? {
      var next := found.value + |needle|;
      GreedyIsPacking(haystack, needle, next);
      FindsAnOccurrence(haystack, needle, from);
      PackingGrows(haystack, needle, from, found.value, Greedy(haystack, needle, next));
    }
  }

  lemma PackingGrows(haystack: string, needle: string, from: nat, first: nat, rest: seq<nat>)
    requires from <= first && OccursAt(haystack, needle, first) && Packing(haystack, needle, first + |needle|, rest)
    ensures Packing(haystack, needle, from, [first] + rest)
  {
  }

  /** No occurrence starts outside the ones found. */
  lemma {:induction false} GreedyLeavesNoGap(haystack: string, needle: string, from: nat, i: nat)
    requires needle != "" && from <= i && OccursAt(haystack, needle, i)
    ensures Covered(Greedy(haystack, needle, from), |needle|, i)
    decreases |haystack| - from
  {
    FindsTheFirst(haystack, needle, from, i);
    var first := FindFrom(haystack, needle, from).value;
    var all, rest := Greedy(haystack, needle, from), Greedy(haystack, needle, first + |needle|);
    assert all[0] == first;
    if first + |needle| <= i {
      GreedyLeavesNoGap(haystack, needle, first + |needle|, i);
      var k :| 0 <= k < |rest| && rest[k] <= i < rest[k] + |needle|;
      assert all[k + 1] == rest[k];
    }
  }

  /** No set of disjoint occurrences is larger than the greedy one. */
  lemma {:induction false} GreedyIsMaximum(haystack: string, needle: string, from: nat, starts: seq<nat>)
    requires needle != "" && Packing(haystack, needle, from, starts)
    ensures |starts| <= |Greedy(haystack, needle, from)|
    decreases |starts|
  {
    if starts != [] {
      assert OccursAt(haystack, needle, starts[0]);
      FindsTheFirst(haystack, needle, from, starts[0]);
      var next := FindFrom(haystack, needle, from).value + |needle|;
      GreedyIsMaximum(haystack, needle, next, starts[1..]);
    }
  }

  // ----------------------------------------------------------------- columns

  /** How many bytes a character takes in UTF-8. */
  function Utf8Len(c: char): (n: nat)
    ensures 1 <= n <= 4
  {
    if c as nat < 0x80 then 1 else if c as nat < 0x800 then 2 else if c as nat < 0x1_0000 then 3 else 4
  }

  function Width(s: string): nat {
    if s == "" then 0 else Utf8Len(s[0]) + Width(s[1..])
  }

  /** The number of characters in the first `bytes` bytes of `line`, if they end between two characters.
      Slicing anywhere else aborts the program. */
  function ColumnAt(line: string, bytes: nat): Option<nat> {
    if bytes == 0 then Some(0)
    else if line == "" || Utf8Len(line[0]) > bytes then None
    else
      var rest := ColumnAt(line[1..], bytes - Utf8Len(line[0]));
      if rest.Some? then Some(rest.value + 1) else None
  }

  lemma {:induction false} ColumnAtIff(line: string, bytes: nat, k: nat)
    ensures ColumnAt(line, bytes) == Some(k) <==> k <= |line| && Width(line[..k]) == bytes
  {
    if 0 < k <= |line| {
      assert line[..k][0] == line[0] && line[..k][1..] == line[1..][..k - 1];
    }
    if bytes > 0 && line != "" && Utf8Len(line[0]) <= bytes && k > 0 {
      ColumnAtIff(line[1..], bytes - Utf8Len(line[0]), k - 1);
    }
  }

  lemma {:induction false} WidthGrows(s: string, j: nat, k: nat)
    requires j <= k <= |s|
    ensures Width(s[..j]) <= Width(s[..k]) && (j < k ==> Width(s[..j]) < Width(s[..k]))
  {
    if j > 0 {
      WidthGrows(s[1..], j - 1, k - 1);
      assert s[..j][1..] == s[1..][..j - 1] && s[..k][1..] == s[1..][..k - 1];
    }
  }

  /** The column, in `line`, of a character of its lower-case form. */
  function ColumnOf(line: string, haystack: string, at: nat): Option<nat> {
    if at <= |haystack| then ColumnAt(line, Width(haystack[..at])) else None
  }

  function ColumnsOf(line: string, haystack: string, starts: seq<nat>): Option<seq<nat>> {
    if starts == [] then Some([])
    else
      var n := |starts| - 1;
      var front, last := ColumnsOf(line, haystack, starts[..n]), ColumnOf(line, haystack, starts[n]);
      if front.Some? && last.Some? then Some(front.value + [last.value]) else None
  }

  lemma {:induction false} ColumnsOfHolds(line: string, haystack: string, starts: seq<nat>)
    ensures var cols := ColumnsOf(line, haystack, starts);
      && (cols.Some? <==> forall i | 0 <= i < |starts| :: ColumnOf(line, haystack, starts[i]).Some?)
      && (cols.Some? ==>
            && |cols.value| == |starts|
            && forall i | 0 <= i < |starts| :: ColumnOf(line, haystack, starts[i]) == Some(cols.value[i]))
  {
    if starts != [] {
      var n := |starts| - 1;
      ColumnsOfHolds(line, haystack, starts[..n]);
      assert forall i | 0 <= i < n :: starts[..n][i] == starts[i];
    }
  }

  // --------------------------------------------------------------- one line

  /** Unicode lower-casing, which need not keep the number of characters or bytes. */
  type Lowering = string -> string

  function LowerChar(c: char): char {
    if 'A' <= c <= 'Z' then c - 'A' + 'a' else c
  }

  /** What it is on ASCII text. */
  function LowerAscii(s: string): (r: string)
    ensures |r| == |s|
  {
    seq(|s|, i requires 0 <= i < |s| => LowerChar(s[i]))
  }

  predicate Ascii(s: string) {
    forall i | 0 <= i < |s| :: s[i] < 128 as char
  }

  predicate KeepsWidths(line: string, haystack: string) {
    |haystack| == |line| && forall i | 0 <= i < |line| :: Utf8Len(haystack[i]) == Utf8Len(line[i])
  }

  lemma AsciiKeepsWidths(line: string)
    requires Ascii(line)
    ensures KeepsWidths(line, LowerAscii(line))
  {
  }

  lemma {:induction false} SameWidth(line: string, haystack: string, k: nat)
    requires KeepsWidths(line, haystack) && k <= |line|
    ensures Width(line[..k]) == Width(haystack[..k])
  {
    if k > 0 {
      SameWidth(line[1..], haystack[1..], k - 1);
      assert line[..k][1..] == line[1..][..k - 1] && haystack[..k][1..] == haystack[1..][..k - 1];
    }
  }

  function Capped(col: nat): nat {
    if col > U16_MAX then U16_MAX else col
  }

  function MatchAt(row: nat, start: nat, width: nat): SearchMatch {
    SearchMatch(Point(row, Capped(start)), Point(row, Capped(if width > 0 then start + width - 1 else start)))
  }

  /** The columns at which the matches of a line start, before capping; none if the program aborts. */
  function LineColumns(line: string, query: string, lower: Lowering): Option<seq<nat>> {
    if lower(query) == "" then Some([]) else ColumnsOf(line, lower(line), Greedy(lower(line), lower(query), 0))
  }

  lemma GreedyInside(haystack: string, needle: string, from: nat)
    requires needle != ""
    ensures forall i | 0 <= i < |Greedy(haystack, needle, from)| :: Greedy(haystack, needle, from)[i] <= |haystack|
  {
    GreedyIsPacking(haystack, needle, from);
    var starts := Greedy(haystack, needle, from);
    assert forall i | 0 <= i < |starts| :: OccursAt(haystack, needle, starts[i]);
  }

  /** Where lower-casing keeps the width of each character, as on ASCII text, the columns are the very
      positions of the greedy occurrences, and the search never aborts. */
  lemma ColumnsAreStarts(line: string, query: string, lower: Lowering)
    requires lower(query) != "" && KeepsWidths(line, lower(line))
    ensures LineColumns(line, query, lower) == Some(Greedy(lower(line), lower(query), 0))
  {
    var haystack, starts := lower(line), Greedy(lower(line), lower(query), 0);
    GreedyInside(haystack, lower(query), 0);
    ColumnsOfHolds(line, haystack, starts);
    forall i | 0 <= i < |starts|
      ensures ColumnOf(line, haystack, starts[i]) == Some(starts[i])
    {
      SameWidth(line, haystack, starts[i]);
      ColumnAtIff(line, Width(haystack[..starts[i]]), starts[i]);
    }
    assert LineColumns(line, query, lower).value == starts;
  }

  /** In bytes, position `at` of the lower-case form is between no two characters of the line itself. */
  predicate Misaligned(line: string, haystack: string, at: nat) {
    at <= |haystack| && forall k | 0 <= k <= |line| :: Width(line[..k]) != Width(haystack[..at])
  }

  predicate SomeMisaligned(line: string, haystack: string, starts: seq<nat>) {
    exists i | 0 <= i < |starts| :: Misaligned(line, haystack, starts[i])
  }

  /** The search of a line aborts exactly when some greedy occurrence begins where the line has no boundary. */
  lemma AbortsIff(line: string, query: string, lower: Lowering)
    requires lower(query) != ""
    ensures LineColumns(line, query, lower).None? <==> SomeMisaligned(line, lower(line), Greedy(lower(line), lower(query), 0))
  {
    GreedyInside(lower(line), lower(query), 0);
    NoColumnsIff(line, lower(line), Greedy(lower(line), lower(query), 0));
  }

  lemma NoColumnsIff(line: string, haystack: string, starts: seq<nat>)
    requires forall i | 0 <= i < |starts| :: starts[i] <= |haystack|
    ensures ColumnsOf(line, haystack, starts).None? <==> SomeMisaligned(line, haystack, starts)
  {
    ColumnsOfHolds(line, haystack, starts);
    forall i | 0 <= i < |starts|
      ensures ColumnOf(line, haystack, starts[i]).None? <==> Misaligned(line, haystack, starts[i])
    {
      NoColumnIff(line, Width(haystack[..starts[i]]));
    }
    if i :| 0 <= i < |starts| && Misaligned(line, haystack, starts[i]) {
      assert ColumnOf(line, haystack, starts[i]).None?;
    }
    if ColumnsOf(line, haystack, starts).None? {
      var i :| 0 <= i < |starts| && ColumnOf(line, haystack, starts[i]).None?;
      assert Misaligned(line, haystack, starts[i]);
    }
  }

  lemma NoColumnIff(line: string, bytes: nat)
    ensures ColumnAt(line, bytes).None? <==> forall k | 0 <= k <= |line| :: Width(line[..k]) != bytes
  {
    forall k | 0 <= k <= |line|
      ensures Width(line[..k]) == bytes <==> ColumnAt(line, bytes) == Some(k)
    {
      ColumnAtIff(line, bytes, k);
    }
    if ColumnAt(line, bytes).Some? {
      ColumnAtIff(line, bytes, ColumnAt(line, bytes).value);
    }
  }

  /** The Kelvin sign takes three bytes and its lower-case form one: searching behind it aborts. */
  lemma KelvinSignAborts(lower: Lowering)
    requires lower("\U{212A}x") == "kx" && lower("x") == "x"
    ensures LineColumns("\U{212A}x", "x", lower).None?
  {
    var line := "\U{212A}x";
    assert line[1..] == "x" && "x"[1..] == "";
    assert "kx"[0..1] == "k" && "kx"[1..2] == "x";
    assert OccursAt("kx", "x", 1) && !OccursAt("kx", "x", 0);
    assert FindFrom("kx", "x", 1) == Some(1);
    assert Greedy("kx", "x", 0)[0] == 1;
    assert "kx"[..1] == "k" && Width("k") == 1;
    GreedyInside("kx", "x", 0);
    ColumnsOfHolds(line, "kx", Greedy("kx", "x", 0));
    assert ColumnAt(line, 1).None?;
  }

  function MatchesAt(row: nat, starts: seq<nat>, width: nat): (r: seq<SearchMatch>)
    ensures |r| == |starts|
  {
    if starts == [] then []
    else MatchesAt(row, starts[..|starts| - 1], width) + [MatchAt(row, starts[|starts| - 1], width)]
  }

  lemma {:induction false} MatchesIndex(row: nat, starts: seq<nat>, width: nat, k: nat)
    requires k < |starts|
    ensures MatchesAt(row, starts, width)[k] == MatchAt(row, starts[k], width)
  {
    if k < |starts| - 1 {
      MatchesIndex(row, starts[..|starts| - 1], width, k);
    }
  }

  /** `None` if the program aborts. */
  method FindMatchesInLine(row: nat, line: string, query: string, lower: Lowering) returns (out: Option<seq<SearchMatch>>)
    ensures out.Some? <==> LineColumns(line, query, lower).Some?
    ensures out.Some? ==> out.value == MatchesAt(row, LineColumns(line, query, lower).value, |query|)
  {
    var needle := lower(query);
    if needle == "" {
      return Some([]);
    }
    var queryWidth := if |query| > 1 then |query| else 1;
    out := FindInLowered(row, line, lower(line), needle, queryWidth, |query|);
  }

  /** The loop over a line in lower case. */
  method FindInLowered(row: nat, line: string, haystack: string, needle: string, queryWidth: nat, ghost width: nat)
    returns (out: Option<seq<SearchMatch>>)
    requires needle != "" && queryWidth == if width > 1 then width else 1
    ensures var cols := ColumnsOf(line, haystack, Greedy(haystack, needle, 0));
      (out.Some? <==> cols.Some?) && (out.Some? ==> out.value == MatchesAt(row, cols.value, width))
  {
    var matches: seq<SearchMatch> := [];
    ghost var all := Greedy(haystack, needle, 0);
    var offset := 0;
    while true
      invariant offset <= |haystack|
      invariant Collected(row, line, haystack, needle, offset, width, all, matches)
      decreases |haystack| - offset
    {
      var found := FindFrom(haystack, needle, offset);
      if found.None? {
        break;
      }
      var startByte := Width(haystack[..found.value]);
      var column := ColumnAt(line, startByte);
      OneMoreMatch(row, line, haystack, needle, offset, width, all, matches, found.value, column);
      if column.None? {
        return None;
      }
      var endCol := column.value + queryWidth - 1;
      matches := matches + [SearchMatch(Point(row, Capped(column.value)), Point(row, Capped(endCol)))];
      offset := found.value + |needle|;
      if offset >= |haystack| {
        break;
      }
    }
    CollectedAll(row, line, haystack, needle, offset, width, all, matches);
    return Some(matches);
  }

  /** The matches so far are those of the first occurrences; the others are still ahead of `offset`. */
  ghost predicate Collected(row: nat, line: string, haystack: string, needle: string, offset: nat, width: nat, all: seq<nat>, matches: seq<SearchMatch>)
    requires needle != ""
  {
    && |matches| <= |all|
    && (forall i | 0 <= i < |matches| ::
          ColumnOf(line, haystack, all[i]).Some? && matches[i] == MatchAt(row, ColumnOf(line, haystack, all[i]).value, width))
    && Greedy(haystack, needle, offset) == all[|matches|..]
  }

  lemma OneMoreMatch(row: nat, line: string, haystack: string, needle: string, offset: nat, width: nat, all: seq<nat>, matches: seq<SearchMatch>,
                     first: nat, column: Option<nat>)
    requires needle != "" && Collected(row, line, haystack, needle, offset, width, all, matches)
    requires FindFrom(haystack, needle, offset) == Some(first) && column == ColumnOf(line, haystack, first)
    ensures column.Some? ==>
      Collected(row, line, haystack, needle, first + |needle|, width, all, matches + [MatchAt(row, column.value, width)])
    ensures column.None? ==> ColumnsOf(line, haystack, all).None?
  {
    var k := |matches|;
    assert all[k..] == [first] + Greedy(haystack, needle, first + |needle|);
    assert all[k] == all[k..][0] == first && all[k + 1..] == all[k..][1..];
    ColumnsOfHolds(line, haystack, all);
  }

  lemma CollectedAll(row: nat, line: string, haystack: string, needle: string, offset: nat, width: nat, all: seq<nat>, matches: seq<SearchMatch>)
    requires needle != "" && Collected(row, line, haystack, needle, offset, width, all, matches)
    requires offset >= |haystack| || FindFrom(haystack, needle, offset).None?
    ensures ColumnsOf(line, haystack, all).Some? && matches == MatchesAt(row, ColumnsOf(line, haystack, all).value, width)
  {
    assert all[|matches|..] == [];
    ColumnsOfHolds(line, haystack, all);
    var cols := ColumnsOf(line, haystack, all).value;
    forall i | 0 <= i < |cols|
      ensures MatchesAt(row, cols, width)[i] == matches[i]
    {
      MatchesIndex(row, cols, width, i);
    }
  }

  // ------------------------------------------------------------- several lines

  predicate TextSearchable(lines: seq<string>, query: string, lower: Lowering) {
    forall i | 0 <= i < |lines| :: LineColumns(lines[i], query, lower).Some?
  }

  /** The start columns of every line. */
  function TextColumns(lines: seq<string>, query: string, lower: Lowering): (r: seq<seq<nat>>)
    requires TextSearchable(lines, query, lower)
    ensures |r| == |lines| && forall i | 0 <= i < |lines| :: Some(r[i]) == LineColumns(lines[i], query, lower)
  {
    seq(|lines|, i requires 0 <= i < |lines| => LineColumns(lines[i], query, lower).value)
  }

  /** The matches of the first `n` lines, row by row. */
  function RowMatches(firstRow: nat, starts: seq<seq<nat>>, width: nat, n: nat): seq<SearchMatch>
    requires n <= |starts|
  {
    if n == 0 then []
    else RowMatches(firstRow, starts, width, n - 1) + MatchesAt(firstRow + n - 1, starts[n - 1], width)
  }

  function TextMatches(firstRow: nat, lines: seq<string>, query: string, lower: Lowering): seq<SearchMatch>
    requires TextSearchable(lines, query, lower)
  {
    RowMatches(firstRow, TextColumns(lines, query, lower), |query|, |lines|)
  }

  /** `None` if the program aborts. */
  method FindMatchesInText(firstRow: nat, lines: seq<string>, query: string, lower: Lowering) returns (out: Option<seq<SearchMatch>>)
    ensures out.Some? <==> TextSearchable(lines, query, lower)
    ensures out.Some? ==> out.value == TextMatches(firstRow, lines, query, lower)
  {
    var matches: seq<SearchMatch> := [];
    ghost var cols: seq<seq<nat>> := [];
    for row := 0 to |lines|
      invariant HaveColumns(lines, query, lower, cols, row) && matches == RowMatches(firstRow, cols, |query|, row)
    {
      var found := FindMatchesInLine(firstRow + row, lines[row], query, lower);
      if found.None? {
        return None;
      }
      ghost var more := LineColumns(lines[row], query, lower).value;
      OneMoreLine(firstRow, lines, query, lower, cols, more, row);
      matches := matches + found.value;
      cols := cols + [more];
    }
    assert cols == TextColumns(lines, query, lower);
    return Some(matches);
  }

  /** The columns of the first `n` lines. */
  ghost predicate HaveColumns(lines: seq<string>, query: string, lower: Lowering, cols: seq<seq<nat>>, n: nat) {
    |cols| == n <= |lines| && forall i | 0 <= i < n :: LineColumns(lines[i], query, lower) == Some(cols[i])
  }

  lemma OneMoreLine(firstRow: nat, lines: seq<string>, query: string, lower: Lowering, cols: seq<seq<nat>>, more: seq<nat>, n: nat)
    requires HaveColumns(lines, query, lower, cols, n) && n < |lines| && LineColumns(lines[n], query, lower) == Some(more)
    ensures HaveColumns(lines, query, lower, cols + [more], n + 1)
    ensures RowMatches(firstRow, cols + [more], |query|, n + 1)
         == RowMatches(firstRow, cols, |query|, n) + MatchesAt(firstRow + n, more, |query|)
  {
    RowsAppend(firstRow, cols, more, |query|, n);
  }

  lemma {:induction false} RowsAppend(firstRow: nat, cols: seq<seq<nat>>, more: seq<nat>, width: nat, n: nat)
    requires n <= |cols|
    ensures RowMatches(firstRow, cols + [more], width, n) == RowMatches(firstRow, cols, width, n)
  {
    if n > 0 {
      RowsAppend(firstRow, cols, more, width, n - 1);
    }
  }

  /** The order of matches: by row, then by column. */
  predicate Before(a: SearchMatch, b: SearchMatch) {
    a.start.row < b.start.row || (a.start.row == b.start.row && a.start.col < b.start.col)
  }

  /** How many matches the first `n` lines have. */
  function Total(starts: seq<seq<nat>>, n: nat): nat
    requires n <= |starts|
  {
    if n == 0 then 0 else Total(starts, n - 1) + |starts[n - 1]|
  }

  lemma {:induction false} RowMatchesIndex(firstRow: nat, starts: seq<seq<nat>>, width: nat, n: nat, i: nat, k: nat)
    requires i < n <= |starts| && k < |starts[i]|
    ensures Total(starts, i) + k < |RowMatches(firstRow, starts, width, n)|
    ensures RowMatches(firstRow, starts, width, n)[Total(starts, i) + k] == MatchAt(firstRow + i, starts[i][k], width)
  {
    RowMatchesCount(firstRow, starts, width, n - 1);
    if i < n - 1 {
      RowMatchesIndex(firstRow, starts, width, n - 1, i, k);
    } else {
      MatchesIndex(firstRow + i, starts[i], width, k);
    }
  }

  lemma {:induction false} RowMatchesCount(firstRow: nat, starts: seq<seq<nat>>, width: nat, n: nat)
    requires n <= |starts|
    ensures |RowMatches(firstRow, starts, width, n)| == Total(starts, n)
  {
    if n > 0 {
      RowMatchesCount(firstRow, starts, width, n - 1);
    }
  }

  predicate Covers(m: SearchMatch, col: nat) {
    m.start.col <= col <= m.end.col
  }

  /** `m` covers the `width` columns from `col` on in its row, as far as columns below the largest can tell. */
  predicate Spans(m: SearchMatch, row: nat, col: nat, width: nat) {
    && m.start.row == m.end.row == row
    && m.start.col <= U16_MAX && m.end.col <= U16_MAX
    && forall j: nat | j < U16_MAX :: Covers(m, j) <==> col <= j < col + width
  }

  lemma MatchSpans(row: nat, col: nat, width: nat)
    requires width > 0
    ensures Spans(MatchAt(row, col, width), row, col, width)
  {
  }

  /** The matches of a text, line by line and from left to right: the one for the `k`-th occurrence in line
      `i` covers, in that line's row, as many columns as the query has characters. */
  lemma MatchesSpanOccurrences(firstRow: nat, lines: seq<string>, query: string, lower: Lowering, cols: seq<seq<nat>>, i: nat, k: nat)
    requires HaveColumns(lines, query, lower, cols, |lines|) && query != ""
    ensures TextSearchable(lines, query, lower)
    ensures var ms := TextMatches(firstRow, lines, query, lower);
      && |ms| == Total(cols, |lines|)
      && (i < |lines| && k < |cols[i]| ==>
            Total(cols, i) + k < |ms| && Spans(ms[Total(cols, i) + k], firstRow + i, cols[i][k], |query|))
  {
    HaveTextColumns(lines, query, lower, cols);
    RowsSpan(firstRow, cols, |query|, i, k);
  }

  lemma HaveTextColumns(lines: seq<string>, query: string, lower: Lowering, cols: seq<seq<nat>>)
    requires HaveColumns(lines, query, lower, cols, |lines|)
    ensures TextSearchable(lines, query, lower) && TextColumns(lines, query, lower) == cols
  {
    assert forall i | 0 <= i < |lines| :: LineColumns(lines[i], query, lower) == Some(cols[i]);
  }

  lemma RowsSpan(firstRow: nat, cols: seq<seq<nat>>, width: nat, i: nat, k: nat)
    requires width > 0
    ensures var ms := RowMatches(firstRow, cols, width, |cols|);
      && |ms| == Total(cols, |cols|)
      && (i < |cols| && k < |cols[i]| ==>
            Total(cols, i) + k < |ms| && Spans(ms[Total(cols, i) + k], firstRow + i, cols[i][k], width))
  {
    RowMatchesCount(firstRow, cols, width, |cols|);
    if i < |cols| && k < |cols[i]| {
      RowMatchesIndex(firstRow, cols, width, |cols|, i, k);
      MatchSpans(firstRow + i, cols[i][k], width);
    }
  }

  predicate StrictlyOrdered(ms: seq<SearchMatch>) {
    forall i, j | 0 <= i < j < |ms| :: Before(ms[i], ms[j])
  }

  /** The last but one match already starts at the largest column a match can report. */
  predicate Crowded(starts: seq<nat>) {
    |starts| >= 2 && starts[|starts| - 2] >= U16_MAX
  }

  predicate Spaced(starts: seq<nat>) {
    forall j, k | 0 <= j < k < |starts| :: starts[j] < starts[k]
  }

  lemma LineOrderedIff(row: nat, starts: seq<nat>, width: nat)
    requires Spaced(starts)
    ensures StrictlyOrdered(MatchesAt(row, starts, width)) <==> !Crowded(starts)
  {
    var ms, n := MatchesAt(row, starts, width), |starts|;
    forall k | 0 <= k < n
      ensures ms[k] == MatchAt(row, starts[k], width)
    {
      MatchesIndex(row, starts, width, k);
    }
    if Crowded(starts) {
      assert starts[n - 2] < starts[n - 1];
      assert !Before(ms[n - 2], ms[n - 1]);
    } else {
      forall i, j | 0 <= i < j < n
        ensures Before(ms[i], ms[j])
      {
        assert i < n - 2 ==> starts[i] < starts[n - 2];
      }
    }
  }

  lemma {:induction false} RowsInRange(firstRow: nat, starts: seq<seq<nat>>, width: nat, n: nat, i: nat)
    requires n <= |starts| && i < |RowMatches(firstRow, starts, width, n)|
    ensures firstRow <= RowMatches(firstRow, starts, width, n)[i].start.row < firstRow + n
  {
    var front := RowMatches(firstRow, starts, width, n - 1);
    if i < |front| {
      RowsInRange(firstRow, starts, width, n - 1, i);
    } else {
      MatchesIndex(firstRow + n - 1, starts[n - 1], width, i - |front|);
    }
  }

  lemma {:induction false} RowsOrderedIff(firstRow: nat, starts: seq<seq<nat>>, width: nat, n: nat)
    requires n <= |starts| && forall i | 0 <= i < n :: Spaced(starts[i])
    ensures StrictlyOrdered(RowMatches(firstRow, starts, width, n)) <==> forall i | 0 <= i < n :: !Crowded(starts[i])
  {
    if n > 0 {
      var front, back := RowMatches(firstRow, starts, width, n - 1), MatchesAt(firstRow + n - 1, starts[n - 1], width);
      RowsOrderedIff(firstRow, starts, width, n - 1);
      LineOrderedIff(firstRow + n - 1, starts[n - 1], width);
      forall i, j | 0 <= i < |front| && 0 <= j < |back|
        ensures Before(front[i], back[j])
      {
        RowsInRange(firstRow, starts, width, n - 1, i);
        MatchesIndex(firstRow + n - 1, starts[n - 1], width, j);
      }
      OrderedParts(front, back);
    }
  }

  lemma ColumnsAreSpaced(line: string, query: string, lower: Lowering)
    requires LineColumns(line, query, lower).Some?
    ensures Spaced(LineColumns(line, query, lower).value)
  {
    if lower(query) != "" {
      var haystack, starts := lower(line), Greedy(lower(line), lower(query), 0);
      var cols := LineColumns(line, query, lower).value;
      GreedyIsPacking(haystack, lower(query), 0);
      GreedyInside(haystack, lower(query), 0);
      ColumnsOfHolds(line, haystack, starts);
      forall j, k | 0 <= j < k < |cols|
        ensures cols[j] < cols[k]
      {
        assert starts[j] + |lower(query)| <= starts[k];
        LaterColumn(line, haystack, starts[j], starts[k], cols[j], cols[k]);
      }
    }
  }

  lemma LaterColumn(line: string, haystack: string, i: nat, j: nat, col: nat, later: nat)
    requires i < j && ColumnOf(line, haystack, i) == Some(col) && ColumnOf(line, haystack, j) == Some(later)
    ensures col < later
  {
    WidthGrows(haystack, i, j);
    ColumnAtIff(line, Width(haystack[..i]), col);
    ColumnAtIff(line, Width(haystack[..j]), later);
    if later <= col {
      WidthGrows(line, later, col);
    }
  }

  /** Exactly when the keys of all matches of a text are strictly increasing: no line has two matches
      starting at or behind the largest column. */
  lemma TextOrderedIff(firstRow: nat, lines: seq<string>, query: string, lower: Lowering)
    requires TextSearchable(lines, query, lower)
    ensures StrictlyOrdered(TextMatches(firstRow, lines, query, lower))
       <==> forall i | 0 <= i < |lines| :: !Crowded(LineColumns(lines[i], query, lower).value)
  {
    var cols := TextColumns(lines, query, lower);
    forall i | 0 <= i < |lines|
      ensures Spaced(cols[i])
    {
      ColumnsAreSpaced(lines[i], query, lower);
    }
    RowsOrderedIff(firstRow, cols, |query|, |lines|);
    assert forall i | 0 <= i < |lines| :: cols[i] == LineColumns(lines[i], query, lower).value;
  }

  lemma OrderedParts(front: seq<SearchMatch>, back: seq<SearchMatch>)
    requires forall i, j | 0 <= i < |front| && 0 <= j < |back| :: Before(front[i], back[j])
    ensures StrictlyOrdered(front + back) <==> StrictlyOrdered(front) && StrictlyOrdered(back)
  {
    var all := front + back;
    if StrictlyOrdered(all) {
      forall i, j | 0 <= i < j < |front|
        ensures Before(front[i], front[j])
      {
        assert Before(all[i], all[j]);
      }
      forall i, j | 0 <= i < j < |back|
        ensures Before(back[i], back[j])
      {
        assert Before(all[|front| + i], all[|front| + j]);
      }
    }
  }

  // --------------------------------------------------------------- navigation

  function FirstAfter(ms: seq<SearchMatch>, a: SearchMatch): (r: Option<SearchMatch>)
    ensures r.Some? ==> r.value in ms && Before(a, r.value)
  {
    if ms == [] then None else if Before(a, ms[0]) then Some(ms[0]) else FirstAfter(ms[1..], a)
  }

  function LastBefore(ms: seq<SearchMatch>, a: SearchMatch): (r: Option<SearchMatch>)
    ensures r.Some? ==> r.value in ms && Before(r.value, a)
    decreases |ms|
  {
    if ms == [] then None
    else if Before(ms[|ms| - 1], a) then Some(ms[|ms| - 1]) else LastBefore(ms[..|ms| - 1], a)
  }

  function FirstFromRow(ms: seq<SearchMatch>, row: nat): Option<SearchMatch> {
    if ms == [] then None else if ms[0].start.row >= row then Some(ms[0]) else FirstFromRow(ms[1..], row)
  }

  function LastToRow(ms: seq<SearchMatch>, row: nat): Option<SearchMatch>
    decreases |ms|
  {
    if ms == [] then None
    else if ms[|ms| - 1].start.row <= row then Some(ms[|ms| - 1]) else LastToRow(ms[..|ms| - 1], row)
  }

  /** A refresh keeps the active match only if the new scan still has it. */
  function Kept(active: Option<SearchMatch>, scan: Option<seq<SearchMatch>>): Option<SearchMatch> {
    if active.Some? && scan.Some? && active.value in scan.value then active else None
  }

  /** Where a step goes, given the refreshed active match and the viewport. */
  function Adjacent(ms: seq<SearchMatch>, active: Option<SearchMatch>, forward: bool, top: Option<nat>, rows: nat)
    : Option<SearchMatch>
    requires ms != []
  {
    if active.Some? then
      if forward then FirstAfter(ms, active.value) else LastBefore(ms, active.value)
    else
      var near :=
        if top.None? then None
        else if forward then FirstFromRow(ms, top.value)
        else LastToRow(ms, top.value + if rows > 0 then rows - 1 else 0);
      if near.Some? then near else if forward then Some(ms[0]) else Some(ms[|ms| - 1])
  }

  class SearchState {
    var active: Option<SearchMatch>
    var scrollbackMatches: Option<seq<SearchMatch>>

    constructor (active: Option<SearchMatch>)
      ensures this.active == active && scrollbackMatches == None
    {
      this.active, scrollbackMatches := active, None;
    }

    method Refresh(scan: Option<seq<SearchMatch>>)
      modifies this
      ensures active == Kept(old(active), scan) && scrollbackMatches == scan
      ensures active.Some? <==> old(active).Some? && scan.Some? && old(active).value in scan.value
      ensures active.Some? ==> active == old(active)
    {
      var previous := active;
      scrollbackMatches := scan;
      if previous.Some? && (scan.None? || previous.value !in scan.value) {
        active := None;
      }
    }

    method SelectAdjacent(forward: bool, scan: Option<seq<SearchMatch>>, top: Option<nat>, rows: nat) returns (moved: bool)
      modifies this
      ensures scrollbackMatches == scan
      ensures var kept := Kept(old(active), scan);
        var goal := if scan.Some? && scan.value != [] then Adjacent(scan.value, kept, forward, top, rows) else None;
        moved == goal.Some? && active == if moved then goal else kept
    {
      Refresh(scan);
      if scrollbackMatches.None? || scrollbackMatches.value == [] {
        return false;
      }
      var found := FindAdjacent(scrollbackMatches.value, active, forward, top, rows);
      if found.Some? {
        active := found;
      }
      return found.Some?;
    }
  }

  method FindAdjacent(ms: seq<SearchMatch>, active: Option<SearchMatch>, forward: bool, top: Option<nat>, rows: nat)
    returns (found: Option<SearchMatch>)
    requires ms != []
    ensures found == Adjacent(ms, active, forward, top, rows)
  {
    if active.Some? {
      if forward {
        found := FindFirstAfter(ms, active.value);
      } else {
        found := FindLastBefore(ms, active.value);
      }
      return;
    }
    found := None;
    if top.Some? {
      if forward {
        found := FindFirstFromRow(ms, top.value);
      } else {
        found := FindLastToRow(ms, top.value + if rows > 0 then rows - 1 else 0);
      }
    }
    if found.None? {
      found := Some(if forward then ms[0] else ms[|ms| - 1]);
    }
  }

  method FindFirstAfter(ms: seq<SearchMatch>, a: SearchMatch) returns (found: Option<SearchMatch>)
    ensures found == FirstAfter(ms, a)
  {
    for i := 0 to |ms|
      invariant FirstAfter(ms, a) == FirstAfter(ms[i..], a)
    {
      if Before(a, ms[i]) {
        return Some(ms[i]);
      }
      assert ms[i..][1..] == ms[i + 1..];
    }
    return None;
  }

  method FindLastBefore(ms: seq<SearchMatch>, a: SearchMatch) returns (found: Option<SearchMatch>)
    ensures found == LastBefore(ms, a)
  {
    assert ms[..|ms|] == ms;
    for i := |ms| downto 0
      invariant LastBefore(ms, a) == LastBefore(ms[..i], a)
    {
      if Before(ms[i], a) {
        return Some(ms[i]);
      }
      assert ms[..i + 1][..i] == ms[..i];
    }
    return None;
  }

  method FindFirstFromRow(ms: seq<SearchMatch>, row: nat) returns (found: Option<SearchMatch>)
    ensures found == FirstFromRow(ms, row)
  {
    for i := 0 to |ms|
      invariant FirstFromRow(ms, row) == FirstFromRow(ms[i..], row)
    {
      if ms[i].start.row >= row {
        return Some(ms[i]);
      }
      assert ms[i..][1..] == ms[i + 1..];
    }
    return None;
  }

  method FindLastToRow(ms: seq<SearchMatch>, row: nat) returns (found: Option<SearchMatch>)
    ensures found == LastToRow(ms, row)
  {
    assert ms[..|ms|] == ms;
    for i := |ms| downto 0
      invariant LastToRow(ms, row) == LastToRow(ms[..i], row)
    {
      if ms[i].start.row <= row {
        return Some(ms[i]);
      }
      assert ms[..i + 1][..i] == ms[..i];
    }
    return None;
  }

  lemma {:induction false} FirstAfterIs(ms: seq<SearchMatch>, k: nat, a: SearchMatch)
    requires k <= |ms|
    requires forall i | 0 <= i < k :: !Before(a, ms[i])
    requires k < |ms| ==> Before(a, ms[k])
    ensures FirstAfter(ms, a) == if k < |ms| then Some(ms[k]) else None
  {
    if k > 0 {
      assert !Before(a, ms[0]);
      FirstAfterIs(ms[1..], k - 1, a);
    }
  }

  lemma {:induction false} LastBeforeIs(ms: seq<SearchMatch>, n: nat, a: SearchMatch)
    requires n <= |ms| && forall i | n <= i < |ms| :: !Before(ms[i], a)
    requires n > 0 ==> Before(ms[n - 1], a)
    ensures LastBefore(ms, a) == if n > 0 then Some(ms[n - 1]) else None
    decreases |ms|
  {
    if n < |ms| {
      assert !Before(ms[|ms| - 1], a);
      LastBeforeIs(ms[..|ms| - 1], n, a);
    }
  }

  /** From top to bottom, the first match after the active one. Without an active match it is the first in
      the viewport or below it, and the very first if there is none or no viewport. */
  predicate IsNext(ms: seq<SearchMatch>, active: Option<SearchMatch>, top: Option<nat>, k: nat) {
    && k < |ms|
    && if active.Some? then Before(active.value, ms[k]) && forall i | 0 <= i < k :: !Before(active.value, ms[i])
       else if top.Some? && (exists i | 0 <= i < |ms| :: ms[i].start.row >= top.value)
         then ms[k].start.row >= top.value && forall i | 0 <= i < k :: ms[i].start.row < top.value
       else k == 0
  }

  /** A row above the viewport of `rows` rows, or in it; one of no rows still has its top row. */
  predicate Seen(row: nat, top: nat, rows: nat) {
    row <= top || row < top + rows
  }

  /** The last match before the active one. Without an active match it is the last in the viewport or above
      it, and the very last if there is none or no viewport. */
  predicate IsPrevious(ms: seq<SearchMatch>, active: Option<SearchMatch>, top: Option<nat>, rows: nat, k: nat) {
    && k < |ms|
    && if active.Some? then Before(ms[k], active.value) && forall i | k < i < |ms| :: !Before(ms[i], active.value)
       else if top.Some? && (exists i | 0 <= i < |ms| :: Seen(ms[i].start.row, top.value, rows))
         then Seen(ms[k].start.row, top.value, rows) && forall i | k < i < |ms| :: !Seen(ms[i].start.row, top.value, rows)
       else k == |ms| - 1
  }

  lemma {:induction false} FirstFromRowIs(ms: seq<SearchMatch>, row: nat, k: nat)
    requires k <= |ms| && forall i | 0 <= i < k :: ms[i].start.row < row
    requires k < |ms| ==> ms[k].start.row >= row
    ensures FirstFromRow(ms, row) == if k < |ms| then Some(ms[k]) else None
  {
    if k > 0 {
      assert ms[0].start.row < row;
      FirstFromRowIs(ms[1..], row, k - 1);
    }
  }

  lemma {:induction false} LastToRowIs(ms: seq<SearchMatch>, row: nat, n: nat)
    requires n <= |ms| && forall i | n <= i < |ms| :: ms[i].start.row > row
    requires n > 0 ==> ms[n - 1].start.row <= row
    ensures LastToRow(ms, row) == if n > 0 then Some(ms[n - 1]) else None
    decreases |ms|
  {
    if n < |ms| {
      assert ms[|ms| - 1].start.row > row;
      LastToRowIs(ms[..|ms| - 1], row, n);
    }
  }

  lemma FirstOf(good: seq<bool>) returns (k: nat)
    ensures k <= |good| && (k < |good| ==> good[k]) && forall i | 0 <= i < k :: !good[i]
  {
    k := 0;
    while k < |good| && !good[k]
      invariant k <= |good| && forall i | 0 <= i < k :: !good[i]
    {
      k := k + 1;
    }
  }

  lemma LastOf(good: seq<bool>) returns (n: nat)
    ensures n <= |good| && (n > 0 ==> good[n - 1]) && forall i | n <= i < |good| :: !good[i]
  {
    n := |good|;
    while n > 0 && !good[n - 1]
      invariant n <= |good| && forall i | n <= i < |good| :: !good[i]
    {
      n := n - 1;
    }
  }

  /** A forward step goes to the next match, and nowhere exactly if no match is after the active one. */
  lemma ForwardIsNext(ms: seq<SearchMatch>, active: Option<SearchMatch>, top: Option<nat>, rows: nat) returns (k: nat)
    requires ms != []
    ensures k <= |ms| && Adjacent(ms, active, true, top, rows) == if k < |ms| then Some(ms[k]) else None
    ensures if k < |ms| then IsNext(ms, active, top, k)
            else active.Some? && forall i | 0 <= i < |ms| :: !Before(active.value, ms[i])
  {
    if active.Some? {
      var good := seq(|ms|, i requires 0 <= i < |ms| => Before(active.value, ms[i]));
      assert forall i | 0 <= i < |ms| :: good[i] == (Before(active.value, ms[i]));
      k := FirstOf(good);
      FirstAfterIs(ms, k, active.value);
    } else {
      k := 0;
      if top.Some? {
        var good := seq(|ms|, i requires 0 <= i < |ms| => ms[i].start.row >= top.value);
        assert forall i | 0 <= i < |ms| :: good[i] == (ms[i].start.row >= top.value);
        k := FirstOf(good);
        FirstFromRowIs(ms, top.value, k);
        k := if k < |ms| then k else 0;
      }
    }
  }

  /** A backward step goes to the previous match, and nowhere exactly if no match is before the active one. */
  lemma BackwardIsPrevious(ms: seq<SearchMatch>, active: Option<SearchMatch>, top: Option<nat>, rows: nat) returns (n: nat)
    requires ms != []
    ensures n <= |ms| && Adjacent(ms, active, false, top, rows) == if n > 0 then Some(ms[n - 1]) else None
    ensures if n > 0 then IsPrevious(ms, active, top, rows, n - 1)
            else active.Some? && forall i | 0 <= i < |ms| :: !Before(ms[i], active.value)
  {
    if active.Some? {
      var good := seq(|ms|, i requires 0 <= i < |ms| => Before(ms[i], active.value));
      assert forall i | 0 <= i < |ms| :: good[i] == (Before(ms[i], active.value));
      n := LastOf(good);
      LastBeforeIs(ms, n, active.value);
    } else {
      n := |ms|;
      if top.Some? {
        var good := seq(|ms|, i requires 0 <= i < |ms| => Seen(ms[i].start.row, top.value, rows));
        assert forall i | 0 <= i < |ms| :: good[i] == (Seen(ms[i].start.row, top.value, rows));
        n := LastOf(good);
        LastToRowIs(ms, top.value + if rows > 0 then rows - 1 else 0, n);
        n := if n > 0 then n else |ms|;
      }
    }
  }

  /** Over unchanged text: a forward step goes from each match to the next one and stops at the last,
      and a backward step undoes it. */
  lemma StepsAreInverse(ms: seq<SearchMatch>, i: nat, top: Option<nat>, rows: nat)
    requires StrictlyOrdered(ms) && i < |ms|
    ensures Kept(Some(ms[i]), Some(ms)) == Some(ms[i])
    ensures Adjacent(ms, Some(ms[i]), true, top, rows) == if i + 1 < |ms| then Some(ms[i + 1]) else None
    ensures i + 1 < |ms| ==> Adjacent(ms, Some(ms[i + 1]), false, top, rows) == Some(ms[i])
  {
    assert forall j | 0 <= j <= i :: !Before(ms[i], ms[j]);
    FirstAfterIs(ms, i + 1, ms[i]);
    if i + 1 < |ms| {
      LastBeforeIs(ms, i + 1, ms[i + 1]);
    }
  }

  /** The matches visited by `n` forward steps over unchanged text, as long as they succeed. */
  function Walk(ms: seq<SearchMatch>, active: SearchMatch, n: nat): seq<SearchMatch>
    decreases n
  {
    if n == 0 || FirstAfter(ms, active).None? then [active]
    else [active] + Walk(ms, FirstAfter(ms, active).value, n - 1)
  }

  lemma FirstOfSlice(ms: seq<SearchMatch>, i: nat, end: nat)
    requires i < end <= |ms|
    ensures ms[i..end] == [ms[i]] + ms[i + 1..end]
  {
  }

  lemma {:induction false} WalkFrom(ms: seq<SearchMatch>, i: nat, n: nat)
    requires StrictlyOrdered(ms) && i < |ms|
    ensures Walk(ms, ms[i], n) == ms[i..if i + n < |ms| then i + n + 1 else |ms|]
    decreases n
  {
    StepsAreInverse(ms, i, None, 0);
    assert Adjacent(ms, Some(ms[i]), true, None, 0) == FirstAfter(ms, ms[i]);
    if n > 0 && i + 1 < |ms| {
      WalkFrom(ms, i + 1, n - 1);
      FirstOfSlice(ms, i, if i + n < |ms| then i + n + 1 else |ms|);
    } else {
      assert ms[i..i + 1] == [ms[i]];
    }
  }

  /** Stepping forward often enough from the first match visits all matches, each exactly once and in
      order, exactly when their keys are strictly increasing. */
  lemma WalkVisitsAllIff(ms: seq<SearchMatch>, n: nat)
    requires ms != [] && n >= |ms|
    requires forall i, j | 0 <= i < j < |ms| :: !Before(ms[j], ms[i])
    ensures Walk(ms, ms[0], n) == ms <==> StrictlyOrdered(ms)
  {
    if StrictlyOrdered(ms) {
      WalkFrom(ms, 0, n);
      assert ms[0..|ms|] == ms;
    } else {
      WalkIsOrdered(ms, ms[0], n);
    }
  }

  lemma {:induction false} WalkIsOrdered(ms: seq<SearchMatch>, a: SearchMatch, n: nat)
    ensures Walk(ms, a, n) != [] && Walk(ms, a, n)[0] == a && StrictlyOrdered(Walk(ms, a, n))
    decreases n
  {
    var next := FirstAfter(ms, a);
    if n > 0 && next.Some? {
      WalkIsOrdered(ms, next.value, n - 1);
    }
  }
}

/** The transcript ring of a pane: a bounded window on an unbounded log of lines, and clients that
    follow the log by polling with the last sequence number they saw. */
module Transcripts {
  import opened Wrappers

  const U64_MAX := 0xFFFF_FFFF_FFFF_FFFF

  datatype Entry = Entry(unixMillis: nat, text: string)

  datatype Line = Line(sequence: nat, unixMillis: nat, text: string)

  datatype Range = Range(firstSequence: nat, lastSequence: nat, truncated: bool, lines: seq<Line>)

  function SaturatingInc(n: nat): nat {
    if n >= U64_MAX then U64_MAX else n + 1
  }

  /** The sequence number of the `k`-th line ever appended, counting from 1. */
  function Number(k: nat): nat {
    if k > U64_MAX then U64_MAX else k
  }

  function Numbered(log: seq<Entry>): (s: seq<Line>)
    ensures |s| == |log|
  {
    seq(|log|, i requires 0 <= i < |log| => Line(Number(i + 1), log[i].unixMillis, log[i].text))
  }

  /** How many of the oldest lines a ring of `maxLines` has let go. */
  function Evicted(log: seq<Entry>, maxLines: nat): nat {
    if |log| > maxLines then |log| - maxLines else 0
  }

  /** The last min(n, maxLines) lines of the log. */
  function Retained(log: seq<Entry>, maxLines: nat): seq<Line> {
    Numbered(log)[Evicted(log, maxLines)..]
  }

  function Above(lines: seq<Line>, since: nat): (r: seq<Line>) {
    if lines == [] then [] else (if lines[0].sequence > since then [lines[0]] else []) + Above(lines[1..], since)
  }

  function Take(lines: seq<Line>, max: Option<nat>): seq<Line> {
    if max.Some? && max.value < |lines| then lines[..max.value] else lines
  }

  function RangeOf(lines: seq<Line>, truncated: bool): Range {
    if lines == [] then Range(0, 0, truncated, lines)
    else Range(lines[0].sequence, lines[|lines| - 1].sequence, truncated, lines)
  }

  /** The reply to a capture, in terms of the log. */
  function Capture(log: seq<Entry>, maxLines: nat, since: nat, max: Option<nat>): Range {
    RangeOf(Take(Above(Retained(log, maxLines), since), max), since > 0 && since < Number(Evicted(log, maxLines) + 1))
  }

  class TranscriptBuffer {
    const maxLines: nat
    var nextSequence: nat
    var droppedBefore: nat
    var lines: seq<Line>
    ghost var log: seq<Entry>

    ghost predicate Valid()
      reads this
    {
      && nextSequence == Number(|log| + 1)
      && droppedBefore == Number(Evicted(log, maxLines) + 1)
      && lines == Retained(log, maxLines)
    }

    constructor (maxLines: nat)
      ensures Valid() && this.maxLines == maxLines && log == []
    {
      this.maxLines := maxLines;
      nextSequence, droppedBefore, lines, log := 1, 1, [], [];
    }

    method AppendLine(text: string, unixMillis: nat)
      requires Valid()
      modifies this
      ensures log == old(log) + [Entry(unixMillis, text)]
      ensures Valid()
    {
      var line := Line(nextSequence, unixMillis, text);
      TailGrows(log, Entry(unixMillis, text), Evicted(log, maxLines));
      log := log + [Entry(unixMillis, text)];
      ghost var grown, n := log, |log|;
      nextSequence := SaturatingInc(nextSequence);
      lines := lines + [line];
      ghost var gone := Evicted(old(log), maxLines);
      while |lines| > maxLines
        invariant log == grown && nextSequence == Number(n + 1)
        invariant gone <= Evicted(grown, maxLines) && |lines| == n - gone
        invariant lines == Numbered(grown)[gone..]
        invariant droppedBefore == Number(gone + 1)
      {
        var dropped := lines[0];
        TailShrinks(grown, gone);
        lines := lines[1..];
        droppedBefore := SaturatingInc(dropped.sequence);
        gone := gone + 1;
      }
      assert gone == Evicted(log, maxLines);
    }

    method Tail(max: nat) returns (r: Range)
      requires Valid()
      ensures |r.lines| == (if |lines| > max then max else |lines|) <= |log|
      ensures r.lines == Numbered(log)[|log| - |r.lines|..]
      ensures r.firstSequence == (if r.lines == [] then 0 else Number(|log| - |r.lines| + 1))
      ensures r.lastSequence == (if r.lines == [] then 0 else Number(|log|)) && !r.truncated
    {
      var start := if |lines| > max then |lines| - max else 0;
      r := RangeOf(lines[start..], false);
    }

    method CaptureSince(sinceSequence: Option<nat>, max: Option<nat>) returns (r: Range)
      requires Valid()
      ensures r == Capture(log, maxLines, sinceSequence.GetOr(0), max)
    {
      var since := sinceSequence.GetOr(0);
      var truncated := since > 0 && since < droppedBefore;
      r := RangeOf(Take(Above(lines, since), max), truncated);
    }
  }

  lemma NumberedGrows(log: seq<Entry>, e: Entry)
    ensures Numbered(log + [e]) == Numbered(log) + [Line(Number(|log| + 1), e.unixMillis, e.text)]
  {
  }

  lemma TailGrows(log: seq<Entry>, e: Entry, k: nat)
    requires k <= |log|
    ensures Numbered(log)[k..] + [Line(Number(|log| + 1), e.unixMillis, e.text)] == Numbered(log + [e])[k..]
  {
    NumberedGrows(log, e);
  }

  lemma TailShrinks(log: seq<Entry>, k: nat)
    requires k < |log|
    ensures Numbered(log)[k..][0].sequence == Number(k + 1)
    ensures Numbered(log)[k..][1..] == Numbered(log)[k + 1..]
  {
  }

  // --------------------------------------------------------------- the window

  /** Numbers are pairwise different exactly while the log has not outgrown them, or the ring cannot
      hold two lines. */
  lemma DistinctNumbersIff(log: seq<Entry>, maxLines: nat)
    ensures (forall i, j | 0 <= i < j < |Retained(log, maxLines)| ::
               Retained(log, maxLines)[i].sequence != Retained(log, maxLines)[j].sequence)
       <==> (|log| <= U64_MAX || maxLines <= 1)
  {
    var r := Retained(log, maxLines);
    if |log| > U64_MAX && maxLines > 1 {
      assert r[|r| - 2].sequence == r[|r| - 1].sequence;
    }
  }

  lemma {:induction false} AboveOfNumbered(log: seq<Entry>, from: nat, since: nat)
    requires from <= |log| <= U64_MAX
    ensures Above(Numbered(log)[from..], since) == Numbered(log)[Later(from, since, |log|)..]
    decreases |log| - from
  {
    if from < |log| {
      AboveOfNumbered(log, from + 1, since);
      var s := Numbered(log)[from..];
      assert s[1..] == Numbered(log)[from + 1..];
      assert s == [s[0]] + s[1..];
    }
  }

  /** The first index at or behind `from` whose line comes after `since`, at most `n`. */
  function Later(from: nat, since: nat, n: nat): (k: nat)
    requires from <= n
    ensures from <= k <= n
  {
    if since <= from then from else if since < n then since else n
  }

  /** A reply is the slice of the log behind `since`, or behind the evicted lines if those reach further. */
  lemma CaptureIsSlice(log: seq<Entry>, maxLines: nat, since: nat, max: Option<nat>)
    requires |log| <= U64_MAX
    ensures var r, from := Capture(log, maxLines, since, max), Later(Evicted(log, maxLines), since, |log|);
      && from + |r.lines| <= |log|
      && r.lines == Numbered(log)[from..from + |r.lines|]
      && |r.lines| == (if max.Some? && max.value < |log| - from then max.value else |log| - from)
      && r.firstSequence == (if r.lines == [] then 0 else from + 1)
      && r.lastSequence == (if r.lines == [] then 0 else from + |r.lines|)
  {
    var from := Later(Evicted(log, maxLines), since, |log|);
    AboveOfNumbered(log, Evicted(log, maxLines), since);
    TakeIsSlice(log, from, max);
  }

  lemma TakeIsSlice(log: seq<Entry>, from: nat, max: Option<nat>)
    requires from <= |log| <= U64_MAX
    ensures var s, n := Take(Numbered(log)[from..], max), |log| - from;
      && |s| == (if max.Some? && max.value < n then max.value else n)
      && s == Numbered(log)[from..from + |s|]
      && (s != [] ==> s[0].sequence == from + 1 && s[|s| - 1].sequence == from + |s|)
  {
  }

  /** `truncated` says exactly that line `since` itself is gone; a line is really missing from the reply
      only when line `since + 1` is gone too, so the flag errs by at most one line. */
  lemma TruncatedIff(log: seq<Entry>, maxLines: nat, since: nat, max: Option<nat>)
    requires 1 <= since < Number(|log| + 1) && |log| <= U64_MAX
    ensures Capture(log, maxLines, since, max).truncated <==> Numbered(log)[since - 1] !in Retained(log, maxLines)
    ensures Capture(log, maxLines, since, max).truncated <==> since <= Evicted(log, maxLines)
    ensures Later(Evicted(log, maxLines), since, |log|) == since <==> since + 1 > Evicted(log, maxLines)
  {
    var line, r, gone := Numbered(log)[since - 1], Retained(log, maxLines), Evicted(log, maxLines);
    assert forall i | 0 <= i < |r| :: r[i].sequence == gone + i + 1;
    assert line.sequence == since;
    if since > gone {
      assert r[since - 1 - gone] == line;
    }
  }

  // ------------------------------------------------------------------- polling

  datatype Event = Append(entry: Entry) | Poll(max: Option<nat>)

  /** A follower: the last sequence number it has seen and everything it has been sent. */
  datatype Follower = Follower(log: seq<Entry>, cursor: nat, received: seq<Line>, truncated: bool)

  function Next(f: Follower, maxLines: nat, e: Event): Follower {
    match e
    case Append(entry) => f.(log := f.log + [entry])
    case Poll(max) =>
      var r := Capture(f.log, maxLines, f.cursor, max);
      f.(cursor := if r.lines == [] then f.cursor else r.lastSequence,
         received := f.received + r.lines,
         truncated := f.truncated || r.truncated)
  }

  function After(f: Follower, maxLines: nat, events: seq<Event>): Follower
    decreases |events|
  {
    if events == [] then f else Next(After(f, maxLines, events[..|events| - 1]), maxLines, events[|events| - 1])
  }

  /** Whatever is appended between polls and however many lines each poll asks for: as long as no reply
      was truncated, the follower has received exactly the lines between its first cursor and its
      current one, each once and in order. */
  lemma {:induction false} PollingIsGapFree(log: seq<Entry>, since: nat, maxLines: nat, events: seq<Event>)
    requires 1 <= since <= |log|
    requires |After(Follower(log, since, [], false), maxLines, events).log| < U64_MAX
    requires !After(Follower(log, since, [], false), maxLines, events).truncated
    ensures var f := After(Follower(log, since, [], false), maxLines, events);
      && since <= f.cursor <= |f.log|
      && f.received == Numbered(f.log)[since..f.cursor]
    decreases |events|
  {
    if events != [] {
      var start := Follower(log, since, [], false);
      var e, f := events[|events| - 1], After(start, maxLines, events[..|events| - 1]);
      var g := Next(f, maxLines, e);
      assert |f.log| <= |g.log| && (f.truncated ==> g.truncated);
      PollingIsGapFree(log, since, maxLines, events[..|events| - 1]);
      match e
      case Append(entry) =>
        NumberedGrows(f.log, entry);
      case Poll(max) =>
        CaptureIsSlice(f.log, maxLines, f.cursor, max);
        TruncatedIff(f.log, maxLines, f.cursor, max);
        assert Numbered(f.log)[since..f.cursor] + Numbered(f.log)[f.cursor..g.cursor] == Numbered(f.log)[since..g.cursor];
    }
  }

  /** An unlimited poll that is not truncated catches up with the log. */
  lemma UnlimitedPollCatchesUp(log: seq<Entry>, maxLines: nat, since: nat)
    requires 1 <= since <= |log| < U64_MAX && !Capture(log, maxLines, since, None).truncated
    ensures Capture(log, maxLines, since, None).lines == Numbered(log)[since..]
    ensures Next(Follower(log, since, [], false), maxLines, Poll(None)).cursor == |log|
  {
    CaptureIsSlice(log, maxLines, since, None);
    TruncatedIff(log, maxLines, since, None);
  }

  /** An empty reply reports last sequence 0, and a follower that takes this for its cursor is sent
      lines it has already had, without a truncation mark, exactly when the ring still holds one
      and the poll asks for at least one. */
  lemma EmptyReplyResetsIff(log: seq<Entry>, maxLines: nat, since: nat, max: Option<nat>)
    requires 1 <= since <= |log| < U64_MAX
    ensures Capture(log, maxLines, |log|, None).lastSequence == 0
    ensures !Capture(log, maxLines, 0, max).truncated
    ensures (exists l :: l in Capture(log, maxLines, 0, max).lines && l.sequence <= since)
       <==> (Evicted(log, maxLines) < since && max != Some(0))
  {
    CaptureIsSlice(log, maxLines, |log|, None);
    FromTheStart(log, maxLines, max);
    FirstIsLeast(log, Evicted(log, maxLines), Capture(log, maxLines, 0, max).lines, since);
  }

  /** A poll from 0 starts at the first line still held. */
  lemma FromTheStart(log: seq<Entry>, maxLines: nat, max: Option<nat>)
    requires 1 <= |log| < U64_MAX
    ensures var gone, r := Evicted(log, maxLines), Capture(log, maxLines, 0, max).lines;
      && gone + |r| <= |log| && r == Numbered(log)[gone..gone + |r|]
      && (r == [] <==> gone == |log| || max == Some(0))
  {
    CaptureIsSlice(log, maxLines, 0, max);
  }

  lemma FirstIsLeast(log: seq<Entry>, from: nat, r: seq<Line>, since: nat)
    requires from + |r| <= |log| < U64_MAX && r == Numbered(log)[from..from + |r|]
    ensures (exists l :: l in r && l.sequence <= since) <==> r != [] && from < since
  {
    SliceNumbers(log, from, r);
    if r != [] {
      assert r[0] in r && r[0].sequence == from + 1;
    }
  }

  lemma SliceNumbers(log: seq<Entry>, from: nat, r: seq<Line>)
    requires from + |r| <= |log| < U64_MAX && r == Numbered(log)[from..from + |r|]
    ensures forall i | 0 <= i < |r| :: r[i].sequence == from + i + 1
  {
  }
}

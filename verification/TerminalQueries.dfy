/** Bytes of a terminal stream and the control bytes that delimit OSC strings
    (ECMA-48 sections 8.3.89 and 8.3.143, plus the legacy BEL terminator). */
module TerminalBytes {
  import opened Bytes

  const ESC: byte := 0x1b
  const BEL: byte := 0x07
  const OSC: byte := 0x5d  // ']' : ESC ] opens an OSC string
  const ST: byte := 0x5c   // '\' : ESC \ closes it
}

/** The colour-query scanner of `Terminal::feed`.

    The index-driven loop of the program is proved against a byte automaton whose
    whole state is the suffix carried over to the next chunk. */
module TerminalQueries {
  import opened Sequences
  import opened Bytes
  import opened TerminalBytes
  import opened Wrappers

  // ---------------------------------------------------------------- automaton

  /** What scanning a stretch of bytes yields: the bodies of the OSC strings that
      were terminated, in order, and the suffix that is still undecided. */
  datatype Scan = Scan(bodies: seq<seq<byte>>, carry: seq<byte>)

  function Step(carry: seq<byte>, b: byte): Scan {
    if |carry| < 2 then
      if carry != [] && b == OSC then Scan([], carry + [b])
      else Scan([], if b == ESC then [ESC] else [])
    else if b == BEL then Scan([carry[2..]], [])
    else if b == ST && |carry| > 2 && carry[|carry| - 1] == ESC then Scan([carry[2..|carry| - 1]], [])
    else Scan([], carry + [b])
  }

  function Fold(carry: seq<byte>, s: seq<byte>): Scan
    decreases |s|
  {
    if s == [] then Scan([], carry)
    else
      var head := Step(carry, s[0]);
      var tail := Fold(head.carry, s[1..]);
      Scan(head.bodies + tail.bodies, tail.carry)
  }

  lemma {:induction false} FoldConcat(carry: seq<byte>, s: seq<byte>, t: seq<byte>)
    ensures Fold(carry, s + t)
         == Scan(Fold(carry, s).bodies + Fold(Fold(carry, s).carry, t).bodies, Fold(Fold(carry, s).carry, t).carry)
    decreases |s|
  {
    if s == [] {
      assert s + t == t;
    } else {
      assert (s + t)[1..] == s[1..] + t;
      FoldConcat(Step(carry, s[0]).carry, s[1..], t);
    }
  }

  // ------------------------------------------------------------- terminators

  predicate TerminatorAt(s: seq<byte>, i: nat) {
    i < |s| && (s[i] == BEL || (s[i] == ESC && i + 1 < |s| && s[i + 1] == ST))
  }

  predicate NoTerminator(s: seq<byte>) {
    forall i: nat | i < |s| :: !TerminatorAt(s, i)
  }

  /** `s` up to `end` is an OSC body whose terminator, `len` bytes long, starts at `end`. */
  predicate BodyEndsAt(s: seq<byte>, end: nat, len: nat) {
    && TerminatorAt(s, end)
    && (forall i: nat | i < end :: !TerminatorAt(s, i))
    && len == (if s[end] == BEL then 1 else 2)
  }

  /** The suffixes the scanner may carry over. */
  predicate IsCarry(c: seq<byte>) {
    || c == []
    || c == [ESC]
    || (|c| >= 2 && c[0] == ESC && c[1] == OSC && NoTerminator(c[2..]))
  }

  lemma StepKeepsCarry(c: seq<byte>, b: byte)
    requires IsCarry(c)
    ensures IsCarry(Step(c, b).carry)
  {
    var next := Step(c, b).carry;
    if |c| >= 2 && next != [] {
      assert next[2..] == c[2..] + [b];
      forall i: nat | i < |next[2..]|
        ensures !TerminatorAt(next[2..], i)
      {
        assert i < |c[2..]| ==> !TerminatorAt(c[2..], i);
      }
    }
  }

  lemma {:induction false} FoldKeepsCarry(c: seq<byte>, s: seq<byte>)
    requires IsCarry(c)
    ensures IsCarry(Fold(c, s).carry)
    decreases |s|
  {
    if s != [] {
      StepKeepsCarry(c, s[0]);
      FoldKeepsCarry(Step(c, s[0]).carry, s[1..]);
    }
  }

  // ------------------------------------------ how the automaton meets the loop

  lemma {:induction false} OpenBodyAccumulates(body: seq<byte>, s: seq<byte>)
    requires NoTerminator(body + s)
    ensures Fold([ESC, OSC] + body, s) == Scan([], [ESC, OSC] + body + s)
    decreases |s|
  {
    if s == [] {
      assert [ESC, OSC] + body + s == [ESC, OSC] + body;
    } else {
      assert (body + [s[0]]) + s[1..] == body + s;
      OpenStep(body, s);
      OpenBodyAccumulates(body + [s[0]], s[1..]);
      Regroup([ESC, OSC], body, s);
      Regroup([ESC, OSC], body + [s[0]], s[1..]);
    }
  }

  lemma OpenStep(body: seq<byte>, s: seq<byte>)
    requires s != [] && NoTerminator(body + s)
    ensures Step([ESC, OSC] + body, s[0]) == Scan([], [ESC, OSC] + (body + [s[0]]))
  {
    assert !TerminatorAt(body + s, |body|);
    assert body != [] ==> !TerminatorAt(body + s, |body| - 1);
    Regroup([ESC, OSC], body, [s[0]]);
  }

  lemma OpenerFolds()
    ensures Fold([], [ESC, OSC]) == Scan([], [ESC, OSC])
  {
    assert [ESC, OSC][1..] == [OSC];
    assert Step([ESC], OSC) == Scan([], [ESC] + [OSC]);
    assert [OSC][1..] == [];
    assert Fold([ESC], [OSC]) == Fold([ESC, OSC], []);
  }

  /** An unterminated OSC string is carried whole. */
  lemma UnterminatedIsCarried(s: seq<byte>)
    requires |s| >= 2 && s[0] == ESC && s[1] == OSC && NoTerminator(s[2..])
    ensures Fold([], s) == Scan([], s)
  {
    var body := s[2..];
    assert [] + body == body;
    OpenBodyAccumulates([], body);
    assert [ESC, OSC] + [] == [ESC, OSC];
    assert s == [ESC, OSC] + body;
    OpenerFolds();
    FoldConcat([], [ESC, OSC], body);
  }

  /** A terminated OSC string yields its body and hands the rest on untouched. */
  lemma TerminatedYieldsBody(s: seq<byte>, end: nat, len: nat)
    requires |s| >= 2 && s[0] == ESC && s[1] == OSC && BodyEndsAt(s[2..], end, len)
    ensures end + len <= |s[2..]|
    ensures Fold([], s) == Scan([s[2..2 + end]] + Fold([], s[2 + end + len..]).bodies, Fold([], s[2 + end + len..]).carry)
  {
    var body := s[2..2 + end];
    forall i: nat | i < |body|
      ensures !TerminatorAt(body, i)
    {
      assert !TerminatorAt(s[2..], i);
    }
    var open := s[..2 + end];
    assert open[2..] == body;
    UnterminatedIsCarried(open);
    var rest := s[2 + end..];
    assert s == open + rest;
    FoldConcat([], open, rest);
    if len == 1 {
      assert Step(open, BEL) == Scan([body], []);
      assert rest[1..] == s[2 + end + len..];
    } else {
      assert Step(open, ESC) == Scan([], open + [ESC]);
      assert (open + [ESC])[2..|open|] == body;
      assert Step(open + [ESC], ST) == Scan([body], []);
      assert rest == [ESC] + ([ST] + s[2 + end + len..]);
      assert rest[1..][1..] == s[2 + end + len..];
    }
  }

  /** An ESC that does not open an OSC string is skipped alone. */
  lemma LoneEscIsSkipped(s: seq<byte>)
    requires |s| >= 2 && s[0] == ESC && s[1] != OSC
    ensures Fold([], s) == Fold([], s[1..])
  {
    assert Step([ESC], s[1]) == Step([], s[1]);
  }

  /** A carried suffix re-scans to itself, so prepending it to the next chunk resumes the automaton. */
  lemma CarryResumes(carry: seq<byte>, s: seq<byte>)
    requires IsCarry(carry)
    ensures Fold([], carry + s) == Fold(carry, s)
  {
    CarryIsItself(carry);
    FoldConcat([], carry, s);
    NothingBefore(Fold(carry, s).bodies);
  }

  lemma CarryIsItself(carry: seq<byte>)
    requires IsCarry(carry)
    ensures Fold([], carry) == Scan([], carry)
  {
    if |carry| >= 2 {
      UnterminatedIsCarried(carry);
    } else if carry != [] {
      assert carry == [ESC] && carry[1..] == [];
    }
  }

  lemma StepOne(c: seq<byte>, b: byte)
    ensures Fold(c, [b]).carry == Step(c, b).carry
  {
    assert [b][1..] == [];
  }

  /** When the loop runs off the end nothing is carried, and then the input cannot end in
      ESC or ESC ]: the block after the loop that would store such a tail never fires. */
  lemma {:induction false} TailBlockIsDead(s: seq<byte>)
    requires Fold([], s).carry == []
    ensures s != [] ==> s[|s| - 1] != ESC
    ensures |s| >= 2 ==> s[|s| - 2..] != [ESC, OSC]
  {
    if s != [] {
      var p, last := s[..|s| - 1], s[|s| - 1];
      assert s == p + [last];
      FoldConcat([], p, [last]);
      FoldKeepsCarry([], p);
      StepOne(Fold([], p).carry, last);
      if p != [] && p[|p| - 1] == ESC {
        var q := p[..|p| - 1];
        assert p == q + [ESC];
        FoldConcat([], q, [ESC]);
        StepOne(Fold([], q).carry, ESC);
      }
    }
  }

  // ----------------------------------------------- a declarative segmentation

  /** One OSC string: the introducer at `start`, its body up to `bodyEnd`, the terminator up to `end`. */
  datatype Segment = Segment(start: nat, bodyEnd: nat, end: nat)

  predicate IntroducerAt(s: seq<byte>, i: nat) {
    i + 1 < |s| && s[i] == ESC && s[i + 1] == OSC
  }

  predicate FirstIntroducer(s: seq<byte>, from: nat, i: nat) {
    from <= i && IntroducerAt(s, i) && forall j: nat | from <= j < i :: !IntroducerAt(s, j)
  }

  predicate SegmentFrom(s: seq<byte>, from: nat, g: Segment) {
    && FirstIntroducer(s, from, g.start)
    && g.start + 2 <= g.bodyEnd < g.end
    && TerminatorAt(s, g.bodyEnd)
    && (forall i: nat | g.start + 2 <= i < g.bodyEnd :: !TerminatorAt(s, i))
    && g.end == g.bodyEnd + (if s[g.bodyEnd] == BEL then 1 else 2)
  }

  /** No introducer from `from` on, or the first one is never terminated. */
  ghost predicate NothingLeft(s: seq<byte>, from: nat) {
    forall i: nat, k: nat | FirstIntroducer(s, from, i) && i + 2 <= k :: !TerminatorAt(s, k)
  }

  /** `segs` are all the terminated OSC strings of `s` from `from` on: each one starts at the first
      introducer after the previous one and ends at the first terminator after that; behind the last
      one there is no introducer that is ever terminated first. */
  ghost predicate Segmentation(s: seq<byte>, from: nat, segs: seq<Segment>)
    decreases |segs|
  {
    if segs == [] then NothingLeft(s, from)
    else
      SegmentFrom(s, from, segs[0]) && Segmentation(s, segs[0].end, segs[1..])
  }

  ghost function BodiesOf(s: seq<byte>, from: nat, segs: seq<Segment>): seq<seq<byte>>
    requires Segmentation(s, from, segs)
    decreases |segs|
  {
    if segs == [] then []
    else [s[segs[0].start + 2..segs[0].bodyEnd]] + BodiesOf(s, segs[0].end, segs[1..])
  }

  lemma {:induction false} NoIntroducerYieldsNothing(s: seq<byte>, from: nat)
    requires from <= |s|
    requires forall i: nat | from <= i :: !IntroducerAt(s, i)
    ensures Fold([], s[from..]).bodies == []
    decreases |s| - from
  {
    if from < |s| {
      SkipOne(s, from);
      NoIntroducerYieldsNothing(s, from + 1);
    }
  }

  lemma SkipOne(s: seq<byte>, i: nat)
    requires i < |s| && !IntroducerAt(s, i)
    ensures Fold([], s[i..]).bodies == Fold([], s[i + 1..]).bodies
    ensures i + 1 < |s| || s[i] != ESC ==> Fold([], s[i..]) == Fold([], s[i + 1..])
  {
    assert s[i..][1..] == s[i + 1..];
    if s[i] == ESC && i + 1 < |s| {
      LoneEscIsSkipped(s[i..]);
    } else {
      assert s[i..] == [s[i]] + s[i + 1..];
    }
  }

  lemma {:induction false} SkipTo(s: seq<byte>, from: nat, i: nat)
    requires from <= i < |s|
    requires forall j: nat | from <= j < i :: !IntroducerAt(s, j)
    ensures Fold([], s[from..]) == Fold([], s[i..])
    decreases i - from
  {
    if from < i {
      SkipOne(s, from);
      SkipTo(s, from + 1, i);
    }
  }

  /** The automaton yields exactly the bodies of the declarative segmentation, in order. */
  lemma {:induction false} ScanIsSegmentation(s: seq<byte>, from: nat, segs: seq<Segment>)
    requires from <= |s| && Segmentation(s, from, segs)
    ensures Fold([], s[from..]).bodies == BodiesOf(s, from, segs)
    decreases |segs|
  {
    if segs == [] {
      NothingTerminated(s, from);
    } else {
      assert Fold([], s[from..]).bodies == [s[segs[0].start + 2..segs[0].bodyEnd]] + Fold([], s[segs[0].end..]).bodies by {
        SegmentYields(s, from, segs[0]);
      }
      ScanIsSegmentation(s, segs[0].end, segs[1..]);
    }
  }

  lemma NothingTerminated(s: seq<byte>, from: nat)
    requires from <= |s|
    requires NothingLeft(s, from)
    ensures Fold([], s[from..]).bodies == []
  {
    if i: nat :| FirstIntroducer(s, from, i) {
      SkipTo(s, from, i);
      OpenTail(s, i);
    } else {
      NoFirstMeansNone(s, from);
      NoIntroducerYieldsNothing(s, from);
    }
  }

  lemma OpenTail(s: seq<byte>, i: nat)
    requires IntroducerAt(s, i)
    requires forall k: nat | i + 2 <= k :: !TerminatorAt(s, k)
    ensures Fold([], s[i..]) == Scan([], s[i..])
  {
    var t := s[i..];
    forall k: nat | k < |t[2..]|
      ensures !TerminatorAt(t[2..], k)
    {
      assert !TerminatorAt(s, i + 2 + k);
    }
    UnterminatedIsCarried(t);
  }

  lemma SegmentAsBody(s: seq<byte>, from: nat, g: Segment)
    requires SegmentFrom(s, from, g)
    ensures BodyEndsAt(s[g.start + 2..], g.bodyEnd - g.start - 2, g.end - g.bodyEnd)
  {
    var t := s[g.start + 2..];
    forall i: nat | i < g.bodyEnd - g.start - 2
      ensures !TerminatorAt(t, i)
    {
      assert !TerminatorAt(s, g.start + 2 + i);
    }
    assert TerminatorAt(s, g.bodyEnd);
  }

  lemma SegmentYields(s: seq<byte>, from: nat, g: Segment)
    requires SegmentFrom(s, from, g)
    ensures var rest := Fold([], s[g.end..]);
      Fold([], s[from..]) == Scan([s[g.start + 2..g.bodyEnd]] + rest.bodies, rest.carry)
  {
    var t, end, len := s[g.start..], g.bodyEnd - g.start - 2, g.end - g.bodyEnd;
    assert t[2..] == s[g.start + 2..];
    assert t[2..2 + end] == s[g.start + 2..g.bodyEnd];
    assert t[2 + end + len..] == s[g.end..];
    assert BodyEndsAt(t[2..], end, len) by {
      SegmentAsBody(s, from, g);
    }
    TerminatedYieldsBody(t, end, len);
    SkipTo(s, from, g.start);
  }

  lemma {:induction false} NoFirstMeansNone(s: seq<byte>, from: nat)
    requires forall i: nat :: !FirstIntroducer(s, from, i)
    ensures forall i: nat | from <= i :: !IntroducerAt(s, i)
  {
    forall i: nat | from <= i
      ensures !IntroducerAt(s, i)
    {
      NoFirstBefore(s, from, i);
    }
  }

  lemma {:induction false} NoFirstBefore(s: seq<byte>, from: nat, i: nat)
    requires from <= i
    requires forall i: nat :: !FirstIntroducer(s, from, i)
    ensures forall j: nat | from <= j <= i :: !IntroducerAt(s, j)
    decreases i
  {
    if from < i {
      NoFirstBefore(s, from, i - 1);
    }
    assert !FirstIntroducer(s, from, i);
  }

  /** Every input has such a segmentation. */
  lemma {:induction false} SegmentationExists(s: seq<byte>, from: nat) returns (segs: seq<Segment>)
    requires from <= |s|
    ensures Segmentation(s, from, segs)
    decreases |s| - from
  {
    if g :| SegmentFrom(s, from, g) {
      var rest := SegmentationExists(s, g.end);
      segs := [g] + rest;
      assert segs[1..] == rest;
    } else {
      segs := [];
      forall i: nat, k: nat | FirstIntroducer(s, from, i) && i + 2 <= k
        ensures !TerminatorAt(s, k)
      {
        NoTerminatorUpTo(s, from, i, k);
      }
    }
  }

  lemma {:induction false} NoTerminatorUpTo(s: seq<byte>, from: nat, i: nat, k: nat)
    requires FirstIntroducer(s, from, i) && i + 2 <= k
    requires forall g :: !SegmentFrom(s, from, g)
    ensures forall j: nat | i + 2 <= j <= k :: !TerminatorAt(s, j)
    decreases k
  {
    if i + 2 < k {
      NoTerminatorUpTo(s, from, i, k - 1);
    }
    if TerminatorAt(s, k) {
      assert SegmentFrom(s, from, Segment(i, k, k + if s[k] == BEL then 1 else 2));
    }
  }

  // ----------------------------------------------------------------- replies

  datatype Rgb = Rgb(r: byte, g: byte, b: byte)

  const DEFAULT_FG := Rgb(238, 238, 238)
  const DEFAULT_BG := Rgb(0, 0, 0)
  const DEFAULT_CURSOR := Rgb(238, 238, 238)

  const MAX_PENDING_OSC_QUERY := 64

  /** A query body: the digits "10", "11" or "12" followed by ";?". */
  predicate IsQuery(body: seq<byte>) {
    |body| == 4 && body[0] == 0x31 && 0x30 <= body[1] <= 0x32 && body[2] == 0x3b && body[3] == 0x3f
  }

  function HexDigit(d: byte): (h: byte)
    requires d < 16
    ensures h != ESC && h != BEL
  {
    if d < 10 then 0x30 + d else 0x61 + (d - 10)
  }

  /** `{:02x}{:02x}`: the channel's two hex digits, twice. */
  function HexTwice(c: byte): (h: seq<byte>)
    ensures |h| == 4 && ESC !in h && BEL !in h
  {
    [HexDigit(c / 16), HexDigit(c % 16), HexDigit(c / 16), HexDigit(c % 16)]
  }

  /** The text of a colour reply between its introducer and its terminator; `ones` is the last digit of the code. */
  function ColorBody(ones: byte, c: Rgb): (t: seq<byte>)
    requires 0x30 <= ones <= 0x39
    ensures |t| == 21 && ESC !in t && BEL !in t
  {
    [0x31, ones, 0x3b, 0x72, 0x67, 0x62, 0x3a] + HexTwice(c.r) + [0x2f] + HexTwice(c.g) + [0x2f] + HexTwice(c.b)
  }

  function ColorReply(ones: byte, c: Rgb): (t: seq<byte>)
    requires 0x30 <= ones <= 0x39
    ensures |t| == 25
  {
    [ESC, OSC] + ColorBody(ones, c) + [ESC, ST]
  }

  /** The colour asked for by code 10 (foreground), 11 (background) or 12 (cursor). */
  function ColorFor(ones: byte): Rgb {
    if ones == 0x30 then DEFAULT_FG else if ones == 0x31 then DEFAULT_BG else DEFAULT_CURSOR
  }

  function ReplyTo(body: seq<byte>): (r: seq<byte>)
    ensures |r| == if IsQuery(body) then 25 else 0
  {
    if IsQuery(body) then ColorReply(body[1], ColorFor(body[1])) else []
  }

  function Replies(bodies: seq<seq<byte>>): seq<byte> {
    if bodies == [] then [] else ReplyTo(bodies[0]) + Replies(bodies[1..])
  }

  lemma {:induction false} RepliesConcat(a: seq<seq<byte>>, b: seq<seq<byte>>)
    ensures Replies(a + b) == Replies(a) + Replies(b)
  {
    if a == [] {
      assert a + b == b;
    } else {
      assert (a + b)[1..] == a[1..] + b;
      RepliesConcat(a[1..], b);
    }
  }

  // ------------------------------------------------- what a reply says

  /** The value of a hexadecimal digit. */
  function DigitValue(h: byte): Option<nat> {
    var c := h as char;
    if '0' <= c <= '9' then Some((c - '0') as nat)
    else if 'a' <= c <= 'f' then Some((c - 'a') as nat + 10)
    else None
  }

  /** The number that `t` writes out in base 10 or 16. */
  function NumberIn(base: nat, t: seq<byte>): Option<nat> {
    if t == [] then Some(0)
    else
      var high, low := NumberIn(base, t[..|t| - 1]), DigitValue(t[|t| - 1]);
      if high.Some? && low.Some? && low.value < base then Some(base * high.value + low.value) else None
  }

  /** What a client reads off a colour reply: the code that it asked for, and the channels in 16 bits. */
  datatype Color = Color(code: nat, red: nat, green: nat, blue: nat)

  predicate IsText(t: seq<byte>, text: string) {
    |t| == |text| && forall i | 0 <= i < |t| :: t[i] as char == text[i]
  }

  /** Reading `ESC ] code ; rgb : red / green / blue ESC \`. */
  function ReadColor(t: seq<byte>): Option<Color> {
    if |t| != 25 || t[..2] != [ESC, OSC] || !IsText(t[4..9], ";rgb:") || !IsText(t[13..14], "/") || !IsText(t[18..19], "/") || t[23..] != [ESC, ST]
    then None
    else
      var code, red, green, blue := NumberIn(10, t[2..4]), NumberIn(16, t[9..13]), NumberIn(16, t[14..18]), NumberIn(16, t[19..23]);
      if code.Some? && red.Some? && green.Some? && blue.Some? then Some(Color(code.value, red.value, green.value, blue.value)) else None
  }

  /** Reading replies that follow each other. */
  function ReadColors(t: seq<byte>): Option<seq<Color>> {
    if t == [] then Some([])
    else if |t| < 25 then None
    else
      var first, others := ReadColor(t[..25]), ReadColors(t[25..]);
      if first.Some? && others.Some? then Some([first.value] + others.value) else None
  }

  lemma TwoDigits(base: nat, t: seq<byte>, a: nat, b: nat)
    requires |t| == 2 && DigitValue(t[0]) == Some(a) && DigitValue(t[1]) == Some(b) && a < base && b < base
    ensures NumberIn(base, t) == Some(base * a + b)
  {
    assert t[..1][..0] == [] && base * 0 == 0;
    assert NumberIn(base, t[..1]) == Some(a);
  }

  lemma HexDigitReads(d: byte)
    requires d < 16
    ensures DigitValue(HexDigit(d)) == Some(d as nat)
  {
  }

  /** A channel is written as 257 times its value: the 8-bit channel spread over 16 bits. */
  lemma ChannelReadsBack(c: byte)
    ensures NumberIn(16, HexTwice(c)) == Some(0x101 * c as nat)
  {
    var t, high, low := HexTwice(c), (c / 16) as nat, (c % 16) as nat;
    HexDigitReads(c / 16);
    HexDigitReads(c % 16);
    TwoDigits(16, t[..2], high, low);
    OneMoreDigit(16, t[..3], 16 * high + low, high);
    OneMoreDigit(16, t, 16 * (16 * high + low) + high, low);
  }

  lemma OneMoreDigit(base: nat, t: seq<byte>, n: nat, d: nat)
    requires t != [] && NumberIn(base, t[..|t| - 1]) == Some(n) && DigitValue(t[|t| - 1]) == Some(d) && d < base
    ensures NumberIn(base, t) == Some(base * n + d)
  {
  }

  lemma ColorReplyReadsBack(ones: byte, c: Rgb)
    requires 0x30 <= ones <= 0x39
    ensures ReadColor(ColorReply(ones, c))
         == Some(Color(10 + (ones - 0x30) as nat, 0x101 * c.r as nat, 0x101 * c.g as nat, 0x101 * c.b as nat))
  {
    ReplyParts(ones, c);
    TwoDigits(10, ColorReply(ones, c)[2..4], 1, (ones - 0x30) as nat);
    ChannelReadsBack(c.r);
    ChannelReadsBack(c.g);
    ChannelReadsBack(c.b);
  }

  lemma ReplyParts(ones: byte, c: Rgb)
    requires 0x30 <= ones <= 0x39
    ensures var t := ColorReply(ones, c);
      && t[..2] == [ESC, OSC] && t[2..4] == [0x31, ones] && t[23..] == [ESC, ST]
      && IsText(t[4..9], ";rgb:") && IsText(t[13..14], "/") && IsText(t[18..19], "/")
      && t[9..13] == HexTwice(c.r) && t[14..18] == HexTwice(c.g) && t[19..23] == HexTwice(c.b)
  {
    assert ColorReply(ones, c)[4..9] == [0x3b, 0x72, 0x67, 0x62, 0x3a];
  }

  /** The answers owed: one for each body that asks for a colour by `10;?`, `11;?` or `12;?`, with the
      foreground, the background or the cursor colour. */
  function Answers(bodies: seq<seq<byte>>): seq<Color> {
    if bodies == [] then []
    else
      (if IsText(bodies[0], "10;?") then [Color(10, 0xeeee, 0xeeee, 0xeeee)]
       else if IsText(bodies[0], "11;?") then [Color(11, 0, 0, 0)]
       else if IsText(bodies[0], "12;?") then [Color(12, 0xeeee, 0xeeee, 0xeeee)]
       else []) + Answers(bodies[1..])
  }

  /** What is sent reads back as exactly those answers, in order. */
  lemma {:induction false} RepliesReadBack(bodies: seq<seq<byte>>)
    ensures ReadColors(Replies(bodies)) == Some(Answers(bodies))
  {
    if bodies != [] {
      RepliesReadBack(bodies[1..]);
      if IsQuery(bodies[0]) {
        AnswerReadsBack(bodies[0], Replies(bodies[1..]), Answers(bodies[1..]));
      } else {
        NoQueryIsText(bodies[0]);
        NothingBefore(Replies(bodies[1..]));
        NothingBefore(Answers(bodies[1..]));
      }
    }
  }

  lemma AnswerReadsBack(body: seq<byte>, others: seq<byte>, answers: seq<Color>)
    requires IsQuery(body) && ReadColors(others) == Some(answers)
    ensures ReadColors(ReplyTo(body) + others)
         == Some([if IsText(body, "10;?") then Color(10, 0xeeee, 0xeeee, 0xeeee)
                  else if IsText(body, "11;?") then Color(11, 0, 0, 0)
                  else Color(12, 0xeeee, 0xeeee, 0xeeee)] + answers)
    ensures IsText(body, "10;?") || IsText(body, "11;?") || IsText(body, "12;?")
  {
    QueryIsText(body);
    ColorReplyReadsBack(body[1], ColorFor(body[1]));
    var t := ReplyTo(body) + others;
    assert t[..25] == ReplyTo(body) && t[25..] == others;
  }

  lemma QueryIsText(body: seq<byte>)
    requires IsQuery(body)
    ensures IsText(body, "10;?") <==> body[1] == 0x30
    ensures IsText(body, "11;?") <==> body[1] == 0x31
    ensures IsText(body, "12;?") <==> body[1] == 0x32
  {
  }

  lemma NoQueryIsText(body: seq<byte>)
    requires !IsQuery(body)
    ensures !IsText(body, "10;?") && !IsText(body, "11;?") && !IsText(body, "12;?")
  {
  }

  /** A reply read back by a scanner is one OSC string that is not a query: two terminals wired
      back to back cannot answer each other's answers. */
  lemma RepliesAreInert(body: seq<byte>, rest: seq<byte>)
    ensures Replies(Fold([], ReplyTo(body) + rest).bodies) == Replies(Fold([], rest).bodies)
    ensures Fold([], ReplyTo(body) + rest).carry == Fold([], rest).carry
  {
    if IsQuery(body) {
      ColorReplyIsInert(body[1], ColorFor(body[1]), rest);
    } else {
      assert ReplyTo(body) + rest == rest;
    }
  }

  lemma ColorReplyIsInert(ones: byte, c: Rgb, rest: seq<byte>)
    requires 0x30 <= ones <= 0x39
    ensures Replies(Fold([], ColorReply(ones, c) + rest).bodies) == Replies(Fold([], rest).bodies)
    ensures Fold([], ColorReply(ones, c) + rest).carry == Fold([], rest).carry
  {
    var text, s := ColorBody(ones, c), ColorReply(ones, c) + rest;
    assert s[2..23] == text;
    forall i: nat | i < 21
      ensures !TerminatorAt(s[2..], i)
    {
      assert s[2..][i] == text[i] && text[i] in text;
    }
    assert BodyEndsAt(s[2..], 21, 2);
    TerminatedYieldsBody(s, 21, 2);
    assert s[25..] == rest;
    RepliesConcat([text], Fold([], rest).bodies);
    assert Replies([text]) == ReplyTo(text) + Replies([]);
  }

  // ------------------------------------------------------ chunks and the cap

  function Capped(carry: seq<byte>): seq<byte> {
    if |carry| <= MAX_PENDING_OSC_QUERY then carry else []
  }

  function Flatten(chunks: seq<seq<byte>>): seq<byte> {
    if chunks == [] then [] else chunks[0] + Flatten(chunks[1..])
  }

  /** Feeding `chunks` one by one, dropping an over-long carry after each. */
  function FeedAll(carry: seq<byte>, chunks: seq<seq<byte>>): Scan
    decreases |chunks|
  {
    if chunks == [] then Scan([], carry)
    else
      var head := Fold(carry, chunks[0]);
      var tail := FeedAll(Capped(head.carry), chunks[1..]);
      Scan(head.bodies + tail.bodies, tail.carry)
  }

  /** No chunk boundary leaves more than the cap. */
  predicate NeverOverflows(carry: seq<byte>, chunks: seq<seq<byte>>)
    decreases |chunks|
  {
    chunks != [] ==>
      var head := Fold(carry, chunks[0]);
      |head.carry| <= MAX_PENDING_OSC_QUERY && NeverOverflows(head.carry, chunks[1..])
  }

  /** Within the cap, chunking changes nothing: same bodies, hence same replies, and the same carry. */
  lemma {:induction false} ChunksWithinCap(carry: seq<byte>, chunks: seq<seq<byte>>)
    requires NeverOverflows(carry, chunks)
    ensures FeedAll(carry, chunks) == Fold(carry, Flatten(chunks))
    decreases |chunks|
  {
    if chunks != [] {
      ChunksWithinCap(Fold(carry, chunks[0]).carry, chunks[1..]);
      FoldConcat(carry, chunks[0], Flatten(chunks[1..]));
    }
  }

  /** An OSC body that ends in what looks like a query of its own, far enough in that the part
      before it can overflow the cap. */
  predicate Misleading(body: seq<byte>) {
    && |body| >= MAX_PENDING_OSC_QUERY + 5
    && body[|body| - 6..|body| - 4] == [ESC, OSC]
    && IsQuery(body[|body| - 4..])
  }

  predicate Misleads(bodies: seq<seq<byte>>) {
    exists i :: 0 <= i < |bodies| && Misleading(bodies[i])
  }

  ghost predicate ChunkingNeverMatters(s: seq<byte>) {
    forall chunks :: Flatten(chunks) == s ==> Replies(FeedAll([], chunks).bodies) == Replies(Fold([], s).bodies)
  }

  /** The real scanner (`kept`) against one that never drops (`whole`): either they carry the same, or
      the whole one is inside an OSC string of which the other has dropped more than the cap. */
  predicate Shadows(whole: seq<byte>, kept: seq<byte>) {
    || kept == whole
    || (&& |whole| > |kept| + MAX_PENDING_OSC_QUERY
        && whole[|whole| - |kept|..] == kept)
  }

  lemma ShadowStep(whole: seq<byte>, kept: seq<byte>, b: byte)
    requires IsCarry(whole) && IsCarry(kept) && Shadows(whole, kept)
    requires !Misleads(Step(whole, b).bodies)
    ensures Shadows(Step(whole, b).carry, Step(kept, b).carry)
    ensures Replies(Step(whole, b).bodies) == Replies(Step(kept, b).bodies)
  {
    if kept != whole {
      if Step(whole, b).bodies == [] {
        ShadowGrows(whole, kept, b);
      } else {
        assert Misleading(Step(whole, b).bodies[0]) ==> Misleads(Step(whole, b).bodies);
        ShadowReplies(whole, kept, b);
      }
    }
  }

  /** When the whole scanner closes its string, neither answers, and the other carries nothing longer. */
  lemma ShadowReplies(whole: seq<byte>, kept: seq<byte>, b: byte)
    requires IsCarry(whole) && IsCarry(kept) && Shadows(whole, kept) && kept != whole
    requires Step(whole, b).bodies != [] && !Misleading(Step(whole, b).bodies[0])
    ensures Shadows(Step(whole, b).carry, Step(kept, b).carry)
    ensures Replies(Step(whole, b).bodies) == [] && Replies(Step(kept, b).bodies) == []
  {
    var w, k := Step(whole, b), Step(kept, b);
    assert kept != [] ==> kept[|kept| - 1] == whole[|whole| - 1];
    RepliesOfOne(w.bodies[0]);
    if k.bodies == [] {
      LongBodyIsNoQuery(whole, b);
    } else {
      RepliesOfOne(k.bodies[0]);
      ShadowCloses(whole, kept, b);
    }
  }

  lemma LongBodyIsNoQuery(whole: seq<byte>, b: byte)
    requires IsCarry(whole) && |whole| > MAX_PENDING_OSC_QUERY && Step(whole, b).bodies != []
    ensures Step(whole, b).bodies == [Step(whole, b).bodies[0]] && !IsQuery(Step(whole, b).bodies[0])
  {
  }

  lemma ShadowGrows(whole: seq<byte>, kept: seq<byte>, b: byte)
    requires IsCarry(whole) && IsCarry(kept) && Shadows(whole, kept) && kept != whole
    requires Step(whole, b).bodies == []
    ensures Shadows(Step(whole, b).carry, Step(kept, b).carry) && Step(kept, b).bodies == []
  {
    assert kept != [] ==> kept[|kept| - 1] == whole[|whole| - 1];
    assert Step(whole, b).carry == whole + [b];
  }

  /** When both close their string on the same byte, the dropped-into one cannot have met a query. */
  lemma ShadowCloses(whole: seq<byte>, kept: seq<byte>, b: byte)
    requires IsCarry(whole) && IsCarry(kept) && Shadows(whole, kept) && kept != whole
    requires |Step(whole, b).bodies| == |Step(kept, b).bodies| == 1
    requires !Misleading(Step(whole, b).bodies[0])
    ensures !IsQuery(Step(whole, b).bodies[0]) && !IsQuery(Step(kept, b).bodies[0])
  {
    var body, inner := Step(whole, b).bodies[0], Step(kept, b).bodies[0];
    var d := |whole| - |kept|;
    assert forall j | 0 <= j < |kept| :: kept[j] == whole[d + j];
    assert whole[d] == kept[0] == ESC && whole[d + 1] == kept[1] == OSC;
    assert |body| == |inner| + d && body == whole[2..2 + |body|] && inner == kept[2..2 + |inner|];
    assert body[d - 2] == whole[d] && body[d - 1] == whole[d + 1];
    assert forall j | 0 <= j < |inner| :: inner[j] == kept[2 + j] == whole[d + 2 + j] == body[d + j];
    if |inner| == 4 {
      assert body[|body| - 4..] == inner;
      assert body[|body| - 6..|body| - 4] == [ESC, OSC];
    }
  }

  lemma {:induction false} ShadowFold(whole: seq<byte>, kept: seq<byte>, s: seq<byte>)
    requires IsCarry(whole) && IsCarry(kept) && Shadows(whole, kept)
    requires !Misleads(Fold(whole, s).bodies)
    ensures Shadows(Fold(whole, s).carry, Fold(kept, s).carry)
    ensures Replies(Fold(whole, s).bodies) == Replies(Fold(kept, s).bodies)
    decreases |s|
  {
    if s != [] {
      var w, k := Step(whole, s[0]), Step(kept, s[0]);
      var wt, kt := Fold(w.carry, s[1..]), Fold(k.carry, s[1..]);
      MisleadsSplit(w.bodies, wt.bodies);
      ShadowStep(whole, kept, s[0]);
      StepKeepsCarry(whole, s[0]);
      StepKeepsCarry(kept, s[0]);
      ShadowFold(w.carry, k.carry, s[1..]);
      RepliesConcat(w.bodies, wt.bodies);
      RepliesConcat(k.bodies, kt.bodies);
    }
  }

  lemma MisleadsSplit(a: seq<seq<byte>>, b: seq<seq<byte>>)
    ensures Misleads(a + b) <==> Misleads(a) || Misleads(b)
  {
    if i :| 0 <= i < |a| && Misleading(a[i]) {
      assert Misleading((a + b)[i]);
    }
    if i :| 0 <= i < |b| && Misleading(b[i]) {
      assert Misleading((a + b)[|a| + i]);
    }
  }

  lemma {:induction false} ShadowFeed(whole: seq<byte>, kept: seq<byte>, chunks: seq<seq<byte>>)
    requires IsCarry(whole) && IsCarry(kept) && Shadows(whole, kept)
    requires !Misleads(Fold(whole, Flatten(chunks)).bodies)
    ensures Replies(FeedAll(kept, chunks).bodies) == Replies(Fold(whole, Flatten(chunks)).bodies)
    decreases |chunks|
  {
    if chunks != [] {
      var rest := Flatten(chunks[1..]);
      FoldConcat(whole, chunks[0], rest);
      var w, k := Fold(whole, chunks[0]), Fold(kept, chunks[0]);
      MisleadsSplit(w.bodies, Fold(w.carry, rest).bodies);
      ShadowFold(whole, kept, chunks[0]);
      FoldKeepsCarry(whole, chunks[0]);
      FoldKeepsCarry(kept, chunks[0]);
      assert Shadows(w.carry, Capped(k.carry));
      ShadowFeed(w.carry, Capped(k.carry), chunks[1..]);
      RepliesConcat(w.bodies, Fold(w.carry, rest).bodies);
      RepliesConcat(k.bodies, FeedAll(Capped(k.carry), chunks[1..]).bodies);
    }
  }

  /** Where in the input the `n`-th body sits: after `pre`, closed by `stop`, followed by `post`. */
  ghost predicate Located(s: seq<byte>, n: nat, pre: seq<byte>, stop: seq<byte>, post: seq<byte>) {
    var scan := Fold([], s);
    && n < |scan.bodies|
    && s == pre + ([ESC, OSC] + scan.bodies[n] + (stop + post))
    && NoTerminator(scan.bodies[n])
    && (stop == [BEL] || stop == [ESC, ST])
    && |Fold([], pre).carry| < 2
    && scan.bodies == Fold([], pre).bodies + [scan.bodies[n]] + Fold([], post).bodies
  }

  lemma ShortCarryBeforeEsc(c: seq<byte>, t: seq<byte>)
    requires IsCarry(c) && |c| < 2 && t != [] && t[0] == ESC
    ensures Fold(c, t) == Fold([], t)
  {
    assert Step(c, ESC) == Step([], ESC);
  }

  lemma {:induction false} BodyLocated(s: seq<byte>, n: nat) returns (pre: seq<byte>, stop: seq<byte>, post: seq<byte>)
    requires n < |Fold([], s).bodies|
    ensures Located(s, n, pre, stop, post)
    decreases |s|
  {
    var segs := SegmentationExists(s, 0);
    assert s[0..] == s;
    ScanIsSegmentation(s, 0, segs);
    var g := segs[0];
    if n == 0 {
      FirstLocated(s, g);
      pre, stop, post := s[..g.start], s[g.bodyEnd..g.end], s[g.end..];
    } else {
      SegmentYields(s, 0, g);
      pre, stop, post := BodyLocated(s[g.end..], n - 1);
      LaterLocated(s, g, n, pre, stop, post);
      pre := s[..g.end] + pre;
    }
  }

  lemma LaterLocated(s: seq<byte>, g: Segment, n: nat, pre: seq<byte>, stop: seq<byte>, post: seq<byte>)
    requires SegmentFrom(s, 0, g) && 0 < n && Located(s[g.end..], n - 1, pre, stop, post)
    ensures Located(s, n, s[..g.end] + pre, stop, post)
  {
    var body, rest := s[g.start + 2..g.bodyEnd], s[g.end..];
    var bodies := Fold([], rest).bodies;
    FirstSegmentAlone(s, g);
    assert Fold([], s).bodies == [body] + bodies by {
      assert s == s[..g.end] + rest;
      FoldConcat([], s[..g.end], rest);
    }
    FoldConcat([], s[..g.end], pre);
    var tail := [ESC, OSC] + bodies[n - 1] + (stop + post);
    assert s == s[..g.end] + pre + tail by {
      assert s == s[..g.end] + rest;
      Regroup(s[..g.end], pre, tail);
    }
    var a, b := Fold([], pre).bodies, Fold([], post).bodies;
    assert [body] + a + [bodies[n - 1]] + b == [body] + (a + [bodies[n - 1]] + b);
  }

  lemma FirstLocated(s: seq<byte>, g: Segment)
    requires SegmentFrom(s, 0, g)
    ensures Located(s, 0, s[..g.start], s[g.bodyEnd..g.end], s[g.end..])
  {
    var pre, body, post := s[..g.start], s[g.start + 2..g.bodyEnd], s[g.end..];
    assert Fold([], s).bodies == [body] + Fold([], post).bodies by {
      assert s[0..] == s;
      SegmentYields(s, 0, g);
    }
    assert Fold([], pre).bodies == [] && |Fold([], pre).carry| < 2 by {
      assert s[0..g.start] == pre;
      BeforeIntroducer(s, 0, g.start);
    }
    BodyHasNoTerminator(s, 0, g);
    Pieces(s, g.start, g.bodyEnd, g.end);
    assert [] + [body] == [body];
  }

  lemma Pieces(s: seq<byte>, i: nat, j: nat, k: nat)
    requires i + 2 <= j <= k <= |s| && s[i] == ESC && s[i + 1] == OSC
    ensures s == s[..i] + ([ESC, OSC] + s[i + 2..j] + (s[j..k] + s[k..]))
  {
    assert s[j..k] + s[k..] == s[j..];
    assert [ESC, OSC] + s[i + 2..j] == s[i..j];
    assert s[i..j] + s[j..] == s[i..];
  }

  lemma BodyHasNoTerminator(s: seq<byte>, from: nat, g: Segment)
    requires SegmentFrom(s, from, g)
    ensures NoTerminator(s[g.start + 2..g.bodyEnd])
    ensures s[g.bodyEnd..g.end] == [BEL] || s[g.bodyEnd..g.end] == [ESC, ST]
  {
    var body := s[g.start + 2..g.bodyEnd];
    forall i: nat | i < |body|
      ensures !TerminatorAt(body, i)
    {
      assert !TerminatorAt(s, g.start + 2 + i);
    }
  }

  lemma FirstSegmentAlone(s: seq<byte>, g: Segment)
    requires SegmentFrom(s, 0, g)
    ensures Fold([], s[..g.end]) == Scan([s[g.start + 2..g.bodyEnd]], [])
  {
    var body, stop := s[g.start + 2..g.bodyEnd], s[g.bodyEnd..g.end];
    BodyHasNoTerminator(s, 0, g);
    ClosedAlone(body, stop);
    BeforeIntroducer(s, 0, g.start);
    assert s[0..g.start] == s[..g.start];
    UpToSegment(s, g);
    AloneAfter(s[..g.start], [ESC, OSC] + body + stop, body);
  }

  lemma UpToSegment(s: seq<byte>, g: Segment)
    requires SegmentFrom(s, 0, g)
    ensures s[..g.end] == s[..g.start] + ([ESC, OSC] + s[g.start + 2..g.bodyEnd] + s[g.bodyEnd..g.end])
  {
  }

  lemma AloneAfter(pre: seq<byte>, closed: seq<byte>, body: seq<byte>)
    requires Fold([], pre).bodies == [] && |Fold([], pre).carry| < 2
    requires closed != [] && closed[0] == ESC && Fold([], closed) == Scan([body], [])
    ensures Fold([], pre + closed) == Scan([body], [])
  {
    FoldKeepsCarry([], pre);
    ShortCarryBeforeEsc(Fold([], pre).carry, closed);
    FoldConcat([], pre, closed);
  }

  lemma ClosedAlone(body: seq<byte>, stop: seq<byte>)
    requires NoTerminator(body) && (stop == [BEL] || stop == [ESC, ST])
    ensures Fold([], [ESC, OSC] + body + stop) == Scan([body], [])
  {
    ClosedString(body, stop, []);
    assert [ESC, OSC] + body + stop + [] == [ESC, OSC] + body + stop;
  }

  lemma ClosedString(body: seq<byte>, stop: seq<byte>, post: seq<byte>)
    requires NoTerminator(body) && (stop == [BEL] || stop == [ESC, ST])
    ensures var s := [ESC, OSC] + body + stop + post;
      Fold([], s) == Scan([body] + Fold([], post).bodies, Fold([], post).carry)
  {
    var s := [ESC, OSC] + body + stop + post;
    var t := s[2..];
    assert t == body + stop + post;
    forall i: nat | i < |body|
      ensures !TerminatorAt(t, i)
    {
      assert !TerminatorAt(body, i);
    }
    assert BodyEndsAt(t, |body|, |stop|);
    TerminatedYieldsBody(s, |body|, |stop|);
    assert s[2..2 + |body|] == body;
    assert s[2 + |body| + |stop|..] == post;
  }

  lemma {:induction false} BeforeIntroducer(s: seq<byte>, from: nat, i: nat)
    requires FirstIntroducer(s, from, i)
    ensures Fold([], s[from..i]).bodies == []
    ensures Fold([], s[from..i]).carry == [] || Fold([], s[from..i]).carry == [ESC]
    decreases i - from
  {
    if from < i {
      assert !IntroducerAt(s, from);
      BeforeIntroducer(s, from + 1, i);
      var t := s[from..i];
      assert t[1..] == s[from + 1..i];
      if t[0] == ESC && |t| >= 2 {
        LoneEscIsSkipped(t);
      }
    }
  }

  lemma RepliesOfOne(body: seq<byte>)
    ensures Replies([body]) == ReplyTo(body)
  {
    assert [body][1..] == [];
    assert Replies([]) == [];
  }

  lemma RepliesAround(a: seq<seq<byte>>, body: seq<byte>, b: seq<seq<byte>>)
    ensures Replies(a + [body] + b) == Replies(a) + ReplyTo(body) + Replies(b)
  {
    var front := a + [body];
    assert Replies(front) == Replies(a) + ReplyTo(body) by {
      RepliesConcat(a, [body]);
      RepliesOfOne(body);
    }
    RepliesConcat(front, b);
  }

  /** Cutting just before the look-alike query makes the scanner answer it. */
  lemma MisleadingCut(s: seq<byte>, n: nat)
    requires n < |Fold([], s).bodies| && Misleading(Fold([], s).bodies[n])
    ensures !ChunkingNeverMatters(s)
  {
    var pre, stop, post := BodyLocated(s, n);
    var body := Fold([], s).bodies[n];
    var first, second := CutAnswersQuery(pre, body, stop, post);
    RepliesAround(Fold([], pre).bodies, body, Fold([], post).bodies);
    assert Flatten([first, second]) == s;
  }

  lemma CutAnswersQuery(pre: seq<byte>, body: seq<byte>, stop: seq<byte>, post: seq<byte>)
    returns (first: seq<byte>, second: seq<byte>)
    requires Misleading(body) && NoTerminator(body) && (stop == [BEL] || stop == [ESC, ST])
    requires |Fold([], pre).carry| < 2
    ensures Flatten([first, second]) == pre + ([ESC, OSC] + body + (stop + post))
    ensures |Replies(FeedAll([], [first, second]).bodies)|
         == |Replies(Fold([], pre).bodies)| + 25 + |Replies(Fold([], post).bodies)|
  {
    var before, query := body[..|body| - 6], body[|body| - 4..];
    first, second := pre + ([ESC, OSC] + before), [ESC, OSC] + query + stop + post;
    var a, b := Fold([], pre).bodies, Fold([], post).bodies;
    assert Fold([], first) == Scan(a, [ESC, OSC] + before) by {
      PrefixHasNoTerminator(body, |before|);
      OpenAfter(pre, before);
    }
    assert Fold([], second).bodies == [query] + b by {
      assert NoTerminator(query);
      ClosedString(query, stop, post);
    }
    TwoChunks(first, second);
    LookAlikeSplits(pre, body, stop, post);
    assert |Replies([query] + b)| == 25 + |Replies(b)| by {
      RepliesConcat([query], b);
      RepliesOfOne(query);
    }
    RepliesConcat(a, [query] + b);
  }

  lemma LookAlikeSplits(pre: seq<byte>, body: seq<byte>, stop: seq<byte>, post: seq<byte>)
    requires Misleading(body)
    ensures var before, query := body[..|body| - 6], body[|body| - 4..];
      pre + ([ESC, OSC] + before) + ([ESC, OSC] + query + stop + post) == pre + ([ESC, OSC] + body + (stop + post))
  {
    var before, query := body[..|body| - 6], body[|body| - 4..];
    assert body == before + ([ESC, OSC] + query);
    var tail := stop + post;
    assert [ESC, OSC] + query + stop + post == ([ESC, OSC] + query) + tail;
    assert [ESC, OSC] + body + tail == ([ESC, OSC] + before) + (([ESC, OSC] + query) + tail);
  }

  lemma PrefixHasNoTerminator(body: seq<byte>, k: nat)
    requires k <= |body| && NoTerminator(body)
    ensures NoTerminator(body[..k])
  {
    forall i: nat | i < k
      ensures !TerminatorAt(body[..k], i)
    {
      assert !TerminatorAt(body, i);
    }
  }

  lemma OpenAfter(pre: seq<byte>, before: seq<byte>)
    requires |Fold([], pre).carry| < 2 && NoTerminator(before)
    ensures Fold([], pre + ([ESC, OSC] + before)) == Scan(Fold([], pre).bodies, [ESC, OSC] + before)
  {
    var open := [ESC, OSC] + before;
    FoldConcat([], pre, open);
    FoldKeepsCarry([], pre);
    ShortCarryBeforeEsc(Fold([], pre).carry, open);
    assert open[2..] == before;
    UnterminatedIsCarried(open);
  }

  lemma TwoChunks(first: seq<byte>, second: seq<byte>)
    requires |Fold([], first).carry| > MAX_PENDING_OSC_QUERY
    ensures Flatten([first, second]) == first + second
    ensures FeedAll([], [first, second]).bodies == Fold([], first).bodies + Fold([], second).bodies
  {
    var chunks := [first, second];
    assert chunks[1..] == [second] && [second][1..] == [];
    assert Flatten([second]) == second + Flatten([]) == second;
    assert FeedAll([], [second]).bodies == Fold([], second).bodies + [];
  }

  /** Exactly when the replies do not depend on how a stream is cut into chunks, cap and all. */
  lemma ChunkInvarianceIff(s: seq<byte>)
    ensures ChunkingNeverMatters(s) <==> !Misleads(Fold([], s).bodies)
  {
    if n :| 0 <= n < |Fold([], s).bodies| && Misleading(Fold([], s).bodies[n]) {
      MisleadingCut(s, n);
    } else {
      forall chunks | Flatten(chunks) == s
        ensures Replies(FeedAll([], chunks).bodies) == Replies(Fold([], s).bodies)
      {
        ShadowFeed([], [], chunks);
      }
    }
  }

  /** The cap does change replies: after 63 bytes of an unknown OSC string, a look-alike query that
      one feed would swallow is answered when the string is cut in front of it. */
  lemma CapCanForgeReply() returns (s: seq<byte>)
    ensures Replies(Fold([], s).bodies) == [] && !ChunkingNeverMatters(s)
  {
    var filler: seq<byte> := seq(63, _ => 0x78);
    var body := filler + [ESC, OSC, 0x31, 0x30, 0x3b, 0x3f];
    s := [ESC, OSC] + body + [BEL] + [];
    forall i: nat | i < |body|
      ensures !TerminatorAt(body, i)
    {
    }
    ClosedString(body, [BEL], []);
    RepliesOfOne(body);
    assert Fold([], s).bodies == [body];
    assert body[63..65] == [ESC, OSC] && body[65..] == [0x31, 0x30, 0x3b, 0x3f];
    assert Misleading(Fold([], s).bodies[0]);
    ChunkInvarianceIff(s);
  }

  // ------------------------------------------------------------ the terminal

  /** The first terminator of `bytes` read as an OSC body, and its length. */
  method OscBodyEnd(bytes: seq<byte>) returns (found: Option<(nat, nat)>)
    ensures found.None? <==> NoTerminator(bytes)
    ensures found.Some? ==> BodyEndsAt(bytes, found.value.0, found.value.1)
  {
    var index := 0;
    while index < |bytes|
      invariant index <= |bytes|
      invariant forall i: nat | i < index :: !TerminatorAt(bytes, i)
    {
      assert !TerminatorAt(bytes, index) || BodyEndsAt(bytes, index, if bytes[index] == BEL then 1 else 2);
      if bytes[index] == BEL {
        return Some((index, 1));
      } else if bytes[index] == ESC && index + 1 < |bytes| && bytes[index + 1] == ST {
        return Some((index, 2));
      } else {
        index := index + 1;
      }
    }
    return None;
  }

  /** The outcome of scanning the rest from `index`, given the bodies met before; the loop keeps it constant. */
  ghost function Outlook(scan: seq<byte>, index: nat, done: seq<seq<byte>>): Scan
    requires index <= |scan|
  {
    var rest := Fold([], scan[index..]);
    Scan(done + rest.bodies, rest.carry)
  }

  lemma OutlookAtStart(scan: seq<byte>)
    ensures Outlook(scan, 0, []) == Fold([], scan)
  {
    assert scan[0..] == scan;
  }

  lemma SkipKeepsOutlook(scan: seq<byte>, index: nat, done: seq<seq<byte>>)
    requires index < |scan|
    requires scan[index] != ESC || (index + 1 < |scan| && scan[index + 1] != OSC)
    ensures Outlook(scan, index + 1, done) == Outlook(scan, index, done)
  {
    SkipOne(scan, index);
  }

  lemma LastEscOutlook(scan: seq<byte>, index: nat, done: seq<seq<byte>>)
    requires index + 1 == |scan| && scan[index] == ESC
    ensures Outlook(scan, index, done) == Scan(done, scan[index..])
  {
    assert scan[index..] == [ESC] && [ESC][1..] == [];
    assert Fold([], [ESC]) == Scan([], [ESC]);
    assert done + [] == done;
  }

  lemma OpenStringOutlook(scan: seq<byte>, index: nat, done: seq<seq<byte>>)
    requires IntroducerAt(scan, index) && NoTerminator(scan[index + 2..])
    ensures Outlook(scan, index, done) == Scan(done, scan[index..])
  {
    assert scan[index..][2..] == scan[index + 2..];
    UnterminatedIsCarried(scan[index..]);
    assert done + [] == done;
  }

  /** Answering a terminated string and moving behind it keeps the outlook. */
  lemma StringOutlook(scan: seq<byte>, index: nat, start: nat, done: seq<seq<byte>>, end: nat, len: nat, body: seq<byte>,
                      next: nat, sent: seq<byte>, output: seq<byte>)
    returns (more: seq<seq<byte>>)
    requires IntroducerAt(scan, index) && start == index + 2 && BodyEndsAt(scan[start..], end, len)
    requires start + end <= |scan| && body == scan[start..start + end] && next == start + end + len
    requires output == sent + Replies(done) + ReplyTo(body)
    ensures next <= |scan|
    ensures Outlook(scan, next, more) == Outlook(scan, index, done)
    ensures output == sent + Replies(more)
  {
    more := done + [body];
    StringAtIndex(scan, index, start, end, len, body, next);
    var rest := Fold([], scan[next..]).bodies;
    Regroup(done, [body], rest);
    RepliesConcat(done, [body]);
    RepliesOfOne(body);
    Regroup(sent, Replies(done), ReplyTo(body));
  }

  lemma StringAtIndex(scan: seq<byte>, index: nat, start: nat, end: nat, len: nat, body: seq<byte>, next: nat)
    requires IntroducerAt(scan, index) && start == index + 2 && BodyEndsAt(scan[start..], end, len)
    requires start + end <= |scan| && body == scan[start..start + end] && next == start + end + len
    ensures next <= |scan|
    ensures Fold([], scan[index..]) == Scan([body] + Fold([], scan[next..]).bodies, Fold([], scan[next..]).carry)
  {
    var t := scan[index..];
    assert t[2..] == scan[start..];
    assert t[2..2 + end] == body;
    TerminatedYieldsBody(t, end, len);
    assert t[2 + end + len..] == scan[next..];
  }

  lemma OutlookAtEnd(scan: seq<byte>, done: seq<seq<byte>>)
    ensures Outlook(scan, |scan|, done) == Scan(done, [])
  {
    assert done + [] == done;
  }

  class Terminal {
    var pendingOscQuery: seq<byte>
    var ptyOutput: seq<byte>

    ghost predicate Valid()
      reads this
    {
      IsCarry(pendingOscQuery) && |pendingOscQuery| <= MAX_PENDING_OSC_QUERY
    }

    constructor ()
      ensures Valid() && pendingOscQuery == [] && ptyOutput == []
    {
      pendingOscQuery, ptyOutput := [], [];
    }

    method Feed(bytes: seq<byte>)
      requires Valid()
      modifies this
      ensures Valid()
      ensures ptyOutput == old(ptyOutput) + Replies(Fold(old(pendingOscQuery), bytes).bodies)
      ensures pendingOscQuery == Capped(Fold(old(pendingOscQuery), bytes).carry)
    {
      if bytes == [] {
        assert Fold(pendingOscQuery, bytes) == Scan([], pendingOscQuery);
        assert Replies([]) == [] && ptyOutput + [] == ptyOutput;
        return;
      }
      FoldKeepsCarry(pendingOscQuery, bytes);
      RespondToTerminalQueries(bytes);
    }

    method TakePtyOutput() returns (bytes: seq<byte>)
      modifies this`ptyOutput
      ensures bytes == old(ptyOutput) && ptyOutput == []
    {
      bytes, ptyOutput := ptyOutput, [];
    }

    method RespondToTerminalQueries(bytes: seq<byte>)
      requires IsCarry(pendingOscQuery)
      modifies this
      ensures ptyOutput == old(ptyOutput) + Replies(Fold(old(pendingOscQuery), bytes).bodies)
      ensures pendingOscQuery == Capped(Fold(old(pendingOscQuery), bytes).carry)
    {
      var scan := pendingOscQuery + bytes;
      ghost var total, sent := Fold(pendingOscQuery, bytes), ptyOutput;
      assert Outlook(scan, 0, []) == total by {
        CarryResumes(pendingOscQuery, bytes);
        OutlookAtStart(scan);
      }
      pendingOscQuery := [];
      ghost var done: seq<seq<byte>> := [];

      var index := 0;
      while index < |scan|
        invariant index <= |scan|
        invariant pendingOscQuery == []
        invariant ptyOutput == sent + Replies(done)
        invariant Outlook(scan, index, done) == total
      {
        if scan[index] != ESC {
          SkipKeepsOutlook(scan, index, done);
          index := index + 1;
          continue;
        }
        if index + 1 >= |scan| {
          assert total == Scan(done, scan[index..]) by {
            LastEscOutlook(scan, index, done);
          }
          StorePendingOscQuery(scan[index..]);
          return;
        }
        if scan[index + 1] != OSC {
          SkipKeepsOutlook(scan, index, done);
          index := index + 1;
          continue;
        }
        var bodyStart := index + 2;
        var found := OscBodyEnd(scan[bodyStart..]);
        if found.None? {
          assert total == Scan(done, scan[index..]) by {
            OpenStringOutlook(scan, index, done);
          }
          StorePendingOscQuery(scan[index..]);
          return;
        }
        var (bodyEnd, terminatorLen) := found.value;
        var body := scan[bodyStart..bodyStart + bodyEnd];
        RespondToOscQuery(body);
        var next := bodyStart + bodyEnd + terminatorLen;
        done := StringOutlook(scan, index, bodyStart, done, bodyEnd, terminatorLen, body, next, sent, ptyOutput);
        index := next;
      }
      assert total == Scan(done, []) by {
        OutlookAtEnd(scan, done);
      }

      // The program stores a trailing ESC ] or ESC here; by then neither can be there.
      assert Fold([], scan).carry == [] by {
        OutlookAtStart(scan);
      }
      TailBlockIsDead(scan);
      if |scan| >= 2 && scan[|scan| - 2..] == [ESC, OSC] {
        assert false;
      } else if scan != [] && scan[|scan| - 1] == ESC {
        assert false;
      }
    }

    method RespondToOscQuery(body: seq<byte>)
      modifies this`ptyOutput
      ensures ptyOutput == old(ptyOutput) + ReplyTo(body)
    {
      if body == [0x31, 0x30, 0x3b, 0x3f] {
        ptyOutput := ptyOutput + ColorReply(0x30, DEFAULT_FG);
      } else if body == [0x31, 0x31, 0x3b, 0x3f] {
        ptyOutput := ptyOutput + ColorReply(0x31, DEFAULT_BG);
      } else if body == [0x31, 0x32, 0x3b, 0x3f] {
        ptyOutput := ptyOutput + ColorReply(0x32, DEFAULT_CURSOR);
      }
    }

    method StorePendingOscQuery(bytes: seq<byte>)
      modifies this`pendingOscQuery
      ensures pendingOscQuery == Capped(bytes)
    {
      pendingOscQuery := [];
      if |bytes| <= MAX_PENDING_OSC_QUERY {
        pendingOscQuery := pendingOscQuery + bytes;
      }
    }
  }
}

/** The bell scanner of a pane, and how its idea of an OSC string compares with the query scanner's. */
module Bells {
  import opened Bytes
  import opened TerminalBytes
  import Queries = TerminalQueries

  datatype Flags = Flags(inOsc: bool, prevEsc: bool)

  const IDLE := Flags(false, false)

  function Next(f: Flags, b: byte): Flags {
    if f.inOsc then
      if b == BEL || (b == ST && f.prevEsc) then IDLE else Flags(true, b == ESC)
    else if f.prevEsc then Flags(b == OSC, false)
    else Flags(false, b == ESC)
  }

  function Rings(f: Flags, b: byte): nat {
    if f == IDLE && b == BEL then 1 else 0
  }

  function FlagsAfter(f: Flags, s: seq<byte>): Flags
    decreases |s|
  {
    if s == [] then f else Next(FlagsAfter(f, s[..|s| - 1]), s[|s| - 1])
  }

  function BellCount(f: Flags, s: seq<byte>): nat
    decreases |s|
  {
    if s == [] then 0
    else BellCount(f, s[..|s| - 1]) + Rings(FlagsAfter(f, s[..|s| - 1]), s[|s| - 1])
  }

  class BellScanner {
    var inOsc: bool
    var prevEsc: bool

    constructor ()
      ensures State() == IDLE
    {
      inOsc, prevEsc := false, false;
    }

    function State(): Flags
      reads this
    {
      Flags(inOsc, prevEsc)
    }

    method Scan(bytes: seq<byte>) returns (count: nat)
      modifies this
      ensures State() == FlagsAfter(old(State()), bytes)
      ensures count == BellCount(old(State()), bytes)
    {
      count := 0;
      for i := 0 to |bytes|
        invariant State() == FlagsAfter(old(State()), bytes[..i])
        invariant count == BellCount(old(State()), bytes[..i])
      {
        var b := bytes[i];
        assert bytes[..i + 1][..i] == bytes[..i];
        if inOsc {
          if b == BEL {
            inOsc, prevEsc := false, false;
          } else if b == ESC {
            prevEsc := true;
          } else if b == ST && prevEsc {
            inOsc, prevEsc := false, false;
          } else {
            prevEsc := false;
          }
        } else if prevEsc {
          if b == OSC {
            inOsc := true;
          }
          prevEsc := false;
        } else {
          if b == ESC {
            prevEsc := true;
          } else if b == BEL {
            count := count + 1;
          }
        }
      }
      assert bytes[..|bytes|] == bytes;
    }
  }

  /** The scanner can be fed in any chunks: flags and total are those of one scan. */
  lemma {:induction false} ChunksAddUp(f: Flags, s: seq<byte>, t: seq<byte>)
    ensures FlagsAfter(f, s + t) == FlagsAfter(FlagsAfter(f, s), t)
    ensures BellCount(f, s + t) == BellCount(f, s) + BellCount(FlagsAfter(f, s), t)
    decreases |t|
  {
    if t == [] {
      assert s + t == s;
    } else {
      assert (s + t)[..|s + t| - 1] == s + t[..|t| - 1];
      ChunksAddUp(f, s, t[..|t| - 1]);
    }
  }

  // ------------------------------------------------- against the query scanner

  /** What the query scanner has undecided after the first `n` bytes: inside an OSC string that is
      at least its two-byte introducer. */
  function Undecided(s: seq<byte>, n: nat): seq<byte>
    requires n <= |s|
  {
    Queries.Fold([], s[..n]).carry
  }

  predicate InString(s: seq<byte>, n: nat)
    requires n <= |s|
  {
    |Undecided(s, n)| >= 2
  }

  /** How many ESC bytes stand directly before position `n`. */
  function EscRun(s: seq<byte>, n: nat): nat
    requires n <= |s|
  {
    if n > 0 && s[n - 1] == ESC then 1 + EscRun(s, n - 1) else 0
  }

  /** Both scanners are inside an OSC string after exactly the same prefixes. */
  ghost predicate CutAlike(s: seq<byte>) {
    forall n: nat | n <= |s| :: InString(s, n) == FlagsAfter(IDLE, s[..n]).inOsc
  }

  /** Outside any OSC string, a ']' that follows an even number of ESC bytes. */
  predicate EvenOpener(s: seq<byte>, n: nat) {
    n < |s| && s[n] == OSC && !InString(s, n) && EscRun(s, n) > 0 && EscRun(s, n) % 2 == 0
  }

  ghost predicate NoEvenOpener(s: seq<byte>, n: nat) {
    forall i: nat | i < n :: !EvenOpener(s, i)
  }

  predicate Agree(s: seq<byte>, n: nat)
    requires n <= |s|
  {
    var c, f := Undecided(s, n), FlagsAfter(IDLE, s[..n]);
    if |c| >= 2 then f == Flags(true, |c| > 2 && c[|c| - 1] == ESC)
    else f == Flags(false, EscRun(s, n) % 2 == 1) && (c != [] <==> EscRun(s, n) > 0)
  }

  lemma OneMore(s: seq<byte>, n: nat)
    requires n < |s|
    ensures Undecided(s, n + 1) == Queries.Step(Undecided(s, n), s[n]).carry
    ensures FlagsAfter(IDLE, s[..n + 1]) == Next(FlagsAfter(IDLE, s[..n]), s[n])
    ensures BellCount(IDLE, s[..n + 1]) == BellCount(IDLE, s[..n]) + Rings(FlagsAfter(IDLE, s[..n]), s[n])
  {
    assert s[..n + 1] == s[..n] + [s[n]];
    Queries.FoldConcat([], s[..n], [s[n]]);
    Queries.StepOne(Undecided(s, n), s[n]);
  }

  lemma {:induction false} AgreeUntilOpener(s: seq<byte>, n: nat)
    requires n <= |s| && NoEvenOpener(s, n)
    ensures Agree(s, n)
  {
    if n > 0 {
      AgreeUntilOpener(s, n - 1);
      OneMore(s, n - 1);
      assert !EvenOpener(s, n - 1);
      Queries.FoldKeepsCarry([], s[..n - 1]);
    }
  }

  /** Exactly when the two scanners cut a stream into the same OSC strings. */
  lemma CutAlikeIff(s: seq<byte>)
    ensures CutAlike(s) <==> NoEvenOpener(s, |s|)
  {
    if NoEvenOpener(s, |s|) {
      forall n: nat | n <= |s|
        ensures InString(s, n) == FlagsAfter(IDLE, s[..n]).inOsc
      {
        AgreeUntilOpener(s, n);
      }
    } else {
      var n := FirstOpener(s, |s|);
      AgreeUntilOpener(s, n);
      OneMore(s, n);
      Queries.FoldKeepsCarry([], s[..n]);
      assert InString(s, n + 1) != FlagsAfter(IDLE, s[..n + 1]).inOsc;
    }
  }

  lemma {:induction false} FirstOpener(s: seq<byte>, n: nat) returns (i: nat)
    requires !NoEvenOpener(s, n)
    ensures i < n && EvenOpener(s, i) && NoEvenOpener(s, i)
  {
    if NoEvenOpener(s, n - 1) {
      i := n - 1;
    } else {
      i := FirstOpener(s, n - 1);
    }
  }

  /** In particular they agree when no ESC directly follows an ESC outside the OSC strings. */
  lemma NoDoubleEscMeansAlike(s: seq<byte>)
    requires forall n: nat | n + 1 < |s| && s[n] == ESC && s[n + 1] == ESC :: InString(s, n)
    ensures CutAlike(s)
  {
    forall i: nat | i < |s|
      ensures !EvenOpener(s, i)
    {
      if EvenOpener(s, i) {
        PairBeforeOpener(s, i);
      }
    }
    CutAlikeIff(s);
  }

  lemma PairBeforeOpener(s: seq<byte>, i: nat)
    requires EvenOpener(s, i)
    ensures i >= 2 && s[i - 2] == ESC && s[i - 1] == ESC && !InString(s, i - 2)
  {
    assert s[i - 1] == ESC && EscRun(s, i - 1) > 0 && s[i - 2] == ESC;
    OneMore(s, i - 2);
    OneMore(s, i - 1);
  }

  /** A BEL outside the OSC strings that does not complete an ESC pair. */
  predicate AudibleBell(s: seq<byte>, n: nat) {
    n < |s| && s[n] == BEL && !InString(s, n) && EscRun(s, n) % 2 == 0
  }

  function AudibleBells(s: seq<byte>, n: nat): nat
    requires n <= |s|
  {
    if n == 0 then 0 else AudibleBells(s, n - 1) + if AudibleBell(s, n - 1) then 1 else 0
  }

  /** On such a stream the count is exactly the audible bells. */
  lemma {:induction false} CountIsAudibleBells(s: seq<byte>, n: nat)
    requires n <= |s| && NoEvenOpener(s, n)
    ensures BellCount(IDLE, s[..n]) == AudibleBells(s, n)
  {
    if n > 0 {
      CountIsAudibleBells(s, n - 1);
      AgreeUntilOpener(s, n - 1);
      OneMore(s, n - 1);
    }
  }
}

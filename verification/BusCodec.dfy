/** Length-prefixed frames: a big-endian 32-bit length, then that many bytes. */
module BusCodec {
  import opened Sequences
  import opened Bytes
  import opened Wrappers

  const MAX_FRAME_BYTES: nat := 4 * 1024 * 1024

  datatype FrameError = TooLarge(len: nat) | UnexpectedEof

  // ------------------------------------------------------------ specification

  /** The low 32 bits of `n`, most significant byte first. */
  function ToBigEndian(n: nat): (b: seq<byte>)
    ensures |b| == 4
  {
    var u := n % 0x1_0000_0000;
    [(u / 0x100_0000) as byte, (u / 0x1_0000 % 0x100) as byte, (u / 0x100 % 0x100) as byte, (u % 0x100) as byte]
  }

  function FromBigEndian(b: seq<byte>): (n: nat)
    requires |b| == 4
    ensures n < 0x1_0000_0000
  {
    b[0] as nat * 0x100_0000 + b[1] as nat * 0x1_0000 + b[2] as nat * 0x100 + b[3] as nat
  }

  lemma BigEndianBothWays(n: nat, b: seq<byte>)
    requires n < 0x1_0000_0000 && |b| == 4
    ensures FromBigEndian(b) == n <==> b == ToBigEndian(n)
  {
    DecodeEncoded(n);
    if FromBigEndian(b) == n {
      EncodeDecoded(b);
    }
  }

  lemma Shift(high: nat, low: nat)
    requires low < 0x100
    ensures (high * 0x100 + low) / 0x100 == high && (high * 0x100 + low) % 0x100 == low
  {
  }

  lemma DecodeEncoded(n: nat)
    requires n < 0x1_0000_0000
    ensures FromBigEndian(ToBigEndian(n)) == n
  {
    var h3 := n / 0x100;
    var h2 := h3 / 0x100;
    assert n / 0x1_0000 == h2;
    assert n / 0x100_0000 == h2 / 0x100;
    assert n == h3 * 0x100 + n % 0x100 && h3 == h2 * 0x100 + h3 % 0x100 && h2 == h2 / 0x100 * 0x100 + h2 % 0x100;
  }

  lemma EncodeDecoded(b: seq<byte>)
    requires |b| == 4
    ensures ToBigEndian(FromBigEndian(b)) == b
  {
    var n := FromBigEndian(b);
    var h1 := b[0] as nat;
    var h2 := h1 * 0x100 + b[1] as nat;
    var h3 := h2 * 0x100 + b[2] as nat;
    Shift(h1, b[1] as nat);
    Shift(h2, b[2] as nat);
    Shift(h3, b[3] as nat);
    assert n == h3 * 0x100 + b[3] as nat;
    assert n / 0x1_0000 == n / 0x100 / 0x100;
    assert n / 0x100_0000 == n / 0x1_0000 / 0x100;
  }

  function Frame(body: seq<byte>): (s: seq<byte>)
    ensures |s| == 4 + |body|
  {
    ToBigEndian(|body|) + body
  }

  /** `s` is a frame for `body` that a reader takes, followed by `rest`. */
  ghost predicate StartsWithFrame(s: seq<byte>, body: seq<byte>, rest: seq<byte>) {
    |body| <= MAX_FRAME_BYTES && s == Frame(body) + rest
  }

  /** What one read makes of the bytes `s`, and which bytes it leaves unread. */
  function Unframe(s: seq<byte>): (r: (Result<seq<byte>, FrameError>, seq<byte>))
    ensures |r.1| <= |s| && (r.0.Success? ==> |r.1| < |s|)
  {
    if |s| < 4 then (Failure(UnexpectedEof), [])
    else
      var len := FromBigEndian(s[..4]);
      if len > MAX_FRAME_BYTES then (Failure(TooLarge(len)), s[4..])
      else if |s| < 4 + len then (Failure(UnexpectedEof), [])
      else (Success(s[4..4 + len]), s[4 + len..])
  }

  // ------------------------------------------------------------------- stream

  /** A connected byte stream: what the peer will have sent, not yet read, and what was written to it. */
  class Stream {
    var input: seq<byte>
    var output: seq<byte>

    constructor (input: seq<byte>)
      ensures this.input == input && output == []
    {
      this.input := input;
      output := [];
    }

    /** The next `n` bytes; a stream that ends before that loses what it had. */
    method ReadExact(n: nat) returns (r: Option<seq<byte>>)
      modifies this`input
      ensures if n <= |old(input)| then old(input) == r.GetOr([]) + input && r.Some? && |r.value| == n
              else r.None? && input == []
    {
      if n <= |input| {
        r := Some(input[..n]);
        input := input[n..];
      } else {
        r := None;
        input := [];
      }
    }

    /** Takes a body exactly when the stream starts with a frame for it, and nothing beyond that frame;
        otherwise says why the stream starts with no acceptable frame. */
    method ReadFrame() returns (r: Result<seq<byte>, FrameError>)
      modifies this`input
      ensures (r, input) == Unframe(old(input))
      ensures forall body, rest :: StartsWithFrame(old(input), body, rest) <==> r == Success(body) && input == rest
    {
      ghost var s := input;
      UnframeIff(s);
      var header := ReadExact(4);
      if header.None? {
        return Failure(UnexpectedEof);
      }
      assert header.value == s[..4] && input == s[4..];
      var len := FromBigEndian(header.value);
      if len > MAX_FRAME_BYTES {
        return Failure(TooLarge(len));
      }
      var body := ReadExact(len);
      if body.None? {
        return Failure(UnexpectedEof);
      }
      assert body.value == s[4..4 + len] && input == s[4 + len..];
      return Success(body.value);
    }

    /** Refuses a body above the limit without writing anything. */
    method WriteFrame(body: seq<byte>) returns (r: Result<(), FrameError>)
      modifies this`output
      ensures r == if |body| > MAX_FRAME_BYTES then Failure(TooLarge(|body|)) else Success(())
      ensures output == old(output) + (if |body| > MAX_FRAME_BYTES then [] else Frame(body))
    {
      if |body| > MAX_FRAME_BYTES {
        return Failure(TooLarge(|body|));
      }
      output := output + ToBigEndian(|body|);
      output := output + body;
      return Success(());
    }
  }

  // --------------------------------------------------------------- round trips

  /** A read inverts a write, and every successful read is of bytes that a write makes: neither direction
      can fail, whatever follows the frame. */
  lemma ReadInvertsWrite(s: seq<byte>, body: seq<byte>, rest: seq<byte>)
    ensures Unframe(s) == (Success(body), rest) <==> StartsWithFrame(s, body, rest)
  {
    if StartsWithFrame(s, body, rest) {
      assert s[..4] == ToBigEndian(|body|);
      BigEndianBothWays(|body|, s[..4]);
      assert s[4..4 + |body|] == body && s[4 + |body|..] == rest;
    }
    if Unframe(s) == (Success(body), rest) {
      BigEndianBothWays(|body|, s[..4]);
      assert s == s[..4] + s[4..4 + |body|] + s[4 + |body|..];
    }
  }

  lemma UnframeIff(s: seq<byte>)
    ensures forall body, rest :: StartsWithFrame(s, body, rest) <==> Unframe(s) == (Success(body), rest)
  {
    forall body, rest
      ensures StartsWithFrame(s, body, rest) <==> Unframe(s) == (Success(body), rest)
    {
      ReadInvertsWrite(s, body, rest);
    }
  }

  /** A frame cut short anywhere is an end of stream, never a shorter frame. */
  lemma CutFrameIsEof(body: seq<byte>, n: nat)
    requires |body| <= MAX_FRAME_BYTES && n < |Frame(body)|
    ensures Unframe(Frame(body)[..n]) == (Failure(UnexpectedEof), [])
  {
    if n >= 4 {
      var s := Frame(body)[..n];
      assert s[..4] == ToBigEndian(|body|);
      BigEndianBothWays(|body|, s[..4]);
    }
  }

  // ------------------------------------------------------------ many frames

  function Frames(bodies: seq<seq<byte>>): seq<byte> {
    if bodies == [] then [] else Frame(bodies[0]) + Frames(bodies[1..])
  }

  ghost predicate AllFit(bodies: seq<seq<byte>>) {
    forall i | 0 <= i < |bodies| :: |bodies[i]| <= MAX_FRAME_BYTES
  }

  /** Reading until the first read that fails: the bodies, the failure, and the bytes before that read. */
  datatype Reading = Reading(bodies: seq<seq<byte>>, stop: FrameError, unread: seq<byte>)

  function ReadAll(s: seq<byte>): (r: Reading)
    decreases |s|
  {
    match Unframe(s)
    case (Success(body), rest) => var more := ReadAll(rest); more.(bodies := [body] + more.bodies)
    case (Failure(e), _) => Reading([], e, s)
  }

  lemma ReadOne(s: seq<byte>, body: seq<byte>, rest: seq<byte>)
    requires StartsWithFrame(s, body, rest)
    ensures ReadAll(s) == Reading([body] + ReadAll(rest).bodies, ReadAll(rest).stop, ReadAll(rest).unread)
  {
    ReadInvertsWrite(s, body, rest);
  }

  lemma ReadFirst(first: seq<byte>, others: seq<seq<byte>>, tail: seq<byte>, more: Reading)
    requires |first| <= MAX_FRAME_BYTES && ReadAll(Frames(others) + tail) == Reading(others + more.bodies, more.stop, more.unread)
    ensures ReadAll(Frames([first] + others) + tail) == Reading([first] + others + more.bodies, more.stop, more.unread)
  {
    FramesCons(first, others);
    Regroup(Frame(first), Frames(others), tail);
    ReadOne(Frames([first] + others) + tail, first, Frames(others) + tail);
    Regroup([first], others, more.bodies);
  }

  /** Any list of bodies within the limit comes back as it was, and exactly the bytes after it are left. */
  lemma {:induction false} ListRoundTrip(bodies: seq<seq<byte>>, tail: seq<byte>)
    requires AllFit(bodies)
    ensures ReadAll(Frames(bodies) + tail)
         == Reading(bodies + ReadAll(tail).bodies, ReadAll(tail).stop, ReadAll(tail).unread)
  {
    if bodies == [] {
      assert Frames(bodies) + tail == tail;
      assert bodies + ReadAll(tail).bodies == ReadAll(tail).bodies;
    } else {
      ListRoundTrip(bodies[1..], tail);
      assert bodies == [bodies[0]] + bodies[1..];
      ReadFirst(bodies[0], bodies[1..], tail, ReadAll(tail));
    }
  }

  /** Conversely every byte stream is, in exactly one way, a list of frames within the limit followed by
      bytes that start with none. */
  lemma {:induction false} StreamIsFrames(s: seq<byte>)
    ensures var r := ReadAll(s); AllFit(r.bodies) && s == Frames(r.bodies) + r.unread && Unframe(r.unread).0 == Failure(r.stop)
    decreases |s|
  {
    var (taken, rest) := Unframe(s);
    if taken.Success? {
      var body, more := taken.value, ReadAll(rest);
      ReadInvertsWrite(s, body, rest);
      StreamIsFrames(rest);
      FramesCons(body, more.bodies);
      Regroup(Frame(body), Frames(more.bodies), more.unread);
      ReadOne(s, body, rest);
    } else {
      assert [] + s == s;
    }
  }

  lemma FramesCons(body: seq<byte>, bodies: seq<seq<byte>>)
    ensures Frames([body] + bodies) == Frame(body) + Frames(bodies)
  {
    assert ([body] + bodies)[1..] == bodies;
  }

  lemma FramesUnique(bodies: seq<seq<byte>>, tail: seq<byte>, s: seq<byte>)
    requires AllFit(bodies) && Unframe(tail).0.Failure? && s == Frames(bodies) + tail
    ensures ReadAll(s).bodies == bodies && ReadAll(s).unread == tail
  {
    ListRoundTrip(bodies, tail);
  }

  lemma {:induction false} FramesAppend(xs: seq<seq<byte>>, ys: seq<seq<byte>>)
    ensures Frames(xs + ys) == Frames(xs) + Frames(ys)
  {
    if xs == [] {
      assert xs + ys == ys;
    } else {
      assert (xs + ys)[1..] == xs[1..] + ys;
      FramesAppend(xs[1..], ys);
    }
  }
}

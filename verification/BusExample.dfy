/** A wire format that meets what the bus lemmas assume of JSON, and conversations over it in which a client
    is not told what it should be. */
module BusExamples {
  import opened Bytes
  import opened Sequences
  import opened Wrappers
  import opened BusCodec
  import opened BusConversation
  import opened BusClients

  // ----------------------------------------------------------- a plain encoding

  function Number(n: nat): (s: seq<byte>)
    ensures |s| == n + 1
  {
    seq(n, _ => 1 as byte) + [0]
  }

  function Chars(s: string): (b: seq<byte>)
    ensures |b| == 3 * |s|
  {
    if s == "" then [] else Char(s[0]) + Chars(s[1..])
  }

  function Text(s: string): (b: seq<byte>)
    ensures |b| == 4 * |s| + 1
  {
    Number(|s|) + Chars(s)
  }

  function RoleNumber(r: ClientRole): nat {
    match r case LmuxCli => 0 case KwinScript => 1 case Satellite => 2 case Plugin => 3 case LmuxMcp => 4
  }

  function CodeNumber(c: ErrorCode): nat {
    match c
    case FrameTooLarge => 0 case VersionMismatch => 1 case UnknownKind => 2 case PeerDenied => 3
    case BadRequest => 4 case Domain => 5 case Unauthorized => 6 case GrantDenied => 7
    case TranscriptUnavailable => 8 case StaleSequence => 9 case UserPinnedTitle => 10 case Io => 11
  }

  function IntNumber(i: int): nat {
    if i >= 0 then 2 * i else -2 * i - 1
  }

  function IdNumber(id: Option<Id>): nat {
    if id.Some? then id.value + 1 else 0
  }

  function KindBody(k: Kind): seq<byte> {
    match k
    case Hello(client, pid) => Number(0) + (Number(RoleNumber(client)) + (Number(IntNumber(pid)) + []))
    case HelloAck(version) => Number(1) + (Text(version) + [])
    case Error(p) =>
      Number(2) + (Number(CodeNumber(p.code)) + (Number(IdNumber(p.inReplyTo)) + (Number(if p.kindReceived.Some? then 1 else 0)
        + (Text(p.kindReceived.GetOr("")) + (Text(p.message) + [])))))
    case Other(tag, fields) => Number(3) + (Text(tag) + fields)
  }

  function Plain(m: Message): seq<byte> {
    Number(m.id) + KindBody(m.kind)
  }

  lemma NumberFirst(a: nat, x: seq<byte>, b: nat, y: seq<byte>)
    requires Number(a) + x == Number(b) + y
    ensures a == b && x == y
  {
    var s := Number(a) + x;
    assert s[a] == 0 && s[b] == 0;
    assert forall i | 0 <= i < a :: s[i] == Number(a)[i] == 1;
    assert forall i | 0 <= i < b :: s[i] == Number(b)[i] == 1;
    assert s[a + 1..] == x && s[b + 1..] == y;
  }

  function Char(c: char): (b: seq<byte>)
    ensures |b| == 3
  {
    [(c as nat / 0x1_0000) as byte, (c as nat / 0x100 % 0x100) as byte, (c as nat % 0x100) as byte]
  }

  lemma CharIsOne(c: char, d: char)
    requires Char(c) == Char(d)
    ensures c == d
  {
    CharValue(c);
    CharValue(d);
  }

  lemma CharValue(c: char)
    ensures var b := Char(c); c as nat == (b[0] as nat * 0x100 + b[1] as nat) * 0x100 + b[2] as nat
  {
    var high := c as nat / 0x100;
    assert c as nat / 0x1_0000 == high / 0x100;
    assert c as nat == high * 0x100 + c as nat % 0x100;
  }

  lemma {:induction false} CharsFirst(s: string, x: seq<byte>, t: string, y: seq<byte>)
    requires |s| == |t| && Chars(s) + x == Chars(t) + y
    ensures s == t && x == y
  {
    if s != "" {
      Regroup(Char(s[0]), Chars(s[1..]), x);
      Regroup(Char(t[0]), Chars(t[1..]), y);
      var p, q := Chars(s[1..]) + x, Chars(t[1..]) + y;
      assert (Char(s[0]) + p)[..3] == Char(s[0]) && (Char(t[0]) + q)[..3] == Char(t[0]);
      assert (Char(s[0]) + p)[3..] == p && (Char(t[0]) + q)[3..] == q;
      CharIsOne(s[0], t[0]);
      CharsFirst(s[1..], x, t[1..], y);
      assert s == [s[0]] + s[1..] && t == [t[0]] + t[1..];
    } else {
      assert Chars(s) + x == x && Chars(t) + y == y;
    }
  }

  lemma TextFirst(s: string, x: seq<byte>, t: string, y: seq<byte>)
    requires Text(s) + x == Text(t) + y
    ensures s == t && x == y
  {
    Regroup(Number(|s|), Chars(s), x);
    Regroup(Number(|t|), Chars(t), y);
    NumberFirst(|s|, Chars(s) + x, |t|, Chars(t) + y);
    CharsFirst(s, x, t, y);
  }

  lemma CodesDiffer(c: ErrorCode, d: ErrorCode)
    requires CodeNumber(c) == CodeNumber(d)
    ensures c == d
  {
  }

  lemma ErrorBodyIsOne(p: ErrorPayload, q: ErrorPayload)
    requires KindBody(Error(p)) == KindBody(Error(q))
    ensures p == q
  {
    var p3, q3 := Text(p.message) + [], Text(q.message) + [];
    var p2, q2 := Text(p.kindReceived.GetOr("")) + p3, Text(q.kindReceived.GetOr("")) + q3;
    var p1, q1 := Number(if p.kindReceived.Some? then 1 else 0) + p2, Number(if q.kindReceived.Some? then 1 else 0) + q2;
    var p0, q0 := Number(IdNumber(p.inReplyTo)) + p1, Number(IdNumber(q.inReplyTo)) + q1;
    NumberFirst(2, Number(CodeNumber(p.code)) + p0, 2, Number(CodeNumber(q.code)) + q0);
    NumberFirst(CodeNumber(p.code), p0, CodeNumber(q.code), q0);
    CodesDiffer(p.code, q.code);
    NumberFirst(IdNumber(p.inReplyTo), p1, IdNumber(q.inReplyTo), q1);
    NumberFirst(if p.kindReceived.Some? then 1 else 0, p2, if q.kindReceived.Some? then 1 else 0, q2);
    TextFirst(p.kindReceived.GetOr(""), p3, q.kindReceived.GetOr(""), q3);
    TextFirst(p.message, [], q.message, []);
  }

  function Rest(k: Kind): seq<byte> {
    match k
    case Hello(client, pid) => Number(RoleNumber(client)) + (Number(IntNumber(pid)) + [])
    case HelloAck(version) => Text(version) + []
    case Error(_) => KindBody(k)[3..]
    case Other(tag, fields) => Text(tag) + fields
  }

  function Branch(k: Kind): nat {
    match k case Hello(_, _) => 0 case HelloAck(_) => 1 case Error(_) => 2 case Other(_, _) => 3
  }

  lemma BodySplits(k: Kind)
    ensures KindBody(k) == Number(Branch(k)) + Rest(k)
  {
  }

  lemma KindBodyIsOne(k: Kind, l: Kind)
    requires KindBody(k) == KindBody(l)
    ensures k == l
  {
    BodySplits(k);
    BodySplits(l);
    NumberFirst(Branch(k), Rest(k), Branch(l), Rest(l));
    match k {
      case Hello(client, pid) =>
        NumberFirst(RoleNumber(client), Number(IntNumber(pid)) + [], RoleNumber(l.client), Number(IntNumber(l.pid)) + []);
        NumberFirst(IntNumber(pid), [], IntNumber(l.pid), []);
      case HelloAck(version) =>
        TextFirst(version, [], l.cockpitVersion, []);
      case Error(p) =>
        ErrorBodyIsOne(p, l.payload);
      case Other(tag, fields) =>
        TextFirst(tag, fields, l.otherTag, l.fields);
    }
  }

  lemma PlainIsOne(m: Message, o: Message)
    requires Plain(m) == Plain(o)
    ensures m == o
  {
    NumberFirst(m.id, KindBody(m.kind), o.id, KindBody(o.kind));
    KindBodyIsOne(m.kind, o.kind);
  }

  ghost function Parsed(b: seq<byte>): (m: Option<Message>)
    ensures m.Some? ==> Plain(m.value) == b
  {
    if exists m :: Plain(m) == b then
      var m :| Plain(m) == b;
      Some(m)
    else None
  }

  ghost function PlainWire(): Wire {
    Wire(
      b => if Parsed(b).Some? then Success(Envelope(PROTOCOL_VERSION, Parsed(b).value.kind.Tag(), Parsed(b).value.id)) else Failure(""),
      b => if Parsed(b).Some? then Success(Parsed(b).value.kind) else Failure(""),
      m => Plain(m), _ => "", _ => "")
  }

  /** What the bus lemmas assume of the JSON library can be had. */
  lemma PlainWireRoundTrips()
    ensures PlainWire().RoundTrips() && PlainWire().TagsAgree()
  {
    forall m
      ensures Parsed(Plain(m)) == Some(m)
    {
      PlainIsOne(m, Parsed(Plain(m)).value);
    }
  }

  // ------------------------------------------------------------ conversations

  /** A cockpit that answers every request with more than a frame can hold. */
  ghost function Talkative(): Cockpit {
    Cockpit(PlainWire(), (_, _, _) => Success(Other("ok", seq(MAX_FRAME_BYTES, _ => 0 as byte))), "1")
  }

  const GREETING := Message(1, Hello(LmuxCli, 0))

  /** The second request of this conversation is carried out, and the client is told that the stream has ended. */
  lemma OversizedReply() returns (c: Cockpit, requests: seq<Message>)
    ensures |requests| == 2 && c.wire.RoundTrips() && AllFit(Encoded(c.wire, requests))
    ensures Answered(c, 0, Encoded(c.wire, requests)) == 1
    ensures |CallsOf(c.wire, Encoded(c.wire, requests))| == 1
    ensures var answers := Encoded(c.wire, Replies(c, 0, Encoded(c.wire, requests)));
      Received(c.wire, requests[1].id, Frames(answers[1..])).0 == Failure(FromFrameError(UnexpectedEof))
  {
    c, requests := Talkative(), [GREETING, Message(2, Other("ok", []))];
    PlainWireRoundTrips();
    OneAnswered(c, requests);
    OneCalled(c, requests);
    SilenceIsEofIff(c, 0, requests, 1);
  }

  lemma OneAnswered(c: Cockpit, requests: seq<Message>)
    requires c == Talkative() && requests == [GREETING, Message(2, Other("ok", []))]
    ensures Answered(c, 0, Encoded(c.wire, requests)) == 1
  {
    PlainWireRoundTrips();
    FirstIsAcknowledged(c, requests);
    SecondDoesNotFit(requests);
    AnsweredIff(c, 0, Encoded(c.wire, requests), 1);
  }

  lemma OneCalled(c: Cockpit, requests: seq<Message>)
    requires c == Talkative() && requests == [GREETING, Message(2, Other("ok", []))]
    ensures |CallsOf(c.wire, Encoded(c.wire, requests))| == 1
  {
    PlainWireRoundTrips();
    SeenByCockpit(c.wire, requests);
    assert requests[..1] == [GREETING] && [GREETING][..0] == [];
    assert Handled([GREETING]) == 0 && HelloInForce([GREETING]).Some?;
  }

  lemma SecondDoesNotFit(requests: seq<Message>)
    requires requests == [GREETING, Message(2, Other("ok", []))]
    ensures !AnswerableAt(Talkative(), 0, Encoded(PlainWire(), requests), 1)
  {
    var c, sent := Talkative(), Encoded(PlainWire(), requests);
    PlainWireRoundTrips();
    assert sent[..1] == Encoded(c.wire, [GREETING]) && [GREETING][..0] == [];
    SeenByCockpit(c.wire, [GREETING]);
    RequestParses(c.wire, requests[1]);
    assert Due(c, 0, sent[..1], sent[1]).kind == Other("ok", seq(MAX_FRAME_BYTES, _ => 0 as byte));
  }

  lemma FirstIsAcknowledged(c: Cockpit, requests: seq<Message>)
    requires c.wire == PlainWire() && c.version == "1" && c.wire.RoundTrips() && requests != [] && requests[0] == GREETING
    ensures var sent := Encoded(c.wire, requests);
      Due(c, 0, sent[..0], sent[0]) == Message(1, HelloAck("1")) && AnswerableAt(c, 0, sent, 0)
  {
    RequestParses(c.wire, GREETING);
  }

  /** A client of another user is told of an id mismatch. */
  lemma ForeignPeer() returns (c: Cockpit, requests: seq<Message>)
    ensures requests == [GREETING] && c.wire.RoundTrips()
    ensures Received(c.wire, 1, ToPeer(c, 0, 1, 0, Frames(Encoded(c.wire, requests)))).0 == Failure(IdMismatch(c.wire, NIL, 1))
  {
    c, requests := Talkative(), [GREETING];
    PlainWireRoundTrips();
    IdCheckIff(c, 0, 1, 0, requests);
  }
}

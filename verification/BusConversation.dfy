/** The hello-gated request/response conversation that runs over framed messages: what the cockpit's
    connection loop answers, and what its client makes of the answers. */
module BusConversation {
  import opened Bytes
  import opened Sequences
  import opened Texts
  import opened Wrappers
  import opened BusCodec

  const PROTOCOL_VERSION := 2

  const HELLO_TAG := "hello"
  const HELLO_REQUIRED := "hello handshake required before other requests"
  const CONTEXT_MISSING := "hello handshake context missing"

  /** A 128-bit message id; 0 is the nil id. */
  type Id = nat
  const NIL: Id := 0

  datatype ErrorCode =
    | FrameTooLarge | VersionMismatch | UnknownKind | PeerDenied | BadRequest | Domain | Unauthorized
    | GrantDenied | TranscriptUnavailable | StaleSequence | UserPinnedTitle | Io

  datatype BusError =
    | FrameTooLargeError(len: nat)
    | VersionMismatchError(got: nat)
    | UnknownKindError(kindReceived: string)
    | PeerDeniedError
    | BadRequestError(message: string)
    | DomainError(message: string)
    | UnauthorizedError(message: string)
    | GrantDeniedError(message: string)
    | TranscriptUnavailableError(message: string)
    | StaleSequenceError(message: string)
    | UserPinnedTitleError(message: string)
    | JsonError(message: string)
    | IoError(message: string)
  {
    function Code(): ErrorCode {
      match this
      case FrameTooLargeError(_) => FrameTooLarge
      case VersionMismatchError(_) => VersionMismatch
      case UnknownKindError(_) => UnknownKind
      case PeerDeniedError => PeerDenied
      case BadRequestError(_) => BadRequest
      case DomainError(_) => Domain
      case UnauthorizedError(_) => Unauthorized
      case GrantDeniedError(_) => GrantDenied
      case TranscriptUnavailableError(_) => TranscriptUnavailable
      case StaleSequenceError(_) => StaleSequence
      case UserPinnedTitleError(_) => UserPinnedTitle
      case JsonError(_) => BadRequest
      case IoError(_) => Io
    }

    function Text(): string {
      match this
      case FrameTooLargeError(len) => "frame too large: " + Decimal(len) + " bytes > " + Decimal(MAX_FRAME_BYTES) + " limit"
      case VersionMismatchError(got) =>
        "protocol version mismatch: got v" + Decimal(got) + ", expected v" + Decimal(PROTOCOL_VERSION)
      case UnknownKindError(kind) => "unknown kind: " + kind
      case PeerDeniedError => "peer denied (SO_PEERCRED UID mismatch)"
      case BadRequestError(m) => "bad request: " + m
      case DomainError(m) => "domain error: " + m
      case UnauthorizedError(m) => "unauthorized: " + m
      case GrantDeniedError(m) => "grant denied: " + m
      case TranscriptUnavailableError(m) => "transcript unavailable: " + m
      case StaleSequenceError(m) => "stale transcript sequence: " + m
      case UserPinnedTitleError(m) => "user-pinned title: " + m
      case JsonError(m) => "json error: " + m
      case IoError(m) => "io error: " + m
    }
  }

  /** The part of an error that its maker chose. */
  function OwnText(e: BusError): string {
    match e
    case FrameTooLargeError(_) => ""
    case VersionMismatchError(_) => ""
    case PeerDeniedError => ""
    case UnknownKindError(kind) => kind
    case BadRequestError(m) => m
    case DomainError(m) => m
    case UnauthorizedError(m) => m
    case GrantDeniedError(m) => m
    case TranscriptUnavailableError(m) => m
    case StaleSequenceError(m) => m
    case UserPinnedTitleError(m) => m
    case JsonError(m) => m
    case IoError(m) => m
  }

  predicate EndsIn(s: string, t: string) {
    |t| <= |s| && s[|s| - |t|..] == t
  }

  lemma TextEndsInOwn(e: BusError)
    ensures EndsIn(e.Text(), OwnText(e))
  {
  }

  /** Two errors have one code only if they are of one kind, or are both called bad requests. */
  lemma CodesTellApart(e: BusError, f: BusError)
    requires e.Code() == f.Code() && e.Code() != BadRequest
    ensures e.FrameTooLargeError? == f.FrameTooLargeError? && e.VersionMismatchError? == f.VersionMismatchError?
    ensures e.UnknownKindError? == f.UnknownKindError? && e.PeerDeniedError? == f.PeerDeniedError?
    ensures e.DomainError? == f.DomainError? && e.UnauthorizedError? == f.UnauthorizedError?
    ensures e.GrantDeniedError? == f.GrantDeniedError? && e.TranscriptUnavailableError? == f.TranscriptUnavailableError?
    ensures e.StaleSequenceError? == f.StaleSequenceError? && e.UserPinnedTitleError? == f.UserPinnedTitleError?
    ensures e.IoError? == f.IoError?
  {
  }

  datatype ErrorPayload =
    ErrorPayload(code: ErrorCode, message: string, kindReceived: Option<string>, inReplyTo: Option<Id>)

  datatype ClientRole = LmuxCli | KwinScript | Satellite | Plugin | LmuxMcp

  type OtherTag = s: string | s != HELLO_TAG && s != "hello_ack" && s != "error" witness "ok"

  /** The kinds the conversation itself looks at, and all others with an opaque payload. */
  datatype Kind =
    | Hello(client: ClientRole, pid: int)
    | HelloAck(cockpitVersion: string)
    | Error(payload: ErrorPayload)
    | Other(otherTag: OtherTag, fields: seq<byte>)
  {
    function Tag(): string {
      match this
      case Hello(_, _) => HELLO_TAG
      case HelloAck(_) => "hello_ack"
      case Error(_) => "error"
      case Other(tag, _) => tag
    }
  }

  datatype Message = Message(id: Id, kind: Kind)

  datatype Envelope = Envelope(v: nat, kind: string, id: Id)

  /** The JSON library: decoding a body as an envelope or as a kind, and encoding a kind with version and id
      inserted; and how it shows an id and a kind in messages. */
  datatype Wire = Wire(
    envelope: seq<byte> -> Result<Envelope, string>,
    kind: seq<byte> -> Result<Kind, string>,
    encode: Message -> seq<byte>,
    showId: Id -> string,
    showKind: Kind -> string)
  {
    /** Two decodings of the same body see the same `kind` field. */
    ghost predicate TagsAgree() {
      forall b :: envelope(b).Success? && kind(b).Success? ==> kind(b).value.Tag() == envelope(b).value.kind
    }

    ghost predicate RoundTrips() {
      forall m ::
        && envelope(encode(m)) == Success(Envelope(PROTOCOL_VERSION, m.kind.Tag(), m.id))
        && kind(encode(m)) == Success(m.kind)
    }
  }

  /** An envelope of this protocol version, or why there is none. */
  function ParseEnvelope(w: Wire, body: seq<byte>): (r: Result<Envelope, BusError>)
    ensures r.Success? <==> w.envelope(body).Success? && w.envelope(body).value.v == PROTOCOL_VERSION
    ensures r.Success? ==> Success(r.value) == w.envelope(body)
    ensures r.Failure? ==>
      r.error.Code() == (if w.envelope(body).Success? then VersionMismatch else BadRequest)
  {
    var e :- w.envelope(body).MapFailure(m => JsonError(m));
    if e.v != PROTOCOL_VERSION then Failure(VersionMismatchError(e.v)) else Success(e)
  }

  function FromFrameError(e: FrameError): BusError {
    match e
    case TooLarge(len) => FrameTooLargeError(len)
    case UnexpectedEof => IoError("early eof")
  }

  // --------------------------------------------- what a connection owes its peer

  datatype Context = Context(client: ClientRole, pid: int)

  datatype Call = Call(context: Context, request: Kind)

  /** The cockpit behind a connection: its JSON library, what its handler returns on its `k`-th call, and
      its version. */
  datatype Cockpit = Cockpit(
    wire: Wire,
    answer: (nat, Context, Kind) -> Result<Kind, BusError>,
    version: string)

  function HelloIn(w: Wire, frame: seq<byte>): Option<Context> {
    if ParseEnvelope(w, frame).Success? && w.kind(frame).Success? && w.kind(frame).value.Hello?
    then Some(Context(w.kind(frame).value.client, w.kind(frame).value.pid))
    else None
  }

  predicate TaggedHello(w: Wire, frame: seq<byte>) {
    ParseEnvelope(w, frame).Success? && ParseEnvelope(w, frame).value.kind == HELLO_TAG
  }

  /** The context in force after `past`. The first hello must also be tagged as one in its envelope. */
  function LatestHello(w: Wire, past: seq<seq<byte>>): Option<Context> {
    if past == [] then None
    else
      var before, last := LatestHello(w, past[..|past| - 1]), past[|past| - 1];
      if HelloIn(w, last).Some? && (before.Some? || TaggedHello(w, last)) then HelloIn(w, last) else before
  }

  /** A body that is a hello to one decoding and something else to the other, before any hello: the
      connection ends without an answer. */
  predicate Contradicts(w: Wire, past: seq<seq<byte>>, frame: seq<byte>) {
    LatestHello(w, past).None? && TaggedHello(w, frame) && w.kind(frame).Success? && !w.kind(frame).value.Hello?
  }

  /** The handler call that `frame` makes after the frames `past`. */
  function CallOf(w: Wire, past: seq<seq<byte>>, frame: seq<byte>): Option<Call> {
    if LatestHello(w, past).Some? && ParseEnvelope(w, frame).Success? && w.kind(frame).Success? && !w.kind(frame).value.Hello?
    then Some(Call(LatestHello(w, past).value, w.kind(frame).value))
    else None
  }

  function CallsOf(w: Wire, frames: seq<seq<byte>>): (calls: seq<Call>)
    ensures |calls| <= |frames|
  {
    if frames == [] then []
    else
      var past := frames[..|frames| - 1];
      CallsOf(w, past) + Listed(CallOf(w, past, frames[|frames| - 1]))
  }

  function Listed<T>(x: Option<T>): (s: seq<T>)
    ensures |s| == if x.Some? then 1 else 0
  {
    if x.Some? then [x.value] else []
  }

  function OwnId(w: Wire, frame: seq<byte>): Id {
    match ParseEnvelope(w, frame)
    case Success(e) => e.id
    case Failure(_) => NIL
  }

  function HandlerReply(id: Id, r: Result<Kind, BusError>): Kind {
    match r
    case Success(k) => k
    case Failure(e) => Error(ErrorPayload(e.Code(), e.Text(), None, Some(id)))
  }

  /** The reply owed to `frame` after the frames `past`, when the handler had been called `n` times before
      the connection. */
  function Due(c: Cockpit, n: nat, past: seq<seq<byte>>, frame: seq<byte>): (m: Message)
    ensures m.id == OwnId(c.wire, frame)
  {
    var id := OwnId(c.wire, frame);
    var call := CallOf(c.wire, past, frame);
    Message(id,
      match ParseEnvelope(c.wire, frame)
      case Failure(e) => Error(ErrorPayload(e.Code(), e.Text(), None, None))
      case Success(env) =>
        if LatestHello(c.wire, past).None? && env.kind != HELLO_TAG then
          Error(ErrorPayload(BadRequest, HELLO_REQUIRED, Some(env.kind), Some(id)))
        else if c.wire.kind(frame).Failure? then
          Error(ErrorPayload(UnknownKind, c.wire.kind(frame).error, Some(env.kind), Some(id)))
        else if call.Some? then
          HandlerReply(id, c.answer(n + |CallsOf(c.wire, past)|, call.value.context, call.value.request))
        else HelloAck(c.version))
  }

  predicate Fits(w: Wire, m: Message) {
    |w.encode(m)| <= MAX_FRAME_BYTES
  }

  /** `frame` gets its reply. */
  predicate Answerable(c: Cockpit, n: nat, past: seq<seq<byte>>, frame: seq<byte>) {
    !Contradicts(c.wire, past, frame) && Fits(c.wire, Due(c, n, past, frame))
  }

  /** How many of `frames` are answered: all those before the first that gets no reply. */
  function Answered(c: Cockpit, n: nat, frames: seq<seq<byte>>): (k: nat)
    ensures k <= |frames|
  {
    if frames == [] then 0
    else
      var past := frames[..|frames| - 1];
      var k := Answered(c, n, past);
      if k == |past| && Answerable(c, n, past, frames[|past|]) then |frames| else k
  }

  function Replies(c: Cockpit, n: nat, frames: seq<seq<byte>>): (replies: seq<Message>)
    ensures |replies| == Answered(c, n, frames)
  {
    seq(Answered(c, n, frames), i requires 0 <= i < Answered(c, n, frames) => Due(c, n, frames[..i], frames[i]))
  }

  function Encoded(w: Wire, messages: seq<Message>): (bodies: seq<seq<byte>>)
    ensures |bodies| == |messages|
    ensures forall i | 0 <= i < |messages| :: bodies[i] == w.encode(messages[i])
  {
    seq(|messages|, i requires 0 <= i < |messages| => w.encode(messages[i]))
  }

  function Denial(peerUid: nat, cockpitUid: nat): (m: Message)
    ensures m.id == NIL && m.kind.Error? && m.kind.payload.code == PeerDenied
  {
    Message(NIL, Error(ErrorPayload(PeerDenied,
      "peer uid " + Decimal(peerUid) + " != cockpit uid " + Decimal(cockpitUid), None, None)))
  }

  // ------------------------------------------------------------ the connection

  /** The cockpit's domain layer, seen through the calls made to it. */
  class Handler {
    const cockpit: Cockpit
    var calls: seq<Call>

    constructor (cockpit: Cockpit)
      ensures this.cockpit == cockpit && calls == []
    {
      this.cockpit := cockpit;
      calls := [];
    }

    method Handle(context: Context, request: Kind) returns (r: Result<Kind, BusError>)
      modifies this
      ensures calls == old(calls) + [Call(context, request)]
      ensures r == cockpit.answer(|old(calls)|, context, request)
    {
      r := cockpit.answer(|calls|, context, request);
      calls := calls + [Call(context, request)];
    }
  }

  function SendResult(w: Wire, m: Message): Result<(), BusError> {
    if Fits(w, m) then Success(()) else Failure(FrameTooLargeError(|w.encode(m)|))
  }

  function SentBytes(w: Wire, m: Message): seq<byte> {
    if Fits(w, m) then Frame(w.encode(m)) else []
  }

  /** What answering `frame` returns to the connection loop, and what it sends. */
  function TurnResult(c: Cockpit, n: nat, past: seq<seq<byte>>, frame: seq<byte>): (r: Result<(), BusError>)
    ensures r.Success? <==> Answerable(c, n, past, frame)
  {
    if Contradicts(c.wire, past, frame) then Failure(BadRequestError(CONTEXT_MISSING))
    else SendResult(c.wire, Due(c, n, past, frame))
  }

  function TurnBytes(c: Cockpit, n: nat, past: seq<seq<byte>>, frame: seq<byte>): seq<byte> {
    if Answerable(c, n, past, frame) then Frame(c.wire.encode(Due(c, n, past, frame))) else []
  }

  method WriteResponse(w: Wire, stream: Stream, inReplyTo: Id, kind: Kind) returns (r: Result<(), BusError>)
    modifies stream`output
    ensures r == SendResult(w, Message(inReplyTo, kind))
    ensures stream.output == old(stream.output) + SentBytes(w, Message(inReplyTo, kind))
  {
    var written := stream.WriteFrame(w.encode(Message(inReplyTo, kind)));
    return written.MapFailure(FromFrameError);
  }

  method WriteError(w: Wire, stream: Stream, inReplyTo: Id, payload: ErrorPayload) returns (r: Result<(), BusError>)
    modifies stream`output
    ensures r == SendResult(w, Message(inReplyTo, Error(payload)))
    ensures stream.output == old(stream.output) + SentBytes(w, Message(inReplyTo, Error(payload)))
  {
    r := WriteResponse(w, stream, inReplyTo, Error(payload));
  }

  /** One frame of a connection that has read the frames `past`: the reply owed to it is sent if it can be,
      and the handler called if the frame is a request after a hello. */
  method AnswerFrame(stream: Stream, handler: Handler, context: Option<Context>, frame: seq<byte>, ghost n: nat, ghost past: seq<seq<byte>>)
    returns (next: Option<Context>, r: Result<(), BusError>)
    requires context == LatestHello(handler.cockpit.wire, past)
    requires |handler.calls| == n + |CallsOf(handler.cockpit.wire, past)|
    modifies stream`output, handler
    ensures next == LatestHello(handler.cockpit.wire, past + [frame])
    ensures handler.calls == old(handler.calls) + Listed(CallOf(handler.cockpit.wire, past, frame))
    ensures r == TurnResult(handler.cockpit, n, past, frame)
    ensures stream.output == old(stream.output) + TurnBytes(handler.cockpit, n, past, frame)
  {
    var w := handler.cockpit.wire;
    next := context;
    assert (past + [frame])[..|past|] == past;

    var parsed := ParseEnvelope(w, frame);
    if parsed.Failure? {
      r := WriteError(w, stream, NIL, ErrorPayload(parsed.error.Code(), parsed.error.Text(), None, None));
      return;
    }
    var envelope := parsed.value;

    if context.None? && envelope.kind != HELLO_TAG {
      var payload := ErrorPayload(BadRequest, HELLO_REQUIRED,
                                  Some(envelope.kind), Some(envelope.id));
      r := WriteError(w, stream, envelope.id, payload);
      return;
    }

    var kind := w.kind(frame);
    if kind.Failure? {
      r := WriteError(w, stream, envelope.id, ErrorPayload(UnknownKind, kind.error, Some(envelope.kind), Some(envelope.id)));
      return;
    }

    ghost var reply;
    next, r, reply := Dispatch(stream, handler, context, envelope.id, kind.value);
  }

  /** A parsed request: hello sets the context, anything else goes to the handler. `reply` is what was owed,
      if anything. */
  method Dispatch(stream: Stream, handler: Handler, context: Option<Context>, id: Id, request: Kind)
    returns (next: Option<Context>, r: Result<(), BusError>, ghost reply: Option<Message>)
    modifies stream`output, handler
    ensures next == if request.Hello? then Some(Context(request.client, request.pid)) else context
    ensures handler.calls == old(handler.calls)
      + if request.Hello? || context.None? then [] else [Call(context.value, request)]
    ensures reply ==
      if request.Hello? then Some(Message(id, HelloAck(handler.cockpit.version)))
      else if context.None? then None
      else Some(Message(id, HandlerReply(id, handler.cockpit.answer(|old(handler.calls)|, context.value, request))))
    ensures r == if reply.Some? then SendResult(handler.cockpit.wire, reply.value) else Failure(BadRequestError(CONTEXT_MISSING))
    ensures stream.output == old(stream.output) + if reply.Some? then SentBytes(handler.cockpit.wire, reply.value) else []
  {
    var w := handler.cockpit.wire;
    if request.Hello? {
      next, reply := Some(Context(request.client, request.pid)), Some(Message(id, HelloAck(handler.cockpit.version)));
      r := WriteResponse(w, stream, id, HelloAck(handler.cockpit.version));
      return;
    }
    next, reply := context, None;
    if context.None? {
      r := Failure(BadRequestError(CONTEXT_MISSING));
      return;
    }
    var answer := handler.Handle(context.value, request);
    reply := Some(Message(id, HandlerReply(id, answer)));
    if answer.Failure? {
      r := WriteError(w, stream, id, ErrorPayload(answer.error.Code(), answer.error.Text(), None, Some(id)));
      return;
    }
    r := WriteResponse(w, stream, id, answer.value);
  }

  /** All of `frames` have been answered: these handler calls were made and these bytes sent. */
  ghost predicate Served(c: Cockpit, n: nat, frames: seq<seq<byte>>, made: seq<Call>, said: seq<byte>) {
    && Answered(c, n, frames) == |frames|
    && made == CallsOf(c.wire, frames)
    && said == Frames(Encoded(c.wire, Replies(c, n, frames)))
  }

  /** How a connection ends that had `reading` to read: all frames answered and the stream no longer a
      frame, or stopped at the first frame without an answer, with the frames after it left unread. */
  ghost predicate Ends(c: Cockpit, n: nat, reading: Reading, made: seq<Call>, said: seq<byte>, unread: seq<byte>, r: Result<(), BusError>) {
    var frames := reading.bodies;
    var k := Answered(c, n, frames);
    && said == Frames(Encoded(c.wire, Replies(c, n, frames)))
    && (k == |frames| ==>
          && made == CallsOf(c.wire, frames)
          && r == if reading.stop == UnexpectedEof then Success(()) else Failure(FromFrameError(reading.stop)))
    && (k < |frames| ==>
          && made == CallsOf(c.wire, frames[..k + 1]) && ReadAll(unread).bodies == frames[k + 1..]
          && r == TurnResult(c, n, frames[..k], frames[k]))
  }

  /** A whole connection, whatever bytes arrive. A peer of another user is told so and not served. For
      others the frames read before the stream stops being frames are answered in order, each with the
      reply owed to it, up to the first that cannot be answered. */
  method ServeConnection(stream: Stream, handler: Handler, peerUid: nat, cockpitUid: nat)
    returns (r: Result<(), BusError>, ghost made: seq<Call>, ghost said: seq<byte>)
    modifies stream, handler
    ensures handler.calls == old(handler.calls) + made && stream.output == old(stream.output) + said
    ensures peerUid != cockpitUid ==>
      r == Success(()) && made == [] && stream.input == old(stream.input)
      && said == SentBytes(handler.cockpit.wire, Denial(peerUid, cockpitUid))
    ensures peerUid == cockpitUid ==>
      Ends(handler.cockpit, |old(handler.calls)|, ReadAll(old(stream.input)), made, said, stream.input, r)
  {
    if peerUid != cockpitUid {
      var denial := Denial(peerUid, cockpitUid);
      var _ := WriteError(handler.cockpit.wire, stream, denial.id, denial.kind.payload);
      made, said := [], SentBytes(handler.cockpit.wire, denial);
      return Success(()), made, said;
    }
    r, made, said := ServeFrames(stream, handler);
  }

  /** The loop of a connection. */
  method ServeFrames(stream: Stream, handler: Handler)
    returns (r: Result<(), BusError>, ghost made: seq<Call>, ghost said: seq<byte>)
    modifies stream, handler
    ensures handler.calls == old(handler.calls) + made && stream.output == old(stream.output) + said
    ensures Ends(handler.cockpit, |old(handler.calls)|, ReadAll(old(stream.input)), made, said, stream.input, r)
  {
    made, said := [], [];
    ghost var c, n, reading := handler.cockpit, |handler.calls|, ReadAll(stream.input);
    ghost var past: seq<seq<byte>> := [];
    var context := None;
    NothingServed(c, n, reading);
    while true
      invariant handler.calls == old(handler.calls) + made && stream.output == old(stream.output) + said
      invariant context == LatestHello(c.wire, past) && Served(c, n, past, made, said)
      invariant Remains(reading, past, stream.input)
      decreases |stream.input|
    {
      ghost var before := stream.input;
      var read := stream.ReadFrame();
      if read.Failure? {
        NothingLeft(c, n, reading, past, before, made, said, read.error, stream.input);
        if read.error == UnexpectedEof {
          return Success(()), made, said;
        }
        return Failure(FromFrameError(read.error)), made, said;
      }
      var frame := read.value;
      OneRead(reading, past, before, frame, stream.input);
      ghost var call, sent := Listed(CallOf(c.wire, past, frame)), TurnBytes(c, n, past, frame);
      OneServed(c, n, past, made, said, frame);
      Regroup(handler.calls[..n], made, call);
      Regroup(old(stream.output), said, sent);
      context, r := AnswerFrame(stream, handler, context, frame, n, past);
      made, said := made + call, said + sent;
      if r.Failure? {
        StopsThere(c, n, reading, past, made, said, frame, stream.input, r);
        return r, made, said;
      }
      past := past + [frame];
    }
  }

  /** Of what there was to read, `past` has been read and the bytes `input` are left. */
  ghost predicate Remains(reading: Reading, past: seq<seq<byte>>, input: seq<byte>) {
    reading.bodies == past + ReadAll(input).bodies && reading.stop == ReadAll(input).stop
  }

  lemma OneRead(reading: Reading, past: seq<seq<byte>>, s: seq<byte>, frame: seq<byte>, rest: seq<byte>)
    requires Remains(reading, past, s) && Unframe(s) == (Success(frame), rest)
    ensures Remains(reading, past + [frame], rest)
  {
    Regroup(past, [frame], ReadAll(rest).bodies);
  }

  lemma NothingServed(c: Cockpit, n: nat, reading: Reading)
    ensures Served(c, n, [], [], [])
  {
    assert Encoded(c.wire, Replies(c, n, [])) == [];
  }

  lemma NothingLeft(c: Cockpit, n: nat, reading: Reading, past: seq<seq<byte>>, s: seq<byte>, made: seq<Call>, said: seq<byte>, e: FrameError, unread: seq<byte>)
    requires Remains(reading, past, s) && Unframe(s).0 == Failure(e) && Served(c, n, past, made, said)
    ensures Ends(c, n, reading, made, said, unread, if e == UnexpectedEof then Success(()) else Failure(FromFrameError(e)))
  {
    assert past + [] == past;
  }

  // -------------------------------------------------------- what was answered

  /** Whether frame `i` gets its reply depends on the frames up to `i` alone. */
  predicate AnswerableAt(c: Cockpit, n: nat, frames: seq<seq<byte>>, i: nat)
    requires i < |frames|
  {
    Answerable(c, n, frames[..i], frames[i])
  }

  /** As long as both decodings of a body see the same tag, only the size of a reply can stop it. */
  lemma OnlySizeStopsReplies(c: Cockpit, n: nat, past: seq<seq<byte>>, frame: seq<byte>)
    requires c.wire.TagsAgree()
    ensures Answerable(c, n, past, frame) <==> Fits(c.wire, Due(c, n, past, frame))
  {
    if Contradicts(c.wire, past, frame) {
      HelloTag(c.wire.kind(frame).value);
    }
  }

  lemma HelloTag(k: Kind)
    ensures k.Tag() == HELLO_TAG <==> k.Hello?
  {
  }

  /** A connection falls silent at, and only at, the first frame whose reply is above the frame limit or
      that contradicts itself before any hello: every frame before it has been answered, that one has not,
      and nothing else can stop the answers. */
  lemma {:induction false} AnsweredIff(c: Cockpit, n: nat, frames: seq<seq<byte>>, k: nat)
    requires k <= |frames|
    ensures k == Answered(c, n, frames) <==>
      && (forall i | 0 <= i < k :: AnswerableAt(c, n, frames, i))
      && (k < |frames| ==> !AnswerableAt(c, n, frames, k))
  {
    AnsweredHolds(c, n, frames);
    var a := Answered(c, n, frames);
    if k < a {
      assert AnswerableAt(c, n, frames, k);
    }
  }

  lemma {:induction false} AnsweredHolds(c: Cockpit, n: nat, frames: seq<seq<byte>>)
    ensures var k := Answered(c, n, frames);
      && (forall i | 0 <= i < k :: AnswerableAt(c, n, frames, i))
      && (k < |frames| ==> !AnswerableAt(c, n, frames, k))
  {
    if frames != [] {
      var past := frames[..|frames| - 1];
      AnsweredHolds(c, n, past);
      var k := Answered(c, n, past);
      assert frames[..|past|] == past;
      forall i | 0 <= i < |past|
        ensures AnswerableAt(c, n, past, i) == AnswerableAt(c, n, frames, i)
      {
        assert past[..i] == frames[..i];
      }
    }
  }

  lemma AnsweredInPrefix(c: Cockpit, n: nat, frames: seq<seq<byte>>, k: nat)
    requires k <= |frames|
    ensures Answered(c, n, frames[..k]) == if k < Answered(c, n, frames) then k else Answered(c, n, frames)
  {
    AnsweredHolds(c, n, frames);
    forall i | 0 <= i < k
      ensures AnswerableAt(c, n, frames[..k], i) == AnswerableAt(c, n, frames, i)
    {
      assert frames[..k][..i] == frames[..i];
    }
    AnsweredIff(c, n, frames[..k], if k < Answered(c, n, frames) then k else Answered(c, n, frames));
  }

  /** Answers never depend on frames that come later: the replies to a prefix of the frames are the first
      of the replies to all of them. */
  lemma RepliesToPrefix(c: Cockpit, n: nat, frames: seq<seq<byte>>, k: nat)
    requires k <= |frames|
    ensures Replies(c, n, frames[..k]) == Replies(c, n, frames)[..if k < Answered(c, n, frames) then k else Answered(c, n, frames)]
  {
    AnsweredInPrefix(c, n, frames, k);
    forall i | 0 <= i < Answered(c, n, frames[..k])
      ensures Replies(c, n, frames[..k])[i] == Replies(c, n, frames)[i]
    {
      assert frames[..k][..i] == frames[..i];
    }
  }

  lemma RepliesStep(c: Cockpit, n: nat, past: seq<seq<byte>>, frame: seq<byte>)
    requires Answered(c, n, past) == |past|
    ensures Answered(c, n, past + [frame]) == |past| + (if Answerable(c, n, past, frame) then 1 else 0)
    ensures Replies(c, n, past + [frame])
         == Replies(c, n, past) + if Answerable(c, n, past, frame) then [Due(c, n, past, frame)] else []
  {
    var all := past + [frame];
    assert all[..|past|] == past && all[|past|] == frame;
    RepliesToPrefix(c, n, all, |past|);
  }

  lemma EncodedAppend(w: Wire, xs: seq<Message>, m: Message)
    ensures Frames(Encoded(w, xs + [m])) == Frames(Encoded(w, xs)) + Frame(w.encode(m))
  {
    assert Encoded(w, xs + [m]) == Encoded(w, xs) + [w.encode(m)];
    FramesAppend(Encoded(w, xs), [w.encode(m)]);
    FramesCons(w.encode(m), []);
    assert [w.encode(m)] + [] == [w.encode(m)];
    assert Frame(w.encode(m)) + [] == Frame(w.encode(m));
  }

  lemma OneServed(c: Cockpit, n: nat, past: seq<seq<byte>>, made: seq<Call>, said: seq<byte>, frame: seq<byte>)
    requires Served(c, n, past, made, said)
    ensures Answerable(c, n, past, frame) ==>
      Served(c, n, past + [frame], made + Listed(CallOf(c.wire, past, frame)), said + TurnBytes(c, n, past, frame))
    ensures CallsOf(c.wire, past + [frame]) == made + Listed(CallOf(c.wire, past, frame))
  {
    assert (past + [frame])[..|past|] == past;
    RepliesStep(c, n, past, frame);
    EncodedAppend(c.wire, Replies(c, n, past), Due(c, n, past, frame));
  }

  lemma StopsThere(c: Cockpit, n: nat, reading: Reading, past: seq<seq<byte>>, made: seq<Call>, said: seq<byte>, frame: seq<byte>,
                   unread: seq<byte>, r: Result<(), BusError>)
    requires Remains(reading, past + [frame], unread) && Answered(c, n, past) == |past|
    requires made == CallsOf(c.wire, past + [frame]) && said == Frames(Encoded(c.wire, Replies(c, n, past)))
    requires r == TurnResult(c, n, past, frame) && r.Failure?
    ensures Ends(c, n, reading, made, said, unread, r)
  {
    var frames, k := reading.bodies, |past|;
    assert frames[..k] == past && frames[k] == frame && frames[..k + 1] == past + [frame];
    RepliesToPrefix(c, n, frames, k);
    AnsweredHolds(c, n, frames);
    assert !AnswerableAt(c, n, frames, k);
    assert Answered(c, n, frames) == k;
    assert Replies(c, n, frames) == Replies(c, n, past);
  }

  // ---------------------------------------------------- what the refusals say

  /** A body without an envelope of this version is refused without an id, as a version mismatch if it decodes
      with another version and as a bad request if it does not decode. */
  lemma NoEnvelopeIsRefused(c: Cockpit, n: nat, past: seq<seq<byte>>, frame: seq<byte>) returns (p: ErrorPayload)
    requires ParseEnvelope(c.wire, frame).Failure?
    ensures Due(c, n, past, frame) == Message(NIL, Error(p))
    ensures p.code == (if c.wire.envelope(frame).Success? then VersionMismatch else BadRequest)
    ensures p.kindReceived == None && p.inReplyTo == None
    ensures c.wire.envelope(frame).Failure? ==> EndsIn(p.message, c.wire.envelope(frame).error)
  {
    var e := ParseEnvelope(c.wire, frame).error;
    p := ErrorPayload(e.Code(), e.Text(), None, None);
    TextEndsInOwn(e);
  }

  /** Before any hello, everything not tagged as one is refused as a bad request, by its own id and kind. */
  lemma NoHelloIsRefused(c: Cockpit, n: nat, past: seq<seq<byte>>, frame: seq<byte>) returns (p: ErrorPayload)
    requires ParseEnvelope(c.wire, frame).Success? && LatestHello(c.wire, past).None? && !TaggedHello(c.wire, frame)
    ensures var env := ParseEnvelope(c.wire, frame).value;
      Due(c, n, past, frame) == Message(env.id, Error(p))
      && p.code == BadRequest && p.kindReceived == Some(env.kind) && p.inReplyTo == Some(env.id)
  {
    p := Due(c, n, past, frame).kind.payload;
  }

  /** A kind that does not decode is refused as unknown, by its own id and kind, with the decoder's message. */
  lemma UnknownKindIsRefused(c: Cockpit, n: nat, past: seq<seq<byte>>, frame: seq<byte>) returns (p: ErrorPayload)
    requires ParseEnvelope(c.wire, frame).Success? && c.wire.kind(frame).Failure?
    requires LatestHello(c.wire, past).Some? || TaggedHello(c.wire, frame)
    ensures var env := ParseEnvelope(c.wire, frame).value;
      Due(c, n, past, frame) == Message(env.id, Error(p))
      && p.code == UnknownKind && p.kindReceived == Some(env.kind) && p.inReplyTo == Some(env.id)
      && p.message == c.wire.kind(frame).error
  {
    p := Due(c, n, past, frame).kind.payload;
  }

  // ------------------------------------------------------------ the handshake

  predicate Opens(w: Wire, past: seq<seq<byte>>, i: nat) {
    i < |past| && HelloIn(w, past[i]).Some? && TaggedHello(w, past[i])
  }

  /** Frame `j` is a hello, the conversation has been opened by then, and no hello follows. */
  ghost predicate IsLatestHello(w: Wire, past: seq<seq<byte>>, j: nat, context: Context) {
    && j < |past| && HelloIn(w, past[j]) == Some(context)
    && (exists i: nat :: i <= j && Opens(w, past, i))
    && forall l | j < l < |past| :: HelloIn(w, past[l]).None?
  }

  lemma {:induction false} OpenedIff(w: Wire, past: seq<seq<byte>>)
    ensures LatestHello(w, past).Some? <==> exists i: nat :: Opens(w, past, i)
  {
    if past != [] {
      var m := |past| - 1;
      OpenedIff(w, past[..m]);
      if i: nat :| Opens(w, past[..m], i) {
        assert Opens(w, past, i);
      }
      if i: nat :| Opens(w, past, i) {
        assert i < m ==> Opens(w, past[..m], i);
      } else {
        assert !Opens(w, past, m);
      }
    }
  }

  lemma {:induction false} LatestHelloIff(w: Wire, past: seq<seq<byte>>, context: Context)
    ensures LatestHello(w, past) == Some(context) <==> exists j: nat :: IsLatestHello(w, past, j, context)
  {
    if past != [] {
      var m := |past| - 1;
      LatestHelloIff(w, past[..m], context);
      OpenedIff(w, past);
      if HelloIn(w, past[m]).Some? {
        LastHelloIff(w, past, context);
      } else {
        forall j: nat
          ensures IsLatestHello(w, past, j, context) <==> IsLatestHello(w, past[..m], j, context)
        {
          SameBefore(w, past, j, context);
        }
      }
    }
  }

  /** When the last frame is a hello, it is the one in force as soon as any frame has opened the conversation. */
  lemma LastHelloIff(w: Wire, past: seq<seq<byte>>, context: Context)
    requires past != [] && HelloIn(w, past[|past| - 1]).Some?
    ensures LatestHello(w, past) == Some(context) <==> exists j: nat :: IsLatestHello(w, past, j, context)
  {
    OpenedIff(w, past);
    var m := |past| - 1;
    if LatestHello(w, past) == Some(context) {
      var i: nat :| Opens(w, past, i);
      OpenedIff(w, past[..m]);
      assert forall i: nat | i < m :: Opens(w, past[..m], i) == Opens(w, past, i);
      assert IsLatestHello(w, past, m, context);
    }
    if j: nat :| IsLatestHello(w, past, j, context) {
      assert j == m;
      var i: nat :| i <= j && Opens(w, past, i);
    }
  }

  lemma SameBefore(w: Wire, past: seq<seq<byte>>, j: nat, context: Context)
    requires past != [] && HelloIn(w, past[|past| - 1]).None?
    ensures IsLatestHello(w, past, j, context) <==> IsLatestHello(w, past[..|past| - 1], j, context)
  {
    var before := past[..|past| - 1];
    forall i: nat | i < |before|
      ensures before[i] == past[i] && Opens(w, before, i) == Opens(w, past, i)
    {
    }
    if IsLatestHello(w, past, j, context) {
      var i: nat :| i <= j && Opens(w, past, i);
      assert j < |before| && Opens(w, before, i);
    }
    if IsLatestHello(w, before, j, context) {
      var i: nat :| i <= j && Opens(w, before, i);
      assert Opens(w, past, i);
    }
  }

  /** Call `k` is made by frame `i`: a parsable request that is not a hello, handed over with the context of
      the latest hello before it. */
  ghost predicate MadeBy(w: Wire, frames: seq<seq<byte>>, call: Call, i: nat) {
    && i < |frames|
    && ParseEnvelope(w, frames[i]).Success?
    && w.kind(frames[i]) == Success(call.request) && !call.request.Hello?
    && exists j: nat :: IsLatestHello(w, frames[..i], j, call.context)
  }

  /** The frames that call the handler, in order. */
  function CallSites(w: Wire, frames: seq<seq<byte>>): (sites: seq<nat>)
    ensures forall k | 0 <= k < |sites| :: sites[k] < |frames|
    ensures forall i, k | 0 <= i < k < |sites| :: sites[i] < sites[k]
  {
    if frames == [] then []
    else
      var m := |frames| - 1;
      CallSites(w, frames[..m]) + if CallOf(w, frames[..m], frames[m]).Some? then [m] else []
  }

  /** The handler runs, in order, only for frames that are requests after a hello, and always with the
      context of the latest hello. */
  lemma {:induction false} CallsAreGated(w: Wire, frames: seq<seq<byte>>)
    ensures |CallsOf(w, frames)| == |CallSites(w, frames)|
    ensures forall k | 0 <= k < |CallsOf(w, frames)| :: MadeBy(w, frames, CallsOf(w, frames)[k], CallSites(w, frames)[k])
  {
    if frames != [] {
      var m := |frames| - 1;
      var past := frames[..m];
      CallsAreGated(w, past);
      forall k | 0 <= k < |CallsOf(w, past)|
        ensures MadeBy(w, frames, CallsOf(w, past)[k], CallSites(w, past)[k])
      {
        assert frames[..CallSites(w, past)[k]] == past[..CallSites(w, past)[k]];
      }
      if CallOf(w, past, frames[m]).Some? {
        LatestHelloIff(w, past, LatestHello(w, past).value);
        assert MadeBy(w, frames, CallOf(w, past, frames[m]).value, m);
      }
    }
  }

  /** And it runs for every such frame, as call `k`. */
  lemma {:induction false} RequestsReachHandler(w: Wire, frames: seq<seq<byte>>, call: Call, i: nat) returns (k: nat)
    requires MadeBy(w, frames, call, i)
    ensures k < |CallsOf(w, frames)| && k < |CallSites(w, frames)|
    ensures CallSites(w, frames)[k] == i && CallsOf(w, frames)[k] == call
    decreases |frames|
  {
    var m := |frames| - 1;
    var past := frames[..m];
    if i < m {
      EarlierCall(w, frames, call, i);
      k := RequestsReachHandler(w, past, call, i);
    } else {
      LatestHelloIff(w, past, call.context);
      CallsAreGated(w, past);
      k := |CallsOf(w, past)|;
    }
  }

  lemma EarlierCall(w: Wire, frames: seq<seq<byte>>, call: Call, i: nat)
    requires MadeBy(w, frames, call, i) && i < |frames| - 1
    ensures MadeBy(w, frames[..|frames| - 1], call, i)
  {
    assert frames[..|frames| - 1][..i] == frames[..i];
  }

  /** What reaches the peer: reading the bytes sent gives one envelope of this protocol version per
      answered frame, in order, each with the id of that frame, nil where the frame had no envelope. */
  lemma OneReplyPerFrame(c: Cockpit, n: nat, frames: seq<seq<byte>>, i: nat)
    requires c.wire.RoundTrips() && i < Answered(c, n, frames)
    ensures var received := ReadAll(Frames(Encoded(c.wire, Replies(c, n, frames))));
      && |received.bodies| == Answered(c, n, frames) && received.unread == []
      && var e := ParseEnvelope(c.wire, received.bodies[i]);
      && e.Success? && e.value.id == OwnId(c.wire, frames[i])
      && c.wire.kind(received.bodies[i]) == Success(Due(c, n, frames[..i], frames[i]).kind)
  {
    RepliesFit(c, n, frames);
    var bodies := Encoded(c.wire, Replies(c, n, frames));
    assert Frames(bodies) == Frames(bodies) + [];
    FramesUnique(bodies, [], Frames(bodies));
    var due := Due(c, n, frames[..i], frames[i]);
    assert bodies[i] == c.wire.encode(due);
  }

  lemma RepliesFit(c: Cockpit, n: nat, frames: seq<seq<byte>>)
    ensures AllFit(Encoded(c.wire, Replies(c, n, frames)))
  {
    AnsweredHolds(c, n, frames);
    var replies := Replies(c, n, frames);
    forall i | 0 <= i < |replies|
      ensures |Encoded(c.wire, replies)[i]| <= MAX_FRAME_BYTES
    {
      assert AnswerableAt(c, n, frames, i);
    }
  }
}

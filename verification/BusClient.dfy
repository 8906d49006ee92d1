/** The bus client: one request at a time over a connection to the cockpit, each answer matched to its
    request by id. */
module BusClients {
  import opened Bytes
  import opened Wrappers
  import opened BusCodec
  import opened BusConversation

  /** The client's error for an error reply. */
  function FromPayload(p: ErrorPayload): BusError {
    match p.code
    case UnknownKind => UnknownKindError(p.kindReceived.GetOr("<unknown>"))
    case PeerDenied => PeerDeniedError
    case BadRequest => BadRequestError(p.message)
    case Unauthorized => UnauthorizedError(p.message)
    case GrantDenied => GrantDeniedError(p.message)
    case TranscriptUnavailable => TranscriptUnavailableError(p.message)
    case StaleSequence => StaleSequenceError(p.message)
    case UserPinnedTitle => UserPinnedTitleError(p.message)
    case _ => DomainError(p.message)
  }

  predicate Survives(code: ErrorCode) {
    code != FrameTooLarge && code != VersionMismatch && code != Io
  }

  /** An error reply keeps its code at the client exactly when that is not one of the three folded into
      domain errors. */
  lemma CodeSurvivesIff(reply: Kind)
    requires reply.Error?
    ensures AsResult(reply).Failure? && (AsResult(reply).error.Code() == reply.payload.code <==> Survives(reply.payload.code))
  {
  }

  function AsResult(reply: Kind): Result<Kind, BusError> {
    if reply.Error? then Failure(FromPayload(reply.payload)) else Success(reply)
  }

  function IdMismatch(w: Wire, got: Id, expected: Id): BusError {
    DomainError("response id " + w.showId(got) + " != request id " + w.showId(expected))
  }

  /** What a client waiting for the reply to `id` makes of a body. */
  function Interpreted(w: Wire, id: Id, body: seq<byte>): Result<Kind, BusError> {
    var env :- ParseEnvelope(w, body);
    if env.id != id then Failure(IdMismatch(w, env.id, id))
    else
      var k :- w.kind(body).MapFailure(m => JsonError(m));
      AsResult(k)
  }

  function Received(w: Wire, id: Id, input: seq<byte>): (Result<Kind, BusError>, seq<byte>) {
    match Unframe(input)
    case (Failure(e), rest) => (Failure(FromFrameError(e)), rest)
    case (Success(body), rest) => (Interpreted(w, id, body), rest)
  }

  class Client {
    const wire: Wire
    const stream: Stream
    var cockpitVersion: string

    constructor (wire: Wire, stream: Stream)
      ensures this.wire == wire && this.stream == stream && cockpitVersion == ""
    {
      this.wire := wire;
      this.stream := stream;
      cockpitVersion := "";
    }

    /** `id` is a new random id. */
    method Request(kind: Kind, id: Id) returns (r: Result<Kind, BusError>)
      modifies stream
      ensures if !Fits(wire, Message(id, kind))
              then r == Failure(FrameTooLargeError(|wire.encode(Message(id, kind))|)) && stream.input == old(stream.input)
              else (r, stream.input) == Received(wire, id, old(stream.input))
      ensures stream.output == old(stream.output) + SentBytes(wire, Message(id, kind))
    {
      var written := stream.WriteFrame(wire.encode(Message(id, kind)));
      var _ :- written.MapFailure(FromFrameError);
      var read := stream.ReadFrame();
      var frame :- read.MapFailure(FromFrameError);
      var envelope :- ParseEnvelope(wire, frame);
      if envelope.id != id {
        return Failure(IdMismatch(wire, envelope.id, id));
      }
      var response :- wire.kind(frame).MapFailure(m => JsonError(m));
      if response.Error? {
        return Failure(FromPayload(response.payload));
      }
      return Success(response);
    }

    /** Says hello on a new connection and takes the cockpit's version from its answer. */
    static method Connect(wire: Wire, stream: Stream, role: ClientRole, pid: int, id: Id) returns (r: Result<Client, BusError>)
      modifies stream
      ensures var hello := Message(id, Hello(role, pid));
        && stream.output == old(stream.output) + SentBytes(wire, hello)
        && var answer := if Fits(wire, hello) then Received(wire, id, old(stream.input)).0 else Failure(FrameTooLargeError(|wire.encode(hello)|));
        && (r.Success? <==> answer.Success? && answer.value.HelloAck?)
        && (r.Success? ==> fresh(r.value) && r.value.wire == wire && r.value.stream == stream && r.value.cockpitVersion == answer.value.cockpitVersion)
        && (answer.Failure? ==> r == Failure(answer.error))
    {
      var client := new Client(wire, stream);
      var ack :- client.Request(Hello(role, pid), id);
      match ack {
        case HelloAck(version) =>
          client.cockpitVersion := version;
          return Success(client);
        case other =>
          return Failure(DomainError("expected hello_ack, got " + wire.showKind(other)));
      }
    }
  }

  // ------------------------------------------------------- both ends together

  /** A client's requests as the cockpit reads them. */
  lemma RequestParses(w: Wire, m: Message)
    requires w.RoundTrips()
    ensures ParseEnvelope(w, w.encode(m)) == Success(Envelope(PROTOCOL_VERSION, m.kind.Tag(), m.id))
    ensures OwnId(w, w.encode(m)) == m.id
    ensures HelloIn(w, w.encode(m)) == if m.kind.Hello? then Some(Context(m.kind.client, m.kind.pid)) else None
  {
  }

  /** The cockpit reads exactly the requests written, and after reading the answers to the first `i` of them
      the client's next read takes exactly the answer to its own request `i`: the id check passes, the
      answer is what the cockpit owed that request, and the later answers stay unread. */
  lemma AnswersMatchRequests(c: Cockpit, n: nat, requests: seq<Message>, i: nat)
    requires c.wire.RoundTrips() && AllFit(Encoded(c.wire, requests))
    requires i < Answered(c, n, Encoded(c.wire, requests))
    ensures var w, sent := c.wire, Encoded(c.wire, requests);
      var answers := Encoded(w, Replies(c, n, sent));
      && ReadAll(Frames(sent)).bodies == sent
      && Received(w, requests[i].id, Frames(answers[i..]))
         == (AsResult(Due(c, n, sent[..i], sent[i]).kind), Frames(answers[i + 1..]))
  {
    var w, sent := c.wire, Encoded(c.wire, requests);
    assert Frames(sent) == Frames(sent) + [];
    FramesUnique(sent, [], Frames(sent));
    var due, answers := Due(c, n, sent[..i], sent[i]), Encoded(w, Replies(c, n, sent));
    RequestParses(w, requests[i]);
    RepliesFit(c, n, sent);
    assert answers[i] == w.encode(due) && due.id == requests[i].id;
    assert answers[i..][1..] == answers[i + 1..];
    assert StartsWithFrame(Frames(answers[i..]), answers[i], Frames(answers[i + 1..]));
    ReadInvertsWrite(Frames(answers[i..]), answers[i], Frames(answers[i + 1..]));
    assert ParseEnvelope(w, answers[i]).value.id == due.id && w.kind(answers[i]) == Success(due.kind);
  }

  /** The hello among `past` that is in force. */
  function HelloInForce(past: seq<Message>): Option<Context> {
    if past == [] then None
    else
      var m := past[|past| - 1];
      if m.kind.Hello? then Some(Context(m.kind.client, m.kind.pid)) else HelloInForce(past[..|past| - 1])
  }

  /** The requests among `past` that were handed to the handler. */
  function Handled(past: seq<Message>): nat {
    if past == [] then 0
    else
      var before, m := past[..|past| - 1], past[|past| - 1];
      Handled(before) + if m.kind.Hello? || HelloInForce(before).None? then 0 else 1
  }

  lemma {:induction false} SeenByCockpit(w: Wire, past: seq<Message>)
    requires w.RoundTrips()
    ensures LatestHello(w, Encoded(w, past)) == HelloInForce(past)
    ensures |CallsOf(w, Encoded(w, past))| == Handled(past)
  {
    if past != [] {
      var before, m := past[..|past| - 1], past[|past| - 1];
      SeenByCockpit(w, before);
      RequestParses(w, m);
      var sent := Encoded(w, past);
      assert sent[..|sent| - 1] == Encoded(w, before);
      assert sent[|sent| - 1] == w.encode(m);
    }
  }

  /** What the client's request returns, in terms of the messages alone, when `past` were sent before it. */
  function Returned(c: Cockpit, n: nat, past: seq<Message>, m: Message): Result<Kind, BusError> {
    var context := HelloInForce(past);
    if m.kind.Hello? then Success(HelloAck(c.version))
    else if context.None? then Failure(BadRequestError(HELLO_REQUIRED))
    else
      AsResult(HandlerReply(m.id, c.answer(n + Handled(past), context.value, m.kind)))
  }

  /** End to end: what the client's `i`-th request returns is the hello's acknowledgement, the handler's own
      answer to that very request under the hello in force, or, before any hello, a bad-request error. */
  lemma WhatRequestReturns(c: Cockpit, n: nat, requests: seq<Message>, i: nat)
    requires c.wire.RoundTrips() && i < |requests|
    ensures var sent := Encoded(c.wire, requests);
      AsResult(Due(c, n, sent[..i], sent[i]).kind) == Returned(c, n, requests[..i], requests[i])
  {
    var sent, m, past := Encoded(c.wire, requests), requests[i], requests[..i];
    assert sent[..i] == Encoded(c.wire, past) && sent[i] == c.wire.encode(m);
    SeenByCockpit(c.wire, past);
    DueToRequest(c, n, sent[..i], m);
  }

  lemma DueToRequest(c: Cockpit, n: nat, past: seq<seq<byte>>, m: Message)
    requires c.wire.RoundTrips()
    ensures var context := LatestHello(c.wire, past);
      AsResult(Due(c, n, past, c.wire.encode(m)).kind) ==
        if m.kind.Hello? then Success(HelloAck(c.version))
        else if context.None? then Failure(BadRequestError(HELLO_REQUIRED))
        else AsResult(HandlerReply(m.id, c.answer(n + |CallsOf(c.wire, past)|, context.value, m.kind)))
  {
    if m.kind.Hello? {
      DueToHello(c, n, past, m);
    } else if LatestHello(c.wire, past).None? {
      DueBeforeHello(c, n, past, m);
    } else {
      DueToCall(c, n, past, m);
    }
  }

  lemma DueToHello(c: Cockpit, n: nat, past: seq<seq<byte>>, m: Message)
    requires c.wire.RoundTrips() && m.kind.Hello?
    ensures Due(c, n, past, c.wire.encode(m)).kind == HelloAck(c.version)
  {
    RequestParses(c.wire, m);
    HelloTag(m.kind);
    assert c.wire.kind(c.wire.encode(m)) == Success(m.kind);
  }

  lemma DueBeforeHello(c: Cockpit, n: nat, past: seq<seq<byte>>, m: Message)
    requires c.wire.RoundTrips() && !m.kind.Hello? && LatestHello(c.wire, past).None?
    ensures Due(c, n, past, c.wire.encode(m)).kind == Error(ErrorPayload(BadRequest, HELLO_REQUIRED, Some(m.kind.Tag()), Some(m.id)))
  {
    RequestParses(c.wire, m);
    HelloTag(m.kind);
  }

  lemma DueToCall(c: Cockpit, n: nat, past: seq<seq<byte>>, m: Message)
    requires c.wire.RoundTrips() && !m.kind.Hello? && LatestHello(c.wire, past).Some?
    ensures Due(c, n, past, c.wire.encode(m)).kind
         == HandlerReply(m.id, c.answer(n + |CallsOf(c.wire, past)|, LatestHello(c.wire, past).value, m.kind))
  {
    RequestParses(c.wire, m);
    assert c.wire.kind(c.wire.encode(m)) == Success(m.kind);
    assert CallOf(c.wire, past, c.wire.encode(m)) == Some(Call(LatestHello(c.wire, past).value, m.kind));
  }

  /** A request after a hello, seen from both ends: it is the handler's to answer. */
  ghost predicate AnsweredBy(c: Cockpit, n: nat, requests: seq<Message>, i: nat, answer: Result<Kind, BusError>)
    requires i < |requests|
  {
    var context := HelloInForce(requests[..i]);
    context.Some? && !requests[i].kind.Hello? && c.answer(n + Handled(requests[..i]), context.value, requests[i].kind) == answer
  }

  /** What the client reads in answer to its `i`-th request, once it has read the earlier answers. */
  function ReadBy(c: Cockpit, n: nat, requests: seq<Message>, i: nat): Result<Kind, BusError>
    requires i < |requests| && i <= Answered(c, n, Encoded(c.wire, requests))
  {
    Received(c.wire, requests[i].id, Frames(Encoded(c.wire, Replies(c, n, Encoded(c.wire, requests)))[i..])).0
  }

  /** If the handler succeeds, its client gets exactly what the handler gave. */
  lemma HandlerSuccessIsReturned(c: Cockpit, n: nat, requests: seq<Message>, i: nat, k: Kind)
    requires c.wire.RoundTrips() && AllFit(Encoded(c.wire, requests)) && i < Answered(c, n, Encoded(c.wire, requests))
    requires AnsweredBy(c, n, requests, i, Success(k)) && !k.Error?
    ensures ReadBy(c, n, requests, i) == Success(k)
  {
    AnswersMatchRequests(c, n, requests, i);
    WhatRequestReturns(c, n, requests, i);
  }

  /** If the handler fails, the reply is an error with the handler's code, in reply to that request, whose text
      ends in the handler's own; and its client fails with that code, unless it is folded into domain errors. */
  lemma HandlerFailureIsReturned(c: Cockpit, n: nat, requests: seq<Message>, i: nat, e: BusError) returns (p: ErrorPayload)
    requires c.wire.RoundTrips() && AllFit(Encoded(c.wire, requests)) && i < Answered(c, n, Encoded(c.wire, requests))
    requires AnsweredBy(c, n, requests, i, Failure(e))
    ensures c.wire.kind(Encoded(c.wire, Replies(c, n, Encoded(c.wire, requests)))[i]) == Success(Error(p))
    ensures p.code == e.Code() && p.inReplyTo == Some(requests[i].id) && p.kindReceived == None && EndsIn(p.message, OwnText(e))
    ensures ReadBy(c, n, requests, i).Failure?
    ensures ReadBy(c, n, requests, i).error.Code() == p.code <==> Survives(p.code)
  {
    p := ErrorPayload(e.Code(), e.Text(), None, Some(requests[i].id));
    TextEndsInOwn(e);
    FailureIsReplied(c, n, requests, i, e);
    AnswersMatchRequests(c, n, requests, i);
    CodeSurvivesIff(Error(p));
  }

  lemma FailureIsReplied(c: Cockpit, n: nat, requests: seq<Message>, i: nat, e: BusError)
    requires c.wire.RoundTrips() && i < |requests| && AnsweredBy(c, n, requests, i, Failure(e))
    ensures var sent := Encoded(c.wire, requests);
      Due(c, n, sent[..i], sent[i]).kind == Error(ErrorPayload(e.Code(), e.Text(), None, Some(requests[i].id)))
  {
    AnswerIsReplied(c, n, requests, i, Failure(e));
    FailureReply(requests[i].id, e);
  }

  lemma FailureReply(id: Id, e: BusError)
    ensures HandlerReply(id, Failure(e)) == Error(ErrorPayload(e.Code(), e.Text(), None, Some(id)))
  {
  }

  lemma AnswerIsReplied(c: Cockpit, n: nat, requests: seq<Message>, i: nat, answer: Result<Kind, BusError>)
    requires c.wire.RoundTrips() && i < |requests| && AnsweredBy(c, n, requests, i, answer)
    ensures var sent := Encoded(c.wire, requests);
      Due(c, n, sent[..i], sent[i]).kind == HandlerReply(requests[i].id, answer)
  {
    var sent := Encoded(c.wire, requests);
    assert sent[..i] == Encoded(c.wire, requests[..i]) && sent[i] == c.wire.encode(requests[i]);
    SeenByCockpit(c.wire, requests[..i]);
    DueToCall(c, n, sent[..i], requests[i]);
  }

  /** An error reply carries its text, or the kind that was not known, into the client's error. */
  lemma TextSurvives(p: ErrorPayload)
    ensures p.code != UnknownKind && p.code != PeerDenied ==> OwnText(FromPayload(p)) == p.message
    ensures p.code == UnknownKind ==> OwnText(FromPayload(p)) == p.kindReceived.GetOr("<unknown>")
  {
  }

  /** Answered or not, a request after a hello is carried out. */
  lemma RequestIsCarriedOut(c: Cockpit, requests: seq<Message>, i: nat)
    requires c.wire.RoundTrips() && i < |requests|
    ensures var sent, context := Encoded(c.wire, requests), HelloInForce(requests[..i]);
      CallsOf(c.wire, sent[..i + 1]) == CallsOf(c.wire, sent[..i])
        + if requests[i].kind.Hello? || context.None? then [] else [Call(context.value, requests[i].kind)]
  {
    var sent := Encoded(c.wire, requests);
    assert sent[..i] == Encoded(c.wire, requests[..i]) && sent[..i + 1][..i] == sent[..i];
    SeenByCockpit(c.wire, requests[..i]);
    RequestParses(c.wire, requests[i]);
  }

  lemma RequestsAreAnswerable(c: Cockpit, n: nat, past: seq<seq<byte>>, m: Message)
    requires c.wire.RoundTrips()
    ensures Answerable(c, n, past, c.wire.encode(m)) <==> Fits(c.wire, Due(c, n, past, c.wire.encode(m)))
  {
    RequestParses(c.wire, m);
    HelloTag(m.kind);
  }

  lemma NeverIo(reply: Kind)
    ensures AsResult(reply) != Failure(FromFrameError(UnexpectedEof))
  {
  }

  /** A client whose earlier requests were answered is told of the end of the stream exactly when the reply to
      this one is too large; and that is where the answers stop. */
  lemma SilenceIsEofIff(c: Cockpit, n: nat, requests: seq<Message>, i: nat)
    requires c.wire.RoundTrips() && AllFit(Encoded(c.wire, requests))
    requires i < |requests| && i <= Answered(c, n, Encoded(c.wire, requests))
    ensures var w, sent := c.wire, Encoded(c.wire, requests);
      var answers, due := Encoded(w, Replies(c, n, sent)), Due(c, n, sent[..i], sent[i]);
      && (Received(w, requests[i].id, Frames(answers[i..])).0 == Failure(FromFrameError(UnexpectedEof)) <==> !Fits(w, due))
      && (!Fits(w, due) <==> i == |answers|)
  {
    var w, sent := c.wire, Encoded(c.wire, requests);
    AnsweredHolds(c, n, sent);
    RequestsAreAnswerable(c, n, sent[..i], requests[i]);
    assert AnswerableAt(c, n, sent, i) <==> Fits(w, Due(c, n, sent[..i], sent[i]));
    if i < Answered(c, n, sent) {
      AnswersMatchRequests(c, n, requests, i);
      NeverIo(Due(c, n, sent[..i], sent[i]).kind);
    } else {
      assert Encoded(w, Replies(c, n, sent))[i..] == [];
    }
  }

  /** The bytes a connection sends to its peer. */
  function ToPeer(c: Cockpit, n: nat, peerUid: nat, cockpitUid: nat, input: seq<byte>): seq<byte> {
    if peerUid != cockpitUid then SentBytes(c.wire, Denial(peerUid, cockpitUid))
    else Frames(Encoded(c.wire, Replies(c, n, ReadAll(input).bodies)))
  }

  /** The client's id check fails on its first answer exactly when the peer was denied: a denied client
      with a non-nil id is told of an id mismatch, never of the denial. */
  lemma IdCheckIff(c: Cockpit, n: nat, peerUid: nat, cockpitUid: nat, requests: seq<Message>)
    requires c.wire.RoundTrips() && AllFit(Encoded(c.wire, requests))
    requires requests != [] && requests[0].kind.Hello? && requests[0].id != NIL
    requires Fits(c.wire, Denial(peerUid, cockpitUid)) && Fits(c.wire, Message(requests[0].id, HelloAck(c.version)))
    ensures var w, id := c.wire, requests[0].id;
      var first := Received(w, id, ToPeer(c, n, peerUid, cockpitUid, Frames(Encoded(w, requests)))).0;
      first == if peerUid != cockpitUid then Failure(IdMismatch(w, NIL, id)) else Success(HelloAck(c.version))
  {
    var w, id, sent := c.wire, requests[0].id, Encoded(c.wire, requests);
    if peerUid != cockpitUid {
      var body := w.encode(Denial(peerUid, cockpitUid));
      assert Frame(body) == Frame(body) + [];
      ReadInvertsWrite(Frame(body), body, []);
    } else {
      WhatRequestReturns(c, n, requests, 0);
      RequestParses(w, requests[0]);
      assert Due(c, n, sent[..0], sent[0]) == Message(id, HelloAck(c.version));
      AnsweredHolds(c, n, sent);
      assert AnswerableAt(c, n, sent, 0);
      AnswersMatchRequests(c, n, requests, 0);
      var answers := Encoded(w, Replies(c, n, sent));
      assert answers[0..] == answers;
    }
  }
}

/**
 A whole connection, exchange by exchange: what each request was, what was called for it, what was answered, and why
 the connection ended. Nothing here is put in terms of the functions that serve it: requests are described by their
 fields.
 */
module IpcTranscript {
  import opened Common
  import opened Frames
  import opened RuntimeHandler
  import opened IpcSession
  import opened IpcGuarantees

  // Requests

  predicate HexDigits(bytes: seq<byte>) {
    forall b | b in bytes :: 48 <= b <= 57 || 97 <= b <= 102 || 65 <= b <= 70
  }

  /** Five groups of hexadecimal digits between hyphens, with version 4 and variant 8, 9, a or b in their places. */
  ghost predicate IsUuid(bytes: seq<byte>) {
    exists a, b, c, variant: byte, d, e {:trigger Grouped(a, b, c, variant, d, e)} ::
      bytes == Grouped(a, b, c, variant, d, e) && Groups(a, b, c, variant, d, e)
  }

  predicate Groups(a: seq<byte>, b: seq<byte>, c: seq<byte>, variant: byte, d: seq<byte>, e: seq<byte>) {
    && |a| == 8 && |b| == 4 && |c| == 3 && |d| == 3 && |e| == 12 && variant in [56, 57, 97, 98]
    && HexDigits(a) && HexDigits(b) && HexDigits(c) && HexDigits(d) && HexDigits(e)
  }

  function Grouped(a: seq<byte>, b: seq<byte>, c: seq<byte>, variant: byte, d: seq<byte>, e: seq<byte>): seq<byte> {
    a + [45] + b + [45, 52] + c + [45, variant] + d + [45] + e
  }

  /** An envelope the server reads: its protocol version, a new-style id, a kind in small letters, and an object. */
  ghost predicate Sound<J(!new), H>(host: Host<J, H>, request: Envelope<J>) {
    && request.protocolVersion == 1 && IsUuid(request.requestId.bytes) && host.payloads.isObject(request.payload)
    && 0 < |request.kind.bytes| <= 100 && 97 <= request.kind.bytes[0] <= 122
    && forall b | b in request.kind.bytes :: 97 <= b <= 122 || 48 <= b <= 57 || b == 95 || b == 46 || b == 45
  }

  lemma {:induction false} GroupsValid(a: seq<byte>, b: seq<byte>, c: seq<byte>, variant: byte, d: seq<byte>,
      e: seq<byte>)
    requires Groups(a, b, c, variant, d, e)
    ensures ValidUuidV4(Text(Grouped(a, b, c, variant, d, e)))
  {
    var bytes := Grouped(a, b, c, variant, d, e);
    assert bytes[..8] == a && bytes[9..13] == b && bytes[15..18] == c && bytes[20..23] == d && bytes[24..36] == e;
    forall i | 0 <= i < 36 && i !in {8, 13, 18, 23} ensures HexByte(bytes[i]) {
      assert i < 8 ==> bytes[i] == a[i] && a[i] in a;
      assert 9 <= i < 13 ==> bytes[i] == b[i - 9] && b[i - 9] in b;
      assert 15 <= i < 18 ==> bytes[i] == c[i - 15] && c[i - 15] in c;
      assert 20 <= i < 23 ==> bytes[i] == d[i - 20] && d[i - 20] in d;
      assert 24 <= i < 36 ==> bytes[i] == e[i - 24] && e[i - 24] in e;
    }
  }

  lemma {:induction false} HexSlice(bytes: seq<byte>, i: nat, j: nat)
    requires i <= j <= |bytes| && forall k | i <= k < j :: HexByte(bytes[k])
    ensures HexDigits(bytes[i..j])
  {
    forall b | b in bytes[i..j] ensures HexByte(b) {
      var k :| 0 <= k < j - i && bytes[i..j][k] == b;
      assert bytes[i..j][k] == bytes[i + k];
    }
  }

  lemma {:induction false} ValidGroups(id: Text)
    requires ValidUuidV4(id)
    ensures IsUuid(id.bytes)
  {
    var bytes := id.bytes;
    HexSlice(bytes, 0, 8);
    HexSlice(bytes, 9, 13);
    HexSlice(bytes, 15, 18);
    HexSlice(bytes, 20, 23);
    HexSlice(bytes, 24, 36);
    assert bytes == Grouped(bytes[0..8], bytes[9..13], bytes[15..18], bytes[19], bytes[20..23], bytes[24..36]);
  }

  lemma {:induction false} UuidExactly(id: Text)
    ensures IsUuid(id.bytes) <==> ValidUuidV4(id)
  {
    if ValidUuidV4(id) {
      ValidGroups(id);
    }
    if IsUuid(id.bytes) {
      var a, b, c, v: byte, d, e :| id.bytes == Grouped(a, b, c, v, d, e) && Groups(a, b, c, v, d, e);
      GroupsValid(a, b, c, v, d, e);
    }
  }

  lemma {:induction false} SoundExactly<J(!new), H>(host: Host<J, H>, request: Envelope<J>)
    ensures Sound(host, request) <==> ValidEnvelope(host, request)
  {
    UuidExactly(request.requestId);
    assert request.kind.bytes != [] ==> request.kind.bytes[0] in request.kind.bytes;
  }

  /** A nonce: 43 characters that decode to 32 bytes. */
  ghost predicate IsNonce<J(!new), H>(host: Host<J, H>, text: Text) {
    |text.bytes| == 43 && exists bytes {:trigger |bytes|} :: host.decode64(text) == Some(bytes) && |bytes| == 32
  }

  /** A challenge of protocol version 1 with a nonce. */
  ghost predicate Challenges<J(!new), H>(host: Host<J, H>, request: Envelope<J>, nonce: Text) {
    && request.kind == Text(Ascii("handshake.challenge"))
    && host.payloads.challenge(request.payload) == Some((nonce, 1)) && IsNonce(host, nonce)
  }

  /** A proof for both nonces whose code decodes to the bytes of the code made with the secret. */
  ghost predicate Proves<J(!new), H>(host: Host<J, H>, request: Envelope<J>, clientNonce: Text) {
    && request.kind == Text(Ascii("handshake.proof"))
    && IsNonce(host, clientNonce) && IsNonce(host, host.serverNonce)
    && exists mac, code {:trigger Signed(host, request, clientNonce, mac, code)} ::
       Signed(host, request, clientNonce, mac, code)
  }

  ghost predicate Signed<J(!new), H>(host: Host<J, H>, request: Envelope<J>, clientNonce: Text, mac: Text,
      code: seq<byte>) {
    && host.payloads.proof(request.payload) == Some(ProofPayload(clientNonce, mac, host.serverNonce))
    && host.decode64(mac) == Some(code)
    && host.decode64(host.mac(host.secret, Client, clientNonce, host.serverNonce)) == Some(code)
  }

  predicate IsLetterOrDigit(b: byte) {
    48 <= b <= 57 || 65 <= b <= 90 || 97 <= b <= 122
  }

  /** Letters and digits, and after the first also dots, underscores, colons and hyphens. */
  ghost predicate IsId(text: Text) {
    && 1 <= |text.bytes| <= 200 && IsLetterOrDigit(text.bytes[0])
    && forall b | b in text.bytes :: IsLetterOrDigit(b) || b == 46 || b == 95 || b == 58 || b == 45
  }

  /** No control character, neither of ASCII nor of the Latin-1 block in its two bytes of UTF-8. */
  ghost predicate IsLabel(text: Text) {
    && 1 <= |text.bytes| <= 200 && (forall b | b in text.bytes :: 32 <= b && b != 127)
    && forall front, c: byte, rest {:trigger front + [0xC2, c] + rest} | text.bytes == front + [0xC2, c] + rest ::
         c < 0x80 || 0x9F < c
  }

  /** What a request asks of the handler. */
  ghost predicate Asks<J(!new), H>(host: Host<J, H>, request: Envelope<J>, call: Call) {
    match call
    case GetStatus => request.kind == Text(Ascii("status.get")) && host.payloads.empty(request.payload)
    case CreateCheckpoint(reason) =>
      request.kind == Text(Ascii("checkpoint.create")) && host.payloads.checkpoint(request.payload) == Some(reason)
    case StartObservation(project, surface) =>
      && request.kind == Text(Ascii("observation.start"))
      && host.payloads.start(request.payload) == Some((project, surface))
      && IsId(project) && IsLabel(surface)
    case StopObservation(session) =>
      && request.kind == Text(Ascii("observation.stop"))
      && host.payloads.stop(request.payload) == Some(session) && IsId(session)
  }

  /** The kind of the response to each kind of request the server knows. */
  function ResponseKind(kind: Text): Option<Text> {
    if kind == Text(Ascii("status.get")) then Some(Text(Ascii("status.result")))
    else if kind == Text(Ascii("checkpoint.create")) then Some(Text(Ascii("checkpoint.result")))
    else if kind == Text(Ascii("observation.start")) || kind == Text(Ascii("observation.stop"))
    then Some(Text(Ascii("observation.result")))
    else None
  }

  // Answers

  /** The response to a call: the handler's object, or the reason there is none. */
  ghost predicate Reports<J(!new), H>(host: Host<J, H>, request: Envelope<J>, result: Result<J, HandlerError>,
      reply: Response<J>) {
    && reply.requestId == request.requestId && Some(reply.kind) == ResponseKind(request.kind)
    && match result
       case Ok(value) =>
         if host.payloads.isObject(value) then reply.ok && reply.body == Value(value)
         else !reply.ok && reply.body == Failure(Internal)
       case Err(code) => !reply.ok && reply.body == Failure(code)
  }

  /** The response to a request that asks for nothing the server does. */
  ghost predicate Declines<J>(request: Envelope<J>, reply: Response<J>) {
    && reply.requestId == request.requestId && !reply.ok
    && match ResponseKind(request.kind)
       case Some(kind) => reply.kind == kind && reply.body == Failure(InvalidState)
       case None => reply.kind == Text(Ascii("request.error")) && reply.body == Failure(Forbidden)
  }

  ghost predicate Greets<J(!new), H>(host: Host<J, H>, request: Envelope<J>, reply: Response<J>) {
    exists nonce :: Challenges(host, request, nonce) && reply == HelloTo(host, request, nonce)
  }

  function HelloTo<J(!new), H>(host: Host<J, H>, request: Envelope<J>, nonce: Text): Response<J> {
    Response(request.requestId, Text(Ascii("handshake.response")), true,
             Hello(host.mac(host.secret, Server, nonce, host.serverNonce), host.serverNonce))
  }

  function WelcomeTo<J>(request: Envelope<J>): Response<J> {
    Response(request.requestId, Text(Ascii("handshake.ack")), true, Welcome)
  }

  /** The second request proves knowledge of the secret for the nonce of the first. */
  ghost predicate Proven<J(!new), H>(host: Host<J, H>, first: Envelope<J>, second: Envelope<J>) {
    exists nonce :: Challenges(host, first, nonce) && Proves(host, second, nonce)
  }

  /** One exchange: handshake requests call nothing, others call what they ask for and are told what came of it. */
  ghost predicate SpokenAt<J(!new), H>(host: Host<J, H>, state: H, log: Log<J>, i: nat)
    requires i < |log|
  {
    var e := log[i];
    if i < 2 then
      && e.call.None?
      && (e.reply.Some? ==>
            if i == 0 then Greets(host, e.request, e.reply.value)
            else Proven(host, log[0].request, e.request) && e.reply.value == WelcomeTo(e.request))
    else
      && Proven(host, log[0].request, log[1].request)
      && match e.call
         case Some(call) =>
           && Asks(host, e.request, call)
           && (e.reply.Some? ==>
                 Reports(host, e.request, host.handle(HandledAll(host, state, CallsOf(log[..i])), call).1,
                     e.reply.value))
         case None =>
           e.reply.Some? ==> (forall call :: !Asks(host, e.request, call)) && Declines(e.request, e.reply.value)
  }

  /** Every request was sound and had an id of its own. */
  ghost predicate Admitted<J(!new), H>(host: Host<J, H>, s: Session<J, H>) {
    && DistinctIds(s.log) && SeenIds(s.seen, s.log)
    && forall i | 0 <= i < |s.log| :: Sound(host, s.log[i].request)
  }

  /** The whole conversation, and the handler in the state its calls have made. */
  ghost predicate Spoken<J(!new), H>(host: Host<J, H>, state: H, s: Session<J, H>) {
    && s.state == HandledAll(host, state, CallsOf(s.log))
    && forall i: nat {:trigger SpokenAt(host, state, s.log, i)} | i < |s.log| :: SpokenAt(host, state, s.log, i)
  }

  // Why a connection ends

  /** A response that cannot be written, and the error that gives. */
  ghost predicate Unwritable<J(!new), H>(host: Host<J, H>, s: Session<J, H>, response: Response<J>,
      outcome: Result<(), IpcError>) {
    match host.render(response)
    case None => outcome == Err(InvalidFrame)
    case Some(payload) =>
      if payload == [] || |payload| > host.config.maximumFrameBytes || |payload| > 0xFFFF_FFFF
      then outcome == Err(FrameTooLarge) else s.link.takes == 0 && outcome == Err(Io)
  }

  /** The last request got no response: it was refused in the handshake, or the response could not be written. */
  ghost predicate Unanswered<J(!new), H>(host: Host<J, H>, state: H, s: Session<J, H>, outcome: Result<(), IpcError>)
    requires s.log != []
  {
    var request := Last(s);
    if |s.log| == 1 then
      if request.kind == Text(Ascii("handshake.challenge")) && host.payloads.challenge(request.payload).None?
      then outcome == Err(InvalidFrame)
      else if forall nonce :: !Challenges(host, request, nonce) then outcome == Err(AuthenticationFailed)
      else exists nonce ::
        Challenges(host, request, nonce) && Unwritable(host, s, HelloTo(host, request, nonce), outcome)
    else if |s.log| == 2 then
      if request.kind == Text(Ascii("handshake.proof")) && host.payloads.proof(request.payload).None?
      then outcome == Err(InvalidFrame)
      else if !Proven(host, s.log[0].request, request) then outcome == Err(AuthenticationFailed)
      else Unwritable(host, s, WelcomeTo(request), outcome)
    else
      exists reply :: Unwritable(host, s, reply, outcome)
                      && SpokenAt(host, state, s.log[..|s.log| - 1] + [s.log[|s.log| - 1].(reply := Some(reply))],
                         |s.log| - 1)
  }

  /** Every request was answered: what came next was an error, the end, a bad request, or one too many. */
  ghost predicate NothingMore<J(!new), H>(host: Host<J, H>, s: Session<J, H>, outcome: Result<(), IpcError>) {
    if |s.log| == 2 + host.config.maximumRequests then outcome == Err(ConnectionLimit) else
    match ReadOne(host.format, host.config.maximumFrameBytes, s.link.unread, s.link.end)
    case Err(e) => outcome == Err(e)
    case Ok(None) => outcome == if |s.log| < 2 then Err(InvalidFrame) else Ok(())
    case Ok(Some((request, _))) =>
      && (!Sound(host, request) || request.requestId in s.seen)
      && outcome == Err(InvalidFrame)
  }

  ghost predicate Ended<J(!new), H>(host: Host<J, H>, state: H, s: Session<J, H>, outcome: Result<(), IpcError>) {
    if s.log != [] && s.log[|s.log| - 1].reply.None? then Unanswered(host, state, s, outcome)
      else NothingMore(host, s, outcome)
  }

  // One request

  lemma {:induction false} NonceExactly<J(!new), H>(host: Host<J, H>, text: Text)
    ensures IsNonce(host, text) <==> ValidNonce(host, text)
  {}

  lemma {:induction false} ChallengeExactly<J(!new), H>(host: Host<J, H>, request: Envelope<J>, nonce: Text)
    ensures Challenges(host, request, nonce) <==> GoodChallenge(host, request) && NonceOf(host, request) == nonce
  {
    NonceExactly(host, nonce);
  }

  lemma {:induction false} ProofExactly<J(!new), H>(host: Host<J, H>, request: Envelope<J>, nonce: Text)
    ensures Proves(host, request, nonce) <==> GoodProof(host, nonce, request)
  {
    NonceExactly(host, nonce);
    NonceExactly(host, host.serverNonce);
    if GoodProof(host, nonce, request) {
      var proof := host.payloads.proof(request.payload).value;
      assert Signed(host, request, nonce, proof.mac, host.decode64(proof.mac).value);
    }
  }

  lemma {:induction false} ProvenExactly<J(!new), H>(host: Host<J, H>, first: Envelope<J>, second: Envelope<J>)
    ensures Proven(host, first, second) <==> GoodChallenge(host, first) && GoodProof(host, NonceOf(host, first), second)
  {
    ChallengeExactly(host, first, NonceOf(host, first));
    ProofExactly(host, second, NonceOf(host, first));
    if nonce :| Challenges(host, first, nonce) && Proves(host, second, nonce) {
      ChallengeExactly(host, first, nonce);
    }
  }

  lemma {:induction false} IdExactly(text: Text)
    ensures IsId(text) <==> IpcSession.ValidIdentifier(text)
  {
    var bytes := text.bytes;
    if IpcSession.ValidIdentifier(text) {
      forall b | b in bytes ensures IsLetterOrDigit(b) || b == 46 || b == 95 || b == 58 || b == 45 {
        var i :| 0 <= i < |bytes| && bytes[i] == b;
      }
    }
    if IsId(text) {
      forall i | 0 <= i < |bytes| ensures Alphanumeric(bytes[i]) || (i > 0 && bytes[i] in {46, 95, 58, 45}) {
        assert bytes[i] in bytes;
      }
    }
  }

  lemma {:induction false} LabelExactly(text: Text)
    ensures IsLabel(text) <==> ValidLabel(text)
  {
    var bytes := text.bytes;
    if IsLabel(text) {
      forall i | 0 <= i < |bytes| - 1 ensures !(bytes[i] == 0xC2 && 0x80 <= bytes[i + 1] < 0xA0) {
        if bytes[i] == 0xC2 {
          var front, rest := bytes[..i], bytes[i + 2..];
          assert bytes == front + [0xC2, bytes[i + 1]] + rest;
        }
      }
    }
    if ValidLabel(text) {
      forall front, c: byte, rest | bytes == front + [0xC2, c] + rest ensures c < 0x80 || 0x9F < c {
        assert bytes[|front|] == 0xC2 && bytes[|front| + 1] == c;
      }
    }
  }

  lemma {:induction false} AskExactly<J(!new), H>(host: Host<J, H>, request: Envelope<J>, call: Call)
    ensures Asks(host, request, call) <==> AskedBy(host, request) == Some(call)
  {
    KindsApart();
    match call
    case StartObservation(project, surface) =>
      IdExactly(project);
      LabelExactly(surface);
    case StopObservation(session) => IdExactly(session);
    case _ =>
  }

  lemma {:induction false} KindsApart()
    ensures Ascii("status.get") != Ascii("checkpoint.create") && Ascii("status.get") != Ascii("observation.start")
    ensures Ascii("status.get") != Ascii("observation.stop") && Ascii("checkpoint.create") != Ascii("observation.stop")
    ensures Ascii("checkpoint.create") != Ascii("observation.start")
            && Ascii("observation.start") != Ascii("observation.stop")
  {
    assert |Ascii("status.get")| == 10 && |Ascii("observation.stop")| == 16;
    assert |Ascii("checkpoint.create")| == 17 && |Ascii("observation.start")| == 17;
    assert Ascii("checkpoint.create")[0] == 99 && Ascii("observation.start")[0] == 111;
  }

  lemma {:induction false} ReplyExactly<J(!new), H>(host: Host<J, H>, request: Envelope<J>,
      result: Result<J, HandlerError>)
    ensures var (kind, asked) := Interpret(host, request.kind, request.payload);
            && (asked.Ok? ==> Reports(host, request, result, ResponseTo(host, request.requestId, kind, result)))
            && (asked.Err? ==> Declines(request, ResponseTo(host, request.requestId, kind, Err(asked.error))))
  {
    KindsApart();
  }

  // One step of the session

  lemma {:induction false} SpokenPrefix<J(!new), H>(host: Host<J, H>, state: H, log: Log<J>, later: Log<J>, i: nat)
    requires i < |log| <= |later| && (forall k | 0 <= k < |log| && (k <= i || k < 2) :: later[k] == log[k])
    ensures SpokenAt(host, state, log, i) <==> SpokenAt(host, state, later, i)
  {
    assert log[..i] == later[..i];
  }

  /** A request that comes in is part of the conversation before anything is done with it. */
  lemma {:induction false} SpokenReceive<J(!new), H>(host: Host<J, H>, state: H, s: Session<J, H>, next: Session<J, H>,
      request: Envelope<J>)
    requires Spoken(host, state, s) && next.state == s.state && next.log == s.log + [Exchange(request, None, None)]
    requires |s.log| >= 2 ==> Proven(host, s.log[0].request, s.log[1].request)
    ensures Spoken(host, state, next)
  {
    Prefix(s.log, Exchange(request, None, None));
    assert CallsOf(s.log) + [] == CallsOf(s.log);
    forall i: nat | i < |next.log| ensures SpokenAt(host, state, next.log, i) {
      if i < |s.log| {
        SpokenPrefix(host, state, s.log, next.log, i);
      }
    }
  }

  /** An answer that fits its exchange keeps the conversation. */
  lemma {:induction false} SpokenAnswer<J(!new), H>(host: Host<J, H>, state: H, s: Session<J, H>, reply: Response<J>,
      next: Session<J, H>)
    requires s.log != [] && Spoken(host, state, s) && next.state == s.state && next.log == Answered(s.log, reply)
    requires SpokenAt(host, state, next.log, |s.log| - 1)
    ensures Spoken(host, state, next)
  {
    var front := s.log[..|s.log| - 1];
    Prefix(front, next.log[|front|]);
    assert next.log[..|front|] == front;
    forall i: nat | i < |next.log| ensures SpokenAt(host, state, next.log, i) {
      if i < |front| {
        SpokenPrefix(host, state, front, s.log, i);
        SpokenPrefix(host, state, front, next.log, i);
      }
    }
  }

  lemma {:induction false} SendEnds<J(!new), H>(host: Host<J, H>, s: Session<J, H>, reply: Response<J>)
    requires s.log != []
    ensures match Send(host, s, reply)
            case Go(at) => at.state == s.state && at.seen == s.seen && at.log == Answered(s.log, reply)
            case Stop(at, outcome) => at == s && Unwritable(host, s, reply, outcome)
  {}

  /** The next request is let in, or what comes instead is no sound request with an id of its own. */
  lemma {:induction false} ReceiveEnds<J(!new), H>(host: Host<J, H>, s: Session<J, H>)
    ensures match Receive(host, s)
            case Ok(Some(next)) =>
              next.state == s.state && next.log != [] && next.log == s.log + [Exchange(Last(next), None, None)]
            case Ok(None) => ReadOne(host.format, host.config.maximumFrameBytes, s.link.unread, s.link.end) == Ok(None)
            case Err(e) =>
              match ReadOne(host.format, host.config.maximumFrameBytes, s.link.unread, s.link.end)
              case Err(f) => e == f
              case Ok(Some((request, _))) => (!Sound(host, request) || request.requestId in s.seen) && e == InvalidFrame
              case Ok(None) => false
  {
    match ReadOne(host.format, host.config.maximumFrameBytes, s.link.unread, s.link.end)
    case Ok(Some((request, _))) => SoundExactly(host, request);
    case _ =>
  }

  // The handshake

  /** A turn keeps the conversation; if it stops there is a reason, and if it goes on everything is answered. */
  ghost predicate Follows<J(!new), H>(host: Host<J, H>, state: H, turn: Turn<J, H>) {
    && Spoken(host, state, turn.at)
    && (turn.Stop? ==> Ended(host, state, turn.at, turn.outcome))
    && (turn.Go? ==> AllAnswered(turn.at.log))
  }

  lemma {:induction false} GreetingSent<J(!new), H(!new)>(host: Host<J, H>, state: H, s: Session<J, H>, nonce: Text)
    requires Spoken(host, state, s) && |s.log| == 1 && s.log[0] == Exchange(Last(s), None, None)
    requires Challenges(host, Last(s), nonce)
    ensures var turn := Send(host, s, HelloTo(host, Last(s), nonce));
            && Follows(host, state, turn)
            && (turn.Go? ==> |turn.at.log| == 1 && Greets(host, turn.at.log[0].request, turn.at.log[0].reply.value))
  {
    var reply := HelloTo(host, Last(s), nonce);
    SendEnds(host, s, reply);
    if Send(host, s, reply).Go? {
      SpokenAnswer(host, state, s, reply, Send(host, s, reply).at);
    }
  }

  lemma {:induction false} GreetingRefused<J(!new), H(!new)>(host: Host<J, H>, state: H, s: Session<J, H>)
    requires |s.log| == 1 && s.log[0].reply.None? && !GoodChallenge(host, Last(s))
    ensures Unanswered(host, state, s,
                       if Last(s).kind == Text(Ascii("handshake.challenge"))
                         && host.payloads.challenge(Last(s).payload).None?
                       then Err(InvalidFrame) else Err(AuthenticationFailed))
  {
    forall nonce ensures !Challenges(host, Last(s), nonce) {
      ChallengeExactly(host, Last(s), nonce);
    }
  }

  lemma {:induction false} ChallengeTurn<J(!new), H>(host: Host<J, H>, s: Session<J, H>)
    requires Receive(host, s).Ok? && Receive(host, s).value.Some? && Receive(host, s).value.value.log != []
    ensures var next := Receive(host, s).value.value;
            Challenge(host, s) ==
            if GoodChallenge(host, Last(next)) then
              Send(host, next, HelloTo(host, Last(next), NonceOf(host, Last(next))))
            else Stop(next, if Last(next).kind == Text(Ascii("handshake.challenge"))
                               && host.payloads.challenge(Last(next).payload).None?
                            then Err(InvalidFrame) else Err(AuthenticationFailed))
  {}

  /** Nothing that could be a request came, and everything before was answered. */
  lemma {:induction false} NoRequestEnds<J(!new), H(!new)>(host: Host<J, H>, state: H, s: Session<J, H>)
    requires AllAnswered(s.log) && |s.log| != 2 + host.config.maximumRequests
    ensures match Receive(host, s)
            case Ok(Some(_)) => true
            case Ok(None) => Ended(host, state, s, if |s.log| < 2 then Err(InvalidFrame) else Ok(()))
            case Err(e) => Ended(host, state, s, Err(e))
  {
    ReceiveEnds(host, s);
  }

  lemma {:induction false} GreetingFollows<J(!new), H(!new)>(host: Host<J, H>, state: H, s: Session<J, H>)
    requires Spoken(host, state, s) && s.log == []
    ensures var turn := Challenge(host, s);
            && Follows(host, state, turn)
            && (turn.Go? ==> |turn.at.log| == 1 && Greets(host, turn.at.log[0].request, turn.at.log[0].reply.value))
  {
    NoRequestEnds(host, state, s);
    if Receive(host, s).Ok? && Receive(host, s).value.Some? {
      GreetingReceived(host, state, s);
    }
  }

  lemma {:induction false} GreetingReceived<J(!new), H(!new)>(host: Host<J, H>, state: H, s: Session<J, H>)
    requires Spoken(host, state, s) && s.log == []
    requires Receive(host, s).Ok? && Receive(host, s).value.Some?
    ensures var turn := Challenge(host, s);
            && Follows(host, state, turn)
            && (turn.Go? ==> |turn.at.log| == 1 && Greets(host, turn.at.log[0].request, turn.at.log[0].reply.value))
  {
    ReceiveEnds(host, s);
    var next := Receive(host, s).value.value;
    SpokenReceive(host, state, s, next, Last(next));
    ChallengeTurn(host, s);
    GreetingAnswered(host, state, next, Challenge(host, s));
  }

  lemma {:induction false} GreetingAnswered<J(!new), H(!new)>(host: Host<J, H>, state: H, s: Session<J, H>,
      turn: Turn<J, H>)
    requires Spoken(host, state, s) && |s.log| == 1 && s.log[0] == Exchange(Last(s), None, None)
    requires turn == if GoodChallenge(host, Last(s)) then Send(host, s, HelloTo(host, Last(s), NonceOf(host, Last(s))))
                     else Stop(s, if Last(s).kind == Text(Ascii("handshake.challenge"))
                                     && host.payloads.challenge(Last(s).payload).None?
                                  then Err(InvalidFrame) else Err(AuthenticationFailed))
    ensures Follows(host, state, turn)
    ensures turn.Go? ==> |turn.at.log| == 1 && Greets(host, turn.at.log[0].request, turn.at.log[0].reply.value)
  {
    ChallengeExactly(host, Last(s), NonceOf(host, Last(s)));
    if Challenges(host, Last(s), NonceOf(host, Last(s))) {
      GreetingSent(host, state, s, NonceOf(host, Last(s)));
    } else {
      GreetingRefused(host, state, s);
    }
  }

  lemma {:induction false} ProofSent<J(!new), H(!new)>(host: Host<J, H>, state: H, s: Session<J, H>)
    requires Spoken(host, state, s) && |s.log| == 2 && s.log[1] == Exchange(Last(s), None, None)
    requires Proven(host, s.log[0].request, Last(s))
    ensures var turn := Send(host, s, WelcomeTo(Last(s)));
            && Follows(host, state, turn)
            && (turn.Go? ==> |turn.at.log| == 2 && Proven(host, turn.at.log[0].request, turn.at.log[1].request))
  {
    var reply := WelcomeTo(Last(s));
    SendEnds(host, s, reply);
    if Send(host, s, reply).Go? {
      SpokenAnswer(host, state, s, reply, Send(host, s, reply).at);
    }
  }

  lemma {:induction false} ProofTurn<J(!new), H>(host: Host<J, H>, s: Session<J, H>, nonce: Text)
    requires Receive(host, s).Ok? && Receive(host, s).value.Some? && Receive(host, s).value.value.log != []
    ensures var next := Receive(host, s).value.value;
            Prove(host, s, nonce) ==
            if GoodProof(host, nonce, Last(next)) then Send(host, next, WelcomeTo(Last(next)))
            else Stop(next, if Last(next).kind == Text(Ascii("handshake.proof"))
                               && host.payloads.proof(Last(next).payload).None?
                            then Err(InvalidFrame) else Err(AuthenticationFailed))
  {}

  lemma {:induction false} ProofFollows<J(!new), H(!new)>(host: Host<J, H>, state: H, s: Session<J, H>)
    requires Spoken(host, state, s) && |s.log| == 1 && AllAnswered(s.log) && GoodChallenge(host, s.log[0].request)
    requires host.config.maximumRequests > 0
    ensures var turn := Prove(host, s, NonceOf(host, s.log[0].request));
            && Follows(host, state, turn)
            && (turn.Go? ==> |turn.at.log| == 2 && Proven(host, turn.at.log[0].request, turn.at.log[1].request))
  {
    ReceiveEnds(host, s);
    NoRequestEnds(host, state, s);
    if Receive(host, s).Ok? && Receive(host, s).value.Some? {
      var next := Receive(host, s).value.value;
      SpokenReceive(host, state, s, next, Last(next));
      ProofTurn(host, s, NonceOf(host, s.log[0].request));
      ProvenExactly(host, s.log[0].request, Last(next));
      if Proven(host, s.log[0].request, Last(next)) {
        ProofSent(host, state, next);
      }
    }
  }

  // Requests

  /** Between requests: all answered, the proof accepted, and so many left to answer. */
  ghost predicate Waiting<J(!new), H>(host: Host<J, H>, state: H, s: Session<J, H>, left: nat) {
    && Spoken(host, state, s) && AllAnswered(s.log) && |s.log| >= 2 && |s.log| + left == 2 + host.config.maximumRequests
    && Proven(host, s.log[0].request, s.log[1].request)
  }

  lemma {:induction false} DeclineFollows<J(!new), H>(host: Host<J, H>, state: H, s: Session<J, H>)
    requires Spoken(host, state, s) && |s.log| > 2 && s.log[|s.log| - 1] == Exchange(Last(s), None, None)
    requires Interpret(host, Last(s).kind, Last(s).payload).1.Err?
    ensures Follows(host, state, Respond(host, s))
  {
    var request := Last(s);
    var (kind, asked) := Interpret(host, request.kind, request.payload);
    var reply := ResponseTo(host, request.requestId, kind, Err(asked.error));
    ReplyExactly(host, request, Err(asked.error));
    forall call ensures !Asks(host, request, call) {
      AskExactly(host, request, call);
    }
    assert SpokenAt(host, state, s.log, |s.log| - 1);
    ReplyFollows(host, state, s, reply);
  }

  /** A reply that fits is either sent, or the reason to stop. */
  lemma {:induction false} ReplyFollows<J(!new), H>(host: Host<J, H>, state: H, s: Session<J, H>, reply: Response<J>)
    requires Spoken(host, state, s) && |s.log| > 2 && s.log[|s.log| - 1].reply.None?
    requires SpokenAt(host, state, Answered(s.log, reply), |s.log| - 1)
    ensures Follows(host, state, Send(host, s, reply))
  {
    SendEnds(host, s, reply);
    if Send(host, s, reply).Go? {
      SpokenAnswer(host, state, s, reply, Send(host, s, reply).at);
    }
  }

  lemma {:induction false} CallFollows<J(!new), H>(host: Host<J, H>, state: H, s: Session<J, H>)
    requires Spoken(host, state, s) && |s.log| > 2 && s.log[|s.log| - 1] == Exchange(Last(s), None, None)
    requires Interpret(host, Last(s).kind, Last(s).payload).1.Ok?
    ensures Follows(host, state, Respond(host, s))
  {
    var request, front := Last(s), s.log[..|s.log| - 1];
    var (kind, asked) := Interpret(host, request.kind, request.payload);
    var call := asked.value;
    var (after, result) := host.handle(s.state, call);
    var called := s.(state := after, log := Called(s.log, Some(call)));
    AskExactly(host, request, call);
    ReplyExactly(host, request, result);
    CallSpoken(host, state, s, called, call);
    assert SpokenAt(host, state, called.log, |front|);
    Prefix(front, called.log[|front|]);
    ReplyFollows(host, state, called, ResponseTo(host, request.requestId, kind, result));
  }

  /** After its call, and before its answer, a request is still part of the conversation. */
  lemma {:induction false} CallSpoken<J(!new), H>(host: Host<J, H>, state: H, s: Session<J, H>, called: Session<J, H>,
      call: Call)
    requires Spoken(host, state, s) && |s.log| > 2 && s.log[|s.log| - 1] == Exchange(Last(s), None, None)
    requires Asks(host, Last(s), call) && called.log == Called(s.log, Some(call))
             && called.state == host.handle(s.state, call).0
    ensures Spoken(host, state, called) && s.state == HandledAll(host, state, CallsOf(called.log[..|s.log| - 1]))
  {
    var front := s.log[..|s.log| - 1];
    Prefix(front, called.log[|front|]);
    assert CallsOf(front) + [] == CallsOf(front);
    assert (CallsOf(front) + [call])[..|CallsOf(front)|] == CallsOf(front);
    assert called.log[..|front|] == front;
    assert SpokenAt(host, state, s.log, |front|);
    forall i: nat | i < |called.log| ensures SpokenAt(host, state, called.log, i) {
      if i < |front| {
        SpokenPrefix(host, state, front, s.log, i);
        SpokenPrefix(host, state, front, called.log, i);
      }
    }
  }

  lemma {:induction false} RespondGrows<J(!new), H>(host: Host<J, H>, s: Session<J, H>)
    requires |s.log| > 2
    ensures |Respond(host, s).at.log| == |s.log| && Respond(host, s).at.log[..2] == s.log[..2]
  {}

  lemma {:induction false} RequestFollows<J(!new), H(!new)>(host: Host<J, H>, state: H, s: Session<J, H>, left: nat)
    requires Waiting(host, state, s, left) && left > 0
    ensures var turn := Request(host, s);
            && Follows(host, state, turn)
            && (turn.Go? ==> Waiting(host, state, turn.at, left - 1))
  {
    ReceiveEnds(host, s);
    NoRequestEnds(host, state, s);
    if Receive(host, s).Ok? && Receive(host, s).value.Some? {
      var next := Receive(host, s).value.value;
      SpokenReceive(host, state, s, next, Last(next));
      RequestIsRespond(host, s);
      RespondGrows(host, next);
      if Interpret(host, Last(next).kind, Last(next).payload).1.Ok? {
        CallFollows(host, state, next);
      } else {
        DeclineFollows(host, state, next);
      }
      assert next.log[..2][0] == s.log[0] && next.log[..2][1] == s.log[1];
      assert Respond(host, next).at.log[..2][0] == s.log[0] && Respond(host, next).at.log[..2][1] == s.log[1];
    }
  }

  /** What holds before each turn, with so many left, gives what holds at the end. */
  lemma {:induction false} TurnsEnd<J, H>(turn: Session<J, H> -> Turn<J, H>, waiting: (Session<J, H>, nat) -> bool,
      ended: (Session<J, H>, Result<(), IpcError>) -> bool, s: Session<J, H>, left: nat)
    requires waiting(s, left)
    requires forall t {:trigger waiting(t, 0)} | waiting(t, 0) :: ended(t, Err(ConnectionLimit))
    requires forall t, n: nat {:trigger waiting(t, n)} | waiting(t, n) && n > 0 ::
               if turn(t).Stop? then ended(turn(t).at, turn(t).outcome) else waiting(turn(t).at, n - 1)
    ensures ended(Requests(turn, s, left).at, Requests(turn, s, left).outcome)
    decreases left
  {
    if left > 0 && turn(s).Go? {
      TurnsEnd(turn, waiting, ended, turn(s).at, left - 1);
    }
  }

  lemma {:induction false} RequestsFollow<J(!new), H(!new)>(host: Host<J, H>, turn: Session<J, H> -> Turn<J, H>,
      state: H,
      s: Session<J, H>)
    requires Answers(turn, host) && Waiting(host, state, s, host.config.maximumRequests)
    ensures Follows(host, state, Requests(turn, s, host.config.maximumRequests))
  {
    var waiting := (t: Session<J, H>, n: nat) => Waiting(host, state, t, n);
    var ended := (t: Session<J, H>, o: Result<(), IpcError>) => Spoken(host, state, t) && Ended(host, state, t, o);
    forall t, n: nat | waiting(t, n) && n > 0
      ensures if turn(t).Stop? then ended(turn(t).at, turn(t).outcome) else waiting(turn(t).at, n - 1)
    {
      RequestFollows(host, state, t, n);
      assert turn(t) == Request(host, t);
    }
    TurnsEnd(turn, waiting, ended, s, host.config.maximumRequests);
  }

  // The connection

  lemma {:induction false} ServeFollows<J(!new), H(!new)>(host: Host<J, H>, link: Link, state: H)
    requires ValidConfig(host.config, host.secret)
    ensures Follows(host, state, Serve(host, link, state))
  {
    var start: Session<J, H> := Session(link, {}, state, []);
    GreetingFollows(host, state, start);
    var greeting := Challenge(host, start);
    if greeting.Go? {
      var nonce :| Challenges(host, greeting.at.log[0].request, nonce);
      ChallengeExactly(host, greeting.at.log[0].request, nonce);
      ProofFollows(host, state, greeting.at);
      var proof := Prove(host, greeting.at, nonce);
      if proof.Go? {
        RequestsFollow(host, Answering(host), state, proof.at);
      }
    }
  }

  lemma {:induction false} ServeAdmits<J(!new), H(!new)>(host: Host<J, H>, link: Link, state: H)
    ensures Admitted(host, Serve(host, link, state).at)
  {
    ServeKeeps(host, link, state);
    var s := Serve(host, link, state).at;
    forall i | 0 <= i < |s.log| ensures Sound(host, s.log[i].request) {
      SoundExactly(host, s.log[i].request);
    }
  }

  /** Limits the server starts with. */
  predicate Configured<J(!new), H>(host: Host<J, H>) {
    && 256 <= host.config.maximumFrameBytes <= 1_048_576 && 1 <= host.config.maximumRequests <= 10_000
    && 1 <= host.config.ioTimeoutNanos <= 60_000_000_000 && 32 <= |host.secret| <= 1_024
  }

  /**
   Whatever the peer sends, the conversation is as described: sound requests with ids of their own, of which the first
   is a challenge, answered with the server's code, the second a proof of the secret, and each other one called for
   what it asks and told what came of it. And it ends for its reason.
   */
  lemma {:induction false} ConnectionExactly<J(!new), H(!new)>(host: Host<J, H>, link: Link, state: H)
    ensures var turn := Serve(host, link, state);
            && Admitted(host, turn.at)
            && if Configured(host) then
                 Spoken(host, state, turn.at) && Ended(host, state, turn.at, turn.outcome)
               else turn.outcome == Err(InvalidConfiguration) && turn.at == Session(link, {}, state, [])
  {
    ServeAdmits(host, link, state);
    if ValidConfig(host.config, host.secret) {
      ServeFollows(host, link, state);
    }
  }

  lemma {:induction false} QuietLog<J>(log: Log<J>)
    requires forall i | 0 <= i < |log| :: log[i].call.None?
    ensures CallsOf(log) == []
  {
    if log != [] {
      QuietLog(log[..|log| - 1]);
    }
  }

  /** A call is made only for a peer that has proved the secret: its second request carries the code made with it. */
  lemma {:induction false} CallsNeedSecret<J(!new), H(!new)>(host: Host<J, H>, link: Link, state: H)
    requires ValidConfig(host.config, host.secret) && CallsOf(Serve(host, link, state).at.log) != []
    ensures var log := Serve(host, link, state).at.log;
            |log| > 2 && Proven(host, log[0].request, log[1].request)
  {
    ConnectionExactly(host, link, state);
    ProvenBeforeRequests(host, state, Serve(host, link, state).at);
  }

  lemma {:induction false} ProvenBeforeRequests<J(!new), H(!new)>(host: Host<J, H>, state: H, s: Session<J, H>)
    requires Spoken(host, state, s)
    ensures |s.log| > 2 ==> Proven(host, s.log[0].request, s.log[1].request)
    ensures |s.log| <= 2 ==> CallsOf(s.log) == []
  {
    if |s.log| > 2 {
      assert SpokenAt(host, state, s.log, 2);
    } else {
      forall i: nat | i < |s.log| ensures s.log[i].call.None? {
        assert SpokenAt(host, state, s.log, i);
      }
      QuietLog(s.log);
    }
  }

  lemma {:induction false} UnprovenEnds<J(!new), H(!new)>(host: Host<J, H>, state: H, s: Session<J, H>,
      outcome: Result<(), IpcError>)
    requires Spoken(host, state, s) && Ended(host, state, s, outcome)
    requires |s.log| >= 2 && !Proven(host, s.log[0].request, s.log[1].request)
    ensures |s.log| == 2 && CallsOf(s.log) == [] && s.state == state
    ensures outcome ==
            (if s.log[1].request.kind == Text(Ascii("handshake.proof"))
                && host.payloads.proof(s.log[1].request.payload).None?
             then Err(InvalidFrame) else Err(AuthenticationFailed))
  {
    ProvenBeforeRequests(host, state, s);
    assert SpokenAt(host, state, s.log, 1);
  }

  /** A second request without such a proof ends the connection, with nothing called and nothing changed. */
  lemma {:induction false} WrongProofRefused<J(!new), H(!new)>(host: Host<J, H>, link: Link, state: H)
    requires ValidConfig(host.config, host.secret)
    requires var log := Serve(host, link, state).at.log;
             |log| >= 2 && !Proven(host, log[0].request, log[1].request)
    ensures var turn := Serve(host, link, state);
            && |turn.at.log| == 2 && CallsOf(turn.at.log) == [] && turn.at.state == state
            && turn.outcome ==
               (if turn.at.log[1].request.kind == Text(Ascii("handshake.proof"))
                   && host.payloads.proof(turn.at.log[1].request.payload).None?
                then Err(InvalidFrame) else Err(AuthenticationFailed))
  {
    ConnectionExactly(host, link, state);
    var turn := Serve(host, link, state);
    UnprovenEnds(host, state, turn.at, turn.outcome);
  }
}

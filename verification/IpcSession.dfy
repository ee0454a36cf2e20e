/**
 One authenticated connection to the Companion: a handshake, and then requests answered in order.
 The handler is a parameter, as a function from its state and a call to its next state and an answer.
 */
module IpcSession {
  import opened Common
  import opened Frames
  import opened RuntimeHandler

  const IPC_PROTOCOL_VERSION := 1
  const NONCE_BYTES := 32
  const NONCE_ENCODED_BYTES := 43

  datatype Envelope<J> = Envelope(protocolVersion: nat, requestId: Text, kind: Text, payload: J)

  datatype ProofPayload = ProofPayload(clientNonce: Text, mac: Text, serverNonce: Text)

  datatype Body<J> = Hello(mac: Text, serverNonce: Text) | Welcome | Value(value: J) | Failure(code: HandlerError)

  datatype Response<J> = Response(requestId: Text, kind: Text, ok: bool, body: Body<J>)

  datatype Role = Client | Server

  /** Typed readings of JSON payloads; unknown fields make a reading fail. */
  datatype Payloads<!J> = Payloads(
    isObject: J -> bool,
    challenge: J -> Option<(Text, nat)>,
    proof: J -> Option<ProofPayload>,
    empty: J -> bool,
    checkpoint: J -> Option<Reason>,
    start: J -> Option<(Text, Text)>,
    stop: J -> Option<Text>)

  datatype Config = Config(ioTimeoutNanos: nat, maximumFrameBytes: nat, maximumRequests: nat)

  predicate ValidConfig(config: Config, secret: seq<byte>) {
    && 256 <= config.maximumFrameBytes <= MAXIMUM_FRAME_BYTES
    && 0 < config.maximumRequests <= 10_000
    && 0 < config.ioTimeoutNanos <= 60_000_000_000
    && 32 <= |secret| <= 1024
  }

  datatype Host<!J(!new), !H> = Host(
    config: Config,
    secret: seq<byte>,
    serverNonce: Text,
    format: Format<Envelope<J>>,
    render: Response<J> -> Option<seq<byte>>,
    payloads: Payloads<J>,
    mac: (seq<byte>, Role, Text, Text) -> Text,
    decode64: Text -> Option<seq<byte>>,
    handle: (H, Call) -> (H, Result<J, HandlerError>))

  // Validation

  predicate HexByte(b: byte) {
    48 <= b < 58 || 97 <= b < 103 || 65 <= b < 71
  }

  predicate ValidUuidV4(value: Text) {
    var bytes := value.bytes;
    && |bytes| == 36
    && (forall i | i in {8, 13, 18, 23} :: bytes[i] == 45)
    && bytes[14] == 52 && bytes[19] in {56, 57, 97, 98}
    && forall i | 0 <= i < 36 :: i in {8, 13, 18, 23} || HexByte(bytes[i])
  }

  predicate Lowercase(b: byte) {
    97 <= b < 123
  }

  predicate ValidRequestKind(value: Text) {
    && 0 < |value.bytes| <= 100 && Lowercase(value.bytes[0])
    && forall b | b in value.bytes :: Lowercase(b) || 48 <= b < 58 || b in {95, 46, 45}
  }

  predicate Alphanumeric(b: byte) {
    48 <= b < 58 || 65 <= b < 91 || 97 <= b < 123
  }

  predicate ValidIdentifier(value: Text) {
    && 0 < |value.bytes| <= 200
    && forall i | 0 <= i < |value.bytes| ::
       Alphanumeric(value.bytes[i]) || (i > 0 && value.bytes[i] in {46, 95, 58, 45})
  }

  /** No control character, in UTF-8. */
  predicate ValidLabel(value: Text) {
    && 0 < |value.bytes| <= 200
    && (forall b | b in value.bytes :: b >= 32 && b != 127)
    && forall i | 0 <= i < |value.bytes| - 1 :: !(value.bytes[i] == 0xC2 && 0x80 <= value.bytes[i + 1] < 0xA0)
  }

  predicate ValidNonce<J(!new), H>(host: Host<J, H>, value: Text) {
    && |value.bytes| == NONCE_ENCODED_BYTES
    && var decoded := host.decode64(value); decoded.Some? && |decoded.value| == NONCE_BYTES
  }

  predicate MacEqual<J(!new), H>(host: Host<J, H>, actual: Text, expected: Text) {
    host.decode64(actual).Some? && host.decode64(actual) == host.decode64(expected)
  }

  predicate ValidEnvelope<J(!new), H>(host: Host<J, H>, request: Envelope<J>) {
    && request.protocolVersion == IPC_PROTOCOL_VERSION
    && ValidUuidV4(request.requestId) && ValidRequestKind(request.kind) && host.payloads.isObject(request.payload)
  }

  /** A challenge this server answers. */
  predicate GoodChallenge<J(!new), H>(host: Host<J, H>, request: Envelope<J>) {
    && request.kind == Text(Ascii("handshake.challenge"))
    && var challenge := host.payloads.challenge(request.payload);
       challenge.Some? && challenge.value.1 == IPC_PROTOCOL_VERSION && ValidNonce(host, challenge.value.0)
  }

  /** A proof that its sender knows the secret, bound to both nonces of this connection. */
  predicate GoodProof<J(!new), H>(host: Host<J, H>, clientNonce: Text, request: Envelope<J>) {
    && request.kind == Text(Ascii("handshake.proof"))
    && var proof := host.payloads.proof(request.payload);
       && proof.Some? && ValidNonce(host, proof.value.clientNonce) && ValidNonce(host, proof.value.serverNonce)
       && proof.value.clientNonce == clientNonce && proof.value.serverNonce == host.serverNonce
       && MacEqual(host, proof.value.mac, host.mac(host.secret, Client, clientNonce, host.serverNonce))
  }

  // A session

  datatype Exchange<J> = Exchange(request: Envelope<J>, call: Option<Call>, reply: Option<Response<J>>)

  datatype Link = Link(unread: seq<byte>, end: StreamEnd, written: seq<byte>, takes: nat)

  datatype Session<J, H> = Session(link: Link, seen: set<Text>, state: H, log: seq<Exchange<J>>)

  datatype Turn<J, H> = Go(at: Session<J, H>) | Stop(at: Session<J, H>, outcome: Result<(), IpcError>)

  /** Reads one envelope; `None` is the clean end. A valid one with a new id is logged. */
  function Receive<J(!new), H>(host: Host<J, H>, s: Session<J, H>): Result<Option<Session<J, H>>, IpcError> {
    match ReadOne(host.format, host.config.maximumFrameBytes, s.link.unread, s.link.end)
    case Err(e) => Err(e)
    case Ok(None) => Ok(None)
    case Ok(Some((request, rest))) =>
      if !ValidEnvelope(host, request) || request.requestId in s.seen then Err(InvalidFrame)
      else Ok(Some(Session(s.link.(unread := rest), s.seen + {request.requestId}, s.state,
        s.log + [Exchange(request, None, None)])))
  }

  function Last<J, H>(s: Session<J, H>): Envelope<J>
    requires s.log != []
  {
    s.log[|s.log| - 1].request
  }

  function Answered<J>(log: seq<Exchange<J>>, response: Response<J>): seq<Exchange<J>>
    requires log != []
  {
    log[..|log| - 1] + [log[|log| - 1].(reply := Some(response))]
  }

  function Called<J>(log: seq<Exchange<J>>, call: Option<Call>): seq<Exchange<J>>
    requires log != []
  {
    log[..|log| - 1] + [log[|log| - 1].(call := call)]
  }

  /** What a response is on the wire, if it can be written at all. */
  function Rendered<J(!new), H>(host: Host<J, H>, response: Response<J>): Result<seq<byte>, IpcError> {
    match host.render(response)
    case None => Err(InvalidFrame)
    case Some(payload) =>
      if payload == [] || |payload| > host.config.maximumFrameBytes || |payload| > U32_MAX then Err(FrameTooLarge)
        else Ok(payload)
  }

  function Send<J(!new), H>(host: Host<J, H>, s: Session<J, H>, response: Response<J>): (turn: Turn<J, H>)
    requires s.log != []
    ensures turn.Go? ==> turn.at.log == Answered(s.log, response)
  {
    match Rendered(host, response)
    case Err(e) => Stop(s, Err(e))
    case Ok(payload) =>
      if s.link.takes == 0 then Stop(s, Err(Io))
      else Go(s.(link := s.link.(written := s.link.written + Framed(payload), takes := s.link.takes - 1), log :=
        Answered(s.log, response)))
  }

  function Challenge<J(!new), H>(host: Host<J, H>, s: Session<J, H>): (turn: Turn<J, H>)
    ensures turn.Go? ==> |turn.at.log| == |s.log| + 1
  {
    match Receive(host, s)
    case Err(e) => Stop(s, Err(e))
    case Ok(None) => Stop(s, Err(InvalidFrame))
    case Ok(Some(next)) =>
      var request := Last(next);
      if request.kind != Text(Ascii("handshake.challenge")) then Stop(next, Err(AuthenticationFailed)) else
      match host.payloads.challenge(request.payload)
      case None => Stop(next, Err(InvalidFrame))
      case Some((nonce, version)) =>
        if version != IPC_PROTOCOL_VERSION || !ValidNonce(host, nonce) then Stop(next, Err(AuthenticationFailed))
        else Send(host, next, Response(request.requestId, Text(Ascii("handshake.response")), true,
                                       Hello(host.mac(host.secret, Server, nonce, host.serverNonce), host.serverNonce)))
  }

  function Prove<J(!new), H>(host: Host<J, H>, s: Session<J, H>, clientNonce: Text): Turn<J, H> {
    match Receive(host, s)
    case Err(e) => Stop(s, Err(e))
    case Ok(None) => Stop(s, Err(InvalidFrame))
    case Ok(Some(next)) =>
      var request := Last(next);
      if request.kind != Text(Ascii("handshake.proof")) then Stop(next, Err(AuthenticationFailed))
      else if host.payloads.proof(request.payload).None? then Stop(next, Err(InvalidFrame))
      else if !GoodProof(host, clientNonce, request) then Stop(next, Err(AuthenticationFailed))
      else Send(host, next, Response(request.requestId, Text(Ascii("handshake.ack")), true, Welcome))
  }

  /** The call a request asks for, when its payload is as it should be, and the kind of its response. */
  function Interpret<J(!new), H>(host: Host<J, H>, kind: Text, payload: J): (Text, Result<Call, HandlerError>) {
    if kind == Text(Ascii("status.get")) then
      (Text(Ascii("status.result")), if host.payloads.empty(payload) then Ok(GetStatus) else Err(InvalidState))
    else if kind == Text(Ascii("checkpoint.create")) then
      (Text(Ascii("checkpoint.result")),
       match host.payloads.checkpoint(payload) case None => Err(InvalidState) case Some(reason) =>
           Ok(CreateCheckpoint(reason)))
    else if kind == Text(Ascii("observation.start")) then
      (Text(Ascii("observation.result")),
       match host.payloads.start(payload)
       case None => Err(InvalidState)
       case Some((project, surface)) => if ValidIdentifier(project) && ValidLabel(surface) then
           Ok(StartObservation(project, surface)) else Err(InvalidState))
    else if kind == Text(Ascii("observation.stop")) then
      (Text(Ascii("observation.result")),
       match host.payloads.stop(payload)
       case None => Err(InvalidState)
       case Some(session) => if ValidIdentifier(session) then Ok(StopObservation(session)) else Err(InvalidState))
    else (Text(Ascii("request.error")), Err(Forbidden))
  }

  function ResponseTo<J(!new), H>(host: Host<J, H>, id: Text, kind: Text,
      result: Result<J, HandlerError>): Response<J> {
    match result
    case Ok(value) => if host.payloads.isObject(value) then Response(id, kind, true, Value(value))
        else Response(id, kind, false, Failure(Internal))
    case Err(code) => Response(id, kind, false, Failure(code))
  }

  /** Calls the handler, if the request can be read as a call, and answers. */
  function Respond<J(!new), H>(host: Host<J, H>, s: Session<J, H>): Turn<J, H>
    requires s.log != []
  {
    var request := Last(s);
    var (kind, asked) := Interpret(host, request.kind, request.payload);
    match asked
    case Err(code) => Send(host, s, ResponseTo(host, request.requestId, kind, Err(code)))
    case Ok(call) =>
      var (state, result) := host.handle(s.state, call);
      Send(host, s.(state := state, log := Called(s.log, Some(call))),
          ResponseTo(host, request.requestId, kind, result))
  }

  function Request<J(!new), H>(host: Host<J, H>, s: Session<J, H>): Turn<J, H> {
    match Receive(host, s)
    case Err(e) => Stop(s, Err(e))
    case Ok(None) => Stop(s, Ok(()))
    case Ok(Some(next)) => Respond(host, next)
  }

  /** What one request does to a session. */
  function Answering<J(!new), H(!new)>(host: Host<J, H>): (turn: Session<J, H> -> Turn<J, H>)
    ensures Answers(turn, host)
  {
    (s: Session<J, H>) => Request(host, s)
  }

  ghost predicate Answers<J(!new), H(!new)>(turn: Session<J, H> -> Turn<J, H>, host: Host<J, H>) {
    forall s {:trigger Request(host, s)} :: turn(s) == Request(host, s)
  }

  /** Request after request, up to the limit. */
  function Requests<J, H>(turn: Session<J, H> -> Turn<J, H>, s: Session<J, H>, left: nat): (end: Turn<J, H>)
    ensures end.Stop?
    decreases left
  {
    if left == 0 then Stop(s, Err(ConnectionLimit)) else
    match turn(s)
    case Stop(at, outcome) => Stop(at, outcome)
    case Go(at) => Requests(turn, at, left - 1)
  }

  function NonceOf<J(!new), H>(host: Host<J, H>, request: Envelope<J>): Text {
    match host.payloads.challenge(request.payload) case None => Text([]) case Some(challenge) => challenge.0
  }

  /** A whole connection. */
  function Serve<J(!new), H(!new)>(host: Host<J, H>, link: Link, state: H): (turn: Turn<J, H>)
    ensures turn.Stop?
  {
    var start := Session(link, {}, state, []);
    if !ValidConfig(host.config, host.secret) then Stop(start, Err(InvalidConfiguration)) else
    match Challenge(host, start)
    case Stop(at, outcome) => Stop(at, outcome)
    case Go(greeted) =>
      match Prove(host, greeted, NonceOf(host, Last(greeted)))
      case Stop(at, outcome) => Stop(at, outcome)
      case Go(proven) => Requests(Answering(host), proven, host.config.maximumRequests)
  }

  // The loop

  class IpcTransport {
    const incoming: Incoming
    var written: seq<byte>
    var takes: nat

    constructor (incoming: Incoming, takes: nat)
      ensures this.incoming == incoming && written == [] && this.takes == takes
    {
      this.incoming, this.written, this.takes := incoming, [], takes;
    }

    function AsLink(): Link
      reads this, incoming
    {
      Link(incoming.unread, incoming.end, written, takes)
    }

    /** Length and payload in one go; a peer that has gone takes neither. */
    method WriteFrame<J(!new), H>(host: Host<J, H>, response: Response<J>) returns (result: Result<(), IpcError>)
      modifies this
      ensures match Rendered(host, response)
              case Err(e) => result == Err(e) && AsLink() == old(AsLink())
              case Ok(payload) =>
                if old(takes) == 0 then result == Err(Io) && AsLink() == old(AsLink())
                else result == Ok(()) && AsLink() == old(AsLink()).(written := old(written) + Framed(payload), takes :=
                  old(takes) - 1)
    {
      var payload := host.render(response);
      if payload.None? {
        return Err(InvalidFrame);
      }
      if |payload.value| == 0 || |payload.value| > host.config.maximumFrameBytes || |payload.value| > U32_MAX {
        return Err(FrameTooLarge);
      }
      if takes == 0 {
        return Err(Io);
      }
      Regroup(written, BigEndian(|payload.value|, 4), payload.value);
      written := written + BigEndian(|payload.value|, 4);
      written := written + payload.value;
      takes := takes - 1;
      result := Ok(());
    }
  }

  /** The server's variables. The log is for the proof only. */
  class Connection<!J(!new), !H(!new)> {
    const host: Host<J, H>
    const transport: IpcTransport
    var requestIds: set<Text>
    var state: H
    ghost var log: seq<Exchange<J>>

    constructor (host: Host<J, H>, transport: IpcTransport, state: H)
      ensures this.host == host && this.transport == transport && requestIds == {} && this.state == state && log == []
    {
      this.host, this.transport, this.requestIds, this.state, this.log := host, transport, {}, state, [];
    }

    ghost function AsSession(): Session<J, H>
      reads this, transport, transport.incoming
    {
      Session(transport.AsLink(), requestIds, state, log)
    }

    method ReceiveRequest() returns (result: Result<Option<Envelope<J>>, IpcError>)
      modifies this`requestIds, this`log, transport.incoming
      ensures transport.AsLink().(unread := []) == old(transport.AsLink()).(unread := []) && state == old(state)
      ensures match Receive(host, old(AsSession()))
              case Err(e) => result == Err(e) && log == old(log) && requestIds == old(requestIds)
              case Ok(None) => result == Ok(None) && log == old(log) && requestIds == old(requestIds)
              case Ok(Some(next)) => result == Ok(Some(Last(next))) && AsSession() == next
    {
      var read := transport.incoming.ReadFrame(host.format, host.config.maximumFrameBytes);
      if read.Err? {
        return Err(read.error);
      }
      if read.value.None? {
        return Ok(None);
      }
      var request := read.value.value;
      if !ValidEnvelope(host, request) || request.requestId in requestIds {
        return Err(InvalidFrame);
      }
      requestIds := requestIds + {request.requestId};
      log := log + [Exchange(request, None, None)];
      result := Ok(Some(request));
    }

    method SendResponse(response: Response<J>) returns (result: Result<(), IpcError>)
      requires log != []
      modifies this`log, transport
      ensures match Send(host, old(AsSession()), response)
              case Go(at) => result == Ok(()) && AsSession() == at
              case Stop(at, outcome) => result == outcome && AsSession() == at && outcome.Err?
    {
      result := transport.WriteFrame(host, response);
      if result.Ok? {
        log := Answered(log, response);
      }
    }

    /** How the object and its answer relate to a turn; what is left unread after an error does not matter. */
    ghost predicate Follows(turn: Turn<J, H>, result: Result<(), IpcError>)
      reads this, transport, transport.incoming
    {
      match turn
      case Go(at) => result == Ok(()) && AsSession() == at
      case Stop(at, outcome) => result == outcome && Forget(AsSession()) == Forget(at)
    }

    method AnswerChallenge() returns (result: Result<Text, IpcError>)
      modifies this`requestIds, this`log, transport, transport.incoming
      ensures state == old(state)
      ensures var turn := Challenge(host, old(AsSession()));
              && (result.Ok? ==> turn.Go? && log != [] && result.value == NonceOf(host, Last(AsSession())))
              && Follows(turn, if result.Ok? then Ok(()) else Err(result.error))
    {
      var received := ReceiveRequest();
      if received.Err? {
        return Err(received.error);
      }
      if received.value.None? {
        return Err(InvalidFrame);
      }
      var request := received.value.value;
      if request.kind != Text(Ascii("handshake.challenge")) {
        return Err(AuthenticationFailed);
      }
      var challenge := host.payloads.challenge(request.payload);
      if challenge.None? {
        return Err(InvalidFrame);
      }
      var (nonce, version) := challenge.value;
      if version != IPC_PROTOCOL_VERSION || !ValidNonce(host, nonce) {
        return Err(AuthenticationFailed);
      }
      var sent := SendResponse(Response(request.requestId, Text(Ascii("handshake.response")), true,
                                        Hello(host.mac(host.secret, Server, nonce, host.serverNonce),
                                            host.serverNonce)));
      if sent.Err? {
        return Err(sent.error);
      }
      result := Ok(nonce);
    }

    method CheckProof(clientNonce: Text) returns (result: Result<(), IpcError>)
      modifies this`requestIds, this`log, transport, transport.incoming
      ensures state == old(state)
      ensures Follows(Prove(host, old(AsSession()), clientNonce), result)
      ensures Prove(host, old(AsSession()), clientNonce).Go? <==> result.Ok?
    {
      var received := ReceiveRequest();
      if received.Err? {
        return Err(received.error);
      }
      if received.value.None? {
        return Err(InvalidFrame);
      }
      var request := received.value.value;
      if request.kind != Text(Ascii("handshake.proof")) {
        return Err(AuthenticationFailed);
      }
      if host.payloads.proof(request.payload).None? {
        return Err(InvalidFrame);
      }
      if !GoodProof(host, clientNonce, request) {
        return Err(AuthenticationFailed);
      }
      result := SendResponse(Response(request.requestId, Text(Ascii("handshake.ack")), true, Welcome));
    }

    /** One turn of the request loop; false when the peer has closed the connection. */
    method AnswerRequest() returns (result: Result<bool, IpcError>)
      modifies this`requestIds, this`log, this`state, transport, transport.incoming
      ensures var turn := Request(host, old(AsSession()));
              && (result == Ok(true) <==> turn.Go?)
              && Follows(turn, if result.Ok? then Ok(()) else Err(result.error))
    {
      var received := ReceiveRequest();
      if received.Err? {
        return Err(received.error);
      }
      if received.value.None? {
        return Ok(false);
      }
      var request := received.value.value;
      var (kind, asked) := Interpret(host, request.kind, request.payload);
      var answer: Result<J, HandlerError>;
      if asked.Err? {
        answer := Err(asked.error);
      } else {
        var (next, handled) := host.handle(state, asked.value);
        state := next;
        answer := handled;
        log := Called(log, Some(asked.value));
      }
      var sent := SendResponse(ResponseTo(host, request.requestId, kind, answer));
      if sent.Err? {
        return Err(sent.error);
      }
      result := Ok(true);
    }

    method TakeTurn(ghost turn: Session<J, H> -> Turn<J, H>) returns (result: Result<bool, IpcError>)
      requires Answers(turn, host)
      modifies this`requestIds, this`log, this`state, transport, transport.incoming
      ensures var taken := turn(old(AsSession()));
              && (result == Ok(true) <==> taken.Go?)
              && Follows(taken, if result.Ok? then Ok(()) else Err(result.error))
    {
      assert turn(AsSession()) == Request(host, AsSession());
      result := AnswerRequest();
    }

    method AnswerRequests(ghost turn: Session<J, H> -> Turn<J, H>) returns (outcome: Result<(), IpcError>)
      requires Answers(turn, host)
      modifies this`requestIds, this`log, this`state, transport, transport.incoming
      ensures Follows(Requests(turn, old(AsSession()), host.config.maximumRequests), outcome)
    {
      ghost var end := Requests(turn, AsSession(), host.config.maximumRequests);
      for i := 0 to host.config.maximumRequests
        invariant Requests(turn, AsSession(), host.config.maximumRequests - i) == end
      {
        var answered := TakeTurn(turn);
        if answered.Err? {
          return Err(answered.error);
        }
        if !answered.value {
          return Ok(());
        }
      }
      outcome := Err(ConnectionLimit);
    }

    /** Serves the whole connection. */
    method ServeConnection() returns (outcome: Result<(), IpcError>)
      requires requestIds == {} && log == []
      modifies this`requestIds, this`log, this`state, transport, transport.incoming
      ensures Follows(Serve(host, old(transport.AsLink()), old(state)), outcome)
    {
      if !ValidConfig(host.config, host.secret) {
        return Err(InvalidConfiguration);
      }
      var nonce := AnswerChallenge();
      if nonce.Err? {
        return Err(nonce.error);
      }
      var proof := CheckProof(nonce.value);
      if proof.Err? {
        return Err(proof.error);
      }
      outcome := AnswerRequests(Answering(host));
    }
  }

  /** A session up to what is left unread. */
  function Forget<J, H>(s: Session<J, H>): Session<J, H> {
    s.(link := s.link.(unread := []))
  }
}

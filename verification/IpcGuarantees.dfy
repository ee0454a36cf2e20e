/**
 What every connection keeps, whatever its peer sends: calls only after an accepted proof, no request id twice, replies
 in the order of the requests, and a handler state made by those calls alone, which for the Companion's handler is a
 run of its process.
 */
module IpcGuarantees {
  import opened Common
  import opened Frames
  import opened RuntimeHandler
  import opened IpcSession

  type Log<J> = seq<Exchange<J>>

  // What is kept

  ghost predicate DistinctIds<J>(log: Log<J>) {
    forall i, j | 0 <= i < j < |log| :: log[i].request.requestId != log[j].request.requestId
  }

  ghost predicate SeenIds<J>(seen: set<Text>, log: Log<J>) {
    forall id :: id in seen <==> exists i :: 0 <= i < |log| && log[i].request.requestId == id
  }

  /** Only the last request can be without a reply, and each reply is to its own request. */
  ghost predicate InOrder<J(!new), H>(host: Host<J, H>, log: Log<J>) {
    && (forall i | 0 <= i < |log| - 1 :: log[i].reply.Some?)
    && forall i | 0 <= i < |log| && log[i].reply.Some? ::
         log[i].reply.value.requestId == log[i].request.requestId && Rendered(host, log[i].reply.value).Ok?
  }

  /** The first two exchanges are an accepted challenge and an accepted proof, both acknowledged. */
  ghost predicate Authenticated<J(!new), H>(host: Host<J, H>, log: Log<J>) {
    && |log| >= 2 && GoodChallenge(host, log[0].request) && log[0].reply.Some?
    && GoodProof(host, NonceOf(host, log[0].request), log[1].request) && log[1].reply.Some?
  }

  function AskedBy<J(!new), H>(host: Host<J, H>, request: Envelope<J>): Option<Call> {
    match Interpret(host, request.kind, request.payload).1
    case Ok(call) => Some(call)
    case Err(_) => None
  }

  /** Handshake requests call nothing; a later request calls what it asks for, and nothing before the proof. */
  ghost predicate Guarded<J(!new), H>(host: Host<J, H>, log: Log<J>) {
    && (|log| > 2 ==> Authenticated(host, log))
    && forall i | 0 <= i < |log| ::
         && ValidEnvelope(host, log[i].request)
         && (log[i].call.Some? ==> i >= 2 && log[i].call == AskedBy(host, log[i].request))
         && (log[i].reply.Some? && i >= 2 ==> log[i].call == AskedBy(host, log[i].request))
  }

  function CallsOf<J>(log: Log<J>): seq<Call> {
    if log == [] then [] else
    CallsOf(log[..|log| - 1]) + (if log[|log| - 1].call.Some? then [log[|log| - 1].call.value] else [])
  }

  function RequestsOf<J>(log: Log<J>): seq<Envelope<J>> {
    seq(|log|, i requires 0 <= i < |log| => log[i].request)
  }

  function RepliesOf<J>(log: Log<J>): seq<Response<J>> {
    if log == [] then [] else
    RepliesOf(log[..|log| - 1]) + (if log[|log| - 1].reply.Some? then [log[|log| - 1].reply.value] else [])
  }

  /** The handler's state after some calls. */
  function HandledAll<J(!new), H>(host: Host<J, H>, state: H, calls: seq<Call>): H {
    if calls == [] then state else host.handle(HandledAll(host, state, calls[..|calls| - 1]), calls[|calls| - 1]).0
  }

  function PayloadOf<J(!new), H>(host: Host<J, H>, response: Response<J>): seq<byte> {
    match Rendered(host, response) case Ok(payload) => payload case Err(_) => []
  }

  function PayloadsOf<J(!new), H>(host: Host<J, H>, replies: seq<Response<J>>): seq<seq<byte>> {
    seq(|replies|, i requires 0 <= i < |replies| => PayloadOf(host, replies[i]))
  }

  ghost predicate Shape<J(!new), H>(host: Host<J, H>, seen: set<Text>, log: Log<J>) {
    DistinctIds(log) && SeenIds(seen, log) && InOrder(host, log) && Guarded(host, log)
  }

  /** What was written are the replies, what was read are the requests, and the state is that of the calls. */
  ghost predicate Accounts<J(!new), H>(host: Host<J, H>, link: Link, state: H, s: Session<J, H>) {
    && s.state == HandledAll(host, state, CallsOf(s.log))
    && s.link.written == link.written + FramedAll(PayloadsOf(host, RepliesOf(s.log)))
    && s.link.end == link.end
    && ReadAll(host.format, host.config.maximumFrameBytes, link.unread, link.end).0
       == RequestsOf(s.log) + ReadAll(host.format, host.config.maximumFrameBytes, s.link.unread, link.end).0
  }

  ghost predicate AllAnswered<J>(log: Log<J>) {
    log != [] ==> log[|log| - 1].reply.Some?
  }

  // One operation at a time

  lemma {:induction false} Prefix<J>(log: Log<J>, last: Exchange<J>)
    ensures (log + [last])[..|log|] == log
  {}

  lemma {:induction false} IdsReceive<J>(seen: set<Text>, log: Log<J>, request: Envelope<J>)
    requires DistinctIds(log) && SeenIds(seen, log) && request.requestId !in seen
    ensures DistinctIds(log + [Exchange(request, None, None)])
    ensures SeenIds(seen + {request.requestId}, log + [Exchange(request, None, None)])
  {
    var more := log + [Exchange(request, None, None)];
    assert more[|log|].request == request && forall i | 0 <= i < |log| :: more[i] == log[i];
  }

  lemma {:induction false} GuardedReceive<J(!new), H>(host: Host<J, H>, log: Log<J>, request: Envelope<J>)
    requires Guarded(host, log) && ValidEnvelope(host, request) && (|log| == 2 ==> Authenticated(host, log))
    ensures Guarded(host, log + [Exchange(request, None, None)])
  {
    var more := log + [Exchange(request, None, None)];
    assert more[|log|].request == request && forall i | 0 <= i < |log| :: more[i] == log[i];
  }

  lemma {:induction false} ShapeReceive<J(!new), H>(host: Host<J, H>, seen: set<Text>, log: Log<J>,
      request: Envelope<J>)
    requires Shape(host, seen, log) && AllAnswered(log) && ValidEnvelope(host, request) && request.requestId !in seen
    requires |log| == 2 ==> Authenticated(host, log)
    ensures Shape(host, seen + {request.requestId}, log + [Exchange(request, None, None)])
  {
    IdsReceive(seen, log, request);
    GuardedReceive(host, log, request);
  }

  /** A log with the same requests, one after the other. */
  ghost predicate SameRequests<J>(log: Log<J>, later: Log<J>) {
    |log| == |later| && forall i | 0 <= i < |log| :: later[i].request == log[i].request
  }

  lemma {:induction false} IdsStay<J>(seen: set<Text>, log: Log<J>, later: Log<J>)
    requires DistinctIds(log) && SeenIds(seen, log) && SameRequests(log, later)
    ensures DistinctIds(later) && SeenIds(seen, later)
  {
    forall id ensures id in seen <==> exists i :: 0 <= i < |later| && later[i].request.requestId == id {
      if id in seen {
        var i :| 0 <= i < |log| && log[i].request.requestId == id;
        assert later[i].request.requestId == id;
      }
    }
  }

  lemma {:induction false} GuardedAnswer<J(!new), H>(host: Host<J, H>, log: Log<J>, response: Response<J>)
    requires log != [] && Guarded(host, log)
    requires |log| > 2 ==> log[|log| - 1].call == AskedBy(host, log[|log| - 1].request)
    ensures Guarded(host, Answered(log, response))
  {
    var next := Answered(log, response);
    assert forall i | 0 <= i < |log| :: next[i].request == log[i].request && next[i].call == log[i].call;
    assert forall i | 0 <= i < |log| - 1 :: next[i] == log[i];
  }

  lemma {:induction false} ShapeAnswer<J(!new), H>(host: Host<J, H>, seen: set<Text>, log: Log<J>,
      response: Response<J>)
    requires log != [] && Shape(host, seen, log) && Rendered(host, response).Ok?
    requires response.requestId == log[|log| - 1].request.requestId
    requires |log| > 2 ==> log[|log| - 1].call == AskedBy(host, log[|log| - 1].request)
    ensures Shape(host, seen, Answered(log, response)) && AllAnswered(Answered(log, response))
  {
    GuardedAnswer(host, log, response);
    IdsStay(seen, log, Answered(log, response));
  }

  lemma {:induction false} ShapeCall<J(!new), H>(host: Host<J, H>, seen: set<Text>, log: Log<J>)
    requires |log| > 2 && Shape(host, seen, log) && log[|log| - 1].reply.None?
    ensures Shape(host, seen, Called(log, AskedBy(host, log[|log| - 1].request)))
  {
    var next := Called(log, AskedBy(host, log[|log| - 1].request));
    assert forall i | 0 <= i < |log| :: next[i].request == log[i].request && next[i].reply == log[i].reply;
    assert forall i | 0 <= i < |log| - 1 :: next[i] == log[i];
    IdsStay(seen, log, next);
  }

  lemma {:induction false} AccountsReceive<J(!new), H>(host: Host<J, H>, link: Link, state: H, s: Session<J, H>)
    requires Accounts(host, link, state, s)
    requires Receive(host, s).Ok? && Receive(host, s).value.Some?
    ensures Accounts(host, link, state, Receive(host, s).value.value)
  {
    var next := Receive(host, s).value.value;
    Prefix(s.log, next.log[|s.log|]);
    var rest := ReadAll(host.format, host.config.maximumFrameBytes, next.link.unread, link.end).0;
    assert RequestsOf(next.log) == RequestsOf(s.log) + [Last(next)];
    assert RepliesOf(s.log) + [] == RepliesOf(s.log) && CallsOf(s.log) + [] == CallsOf(s.log);
    Regroup(RequestsOf(s.log), [Last(next)], rest);
  }

  lemma {:induction false} FramedAllOneMore(payloads: seq<seq<byte>>, payload: seq<byte>)
    ensures FramedAll(payloads + [payload]) == FramedAll(payloads) + Framed(payload)
  {
    if payloads == [] {
      assert payloads + [payload] == [payload] && [payload][1..] == [];
    } else {
      FramedAllOneMore(payloads[1..], payload);
      assert (payloads + [payload])[1..] == payloads[1..] + [payload];
      Regroup(Framed(payloads[0]), FramedAll(payloads[1..]), Framed(payload));
    }
  }

  lemma {:induction false} AccountsSend<J(!new), H>(host: Host<J, H>, link: Link, state: H, s: Session<J, H>,
      response: Response<J>)
    requires s.log != [] && s.log[|s.log| - 1].reply.None?
    requires Accounts(host, link, state, s) && Send(host, s, response).Go?
    ensures Accounts(host, link, state, Send(host, s, response).at)
  {
    var next, front := Send(host, s, response).at, s.log[..|s.log| - 1];
    Prefix(front, next.log[|front|]);
    assert RepliesOf(front) + [] == RepliesOf(front);
    assert RequestsOf(next.log) == RequestsOf(s.log);
    var payload := PayloadOf(host, response);
    assert PayloadsOf(host, RepliesOf(front) + [response]) == PayloadsOf(host, RepliesOf(front)) + [payload];
    FramedAllOneMore(PayloadsOf(host, RepliesOf(front)), payload);
    Regroup(link.written, FramedAll(PayloadsOf(host, RepliesOf(front))), Framed(payload));
  }

  lemma {:induction false} AccountsCall<J(!new), H>(host: Host<J, H>, link: Link, state: H, s: Session<J, H>,
      call: Call)
    requires s.log != [] && s.log[|s.log| - 1].call.None?
    requires Accounts(host, link, state, s)
    ensures Accounts(host, link, state, s.(state := host.handle(s.state, call).0, log := Called(s.log, Some(call))))
  {
    var log, front := Called(s.log, Some(call)), s.log[..|s.log| - 1];
    Prefix(front, log[|front|]);
    assert CallsOf(front) + [] == CallsOf(front);
    assert (CallsOf(front) + [call])[..|CallsOf(front)|] == CallsOf(front);
    assert RequestsOf(log) == RequestsOf(s.log);
  }

  // One turn at a time

  ghost predicate Kept<J(!new), H>(host: Host<J, H>, link: Link, state: H, s: Session<J, H>) {
    Shape(host, s.seen, s.log) && Accounts(host, link, state, s)
  }

  ghost predicate TurnKept<J(!new), H>(host: Host<J, H>, link: Link, state: H, turn: Turn<J, H>) {
    Kept(host, link, state, turn.at) && (turn.Go? ==> AllAnswered(turn.at.log))
  }

  lemma {:induction false} ReceiveKeeps<J(!new), H>(host: Host<J, H>, link: Link, state: H, s: Session<J, H>)
    requires Kept(host, link, state, s) && AllAnswered(s.log) && (|s.log| == 2 ==> Authenticated(host, s.log))
    requires Receive(host, s).Ok? && Receive(host, s).value.Some?
    ensures Kept(host, link, state, Receive(host, s).value.value)
    ensures var next := Receive(host, s).value.value; next.log == s.log + [Exchange(Last(next), None, None)]
  {
    AccountsReceive(host, link, state, s);
    ShapeReceive(host, s.seen, s.log, Last(Receive(host, s).value.value));
  }

  lemma {:induction false} SendKeeps<J(!new), H>(host: Host<J, H>, link: Link, state: H, s: Session<J, H>,
      response: Response<J>)
    requires s.log != [] && s.log[|s.log| - 1].reply.None? && Kept(host, link, state, s)
    requires response.requestId == Last(s).requestId
    requires |s.log| > 2 ==> s.log[|s.log| - 1].call == AskedBy(host, Last(s))
    ensures TurnKept(host, link, state, Send(host, s, response))
  {
    if Send(host, s, response).Go? {
      AccountsSend(host, link, state, s, response);
      ShapeAnswer(host, s.seen, s.log, response);
    } else {
      assert Send(host, s, response).at == s;
    }
  }

  lemma {:induction false} RespondKeeps<J(!new), H>(host: Host<J, H>, link: Link, state: H, s: Session<J, H>)
    requires |s.log| > 2 && s.log[|s.log| - 1] == Exchange(Last(s), None, None) && Kept(host, link, state, s)
    ensures TurnKept(host, link, state, Respond(host, s))
  {
    var request := Last(s);
    var (kind, asked) := Interpret(host, request.kind, request.payload);
    match asked
    case Err(code) =>
      SendKeeps(host, link, state, s, ResponseTo(host, request.requestId, kind, Err(code)));
    case Ok(call) =>
      CallKeeps(host, link, state, s, kind, call);
  }

  lemma {:induction false} CallKeeps<J(!new), H>(host: Host<J, H>, link: Link, state: H, s: Session<J, H>, kind: Text,
      call: Call)
    requires |s.log| > 2 && s.log[|s.log| - 1] == Exchange(Last(s), None, None) && Kept(host, link, state, s)
    requires Interpret(host, Last(s).kind, Last(s).payload) == (kind, Ok(call))
    ensures var (after, result) := host.handle(s.state, call);
            TurnKept(host, link, state, Send(host, s.(state := after, log := Called(s.log, Some(call))),
                                             ResponseTo(host, Last(s).requestId, kind, result)))
  {
    var (after, result) := host.handle(s.state, call);
    ShapeCall(host, s.seen, s.log);
    AccountsCall(host, link, state, s, call);
    SendKeeps(host, link, state, s.(state := after, log := Called(s.log, Some(call))),
              ResponseTo(host, Last(s).requestId, kind, result));
  }

  lemma {:induction false} SendExtends<J(!new), H>(host: Host<J, H>, s: Session<J, H>, response: Response<J>)
    requires |s.log| > 2
    ensures |Send(host, s, response).at.log| > 2 && Send(host, s, response).at.log[..2] == s.log[..2]
  {}

  lemma {:induction false} CalledExtends<J>(log: Log<J>, call: Option<Call>)
    requires |log| > 2
    ensures |Called(log, call)| > 2 && Called(log, call)[..2] == log[..2]
  {}

  lemma {:induction false} RespondExtends<J(!new), H>(host: Host<J, H>, s: Session<J, H>)
    requires |s.log| > 2
    ensures |Respond(host, s).at.log| > 2 && Respond(host, s).at.log[..2] == s.log[..2]
  {
    var request := Last(s);
    var (kind, asked) := Interpret(host, request.kind, request.payload);
    match asked
    case Err(code) => SendExtends(host, s, ResponseTo(host, request.requestId, kind, Err(code)));
    case Ok(call) =>
      var (state, result) := host.handle(s.state, call);
      CalledExtends(s.log, Some(call));
      SendExtends(host, s.(state := state, log := Called(s.log, Some(call))),
                  ResponseTo(host, request.requestId, kind, result));
  }

  lemma {:induction false} RequestIsRespond<J(!new), H>(host: Host<J, H>, s: Session<J, H>)
    requires Receive(host, s).Ok? && Receive(host, s).value.Some?
    ensures Receive(host, s).value.value.log != [] && Request(host, s) == Respond(host, Receive(host, s).value.value)
  {}

  /** `Kept` as a property of sessions. */
  type Property<!J, !H> = Session<J, H> -> bool

  ghost predicate IsKept<J(!new), H(!new)>(kept: Property<J, H>, host: Host<J, H>, link: Link, state: H) {
    forall s {:trigger Kept(host, link, state, s)} :: kept(s) == Kept(host, link, state, s)
  }

  lemma {:induction false} ReceiveKept<J(!new), H(!new)>(host: Host<J, H>, link: Link, state: H, kept: Property<J, H>,
      s: Session<J, H>)
    requires IsKept(kept, host, link, state) && kept(s) && AllAnswered(s.log)
             && (|s.log| == 2 ==> Authenticated(host, s.log))
    requires Receive(host, s).Ok? && Receive(host, s).value.Some?
    ensures var next := Receive(host, s).value.value;
            kept(next) && next.log == s.log + [Exchange(Last(next), None, None)]
  {
    assert Kept(host, link, state, s);
    ReceiveKeeps(host, link, state, s);
  }

  lemma {:induction false} SendKept<J(!new), H(!new)>(host: Host<J, H>, link: Link, state: H, kept: Property<J, H>,
      s: Session<J, H>, response: Response<J>)
    requires IsKept(kept, host, link, state) && kept(s) && 0 < |s.log| <= 2 && s.log[|s.log| - 1].reply.None?
    requires response.requestId == Last(s).requestId
    ensures kept(Send(host, s, response).at)
            && (Send(host, s, response).Go? ==> AllAnswered(Send(host, s, response).at.log))
  {
    assert Kept(host, link, state, s);
    SendKeeps(host, link, state, s, response);
    assert Kept(host, link, state, Send(host, s, response).at);
  }

  lemma {:induction false} RespondKept<J(!new), H(!new)>(host: Host<J, H>, link: Link, state: H, kept: Property<J, H>,
      s: Session<J, H>)
    requires IsKept(kept, host, link, state) && kept(s) && |s.log| > 2
             && s.log[|s.log| - 1] == Exchange(Last(s), None, None)
    ensures kept(Respond(host, s).at) && (Respond(host, s).Go? ==> AllAnswered(Respond(host, s).at.log))
  {
    assert Kept(host, link, state, s);
    RespondKeeps(host, link, state, s);
    assert Kept(host, link, state, Respond(host, s).at);
  }

  /** A first request that is no good challenge stops the connection, and a good one is answered. */
  lemma {:induction false} ChallengeForm<J(!new), H>(host: Host<J, H>, s: Session<J, H>) returns (response: Response<J>)
    requires Receive(host, s).Ok? && Receive(host, s).value.Some?
    ensures var next := Receive(host, s).value.value;
            && response.requestId == Last(next).requestId
            && if GoodChallenge(host, Last(next)) then Challenge(host, s) == Send(host, next, response)
               else Challenge(host, s).Stop? && Challenge(host, s).at == next
  {
    var request := Last(Receive(host, s).value.value);
    var nonce := NonceOf(host, request);
    response := Response(request.requestId, Text(Ascii("handshake.response")), true,
                         Hello(host.mac(host.secret, Server, nonce, host.serverNonce), host.serverNonce));
  }

  lemma {:induction false} ChallengeKeeps<J(!new), H(!new)>(host: Host<J, H>, link: Link, state: H,
      kept: Property<J, H>, s: Session<J, H>)
    requires IsKept(kept, host, link, state) && kept(s) && s.log == []
    ensures var turn := Challenge(host, s);
            kept(turn.at) && (turn.Go? ==> AllAnswered(turn.at.log) && GoodChallenge(host, turn.at.log[0].request))
  {
    if Receive(host, s).Ok? && Receive(host, s).value.Some? {
      ReceiveKept(host, link, state, kept, s);
      var response := ChallengeForm(host, s);
      SendKept(host, link, state, kept, Receive(host, s).value.value, response);
    }
  }

  lemma {:induction false} ProveKeeps<J(!new), H(!new)>(host: Host<J, H>, link: Link, state: H, kept: Property<J, H>,
      s: Session<J, H>)
    requires IsKept(kept, host, link, state) && kept(s) && |s.log| == 1 && AllAnswered(s.log)
             && GoodChallenge(host, s.log[0].request)
    ensures var turn := Prove(host, s, NonceOf(host, s.log[0].request));
            kept(turn.at) && (turn.Go? ==> AllAnswered(turn.at.log) && Authenticated(host, turn.at.log))
  {
    if Receive(host, s).Ok? && Receive(host, s).value.Some? {
      ReceiveKept(host, link, state, kept, s);
      var next := Receive(host, s).value.value;
      SendKept(host, link, state, kept, next,
          Response(Last(next).requestId, Text(Ascii("handshake.ack")), true, Welcome));
    }
  }

  /** Between requests: the proof has been accepted and nothing waits for a reply. */
  ghost predicate Ready<J(!new), H>(host: Host<J, H>, kept: Property<J, H>, s: Session<J, H>) {
    kept(s) && AllAnswered(s.log) && Authenticated(host, s.log)
  }

  lemma {:induction false} RequestKeeps<J(!new), H(!new)>(host: Host<J, H>, link: Link, state: H, kept: Property<J, H>,
      s: Session<J, H>)
    requires IsKept(kept, host, link, state) && Ready(host, kept, s)
    ensures kept(Request(host, s).at) && (Request(host, s).Go? ==> Ready(host, kept, Request(host, s).at))
  {
    if Receive(host, s).Ok? && Receive(host, s).value.Some? {
      ReceiveKept(host, link, state, kept, s);
      var next := Receive(host, s).value.value;
      RequestIsRespond(host, s);
      RespondKept(host, link, state, kept, next);
      RespondExtends(host, next);
      AuthenticatedStays(host, s.log, Respond(host, next).at.log);
    }
  }

  lemma {:induction false} AuthenticatedStays<J(!new), H>(host: Host<J, H>, log: Log<J>, later: Log<J>)
    requires Authenticated(host, log) && |later| > 2 && log[..2] == later[..2]
    ensures Authenticated(host, later)
  {
    assert log[..2][0] == log[0] && log[..2][1] == log[1] && later[..2][0] == later[0] && later[..2][1] == later[1];
  }

  /** What every turn keeps holds when the turns are over. */
  lemma {:induction false} RequestsInduct<J, H>(turn: Session<J, H> -> Turn<J, H>, ready: Session<J, H> -> bool,
      kept: Session<J, H> -> bool, s: Session<J, H>, left: nat)
    requires ready(s) && kept(s)
    requires forall t {:trigger turn(t)} | ready(t) :: kept(turn(t).at) && (turn(t).Go? ==> ready(turn(t).at))
    ensures kept(Requests(turn, s, left).at)
    decreases left
  {
    if left > 0 && turn(s).Go? {
      RequestsInduct(turn, ready, kept, turn(s).at, left - 1);
    }
  }

  lemma {:induction false} RequestsKeep<J(!new), H(!new)>(
    host: Host<J, H>, turn: Session<J, H> -> Turn<J, H>, link: Link, state: H, kept: Property<J, H>, s: Session<J, H>,
        left: nat)
    requires Answers(turn, host) && IsKept(kept, host, link, state) && Ready(host, kept, s)
    ensures kept(Requests(turn, s, left).at)
  {
    var ready := (t: Session<J, H>) => Ready(host, kept, t);
    forall t | ready(t)
      ensures kept(turn(t).at) && (turn(t).Go? ==> ready(turn(t).at))
    {
      RequestKeeps(host, link, state, kept, t);
    }
    RequestsInduct(turn, ready, kept, s, left);
  }

  lemma {:induction false} StartKept<J(!new), H>(host: Host<J, H>, link: Link, state: H)
    ensures Kept(host, link, state, Session(link, {}, state, []))
  {
    var s: Session<J, H> := Session(link, {}, state, []);
    assert link.written + FramedAll(PayloadsOf(host, RepliesOf(s.log))) == link.written;
    var values := ReadAll(host.format, host.config.maximumFrameBytes, link.unread, link.end).0;
    assert RequestsOf(s.log) + values == values;
  }

  lemma {:induction false} ServeKept<J(!new), H(!new)>(host: Host<J, H>, link: Link, state: H, kept: Property<J, H>)
    requires IsKept(kept, host, link, state) && kept(Session(link, {}, state, []))
    ensures kept(Serve(host, link, state).at)
  {
    var start: Session<J, H> := Session(link, {}, state, []);
    if ValidConfig(host.config, host.secret) {
      ChallengeKeeps(host, link, state, kept, start);
      if Challenge(host, start).Go? {
        var greeted := Challenge(host, start).at;
        ProveKeeps(host, link, state, kept, greeted);
        if Prove(host, greeted, NonceOf(host, Last(greeted))).Go? {
          RequestsKeep(host, Answering(host), link, state, kept, Prove(host, greeted, NonceOf(host, Last(greeted))).at,
              host.config.maximumRequests);
        }
      }
    }
  }

  lemma {:induction false} ServeKeeps<J(!new), H(!new)>(host: Host<J, H>, link: Link, state: H)
    ensures Kept(host, link, state, Serve(host, link, state).at)
  {
    var kept := (s: Session<J, H>) => Kept(host, link, state, s);
    StartKept(host, link, state);
    ServeKept(host, link, state, kept);
  }

  // The guarantees

  /** No connection calls the handler unless its second request is an accepted proof for this server's nonce. */
  lemma {:induction false} CallsNeedProof<J(!new), H(!new)>(host: Host<J, H>, link: Link, state: H)
    ensures var log := Serve(host, link, state).at.log;
            && (CallsOf(log) != [] ==> Authenticated(host, log))
            && DistinctIds(log)
            && Serve(host, link, state).at.state == HandledAll(host, state, CallsOf(log))
  {
    ServeKeeps(host, link, state);
    var log := Serve(host, link, state).at.log;
    if CallsOf(log) != [] {
      var i := SomeCall(log);
    }
  }

  lemma {:induction false} SomeCall<J>(log: Log<J>) returns (i: nat)
    requires CallsOf(log) != []
    ensures i < |log| && log[i].call.Some?
  {
    i := |log| - 1;
    if log[i].call.None? {
      i := SomeCall(log[..i]);
    }
  }

  lemma {:induction false} RepliesInOrder<J(!new), H>(host: Host<J, H>, log: Log<J>)
    requires InOrder(host, log)
    ensures |RepliesOf(log)| == (if AllAnswered(log) then |log| else |log| - 1)
    ensures forall i | 0 <= i < |RepliesOf(log)| :: log[i].reply == Some(RepliesOf(log)[i])
  {
    if log != [] {
      var front := log[..|log| - 1];
      assert InOrder(host, front) && AllAnswered(front);
      RepliesInOrder(host, front);
    }
  }

  /** The extension's format for what the server writes. */
  ghost predicate Reads<J(!new), H>(client: Format<Response<J>>, host: Host<J, H>) {
    forall r {:trigger host.render(r)} :: host.render(r).Some? ==> client.parse(host.render(r).value) == Some(r)
  }

  lemma {:induction false} RepliesParse<J(!new), H>(client: Format<Response<J>>, host: Host<J, H>, log: Log<J>)
    requires Reads(client, host) && InOrder(host, log)
    ensures Parses(client, host.config.maximumFrameBytes, PayloadsOf(host, RepliesOf(log)), RepliesOf(log))
  {
    RepliesInOrder(host, log);
    var replies := RepliesOf(log);
    forall i | 0 <= i < |replies|
      ensures Rendered(host, replies[i]).Ok?
    {
      assert log[i].reply == Some(replies[i]);
    }
  }

  lemma {:induction false} RepliesDecode<J(!new), H>(client: Format<Response<J>>, host: Host<J, H>, log: Log<J>)
    requires Reads(client, host) && InOrder(host, log)
    ensures Decode(client, host.config.maximumFrameBytes, FramedAll(PayloadsOf(host, RepliesOf(log)))) ==
            Decoded(RepliesOf(log), [], false)
  {
    var payloads := PayloadsOf(host, RepliesOf(log));
    RepliesParse(client, host, log);
    PayloadsDecode(client, host.config.maximumFrameBytes, payloads, RepliesOf(log), []);
    assert FramedAll(payloads) + [] == FramedAll(payloads);
  }

  /**
   The extension's decoder takes from the connection exactly one response a request, in the order of the
   requests and each under its request's id, save that the last request may have none.
   */
  lemma {:induction false} ClientReadsReplies<J(!new), H(!new)>(client: Format<Response<J>>, host: Host<J, H>,
      link: Link, state: H)
    requires Reads(client, host) && link.written == []
    ensures var s := Serve(host, link, state).at;
            var decoded := Decode(client, host.config.maximumFrameBytes, s.link.written);
            && !decoded.failed && decoded.leftover == []
            && |s.log| - 1 <= |decoded.frames| <= |s.log|
            && forall i | 0 <= i < |decoded.frames| ::
                 s.log[i].reply == Some(decoded.frames[i]) && decoded.frames[i].requestId == s.log[i].request.requestId
  {
    ServeKeeps(host, link, state);
    var s := Serve(host, link, state).at;
    RepliesInOrder(host, s.log);
    RepliesDecode(client, host, s.log);
    var framed := FramedAll(PayloadsOf(host, RepliesOf(s.log)));
    assert s.link.written == [] + framed == framed;
  }

  /** The requests a connection accepts are the first frames its peer sent, in order. */
  lemma {:induction false} RequestsAreFirstFrames<J(!new), H(!new)>(host: Host<J, H>, link: Link, state: H)
    ensures RequestsOf(Serve(host, link, state).at.log) <= ReadAll(host.format, host.config.maximumFrameBytes,
            link.unread, link.end).0
  {
    ServeKeeps(host, link, state);
  }

  // With the Companion's own handler

  /** The process behind a connection, and what its calls will draw. */
  datatype Companion = Companion(process: Process, draws: nat -> Draw, next: nat)

  function CompanionHandle<J>(writing: Writing,
      answerJson: Answer -> J): (Companion, Call) -> (Companion, Result<J, HandlerError>) {
    (c: Companion, call: Call) =>
      var draw := c.draws(c.next);
      var handled := Handle(c.process.world.settings, c.process.world.db, writing, c.process.active, call, draw);
      (c.(process := Next(c.process, writing, Ask(call, draw)), next := c.next + 1),
       match handled.result case Ok(answer) => Ok(answerJson(answer)) case Err(e) => Err(e))
  }

  function EventsOf(calls: seq<Call>, draws: nat -> Draw, from: nat): seq<Event> {
    seq(|calls|, i requires 0 <= i < |calls| => Ask(calls[i], draws(from + i)))
  }

  lemma {:induction false} AfterOneMore(p: Process, writing: Writing, events: seq<Event>, event: Event)
    ensures After(p, writing, events + [event]) == Next(After(p, writing, events), writing, event)
    decreases |events|
  {
    if events == [] {
      assert events + [event] == [event] && [event][1..] == [];
    } else {
      assert (events + [event])[1..] == events[1..] + [event];
      AfterOneMore(Next(p, writing, events[0]), writing, events[1..], event);
    }
  }

  ghost predicate Runs<J(!new)>(host: Host<J, Companion>, writing: Writing, answerJson: Answer -> J) {
    forall c, call {:trigger host.handle(c, call)} ::
        host.handle(c, call) == CompanionHandle(writing, answerJson)(c, call)
  }

  lemma {:induction false} EventsOneMore(calls: seq<Call>, draws: nat -> Draw, from: nat)
    requires calls != []
    ensures var k := |calls| - 1;
            EventsOf(calls, draws, from) == EventsOf(calls[..k], draws, from) + [Ask(calls[k], draws(from + k))]
  {}

  type Move = (Process, Event) -> Process

  /** What a call does to the process is a move, apart from the answer. */
  ghost predicate Moves<J(!new)>(host: Host<J, Companion>, move: Move) {
    forall c, call {:trigger host.handle(c, call)} :: host.handle(c, call).0 ==
        Companion(move(c.process, Ask(call, c.draws(c.next))), c.draws, c.next + 1)
  }

  /** Calls one after the other are a run, if each is a move and a run goes on with moves. */
  lemma {:induction false} HandledFolds<J(!new)>(host: Host<J, Companion>, move: Move, run: seq<Event> -> Process,
      c: Companion, calls: seq<Call>)
    requires Moves(host, move) && run([]) == c.process
    requires forall events, event {:trigger run(events + [event])} :: run(events + [event]) == move(run(events), event)
    ensures HandledAll(host, c, calls) ==
            Companion(run(EventsOf(calls, c.draws, c.next)), c.draws, c.next + |calls|)
  {
    if calls == [] {
      assert EventsOf(calls, c.draws, c.next) == [];
    } else {
      HandledFolds(host, move, run, c, calls[..|calls| - 1]);
      EventsOneMore(calls, c.draws, c.next);
    }
  }

  lemma {:induction false} HandledIsRun<J(!new)>(host: Host<J, Companion>, writing: Writing, answerJson: Answer -> J,
      c: Companion, calls: seq<Call>)
    requires Runs(host, writing, answerJson)
    ensures HandledAll(host, c, calls) ==
            Companion(After(c.process, writing, EventsOf(calls, c.draws, c.next)), c.draws, c.next + |calls|)
  {
    var move: Move := (p, event) => Next(p, writing, event);
    var run := (events: seq<Event>) => After(c.process, writing, events);
    forall events, event ensures run(events + [event]) == move(run(events), event) {
      AfterOneMore(c.process, writing, events, event);
    }
    HandledFolds(host, move, run, c, calls);
  }

  /**
   A connection to the Companion is a run of its handler, in brackets throughout exactly when none of its calls is
   stale.
   */
  lemma {:induction false} ConnectionKeepsBrackets<J(!new)>(host: Host<J, Companion>, writing: Writing,
      answerJson: Answer -> J, link: Link, c: Companion)
    requires Runs(host, writing, answerJson) && InBrackets(c.process)
    ensures var s := Serve(host, link, c).at;
            var events := EventsOf(CallsOf(s.log), c.draws, c.next);
            && s.state.process == After(c.process, writing, events)
            && (AlwaysInBrackets(c.process, writing, events) <==> NeverStale(c.process, writing, events))
            && (NeverStale(c.process, writing, events) ==> InBrackets(s.state.process))
  {
    ServeKeeps(host, link, c);
    var s := Serve(host, link, c).at;
    HandledIsRun(host, writing, answerJson, c, CallsOf(s.log));
    var events := EventsOf(CallsOf(s.log), c.draws, c.next);
    BracketsExactly(c.process, writing, events);
    if NeverStale(c.process, writing, events) {
      BracketsInEveryRun(c.process, writing, events);
    }
  }
}

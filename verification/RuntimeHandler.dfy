/**
 The Companion's request handler: one observation at a time, each recorded in the spool as a bracket of a start,
 checkpoints and a stop.
 */
module RuntimeHandler {
  import opened Common
  import opened SpoolState
  import Spool
  import Runs = SpoolRuns

  datatype Reason = Manual | SessionEnd

  datatype Call =
    | GetStatus
    | CreateCheckpoint(reason: Reason)
    | StartObservation(projectId: Text, providerSurface: Text)
    | StopObservation(sessionId: Text)

  datatype HandlerError = Forbidden | Internal | InvalidState | Unavailable

  datatype ActiveObservation = ActiveObservation(projectId: Text, providerSurface: Text, sessionId: Text,
      startedAt: nat)

  datatype Answer =
    | Status(observing: bool, activeSessionId: Option<Text>)
    | Checkpoint(checkpointId: Text, sessionId: Text, localSequence: nat, reason: Reason, createdAt: nat)
    | Started(sessionId: Text, startedAt: nat)
    | Stopped(checkpointId: Text, sessionId: Text, localSequence: nat, createdAt: nat)

  /** What one call draws from the random source and the clock. */
  datatype Draw = Draw(eventId: Text, newId: Text, now: nat, later: nat, nonce: Option<Nonce>)

  datatype Action = ObservationStarted | CheckpointCreated | ObservationStopped

  datatype Details =
    | StartDetails(projectId: Text, providerSurface: Text, startedAt: nat)
    | CheckpointDetails(checkpointId: Text, projectId: Text, reason: Reason)
    | StopDetails(checkpointId: Text, projectId: Text, duration: nat)

  /** The JSON text of an event's payload. */
  type Writing = (Text, Details) -> Text

  function ActionName(action: Action): Text {
    match action
    case ObservationStarted => Text(Ascii("observation.started"))
    case CheckpointCreated => Text(Ascii("checkpoint.created"))
    case ObservationStopped => Text(Ascii("observation.stopped"))
  }

  function EventOf(writing: Writing, draw: Draw, action: Action, session: Text, details: Details): RawEvent {
    RawEvent(draw.eventId, Text(Ascii("local_ipc")), ActionName(action), None, writing(session, details))
  }

  /** An event the handler wrote: one that was new to the spool. */
  datatype Mark = Mark(action: Action, session: Text, sequence: nat, raw: RawEvent)

  datatype Recorded = Recorded(db: Database, sequence: Result<nat, HandlerError>, marks: seq<Mark>)

  function Record(s: Settings, db: Database, writing: Writing, draw: Draw, action: Action, session: Text,
      details: Details): Recorded {
    var raw := EventOf(writing, draw, action, session, details);
    var reply := Append(s, db, raw, draw.nonce);
    match reply.result
    case Err(_) => Recorded(reply.db, Err(Internal), [])
    case Ok(capture) =>
      Recorded(reply.db, Ok(capture.localSequence),
               if capture.replayed then [] else [Mark(action, session, capture.localSequence, raw)])
  }

  datatype Handled = Handled(db: Database, active: Option<ActiveObservation>, result: Result<Answer, HandlerError>,
      marks: seq<Mark>)

  function HandleCheckpoint(s: Settings, db: Database, writing: Writing, active: Option<ActiveObservation>,
      reason: Reason, draw: Draw): Handled {
    if active.None? then Handled(db, active, Err(InvalidState), []) else
    var session := active.value.sessionId;
    var recorded :=
        Record(s, db, writing, draw, CheckpointCreated, session,
        CheckpointDetails(draw.newId, active.value.projectId, reason));
    match recorded.sequence
    case Err(e) => Handled(recorded.db, active, Err(e), recorded.marks)
    case Ok(n) =>
        Handled(recorded.db, active, Ok(Checkpoint(draw.newId, session, n, reason, draw.later)), recorded.marks)
  }

  function HandleStart(s: Settings, db: Database, writing: Writing, active: Option<ActiveObservation>, projectId: Text,
      surface: Text, draw: Draw): Handled {
    if active.Some? then
      if active.value.projectId == projectId && active.value.providerSurface == surface
      then Handled(db, active, Ok(Started(active.value.sessionId, active.value.startedAt)), [])
      else Handled(db, active, Err(InvalidState), [])
    else
      var recorded :=
          Record(s, db, writing, draw, ObservationStarted, draw.newId, StartDetails(projectId, surface, draw.now));
      match recorded.sequence
      case Err(e) => Handled(recorded.db, active, Err(e), recorded.marks)
      case Ok(_) =>
          Handled(recorded.db, Some(ActiveObservation(projectId, surface, draw.newId, draw.now)),
          Ok(Started(draw.newId, draw.now)), recorded.marks)
  }

  /** `saturating_sub`: a clock that went back gives a duration of zero. */
  function Duration(active: ActiveObservation, now: nat): nat {
    if now < active.startedAt then 0 else now - active.startedAt
  }

  function HandleStop(s: Settings, db: Database, writing: Writing, active: Option<ActiveObservation>, sessionId: Text,
      draw: Draw): Handled {
    if active.None? then Handled(db, active, Err(InvalidState), [])
    else if active.value.sessionId != sessionId then Handled(db, active, Err(Forbidden), [])
    else
      var recorded :=
          Record(s, db, writing, draw, ObservationStopped, sessionId,
          StopDetails(draw.newId, active.value.projectId, Duration(active.value, draw.now)));
      match recorded.sequence
      case Err(e) => Handled(recorded.db, active, Err(e), recorded.marks)
      case Ok(n) => Handled(recorded.db, None, Ok(Stopped(draw.newId, sessionId, n, draw.later)), recorded.marks)
  }

  function Handle(s: Settings, db: Database, writing: Writing, active: Option<ActiveObservation>, call: Call,
      draw: Draw): Handled {
    match call
    case GetStatus =>
        Handled(db, active, Ok(Status(active.Some?, if active.Some? then Some(active.value.sessionId) else None)), [])
    case CreateCheckpoint(reason) => HandleCheckpoint(s, db, writing, active, reason, draw)
    case StartObservation(projectId, surface) => HandleStart(s, db, writing, active, projectId, surface, draw)
    case StopObservation(sessionId) => HandleStop(s, db, writing, active, sessionId, draw)
  }

  class RuntimeIpcHandler {
    const spool: Spool.EncryptedSpool
    const writing: Writing
    var active: Option<ActiveObservation>
    ghost var written: seq<Mark>

    constructor (spool: Spool.EncryptedSpool, writing: Writing)
      ensures this.spool == spool && this.writing == writing && active == None && written == []
    {
      this.spool, this.writing, active, written := spool, writing, None, [];
    }

    /** The handler's state and answer are those of a specification function. */
    twostate predicate Did(handled: Handled, new result: Result<Answer, HandlerError>)
      reads this, spool
    {
      && spool.db == handled.db && active == handled.active && result == handled.result
      && written == old(written) + handled.marks
    }

    method AppendEvent(action: Action, session: Text, details: Details, draw: Draw)
        returns (sequence: Result<nat, HandlerError>)
      requires spool.Valid()
      modifies this`written, spool`db
      ensures spool.Valid()
      ensures var recorded := Record(old(spool.CurrentSettings()), old(spool.db), writing, draw, action, session,
              details);
              spool.db == recorded.db && sequence == recorded.sequence && written == old(written) + recorded.marks
    {
      var raw := EventOf(writing, draw, action, session, details);
      var capture := spool.AppendEvent(raw, draw.nonce);
      if capture.Err? {
        assert written + [] == written;
        return Err(Internal);
      }
      if !capture.value.replayed {
        written := written + [Mark(action, session, capture.value.localSequence, raw)];
      } else {
        assert written + [] == written;
      }
      sequence := Ok(capture.value.localSequence);
    }

    method GetStatus() returns (result: Result<Answer, HandlerError>)
      ensures forall draw ::
              Did(Handle(spool.CurrentSettings(), spool.db, writing, active, Call.GetStatus, draw), result)
    {
      assert written + [] == written;
      result := Ok(Status(active.Some?, if active.Some? then Some(active.value.sessionId) else None));
    }

    method CreateCheckpoint(reason: Reason, draw: Draw) returns (result: Result<Answer, HandlerError>)
      requires spool.Valid()
      modifies this, spool`db
      ensures spool.Valid()
              && Did(HandleCheckpoint(old(spool.CurrentSettings()), old(spool.db), writing, old(active), reason, draw),
              result)
    {
      if active.None? {
        assert written + [] == written;
        return Err(InvalidState);
      }
      var observation := active.value;
      var sequence :=
          AppendEvent(CheckpointCreated, observation.sessionId,
          CheckpointDetails(draw.newId, observation.projectId, reason), draw);
      if sequence.Err? {
        return Err(sequence.error);
      }
      result := Ok(Checkpoint(draw.newId, observation.sessionId, sequence.value, reason, draw.later));
    }

    method StartObservation(projectId: Text, providerSurface: Text, draw: Draw)
        returns (result: Result<Answer, HandlerError>)
      requires spool.Valid()
      modifies this, spool`db
      ensures spool.Valid()
              && Did(HandleStart(old(spool.CurrentSettings()), old(spool.db), writing, old(active), projectId,
              providerSurface, draw), result)
    {
      if active.Some? {
        assert written + [] == written;
        if active.value.projectId == projectId && active.value.providerSurface == providerSurface {
          return Ok(Started(active.value.sessionId, active.value.startedAt));
        }
        return Err(InvalidState);
      }
      var session := draw.newId;
      var recorded := AppendEvent(ObservationStarted, session, StartDetails(projectId, providerSurface, draw.now),
          draw);
      if recorded.Err? {
        return Err(recorded.error);
      }
      active := Some(ActiveObservation(projectId, providerSurface, session, draw.now));
      result := Ok(Started(session, draw.now));
    }

    method StopObservation(sessionId: Text, draw: Draw) returns (result: Result<Answer, HandlerError>)
      requires spool.Valid()
      modifies this, spool`db
      ensures spool.Valid()
              && Did(HandleStop(old(spool.CurrentSettings()), old(spool.db), writing, old(active), sessionId, draw),
              result)
    {
      if active.None? {
        assert written + [] == written;
        return Err(InvalidState);
      }
      var observation := active.value;
      if observation.sessionId != sessionId {
        assert written + [] == written;
        return Err(Forbidden);
      }
      var sequence :=
          AppendEvent(ObservationStopped, sessionId,
          StopDetails(draw.newId, observation.projectId, Duration(observation, draw.now)), draw);
      if sequence.Err? {
        return Err(sequence.error);
      }
      active := None;
      result := Ok(Stopped(draw.newId, sessionId, sequence.value, draw.later));
    }
  }

  // Runs

  /** The handler in its process, with the events it has written since the process started. */
  datatype Process = Process(world: Runs.World, active: Option<ActiveObservation>, written: seq<Mark>)

  datatype Event =
    | Ask(call: Call, draw: Draw)
    | Elsewhere(op: Runs.Op)

  /** What an append adds to the history of accepted events. */
  function Added(w: Runs.World, handled: Handled, draw: Draw): seq<Runs.Accepted> {
    if handled.marks == [] || draw.nonce.None? || w.settings.activeVersion !in w.settings.keys then []
    else [Runs.Entry(w.settings, w.db, handled.marks[0].raw, draw.nonce.value)]
  }

  /** One call, or any other use of the spool; a restart also makes a new handler. */
  function Next(p: Process, writing: Writing, event: Event): Process {
    match event
    case Ask(call, draw) =>
      var handled := Handle(p.world.settings, p.world.db, writing, p.active, call, draw);
      Process(p.world.(db := handled.db, accepted := p.world.accepted + Added(p.world, handled, draw)),
              handled.active, p.written + handled.marks)
    case Elsewhere(op) =>
      if op.Restart? && ValidLimits(op.limits) then Process(Runs.Step(p.world, op), None, [])
      else p.(world := Runs.Step(p.world, op))
  }

  function After(p: Process, writing: Writing, events: seq<Event>): Process
    decreases |events|
  {
    if events == [] then p else After(Next(p, writing, events[0]), writing, events[1..])
  }

  /** No call draws an event id the spool already knows. */
  predicate FreshIds(p: Process, writing: Writing, events: seq<Event>)
    decreases |events|
  {
    events != [] ==>
      && (events[0].Ask? ==> events[0].draw.eventId !in p.world.db.receipts)
      && FreshIds(Next(p, writing, events[0]), writing, events[1..])
  }

  /** An append under the drawn id would be answered from an earlier receipt. */
  predicate StaleId(s: Settings, db: Database, draw: Draw) {
    s.activeVersion in s.keys && draw.eventId in db.receipts && ValidIdentifier(draw.eventId, 200)
  }

  /** A call that opens or closes an observation and draws an id that is not new. */
  predicate Stale(p: Process, call: Call, draw: Draw) {
    && StaleId(p.world.settings, p.world.db, draw)
    && match call
       case StartObservation(_, _) => p.active.None?
       case StopObservation(sessionId) => p.active.Some? && p.active.value.sessionId == sessionId
       case _ => false
  }

  predicate NeverStale(p: Process, writing: Writing, events: seq<Event>)
    decreases |events|
  {
    events != [] ==>
      && (events[0].Ask? ==> !Stale(p, events[0].call, events[0].draw))
      && NeverStale(Next(p, writing, events[0]), writing, events[1..])
  }

  // Brackets

  datatype Position = Outside | Inside(session: Text) | Broken

  /** Where a sequence of events leaves off, if it is made of brackets that never overlap. */
  function PositionAfter(marks: seq<Mark>): Position {
    if marks == [] then Outside else
    var last, before := marks[|marks| - 1], PositionAfter(marks[..|marks| - 1]);
    match last.action
    case ObservationStarted => if before == Outside then Inside(last.session) else Broken
    case CheckpointCreated => if before == Inside(last.session) then before else Broken
    case ObservationStopped => if before == Inside(last.session) then Outside else Broken
  }

  ghost predicate InBrackets(p: Process) {
    PositionAfter(p.written) == if p.active.Some? then Inside(p.active.value.sessionId) else Outside
  }

  /** Each event written is the accepted event of its sequence, and sequences ascend. */
  ghost predicate Traced(p: Primitives, accepted: seq<Runs.Accepted>, marks: seq<Mark>) {
    && (forall i | 0 <= i < |marks| :: TracedMark(p, accepted, marks[i]))
    && forall i, j | 0 <= i < j < |marks| :: marks[i].sequence < marks[j].sequence
  }

  ghost predicate TracedMark(p: Primitives, accepted: seq<Runs.Accepted>, mark: Mark) {
    && 1 <= mark.sequence <= |accepted| && mark.raw.actionType == ActionName(mark.action)
    && accepted[mark.sequence - 1].stored == Redacted(p, mark.raw)
  }

  /** What an atomic append does to the world. */
  function Appended(w: Runs.World, raw: RawEvent, nonce: Option<Nonce>): Runs.World {
    var reply := Append(w.settings, w.db, raw, nonce);
    w.(db := reply.db,
       accepted := if reply.result.Ok? && !reply.result.value.replayed && nonce.Some?
           && w.settings.activeVersion in w.settings.keys
                   then w.accepted + [Runs.Entry(w.settings, w.db, raw, nonce.value)] else w.accepted)
  }

  lemma {:induction false} FreeThread(threads: map<nat, RawEvent>) returns (t: nat)
    ensures t !in threads
  {
    t := Above(threads.Keys);
  }

  lemma {:induction false} Above(used: set<nat>) returns (t: nat)
    ensures forall u | u in used :: u < t
    decreases |used|
  {
    t := 0;
    if used != {} {
      var u :| u in used;
      var rest := Above(used - {u});
      t := rest + u + 1;
      assert forall v | v in used :: v == u || v in used - {u};
    }
  }

  /** An atomic append is one thread's two critical sections with nothing between them. */
  lemma {:induction false} AppendedIsTwoSteps(w: Runs.World, raw: RawEvent, nonce: Option<Nonce>, t: nat)
    requires t !in w.inFlight
    ensures Appended(w, raw, nonce) == Runs.Step(Runs.Step(w, Runs.BeginAppend(t, raw)), Runs.CommitAppend(t, nonce))
  {
    assert w.inFlight[t := raw] - {t} == w.inFlight;
  }

  /** A call writes at most one event, by an atomic append of a raw event with the drawn id. */
  lemma {:induction false} HandleAppends(w: Runs.World, writing: Writing, active: Option<ActiveObservation>, call: Call,
      draw: Draw)
    returns (raw: Option<RawEvent>)
    ensures var handled := Handle(w.settings, w.db, writing, active, call, draw);
            match raw
            case None => handled.db == w.db && handled.marks == [] && handled.active == active
            case Some(event) =>
              && event.eventId == draw.eventId
              && handled.db == Append(w.settings, w.db, event, draw.nonce).db
              && (handled.marks != [] <==> Append(w.settings, w.db, event, draw.nonce).result.Ok?
                                           && !Append(w.settings, w.db, event, draw.nonce).result.value.replayed)
              && (handled.marks != [] ==>
                    && |handled.marks| == 1 && handled.marks[0].raw == event
                    && event.actionType == ActionName(handled.marks[0].action)
                    && handled.marks[0].sequence ==
                       Append(w.settings, w.db, event, draw.nonce).result.value.localSequence)
  {
    raw := None;
    match call
    case GetStatus =>
    case CreateCheckpoint(reason) =>
      if active.Some? {
        raw := Some(EventOf(writing, draw, CheckpointCreated, active.value.sessionId,
            CheckpointDetails(draw.newId, active.value.projectId, reason)));
      }
    case StartObservation(projectId, surface) =>
      if active.None? {
        raw := Some(EventOf(writing, draw, ObservationStarted, draw.newId, StartDetails(projectId, surface, draw.now)));
      }
    case StopObservation(sessionId) =>
      if active.Some? && active.value.sessionId == sessionId {
        raw := Some(EventOf(writing, draw, ObservationStopped, sessionId,
            StopDetails(draw.newId, active.value.projectId, Duration(active.value, draw.now))));
      }
  }

  lemma {:induction false} NextWorld(p: Process, writing: Writing, call: Call, draw: Draw)
      returns (raw: Option<RawEvent>)
    ensures Next(p, writing, Ask(call, draw)).world == if raw.None? then p.world
            else Appended(p.world, raw.value, draw.nonce)
  {
    raw := HandleAppends(p.world, writing, p.active, call, draw);
    assert p.world.accepted + [] == p.world.accepted;
  }

  /** Every step of the process is a run of the spool. */
  lemma {:induction false} NextIsSteps(p: Process, writing: Writing, event: Event) returns (ops: seq<Runs.Op>)
    ensures |ops| <= 2
    ensures Next(p, writing, event).world ==
            match |ops| case 0 => p.world case 1 => Runs.Step(p.world, ops[0]) case _ =>
                Runs.Step(Runs.Step(p.world, ops[0]), ops[1])
  {
    match event
    case Ask(call, draw) =>
      var raw := NextWorld(p, writing, call, draw);
      if raw.None? {
        ops := [];
      } else {
        var t := FreeThread(p.world.inFlight);
        AppendedIsTwoSteps(p.world, raw.value, draw.nonce, t);
        ops := [Runs.BeginAppend(t, raw.value), Runs.CommitAppend(t, draw.nonce)];
      }
    case Elsewhere(op) =>
      ops := [op];
  }

  lemma {:induction false} NextKeepsInvariant(p: Process, writing: Writing, event: Event)
    requires p.world.settings.primitives.Lawful() && Runs.Invariant(p.world)
    ensures Runs.Invariant(Next(p, writing, event).world)
    ensures Next(p, writing, event).world.settings.primitives == p.world.settings.primitives
  {
    var ops := NextIsSteps(p, writing, event);
    if |ops| > 0 {
      Runs.StepKeepsInvariant(p.world, ops[0]);
    }
    if |ops| > 1 {
      Runs.StepKeepsInvariant(Runs.Step(p.world, ops[0]), ops[1]);
    }
  }

  lemma {:induction false} PositionOneMore(marks: seq<Mark>, mark: Mark)
    ensures PositionAfter(marks + [mark]) ==
            match mark.action
            case ObservationStarted => (if PositionAfter(marks) == Outside then Inside(mark.session) else Broken)
            case CheckpointCreated => (if PositionAfter(marks) == Inside(mark.session) then PositionAfter(marks)
                else Broken)
            case ObservationStopped => (if PositionAfter(marks) == Inside(mark.session) then Outside else Broken)
  {
    assert (marks + [mark])[..|marks|] == marks;
  }

  lemma {:induction false} SourceValid()
    ensures ValidIdentifier(Text(Ascii("local_ipc")), 100)
  {
    var name := Ascii("local_ipc");
    assert |name| == 9 && forall i | 0 <= i < |name| :: IdentifierByte(name[i]);
  }

  lemma {:induction false} StartedValid()
    ensures ValidIdentifier(ActionName(ObservationStarted), 100)
  {
    var name := Ascii("observation.started");
    assert |name| == 19 && forall i | 0 <= i < |name| :: IdentifierByte(name[i]);
  }

  lemma {:induction false} CreatedValid()
    ensures ValidIdentifier(ActionName(CheckpointCreated), 100)
  {
    var name := Ascii("checkpoint.created");
    assert |name| == 18 && forall i | 0 <= i < |name| :: IdentifierByte(name[i]);
  }

  lemma {:induction false} StoppedValid()
    ensures ValidIdentifier(ActionName(ObservationStopped), 100)
  {
    var name := Ascii("observation.stopped");
    assert |name| == 19 && forall i | 0 <= i < |name| :: IdentifierByte(name[i]);
  }

  lemma {:induction false} LiteralsValid(action: Action)
    ensures ValidIdentifier(Text(Ascii("local_ipc")), 100) && ValidIdentifier(ActionName(action), 100)
  {
    SourceValid();
    match action
    case ObservationStarted => StartedValid();
    case CheckpointCreated => CreatedValid();
    case ObservationStopped => StoppedValid();
  }

  /** An append under a known id is answered without being written; any other is written or fails. */
  lemma {:induction false} RecordWrites(s: Settings, db: Database, writing: Writing, draw: Draw, action: Action,
      session: Text, details: Details)
    ensures var recorded := Record(s, db, writing, draw, action, session, details);
            if StaleId(s, db, draw) then recorded.sequence.Ok? && recorded.marks == []
            else if recorded.sequence.Ok? then
              |recorded.marks| == 1 && recorded.marks[0].action == action && recorded.marks[0].session == session
            else recorded.marks == []
  {
    LiteralsValid(action);
  }

  lemma {:induction false} StartMoves(p: Process, writing: Writing, projectId: Text, surface: Text, draw: Draw)
    ensures var next := Next(p, writing, Ask(StartObservation(projectId, surface), draw));
            if p.active.Some? then next.active == p.active && next.written == p.written
            else
              var recorded := Record(p.world.settings, p.world.db, writing, draw, ObservationStarted, draw.newId,
                  StartDetails(projectId, surface, draw.now));
              && next.written == p.written + recorded.marks
              && next.active == if recorded.sequence.Err? then None
                                else Some(ActiveObservation(projectId, surface, draw.newId, draw.now))
  {
    assert p.written + [] == p.written;
  }

  lemma {:induction false} StartExactly(p: Process, writing: Writing, projectId: Text, surface: Text, draw: Draw)
    requires InBrackets(p)
    ensures InBrackets(Next(p, writing, Ask(StartObservation(projectId, surface), draw))) <==>
            !Stale(p, StartObservation(projectId, surface), draw)
  {
    StartMoves(p, writing, projectId, surface, draw);
    if p.active.None? {
      var details := StartDetails(projectId, surface, draw.now);
      RecordWrites(p.world.settings, p.world.db, writing, draw, ObservationStarted, draw.newId, details);
      WrittenPosition(p, Record(p.world.settings, p.world.db, writing, draw, ObservationStarted, draw.newId, details));
    }
  }

  lemma {:induction false} CheckpointKeeps(p: Process, writing: Writing, reason: Reason, draw: Draw)
    requires InBrackets(p)
    ensures InBrackets(Next(p, writing, Ask(CreateCheckpoint(reason), draw)))
  {
    assert p.written + [] == p.written;
    if p.active.Some? {
      var session, details := p.active.value.sessionId, CheckpointDetails(draw.newId, p.active.value.projectId, reason);
      RecordWrites(p.world.settings, p.world.db, writing, draw, CheckpointCreated, session, details);
      WrittenPosition(p, Record(p.world.settings, p.world.db, writing, draw, CheckpointCreated, session, details));
    }
  }

  lemma {:induction false} StopExactly(p: Process, writing: Writing, sessionId: Text, draw: Draw)
    requires InBrackets(p)
    ensures InBrackets(Next(p, writing, Ask(StopObservation(sessionId), draw))) <==>
            !Stale(p, StopObservation(sessionId), draw)
  {
    assert p.written + [] == p.written;
    if p.active.Some? && p.active.value.sessionId == sessionId {
      var details := StopDetails(draw.newId, p.active.value.projectId, Duration(p.active.value, draw.now));
      RecordWrites(p.world.settings, p.world.db, writing, draw, ObservationStopped, sessionId, details);
      WrittenPosition(p, Record(p.world.settings, p.world.db, writing, draw, ObservationStopped, sessionId, details));
    }
  }

  /** A call leaves the events written in brackets exactly when it is not stale. */
  lemma {:induction false} CallKeepsBrackets(p: Process, writing: Writing, call: Call, draw: Draw)
    requires InBrackets(p)
    ensures InBrackets(Next(p, writing, Ask(call, draw))) <==> !Stale(p, call, draw)
  {
    match call
    case GetStatus => assert p.written + [] == p.written;
    case CreateCheckpoint(reason) => CheckpointKeeps(p, writing, reason, draw);
    case StartObservation(projectId, surface) => StartExactly(p, writing, projectId, surface, draw);
    case StopObservation(sessionId) => StopExactly(p, writing, sessionId, draw);
  }

  lemma {:induction false} WrittenPosition(p: Process, recorded: Recorded)
    requires |recorded.marks| <= 1
    ensures recorded.marks == [] ==> PositionAfter(p.written + recorded.marks) == PositionAfter(p.written)
    ensures recorded.marks != [] ==>
              var mark := recorded.marks[0];
              PositionAfter(p.written + recorded.marks) ==
              match mark.action
              case ObservationStarted => (if PositionAfter(p.written) == Outside then Inside(mark.session) else Broken)
              case CheckpointCreated =>
                  (if PositionAfter(p.written) == Inside(mark.session) then PositionAfter(p.written) else Broken)
              case ObservationStopped => (if PositionAfter(p.written) == Inside(mark.session) then Outside else Broken)
  {
    if recorded.marks == [] {
      assert p.written + recorded.marks == p.written;
    } else {
      assert recorded.marks == [recorded.marks[0]];
      PositionOneMore(p.written, recorded.marks[0]);
    }
  }

  /** In brackets now and after every event of the run. */
  ghost predicate AlwaysInBrackets(p: Process, writing: Writing, events: seq<Event>)
    decreases |events|
  {
    InBrackets(p) && (events != [] ==> AlwaysInBrackets(Next(p, writing, events[0]), writing, events[1..]))
  }

  /**
   However the spool is used besides, the events written since the process started are brackets that
   never overlap, with an observation active exactly while the last one is open, throughout a run if
   and only if no call of the run is stale.
   */
  lemma {:induction false} BracketsExactly(p: Process, writing: Writing, events: seq<Event>)
    requires InBrackets(p)
    ensures AlwaysInBrackets(p, writing, events) <==> NeverStale(p, writing, events)
    decreases |events|
  {
    if events != [] {
      var next := Next(p, writing, events[0]);
      if events[0].Ask? {
        CallKeepsBrackets(p, writing, events[0].call, events[0].draw);
      }
      if InBrackets(next) {
        BracketsExactly(next, writing, events[1..]);
      }
    }
  }

  lemma {:induction false} AlwaysAtTheEnd(p: Process, writing: Writing, events: seq<Event>)
    requires AlwaysInBrackets(p, writing, events)
    ensures InBrackets(After(p, writing, events))
    decreases |events|
  {
    if events != [] {
      AlwaysAtTheEnd(Next(p, writing, events[0]), writing, events[1..]);
    }
  }

  lemma {:induction false} FreshNeverStale(p: Process, writing: Writing, events: seq<Event>)
    requires FreshIds(p, writing, events)
    ensures NeverStale(p, writing, events)
    decreases |events|
  {
    if events != [] {
      FreshNeverStale(Next(p, writing, events[0]), writing, events[1..]);
    }
  }

  /** So they are at the end of every run without one; a run that draws only new event ids has none. */
  lemma {:induction false} BracketsInEveryRun(p: Process, writing: Writing, events: seq<Event>)
    requires InBrackets(p) && NeverStale(p, writing, events)
    ensures InBrackets(After(p, writing, events))
  {
    BracketsExactly(p, writing, events);
    AlwaysAtTheEnd(p, writing, events);
  }

  /** With an id the spool knows, a start is answered without being written. */
  lemma {:induction false} StaleStartBreaks(p: Process, writing: Writing, projectId: Text, surface: Text, draw: Draw)
    requires InBrackets(p) && p.active.None? && p.world.settings.activeVersion in p.world.settings.keys
    requires draw.eventId in p.world.db.receipts && ValidIdentifier(draw.eventId, 200)
    ensures !InBrackets(Next(p, writing, Ask(StartObservation(projectId, surface), draw)))
  {
    StartExactly(p, writing, projectId, surface, draw);
  }

  /** One id drawn for a start and again for its stop: the stop is answered and its bracket stays open. */
  lemma {:induction false} IdDrawnTwiceBreaks(p: Process, writing: Writing, projectId: Text, surface: Text, draw: Draw,
      again: Draw)
    requires InBrackets(p) && p.active.None? && draw.eventId !in p.world.db.receipts && again.eventId == draw.eventId
    requires Handle(p.world.settings, p.world.db, writing, None, StartObservation(projectId, surface), draw).result.Ok?
    ensures !InBrackets(Next(Next(p, writing, Ask(StartObservation(projectId, surface), draw)), writing,
            Ask(StopObservation(draw.newId), again)))
  {
    StartExactly(p, writing, projectId, surface, draw);
    var started := Next(p, writing, Ask(StartObservation(projectId, surface), draw));
    StartLeavesReceipt(p, writing, projectId, surface, draw);
    StopExactly(started, writing, draw.newId, again);
  }

  lemma {:induction false} StartLeavesReceipt(p: Process, writing: Writing, projectId: Text, surface: Text, draw: Draw)
    requires p.active.None?
    requires Handle(p.world.settings, p.world.db, writing, None, StartObservation(projectId, surface), draw).result.Ok?
    ensures var started := Next(p, writing, Ask(StartObservation(projectId, surface), draw));
            && started.active.Some? && started.active.value.sessionId == draw.newId
            && StaleId(started.world.settings, started.world.db, draw)
  {}

  lemma {:induction false} InsideSince(marks: seq<Mark>) returns (i: nat)
    requires PositionAfter(marks).Inside?
    ensures i < |marks| && marks[i].action == ObservationStarted && marks[i].session == PositionAfter(marks).session
    ensures forall k | i < k < |marks| :: marks[k].action == CheckpointCreated && marks[k].session == marks[i].session
  {
    i := |marks| - 1;
    if marks[i].action != ObservationStarted {
      i := InsideSince(marks[..|marks| - 1]);
    }
  }

  lemma {:induction false} NeverBroken(marks: seq<Mark>, n: nat)
    requires n <= |marks| && PositionAfter(marks) != Broken
    ensures PositionAfter(marks[..n]) != Broken
    decreases |marks|
  {
    if n == |marks| {
      assert marks[..n] == marks;
    } else {
      NeverBroken(marks[..|marks| - 1], n);
      assert marks[..|marks| - 1][..n] == marks[..n];
    }
  }

  /** `i` starts a bracket that is still open at `j`: only its own checkpoints lie between. */
  ghost predicate OpenedBy(marks: seq<Mark>, i: nat, j: nat)
    requires i < j < |marks|
  {
    && marks[i].action == ObservationStarted && marks[i].session == marks[j].session
    && forall k | i < k < j :: marks[k].action == CheckpointCreated && marks[k].session == marks[i].session
  }

  /**
   What unbroken means: each checkpoint and stop belongs to the bracket its session opened, and each start finds none
   open.
   */
  lemma {:induction false} BracketMeaning(marks: seq<Mark>, j: nat)
    requires PositionAfter(marks) != Broken && j < |marks|
    ensures marks[j].action != ObservationStarted ==> exists i :: 0 <= i < j && OpenedBy(marks, i, j)
    ensures marks[j].action == ObservationStarted && j > 0 ==> marks[j - 1].action == ObservationStopped
  {
    NeverBroken(marks, j + 1);
    NeverBroken(marks, j);
    assert marks[..j + 1][..j] == marks[..j];
    if marks[j].action != ObservationStarted {
      var i := InsideSince(marks[..j]);
      assert OpenedBy(marks, i, j);
    } else if j > 0 {
      assert marks[..j][..j - 1] == marks[..j - 1];
    }
  }

  lemma {:induction false} FreshSequence(w: Runs.World, raw: RawEvent, nonce: Option<Nonce>)
    requires Runs.Invariant(w)
    ensures var reply := Append(w.settings, w.db, raw, nonce);
            reply.result.Ok? && !reply.result.value.replayed ==>
              && reply.result.value.localSequence == |w.accepted| + 1
              && nonce.Some? && w.settings.activeVersion in w.settings.keys
  {
    if AppendBegin(w.settings, w.db, raw).None? {
      FreshTransaction(w.settings, w.db, raw, nonce);
    }
  }

  lemma {:induction false} FreshTransaction(s: Settings, db: Database, raw: RawEvent, nonce: Option<Nonce>)
    requires s.activeVersion in s.keys
    ensures var reply := AppendTransaction(s, db, raw, nonce);
            reply.result.Ok? && !reply.result.value.replayed ==>
              nonce.Some? && reply.result.value.localSequence == db.nextSequence
  {}

  /** What a call adds to the events written and to the history of the spool. */
  lemma {:induction false} CallAdds(p: Process, writing: Writing, call: Call, draw: Draw)
      returns (more: seq<Runs.Accepted>, marks: seq<Mark>)
    requires Runs.Invariant(p.world)
    ensures Next(p, writing, Ask(call, draw)).world.settings == p.world.settings
    ensures Next(p, writing, Ask(call, draw)).world.accepted == p.world.accepted + more
    ensures Next(p, writing, Ask(call, draw)).written == p.written + marks
    ensures |marks| == |more| <= 1
    ensures marks != [] ==>
              && marks[0].sequence == |p.world.accepted| + 1 && marks[0].raw.actionType == ActionName(marks[0].action)
              && more[0].stored == Redacted(p.world.settings.primitives, marks[0].raw)
  {
    var raw := HandleAppends(p.world, writing, p.active, call, draw);
    var handled := Handle(p.world.settings, p.world.db, writing, p.active, call, draw);
    if raw.Some? {
      FreshSequence(p.world, raw.value, draw.nonce);
    }
    marks, more := handled.marks, Added(p.world, handled, draw);
  }

  lemma {:induction false} TraceGrows(p: Primitives, accepted: seq<Runs.Accepted>, more: seq<Runs.Accepted>,
      marks: seq<Mark>, added: seq<Mark>)
    requires Traced(p, accepted, marks) && |added| == |more| <= 1
    requires added != [] ==>
               && added[0].sequence == |accepted| + 1 && added[0].raw.actionType == ActionName(added[0].action)
               && more[0].stored == Redacted(p, added[0].raw)
    ensures Traced(p, accepted + more, marks + added)
  {}

  lemma {:induction false} CallKeepsTrace(p: Process, writing: Writing, call: Call, draw: Draw)
    requires Runs.Invariant(p.world) && Traced(p.world.settings.primitives, p.world.accepted, p.written)
    ensures var after := Next(p, writing, Ask(call, draw));
            Traced(after.world.settings.primitives, after.world.accepted, after.written)
  {
    var more, marks := CallAdds(p, writing, call, draw);
    TraceGrows(p.world.settings.primitives, p.world.accepted, more, p.written, marks);
  }

  lemma {:induction false} OtherAdds(w: Runs.World, op: Runs.Op)
    ensures Runs.Step(w, op).settings.primitives == w.settings.primitives && w.accepted <= Runs.Step(w, op).accepted
  {}

  lemma {:induction false} TraceStays(p: Primitives, accepted: seq<Runs.Accepted>, later: seq<Runs.Accepted>,
      marks: seq<Mark>)
    requires Traced(p, accepted, marks) && accepted <= later
    ensures Traced(p, later, marks)
  {}

  lemma {:induction false} NextKeepsTrace(p: Process, writing: Writing, event: Event)
    requires Runs.Invariant(p.world) && Traced(p.world.settings.primitives, p.world.accepted, p.written)
    ensures var after := Next(p, writing, event);
            Traced(after.world.settings.primitives, after.world.accepted, after.written)
  {
    match event
    case Ask(call, draw) => CallKeepsTrace(p, writing, call, draw);
    case Elsewhere(op) =>
      OtherAdds(p.world, op);
      TraceStays(p.world.settings.primitives, p.world.accepted, Runs.Step(p.world, op).accepted, p.written);
  }

  ghost predicate Sound(p: Process) {
    Runs.Invariant(p.world) && Traced(p.world.settings.primitives, p.world.accepted, p.written)
  }

  lemma {:induction false} NextKeepsSound(p: Process, writing: Writing, event: Event)
    requires p.world.settings.primitives.Lawful() && Sound(p)
    ensures Sound(Next(p, writing, event))
    ensures Next(p, writing, event).world.settings.primitives == p.world.settings.primitives
  {
    NextKeepsInvariant(p, writing, event);
    NextKeepsTrace(p, writing, event);
  }

  /** The events written are accepted events of the spool, in the order of their sequences. */
  lemma {:induction false} TraceInEveryRun(p: Process, writing: Writing, events: seq<Event>)
    requires p.world.settings.primitives.Lawful() && Sound(p)
    ensures Sound(After(p, writing, events))
    decreases |events|
  {
    if events != [] {
      NextKeepsSound(p, writing, events[0]);
      TraceInEveryRun(Next(p, writing, events[0]), writing, events[1..]);
    }
  }
}

/** What each call of the runtime handler answers and leaves behind, field by field. */
module HandlerAnswers {
  import opened Common
  import opened SpoolState
  import opened RuntimeHandler

  /**
   The event a call appends: its id is drawn, its source and kind are fixed, and its text holds session and details.
   */
  ghost predicate IsRaw(raw: RawEvent, writing: Writing, draw: Draw, name: string, session: Text, details: Details) {
    && raw.eventId == draw.eventId && raw.source == Text(Ascii("local_ipc")) && raw.actionType == Text(Ascii(name))
    && raw.sourceSequence == None && raw.payload == writing(session, details)
  }

  /** The one event a call appended, the tables it left, and its mark if the spool did not know its id. */
  ghost predicate Appended(s: Settings, db: Database, raw: RawEvent, draw: Draw, action: Action, session: Text,
      h: Handled) {
    var reply := Append(s, db, raw, draw.nonce);
    && h.db == reply.db
    && (if reply.result.Ok? && !reply.result.value.replayed
        then h.marks == [Mark(action, session, reply.result.value.localSequence, raw)] else h.marks == [])
  }

  /** Nothing was appended, and the call was refused. */
  ghost predicate Refuses(db: Database, active: Option<ActiveObservation>, error: HandlerError, h: Handled) {
    h.db == db && h.active == active && h.marks == [] && h.result == Err(error)
  }

  /** An append that failed leaves the observation as it was. */
  ghost predicate Fails(s: Settings, db: Database, raw: RawEvent, draw: Draw, active: Option<ActiveObservation>,
      h: Handled) {
    Append(s, db, raw, draw.nonce).result.Err? && h.active == active && h.result == Err(Internal)
  }

  ghost predicate ReportsStatus(db: Database, active: Option<ActiveObservation>, h: Handled) {
    && h.db == db && h.active == active && h.marks == [] && h.result.Ok? && h.result.value.Status?
    && (h.result.value.observing <==> active.Some?)
    && (active.None? ==> h.result.value.activeSessionId == None)
    && (active.Some? ==> h.result.value.activeSessionId == Some(active.value.sessionId))
  }

  ghost predicate Checkpoints(s: Settings, db: Database, writing: Writing, now: ActiveObservation, reason: Reason,
      draw: Draw,
      raw: RawEvent, h: Handled) {
    && (exists details: Details ::
          && details.CheckpointDetails? && details.checkpointId == draw.newId && details.projectId == now.projectId
          && details.reason == reason && IsRaw(raw, writing, draw, "checkpoint.created", now.sessionId, details))
    && Appended(s, db, raw, draw, CheckpointCreated, now.sessionId, h)
    && (Fails(s, db, raw, draw, Some(now), h)
        || (var reply := Append(s, db, raw, draw.nonce).result;
            && reply.Ok? && h.active == Some(now) && h.result.Ok? && h.result.value.Checkpoint?
            && h.result.value.checkpointId == draw.newId && h.result.value.sessionId == now.sessionId
            && h.result.value.localSequence == reply.value.localSequence && h.result.value.reason == reason
            && h.result.value.createdAt == draw.later))
  }

  ghost predicate Starts(s: Settings, db: Database, writing: Writing, projectId: Text, surface: Text, draw: Draw,
      raw: RawEvent,
      h: Handled) {
    && (exists details: Details ::
          && details.StartDetails? && details.projectId == projectId && details.providerSurface == surface
          && details.startedAt == draw.now && IsRaw(raw, writing, draw, "observation.started", draw.newId, details))
    && Appended(s, db, raw, draw, ObservationStarted, draw.newId, h)
    && (Fails(s, db, raw, draw, None, h)
        || (&& Append(s, db, raw, draw.nonce).result.Ok? && h.active.Some? && h.result.Ok? && h.result.value.Started?
            && h.active.value.projectId == projectId && h.active.value.providerSurface == surface
            && h.active.value.sessionId == draw.newId && h.active.value.startedAt == draw.now
            && h.result.value.sessionId == draw.newId && h.result.value.startedAt == draw.now))
  }

  ghost predicate Stops(s: Settings, db: Database, writing: Writing, now: ActiveObservation, draw: Draw, raw: RawEvent,
      h: Handled) {
    && (exists details: Details ::
          && details.StopDetails? && details.checkpointId == draw.newId && details.projectId == now.projectId
          && (draw.now >= now.startedAt ==> details.duration + now.startedAt == draw.now)
          && (draw.now < now.startedAt ==> details.duration == 0)
          && IsRaw(raw, writing, draw, "observation.stopped", now.sessionId, details))
    && Appended(s, db, raw, draw, ObservationStopped, now.sessionId, h)
    && (Fails(s, db, raw, draw, Some(now), h)
        || (var reply := Append(s, db, raw, draw.nonce).result;
            && reply.Ok? && h.active == None && h.result.Ok? && h.result.value.Stopped?
            && h.result.value.checkpointId == draw.newId && h.result.value.sessionId == now.sessionId
            && h.result.value.localSequence == reply.value.localSequence && h.result.value.createdAt == draw.later))
  }

  /** What a call does, by what is active. */
  ghost predicate Does(s: Settings, db: Database, writing: Writing, active: Option<ActiveObservation>, call: Call,
      draw: Draw,
      h: Handled) {
    match call
    case GetStatus => ReportsStatus(db, active, h)
    case CreateCheckpoint(reason) =>
      if active.None? then Refuses(db, active, InvalidState, h)
      else exists raw :: Checkpoints(s, db, writing, active.value, reason, draw, raw, h)
    case StartObservation(projectId, surface) =>
      if active.None? then exists raw :: Starts(s, db, writing, projectId, surface, draw, raw, h)
      else if active.value.projectId != projectId || active.value.providerSurface != surface
      then Refuses(db, active, InvalidState, h)
      else
        && h.db == db && h.active == active && h.marks == [] && h.result.Ok? && h.result.value.Started?
        && h.result.value.sessionId == active.value.sessionId && h.result.value.startedAt == active.value.startedAt
    case StopObservation(sessionId) =>
      if active.None? then Refuses(db, active, InvalidState, h)
      else if active.value.sessionId != sessionId then Refuses(db, active, Forbidden, h)
      else exists raw :: Stops(s, db, writing, active.value, draw, raw, h)
  }

  lemma {:induction false} CheckpointDone(s: Settings, db: Database, writing: Writing, now: ActiveObservation,
      reason: Reason, draw: Draw)
    ensures exists raw ::
            Checkpoints(s, db, writing, now, reason, draw, raw,
            HandleCheckpoint(s, db, writing, Some(now), reason, draw))
  {
    var details := CheckpointDetails(draw.newId, now.projectId, reason);
    var raw := EventOf(writing, draw, CheckpointCreated, now.sessionId, details);
    assert IsRaw(raw, writing, draw, "checkpoint.created", now.sessionId, details);
    assert Checkpoints(s, db, writing, now, reason, draw, raw,
        HandleCheckpoint(s, db, writing, Some(now), reason, draw));
  }

  lemma {:induction false} StartDone(s: Settings, db: Database, writing: Writing, projectId: Text, surface: Text,
      draw: Draw)
    ensures exists raw ::
            Starts(s, db, writing, projectId, surface, draw, raw,
            HandleStart(s, db, writing, None, projectId, surface, draw))
  {
    var details := StartDetails(projectId, surface, draw.now);
    var raw := EventOf(writing, draw, ObservationStarted, draw.newId, details);
    assert IsRaw(raw, writing, draw, "observation.started", draw.newId, details);
    assert Starts(s, db, writing, projectId, surface, draw, raw,
        HandleStart(s, db, writing, None, projectId, surface, draw));
  }

  lemma {:induction false} StopDone(s: Settings, db: Database, writing: Writing, now: ActiveObservation, draw: Draw)
    ensures exists raw ::
            Stops(s, db, writing, now, draw, raw, HandleStop(s, db, writing, Some(now), now.sessionId, draw))
  {
    var details := StopDetails(draw.newId, now.projectId, if draw.now < now.startedAt then 0
        else draw.now - now.startedAt);
    var raw := EventOf(writing, draw, ObservationStopped, now.sessionId, details);
    assert IsRaw(raw, writing, draw, "observation.stopped", now.sessionId, details);
    assert Stops(s, db, writing, now, draw, raw, HandleStop(s, db, writing, Some(now), now.sessionId, draw));
  }

  /** Every call is answered, and changes the observation and the spool, as described. */
  lemma {:induction false} HandleExactly(s: Settings, db: Database, writing: Writing, active: Option<ActiveObservation>,
      call: Call,
      draw: Draw)
    ensures Does(s, db, writing, active, call, draw, Handle(s, db, writing, active, call, draw))
  {
    match call
    case GetStatus =>
    case CreateCheckpoint(reason) => if active.Some? { CheckpointDone(s, db, writing, active.value, reason, draw); }
    case StartObservation(projectId, surface) =>
        if active.None? { StartDone(s, db, writing, projectId, surface, draw); }
    case StopObservation(sessionId) =>
      if active.Some? && active.value.sessionId == sessionId { StopDone(s, db, writing, active.value, draw); }
  }
}

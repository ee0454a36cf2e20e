/**
 The Codex adapter: hook documents in, normalized events out, with duplicates dropped, sequences kept
 in order for each session, and open actions and package inventories carried from start to end.
 */
module CodexAdapter {
  import opened Common

  const CODEX_HOOK_SCHEMA_VERSION := 1

  // Inventories

  datatype InstalledPackage = InstalledPackage(ecosystem: Text, name: Text, version: Text, layerId: Text)

  datatype InstalledState = InstalledState(snapshotId: Text, packages: set<InstalledPackage>)

  datatype Delta = Delta(added: set<InstalledPackage>, removed: set<InstalledPackage>)

  function Between(before: InstalledState, after: InstalledState): Delta {
    Delta(after.packages - before.packages, before.packages - after.packages)
  }

  function Apply(packages: set<InstalledPackage>, delta: Delta): set<InstalledPackage> {
    packages - delta.removed + delta.added
  }

  /** A delta leads from one inventory to the other, with nothing in it that was not needed. */
  lemma DeltaLeads(before: InstalledState, after: InstalledState)
    ensures var delta := Between(before, after);
            && Apply(before.packages, delta) == after.packages
            && delta.removed <= before.packages && delta.added !! before.packages
            && (delta == Delta({}, {}) <==> before.packages == after.packages)
  {
    var delta := Between(before, after);
    forall p ensures p in Apply(before.packages, delta) <==> p in after.packages {}
    if delta == Delta({}, {}) {
      forall p ensures p in before.packages <==> p in after.packages {
        assert p !in delta.added && p !in delta.removed;
      }
    }
  }

  // Documents

  datatype Kind =
    | SessionStarted | SessionEnded | TurnStarted | TurnEnded
    | ToolStarted | ToolCompleted | ToolFailed
    | CommandStarted | CommandCompleted | CommandFailed
    | FileChanged | ApprovalRequested | ApprovalDecided
    | SubagentStarted | SubagentEnded | TerminalState

  datatype RawCodexEvent = RawCodexEvent(
    eventId: Text, sequence: Option<nat>, kind: Kind, sessionId: Text, turnId: Option<Text>, toolCallId: Option<Text>,
    subagentId: Option<Text>, monotonicNanos: nat, realmId: Text, providerProcessId: Option<nat>,
    commandOutput: Option<Text>, exitCode: Option<int>,
    inventoryBefore: Option<InstalledState>, inventoryAfter: Option<InstalledState>)

  datatype HookDocument = HookDocument(schemaVersion: nat, provider: Text, surface: Text, providerVersion: Text,
      event: RawCodexEvent)

  datatype Config = Config(
    providerVersion: Text, surface: Text, hooksEnabled: bool, hostedExecution: bool,
    parse: seq<byte> -> Option<HookDocument>, redactText: (Text, nat) -> Text)

  datatype Gap =
    | DisabledHook | MissingPreState | MissingSequence | MissingTerminalEvent | OutOfOrderSequence
    | ProviderGroundTruthConflict | UnsupportedHostedExecution

  datatype Outcome = Attempted | Succeeded | Failed | Unknown

  datatype Effect = Observed | NoEffect | UnknownEffect | ContradictsProviderOutcome

  datatype Action = Action(actionType: Text, outcome: Outcome, effect: Effect, delta: Delta, gaps: set<Gap>)

  datatype Normalized = Normalized(
    eventId: Text, kind: Kind, sessionId: Text, turnId: Option<Text>, toolCallId: Option<Text>,
        subagentId: Option<Text>,
    sequence: Option<nat>, monotonicNanos: nat, redactedSummary: Option<Text>, action: Option<Action>, gaps: set<Gap>)

  datatype BoundaryKind = Started | DrainRequested

  datatype Boundary = Boundary(kind: BoundaryKind, sessionId: Text, monotonicNanos: nat, providerProcessId: Option<nat>)

  datatype Output = Output(event: Option<Normalized>, boundary: Option<Boundary>, gaps: set<Gap>,
      duplicateDropped: bool)

  datatype AdapterError = InvalidPayload | UnsupportedSchemaVersion | WrongProvider

  function Silent(gaps: set<Gap>): Output {
    Output(None, None, gaps, false)
  }

  // Pure parts

  predicate Starts(kind: Kind) {
    kind.ToolStarted? || kind.CommandStarted? || kind.SubagentStarted?
  }

  predicate Closes(kind: Kind) {
    kind.ToolCompleted? || kind.ToolFailed? || kind.CommandCompleted? || kind.CommandFailed? || kind.SubagentEnded?
  }

  predicate EndsCommand(kind: Kind) {
    kind.CommandCompleted? || kind.CommandFailed?
  }

  function ActionKey(raw: RawCodexEvent): Text {
    if raw.toolCallId.Some? then raw.toolCallId.value else raw.eventId
  }

  predicate ValidRaw(raw: RawCodexEvent) {
    0 < |raw.eventId.bytes| <= 200 && 0 < |raw.sessionId.bytes| <= 200 && |raw.realmId.bytes| > 0
  }

  function ObservationBoundary(raw: RawCodexEvent): Option<Boundary> {
    match raw.kind
    case SessionStarted => Some(Boundary(Started, raw.sessionId, raw.monotonicNanos, raw.providerProcessId))
    case SessionEnded => Some(Boundary(DrainRequested, raw.sessionId, raw.monotonicNanos, raw.providerProcessId))
    case _ => None
  }

  function ActionType(kind: Kind): Text {
    match kind
    case CommandStarted => Text(Ascii("command.started"))
    case CommandCompleted => Text(Ascii("command.completed"))
    case CommandFailed => Text(Ascii("command.failed"))
    case FileChanged => Text(Ascii("file.changed"))
    case _ => Text(Ascii("provider.event"))
  }

  function OutcomeOf(raw: RawCodexEvent): Outcome {
    match raw.kind
    case CommandStarted => Attempted
    case CommandCompleted => if raw.exitCode.Some? && raw.exitCode.value != 0 then Failed else Succeeded
    case FileChanged => if raw.exitCode.Some? && raw.exitCode.value != 0 then Failed else Succeeded
    case CommandFailed => Failed
    case _ => Unknown
  }

  function CorrelateEffect(outcome: Outcome, before: Option<InstalledState>,
      after: Option<InstalledState>): (Effect, Delta, set<Gap>) {
    if before.None? || after.None? then (UnknownEffect, Delta({}, {}), {MissingPreState})
    else
      var delta := Between(before.value, after.value);
      if delta.added == {} && delta.removed == {} then (NoEffect, delta, {})
      else if outcome == Failed then (ContradictsProviderOutcome, delta, {ProviderGroundTruthConflict})
      else (Observed, delta, {})
  }

  /** The action of an event, whose gaps are those before it and those of its effect. */
  function BuildAction(raw: RawCodexEvent, pending: Option<InstalledState>, gaps: set<Gap>): Option<Action> {
    if !(raw.kind.CommandStarted? || raw.kind.CommandCompleted? || raw.kind.CommandFailed?
      || raw.kind.FileChanged?) then None else
    var before := if raw.inventoryBefore.Some? then raw.inventoryBefore else pending;
    var (effect, delta, effectGaps) := CorrelateEffect(OutcomeOf(raw), before, raw.inventoryAfter);
    Some(Action(ActionType(raw.kind), OutcomeOf(raw), effect, delta, gaps + effectGaps))
  }

  function Emit(config: Config, raw: RawCodexEvent, pending: Option<InstalledState>, gaps: set<Gap>): Output {
    var action := BuildAction(raw, pending, gaps);
    var allGaps := if action.Some? then action.value.gaps else gaps;
    var summary := if raw.commandOutput.Some? then Some(config.redactText(raw.commandOutput.value, 4096)) else None;
    Output(Some(Normalized(raw.eventId, raw.kind, raw.sessionId, raw.turnId, raw.toolCallId, raw.subagentId,
        raw.sequence,
                           raw.monotonicNanos, summary, action, allGaps)),
           ObservationBoundary(raw), allGaps, false)
  }

  // The adapter

  datatype SessionState = SessionState(lastSequence: Option<nat>, openActions: set<Text>,
      pendingBefore: map<Text, InstalledState>)

  const NEW_SESSION := SessionState(None, {}, map[])

  datatype Adapter = Adapter(sessions: map<Text, SessionState>, seen: set<Text>)

  datatype Answered = Answered(adapter: Adapter, result: Result<Output, AdapterError>)

  function SessionOf(a: Adapter, id: Text): SessionState {
    if id in a.sessions then a.sessions[id] else NEW_SESSION
  }

  predicate OutOfOrder(s: SessionState, raw: RawCodexEvent) {
    raw.sequence.Some? && s.lastSequence.Some? && raw.sequence.value <= s.lastSequence.value
  }

  function SequenceGaps(raw: RawCodexEvent): set<Gap> {
    if raw.sequence.None? then {MissingSequence} else {}
  }

  /** Opens or closes the event's action, or checks at the end of a session that none is open. */
  function Track(s: SessionState, raw: RawCodexEvent): (SessionState, set<Gap>) {
    var key := ActionKey(raw);
    if raw.kind.SessionEnded? then (s, if s.openActions != {} then {MissingTerminalEvent} else {})
    else if Starts(raw.kind) then (s.(openActions := s.openActions + {key}), {})
    else if Closes(raw.kind) then (s.(openActions := s.openActions - {key}), if key in s.openActions then {}
      else {MissingTerminalEvent})
    else (s, {})
  }

  function WithSnapshot(s: SessionState, raw: RawCodexEvent): SessionState {
    if raw.kind.CommandStarted? && raw.inventoryBefore.Some?
    then s.(pendingBefore := s.pendingBefore[ActionKey(raw) := raw.inventoryBefore.value]) else s
  }

  function Pending(s: SessionState, raw: RawCodexEvent): Option<InstalledState> {
    if ActionKey(raw) in s.pendingBefore then Some(s.pendingBefore[ActionKey(raw)]) else None
  }

  function DropSnapshot(s: SessionState, raw: RawCodexEvent): SessionState {
    if EndsCommand(raw.kind) then s.(pendingBefore := s.pendingBefore - {ActionKey(raw)}) else s
  }

  function NormalizeEvent(config: Config, a: Adapter, raw: RawCodexEvent): Answered {
    if !ValidRaw(raw) then Answered(a, Err(InvalidPayload)) else
    var s := SessionOf(a, raw.sessionId);
    if OutOfOrder(s, raw) then
      Answered(a.(sessions := a.sessions[raw.sessionId := s]), Ok(Silent({OutOfOrderSequence})))
    else
      var sequenced := s.(lastSequence := if raw.sequence.Some? then raw.sequence else s.lastSequence);
      var (tracked, gaps) := Track(sequenced, raw);
      var snapshotted := WithSnapshot(tracked, raw);
      Answered(a.(sessions := a.sessions[raw.sessionId := DropSnapshot(snapshotted, raw)]),
               Ok(Emit(config, raw, Pending(snapshotted, raw), SequenceGaps(raw) + gaps)))
  }

  /** What is decided before an event is looked at: an error, a silent answer, or the event itself. */
  function Admit(config: Config, bytes: seq<byte>): Result<(Option<RawCodexEvent>, Output), AdapterError> {
    match config.parse(bytes)
    case None => Err(InvalidPayload)
    case Some(document) =>
      if document.schemaVersion != CODEX_HOOK_SCHEMA_VERSION then Err(UnsupportedSchemaVersion)
      else if document.provider != Text(Ascii("codex")) || document.surface
        != config.surface || document.providerVersion != config.providerVersion
      then Err(WrongProvider)
      else if !config.hooksEnabled then Ok((None, Silent({DisabledHook})))
      else if config.hostedExecution then Ok((None, Silent({UnsupportedHostedExecution})))
      else Ok((Some(document.event), Silent({})))
  }

  function Normalize(config: Config, a: Adapter, bytes: seq<byte>): Answered {
    match Admit(config, bytes)
    case Err(e) => Answered(a, Err(e))
    case Ok((None, output)) => Answered(a, Ok(output))
    case Ok((Some(raw), _)) =>
      if raw.eventId in a.seen then Answered(a, Ok(Output(None, None, {}, true)))
      else NormalizeEvent(config, a.(seen := a.seen + {raw.eventId}), raw)
  }

  class CodexAdapter {
    const config: Config
    var sessions: map<Text, SessionState>
    var seenEventIds: set<Text>

    constructor (config: Config)
      ensures this.config == config && State() == Adapter(map[], {})
    {
      this.config, this.sessions, this.seenEventIds := config, map[], {};
    }

    function State(): Adapter
      reads this
    {
      Adapter(sessions, seenEventIds)
    }

    method NormalizeDocument(bytes: seq<byte>) returns (result: Result<Output, AdapterError>)
      modifies this
      ensures Answered(State(), result) == Normalize(config, old(State()), bytes)
    {
      var admitted := Admit(config, bytes);
      if admitted.Err? {
        return Err(admitted.error);
      }
      var (raw, output) := admitted.value;
      if raw.None? {
        return Ok(output);
      }
      if raw.value.eventId in seenEventIds {
        return Ok(Output(None, None, {}, true));
      }
      seenEventIds := seenEventIds + {raw.value.eventId};
      result := NormalizeAdmitted(raw.value);
    }

    method NormalizeAdmitted(raw: RawCodexEvent) returns (result: Result<Output, AdapterError>)
      modifies this`sessions
      ensures Answered(State(), result) == NormalizeEvent(config, old(State()), raw)
    {
      if !ValidRaw(raw) {
        return Err(InvalidPayload);
      }
      var session := if raw.sessionId in sessions then sessions[raw.sessionId] else NEW_SESSION;
      var gaps: set<Gap> := {};
      if raw.sequence.Some? {
        if session.lastSequence.Some? && raw.sequence.value <= session.lastSequence.value {
          sessions := sessions[raw.sessionId := session];
          return Ok(Silent({OutOfOrderSequence}));
        }
        session := session.(lastSequence := raw.sequence);
      } else {
        gaps := gaps + {MissingSequence};
      }
      ghost var tracked := Track(session, raw);
      var key := ActionKey(raw);
      if raw.kind.SessionEnded? {
        if session.openActions != {} {
          gaps := gaps + {MissingTerminalEvent};
        }
      } else if Starts(raw.kind) {
        session := session.(openActions := session.openActions + {key});
      } else if Closes(raw.kind) {
        if key !in session.openActions {
          gaps := gaps + {MissingTerminalEvent};
        }
        session := session.(openActions := session.openActions - {key});
      }
      if raw.kind.CommandStarted? && raw.inventoryBefore.Some? {
        session := session.(pendingBefore := session.pendingBefore[key := raw.inventoryBefore.value]);
      }
      var pending := if key in session.pendingBefore then Some(session.pendingBefore[key]) else None;
      if EndsCommand(raw.kind) {
        session := session.(pendingBefore := session.pendingBefore - {key});
      }
      assert gaps == SequenceGaps(raw) + tracked.1;
      sessions := sessions[raw.sessionId := session];
      result := Ok(Emit(config, raw, pending, gaps));
    }
  }
}

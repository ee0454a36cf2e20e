/**
 The adapter's answer to a document, field by field, from the documents before it and the events they gave: which
 documents are let in, what becomes of an event, and what the event given out says of its action, its effect and its
 gaps.
 */
module CodexAnswers {
  import opened Common
  import opened CodexAdapter
  import opened CodexHistory

  // Documents

  /** A document of schema version 1 for this provider, surface and version. */
  ghost predicate Addressed(config: Config, document: HookDocument) {
    && document.provider == Text(Ascii("codex")) && document.surface == config.surface
    && document.providerVersion == config.providerVersion
  }

  /** The document carries this event past its header. */
  ghost predicate LetIn(config: Config, bytes: seq<byte>, raw: RawCodexEvent) {
    && config.hooksEnabled && !config.hostedExecution
    && exists document {:trigger Addressed(config, document)} ::
         && config.parse(bytes) == Some(document) && document.schemaVersion == 1 && Addressed(config, document)
         && document.event == raw
  }

  ghost predicate SeenBefore(config: Config, documents: seq<seq<byte>>, id: Text) {
    exists n, raw {:trigger LetIn(config, documents[n], raw)} ::
      0 <= n < |documents| && LetIn(config, documents[n], raw) && raw.eventId == id
  }

  /** The events given out so far, as they came in. */
  ghost function Given(config: Config, documents: seq<seq<byte>>): seq<RawCodexEvent> {
    if documents == [] then [] else
    var front, last := documents[..|documents| - 1], documents[|documents| - 1];
    Given(config, front) +
      if GivesEvent(Reply(config, front, last)) then
        (if raw :| LetIn(config, last, raw) then [raw] else [])
      else []
  }

  // Events

  /** Two events of one action of one session. */
  predicate SameAction(a: RawCodexEvent, b: RawCodexEvent) {
    && a.sessionId == b.sessionId
    && (if a.toolCallId.Some? then a.toolCallId.value else a.eventId) == (if b.toolCallId.Some? then b.toolCallId.value
       else b.eventId)
  }

  predicate Opens(raw: RawCodexEvent) {
    raw.kind in {ToolStarted, CommandStarted, SubagentStarted}
  }

  predicate Shuts(raw: RawCodexEvent) {
    raw.kind in {ToolCompleted, ToolFailed, CommandCompleted, CommandFailed, SubagentEnded}
  }

  /** Event `i` opened an action that no later event shut. */
  predicate LeftOpenAt(given: seq<RawCodexEvent>, i: int) {
    0 <= i < |given| && Opens(given[i]) && forall j | i < j < |given| ::
        !(SameAction(given[j], given[i]) && Shuts(given[j]))
  }

  /**
   The package inventory that the start of this event's command recorded, if no later one of the command has ended it.
   */
  predicate RecordedAt(given: seq<RawCodexEvent>, raw: RawCodexEvent, i: int) {
    && 0 <= i < |given| && SameAction(given[i], raw) && given[i].kind == CommandStarted
       && given[i].inventoryBefore.Some?
    && forall j | i < j < |given| ::
         !(SameAction(given[j], raw)
           && (given[j].kind in {CommandCompleted, CommandFailed}
               || (given[j].kind == CommandStarted && given[j].inventoryBefore.Some?)))
  }

  /** The inventory before an event: its own, or the recorded one. */
  ghost predicate IsBefore(given: seq<RawCodexEvent>, raw: RawCodexEvent, before: Option<InstalledState>) {
    if raw.inventoryBefore.Some? then before == raw.inventoryBefore
    else if exists i :: RecordedAt(given, raw, i) then exists i ::
      RecordedAt(given, raw, i) && before == given[i].inventoryBefore
    else before == None
  }

  /** An event of its session came with this sequence or a later one. */
  ghost predicate Overtaken(given: seq<RawCodexEvent>, raw: RawCodexEvent) {
    raw.sequence.Some? && exists i :: 0 <= i < |given| && given[i].sessionId == raw.sessionId
                                      && given[i].sequence.Some? && raw.sequence.value <= given[i].sequence.value
  }

  predicate IsAction(raw: RawCodexEvent) {
    raw.kind in {CommandStarted, CommandCompleted, CommandFailed, FileChanged}
  }

  /** The provider says the action failed. */
  predicate SaysFailed(raw: RawCodexEvent) {
    raw.kind == CommandFailed || (raw.kind != CommandStarted && raw.exitCode.Some? && raw.exitCode.value != 0)
  }

  predicate Changed(before: Option<InstalledState>, after: Option<InstalledState>) {
    before.Some? && after.Some? && before.value.packages != after.value.packages
  }

  /** What is missing or amiss about an event. */
  ghost predicate HasGap(given: seq<RawCodexEvent>, raw: RawCodexEvent, before: Option<InstalledState>, gap: Gap) {
    match gap
    case MissingSequence => raw.sequence.None?
    case MissingTerminalEvent =>
      || (raw.kind == SessionEnded && exists i :: LeftOpenAt(given, i) && given[i].sessionId == raw.sessionId)
      || (Shuts(raw) && !exists i :: LeftOpenAt(given, i) && SameAction(given[i], raw))
    case MissingPreState => IsAction(raw) && (before.None? || raw.inventoryAfter.None?)
    case ProviderGroundTruthConflict => IsAction(raw) && Changed(before, raw.inventoryAfter) && SaysFailed(raw)
    case DisabledHook => false
    case OutOfOrderSequence => false
    case UnsupportedHostedExecution => false
  }

  function NameOf(kind: Kind): string {
    if kind == CommandStarted then "command.started" else if kind == CommandCompleted then "command.completed"
    else if kind == CommandFailed then "command.failed" else "file.changed"
  }

  /** What was done, as the provider says it, and what it did, as the inventories say. */
  ghost predicate Reports(raw: RawCodexEvent, before: Option<InstalledState>, action: Action) {
    && action.actionType == Text(Ascii(NameOf(raw.kind)))
    && action.outcome == (if raw.kind == CommandStarted then Attempted else if SaysFailed(raw) then Failed
       else Succeeded)
    && (if before.None? || raw.inventoryAfter.None? then action.effect == UnknownEffect && action.delta == Delta({}, {})
        else
          && action.effect == (if !Changed(before, raw.inventoryAfter) then NoEffect
                               else if SaysFailed(raw) then ContradictsProviderOutcome else Observed)
          && (forall p :: p in action.delta.added <==>
             p in raw.inventoryAfter.value.packages && p !in before.value.packages)
          && (forall p :: p in action.delta.removed <==>
             p in before.value.packages && p !in raw.inventoryAfter.value.packages))
  }

  ghost predicate MarksBoundary(raw: RawCodexEvent, boundary: Option<Boundary>) {
    if raw.kind == SessionStarted then
      boundary == Some(Boundary(Started, raw.sessionId, raw.monotonicNanos, raw.providerProcessId))
    else if raw.kind == SessionEnded then
      boundary == Some(Boundary(DrainRequested, raw.sessionId, raw.monotonicNanos, raw.providerProcessId))
    else boundary == None
  }

  /** The event is given out as it came, with its summary redacted, its action judged and its gaps named. */
  ghost predicate GivesOut(config: Config, given: seq<RawCodexEvent>, raw: RawCodexEvent, output: Output) {
    && !output.duplicateDropped && MarksBoundary(raw, output.boundary)
    && output.event.Some?
    && var event := output.event.value;
       && event.eventId == raw.eventId && event.kind == raw.kind && event.sessionId == raw.sessionId
       && event.turnId == raw.turnId && event.toolCallId == raw.toolCallId && event.subagentId == raw.subagentId
       && event.sequence == raw.sequence && event.monotonicNanos == raw.monotonicNanos
       && (event.redactedSummary.Some? <==> raw.commandOutput.Some?)
       && (raw.commandOutput.Some? ==> event.redactedSummary.value == config.redactText(raw.commandOutput.value, 4_096))
       && event.gaps == output.gaps
       && (event.action.Some? <==> IsAction(raw))
       && exists before {:trigger IsBefore(given, raw, before)} ::
            && IsBefore(given, raw, before)
            && (forall gap :: gap in output.gaps <==> HasGap(given, raw, before, gap))
            && (IsAction(raw) ==> Reports(raw, before, event.action.value) && event.action.value.gaps == output.gaps)
  }

  ghost predicate OnlyGap(output: Output, gap: Gap) {
    output.event.None? && output.boundary.None? && output.gaps == {gap} && !output.duplicateDropped
  }

  predicate Proper(raw: RawCodexEvent) {
    && 1 <= |raw.eventId.bytes| <= 200 && 1 <= |raw.sessionId.bytes| <= 200 && 1 <= |raw.realmId.bytes|
  }

  /** The answer to a document whose header is in order. */
  ghost predicate AnswersEvent(config: Config, documents: seq<seq<byte>>, raw: RawCodexEvent,
      result: Result<Output, AdapterError>) {
    if SeenBefore(config, documents, raw.eventId) then
      result.Ok? && result.value.event.None? && result.value.boundary.None? && result.value.gaps == {}
          && result.value.duplicateDropped
    else if !Proper(raw) then result == Err(InvalidPayload)
    else if Overtaken(Given(config, documents), raw) then result.Ok? && OnlyGap(result.value, OutOfOrderSequence)
    else result.Ok? && GivesOut(config, Given(config, documents), raw, result.value)
  }

  /** The answer to any document. */
  ghost predicate Answers(config: Config, documents: seq<seq<byte>>, bytes: seq<byte>,
      result: Result<Output, AdapterError>) {
    match config.parse(bytes)
    case None => result == Err(InvalidPayload)
    case Some(document) =>
      if document.schemaVersion != 1 then result == Err(UnsupportedSchemaVersion)
      else if !Addressed(config, document) then result == Err(WrongProvider)
      else if !config.hooksEnabled then result.Ok? && OnlyGap(result.value, DisabledHook)
      else if config.hostedExecution then result.Ok? && OnlyGap(result.value, UnsupportedHostedExecution)
      else AnswersEvent(config, documents, document.event, result)
  }

  // The adapter answers so

  lemma {:induction false} LetInExactly(config: Config, bytes: seq<byte>, raw: RawCodexEvent)
    ensures LetIn(config, bytes, raw) <==> EventIn(config, bytes) == Some(raw)
  {
    if EventIn(config, bytes) == Some(raw) {
      assert Addressed(config, config.parse(bytes).value);
    }
  }

  lemma {:induction false} SeenExactly(config: Config, documents: seq<seq<byte>>, id: Text)
    ensures SeenBefore(config, documents, id) <==> id in HistoryOf(config, documents).consumed
  {
    ConsumedExactly(config, documents, id);
    if n, raw :| 0 <= n < |documents| && LetIn(config, documents[n], raw) && raw.eventId == id {
      LetInExactly(config, documents[n], raw);
      assert Carries(config, documents[n], id);
    }
    if n :| 0 <= n < |documents| && Carries(config, documents[n], id) {
      LetInExactly(config, documents[n], EventIn(config, documents[n]).value);
    }
  }

  lemma {:induction false} GivenExactly(config: Config, documents: seq<seq<byte>>)
    ensures Given(config, documents) == HistoryOf(config, documents).accepted
  {
    if documents != [] {
      var front, last := documents[..|documents| - 1], documents[|documents| - 1];
      GivenExactly(config, front);
      AdapterFollowsHistory(config, front, last);
      forall raw ensures LetIn(config, last, raw) <==> EventIn(config, last) == Some(raw) {
        LetInExactly(config, last, raw);
      }
    }
  }

  lemma {:induction false} OvertakenExactly(given: seq<RawCodexEvent>, raw: RawCodexEvent)
    requires Ascending(given)
    ensures Overtaken(given, raw) <==> Late(given, raw)
  {
    LastIsThere(given, raw.sessionId);
    forall i: nat | i < |given| && given[i].sessionId == raw.sessionId && given[i].sequence.Some?
      ensures LastSequence(given, raw.sessionId).Some?
      ensures given[i].sequence.value <= LastSequence(given, raw.sessionId).value
    {
      LastIsGreatest(given, raw.sessionId, i);
    }
  }

  lemma {:induction false} LastIsThere(given: seq<RawCodexEvent>, session: Text)
    ensures LastSequence(given, session).Some? ==>
              exists i :: 0 <= i < |given| && given[i].sessionId == session && given[i].sequence.Some?
                          && given[i].sequence == LastSequence(given, session)
  {
    if given != [] && !(given[|given| - 1].sessionId == session && given[|given| - 1].sequence.Some?) {
      LastIsThere(given[..|given| - 1], session);
    }
  }

  lemma {:induction false} OpenExactly(given: seq<RawCodexEvent>, session: Text, key: Text, i: int)
    ensures Unclosed(given, session, key, i) <==> LeftOpenAt(given, i) && At(given[i], session, key)
  {}

  lemma {:induction false} ActionOpen(given: seq<RawCodexEvent>, raw: RawCodexEvent)
    ensures IsOpen(given, raw.sessionId, ActionKey(raw)) <==> exists i ::
            LeftOpenAt(given, i) && SameAction(given[i], raw)
  {
    forall i ensures Unclosed(given, raw.sessionId, ActionKey(raw), i) <==>
        LeftOpenAt(given, i) && SameAction(given[i], raw) {
      OpenExactly(given, raw.sessionId, ActionKey(raw), i);
    }
  }

  lemma {:induction false} SomeActionOpen(given: seq<RawCodexEvent>, session: Text)
    ensures (exists key :: IsOpen(given, session, key)) <==> exists i ::
            LeftOpenAt(given, i) && given[i].sessionId == session
  {
    if key :| IsOpen(given, session, key) {
      var i :| Unclosed(given, session, key, i);
      OpenExactly(given, session, key, i);
    }
    if i :| LeftOpenAt(given, i) && given[i].sessionId == session {
      OpenExactly(given, session, ActionKey(given[i]), i);
      assert IsOpen(given, session, ActionKey(given[i]));
    }
  }

  lemma {:induction false} TerminalExactly(given: seq<RawCodexEvent>, raw: RawCodexEvent)
    ensures MissingTerminalEvent in TerminalGaps(given, raw) <==> HasGap(given, raw, None, MissingTerminalEvent)
    ensures TerminalGaps(given, raw) <= {MissingTerminalEvent}
  {
    ActionOpen(given, raw);
    SomeActionOpen(given, raw.sessionId);
  }

  lemma {:induction false} BeforeExactly(given: seq<RawCodexEvent>, raw: RawCodexEvent)
    ensures IsBefore(given, raw, if raw.inventoryBefore.Some? then raw.inventoryBefore else SnapshotFor(given, raw))
  {
    forall i ensures RecordedAt(given, raw, i) <==> Standing(given, raw.sessionId, ActionKey(raw), i) {}
  }

  lemma {:induction false} EffectExactly(raw: RawCodexEvent, pending: Option<InstalledState>, gaps: set<Gap>)
    ensures BuildAction(raw, pending, gaps).Some? <==> IsAction(raw)
    ensures IsAction(raw) ==>
              var before := if raw.inventoryBefore.Some? then raw.inventoryBefore else pending;
              var action := BuildAction(raw, pending, gaps).value;
              && Reports(raw, before, action)
              && (forall gap :: gap in action.gaps <==>
                    || gap in gaps
                    || (gap == MissingPreState && (before.None? || raw.inventoryAfter.None?))
                    || (gap == ProviderGroundTruthConflict && Changed(before, raw.inventoryAfter) && SaysFailed(raw)))
  {
    var before := if raw.inventoryBefore.Some? then raw.inventoryBefore else pending;
    if IsAction(raw) && before.Some? && raw.inventoryAfter.Some? {
      DeltaLeads(before.value, raw.inventoryAfter.value);
    }
  }

  lemma {:induction false} GapsExactly(config: Config, given: seq<RawCodexEvent>, raw: RawCodexEvent)
    ensures var before := if raw.inventoryBefore.Some? then raw.inventoryBefore else SnapshotFor(given, raw);
            forall gap :: HasGap(given, raw, before, gap) <==>
              gap in Emit(config, raw, SnapshotFor(given, raw), SequenceGaps(raw) + TerminalGaps(given, raw)).gaps
  {
    var gaps := SequenceGaps(raw) + TerminalGaps(given, raw);
    var before := if raw.inventoryBefore.Some? then raw.inventoryBefore else SnapshotFor(given, raw);
    var output := Emit(config, raw, SnapshotFor(given, raw), gaps);
    TerminalExactly(given, raw);
    EffectExactly(raw, SnapshotFor(given, raw), gaps);
    forall gap ensures gap in output.gaps <==> HasGap(given, raw, before, gap) {
      assert HasGap(given, raw, before, MissingTerminalEvent) <==> HasGap(given, raw, None, MissingTerminalEvent);
    }
  }

  lemma {:induction false} GivesOutExactly(config: Config, given: seq<RawCodexEvent>, raw: RawCodexEvent)
    ensures GivesOut(config, given, raw,
            Emit(config, raw, SnapshotFor(given, raw), SequenceGaps(raw) + TerminalGaps(given, raw)))
  {
    var gaps := SequenceGaps(raw) + TerminalGaps(given, raw);
    var before := if raw.inventoryBefore.Some? then raw.inventoryBefore else SnapshotFor(given, raw);
    var output := Emit(config, raw, SnapshotFor(given, raw), gaps);
    TerminalExactly(given, raw);
    BeforeExactly(given, raw);
    EffectExactly(raw, SnapshotFor(given, raw), gaps);
    GapsExactly(config, given, raw);
  }

  /** Whatever came before, the adapter answers a document as described. */
  lemma {:induction false} AnswersExactly(config: Config, documents: seq<seq<byte>>, bytes: seq<byte>)
    ensures Answers(config, documents, bytes, Reply(config, documents, bytes))
  {
    AdapterFollowsHistory(config, documents, bytes);
    GivenExactly(config, documents);
    EmittedAreAccepted(config, documents);
    if EventIn(config, bytes).Some? {
      var raw := EventIn(config, bytes).value;
      SeenExactly(config, documents, raw.eventId);
      OvertakenExactly(Given(config, documents), raw);
      GivesOutExactly(config, Given(config, documents), raw);
    }
  }
}

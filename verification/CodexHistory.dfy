/**
 What the adapter answers, told from the history of its input alone: the ids it has been given and the events it has
 accepted.
 */
module CodexHistory {
  import opened Common
  import opened CodexAdapter

  datatype History = History(consumed: set<Text>, accepted: seq<RawCodexEvent>)

  const EMPTY := History({}, [])

  /** Whether `raw` is an event of this session under this action key. */
  predicate At(raw: RawCodexEvent, session: Text, key: Text) {
    raw.sessionId == session && ActionKey(raw) == key
  }

  /** Event `i` starts an action that no later event of its session closes. */
  predicate Unclosed(accepted: seq<RawCodexEvent>, session: Text, key: Text, i: int) {
    && 0 <= i < |accepted| && At(accepted[i], session, key) && Starts(accepted[i].kind)
    && forall j | i < j < |accepted| :: !(At(accepted[j], session, key) && Closes(accepted[j].kind))
  }

  ghost predicate IsOpen(accepted: seq<RawCodexEvent>, session: Text, key: Text) {
    exists i :: Unclosed(accepted, session, key, i)
  }

  predicate Snapshots(raw: RawCodexEvent) {
    raw.kind.CommandStarted? && raw.inventoryBefore.Some?
  }

  /** Event `i` is a command's start snapshot that no later event of that command replaces or ends. */
  predicate Standing(accepted: seq<RawCodexEvent>, session: Text, key: Text, i: int) {
    && 0 <= i < |accepted| && At(accepted[i], session, key) && Snapshots(accepted[i])
    && forall j | i < j < |accepted| ::
       !(At(accepted[j], session, key) && (Snapshots(accepted[j]) || EndsCommand(accepted[j].kind)))
  }

  lemma StandingUnique(accepted: seq<RawCodexEvent>, session: Text, key: Text, i: int, j: int)
    requires Standing(accepted, session, key, i) && Standing(accepted, session, key, j)
    ensures i == j
  {}

  /** The inventory a command's event can be compared with, when it has none of its own. */
  ghost function StartSnapshot(accepted: seq<RawCodexEvent>, session: Text, key: Text): Option<InstalledState> {
    if i: int :| Standing(accepted, session, key, i) then accepted[i].inventoryBefore else None
  }

  /** The last sequence accepted for a session. */
  function LastSequence(accepted: seq<RawCodexEvent>, session: Text): Option<nat> {
    if accepted == [] then None
    else if accepted[|accepted| - 1].sessionId == session && accepted[|accepted| - 1].sequence.Some? then
      accepted[|accepted| - 1].sequence
    else LastSequence(accepted[..|accepted| - 1], session)
  }

  // The answer, from the history

  /** A session end misses a close when some action is open; a close misses one when its own is not. */
  ghost function TerminalGaps(accepted: seq<RawCodexEvent>, raw: RawCodexEvent): set<Gap> {
    if raw.kind.SessionEnded? then (if exists key :: IsOpen(accepted, raw.sessionId, key) then {MissingTerminalEvent}
      else {})
    else if Closes(raw.kind) && !IsOpen(accepted, raw.sessionId, ActionKey(raw)) then {MissingTerminalEvent}
    else {}
  }

  ghost function SnapshotFor(accepted: seq<RawCodexEvent>, raw: RawCodexEvent): Option<InstalledState> {
    if Snapshots(raw) then raw.inventoryBefore else StartSnapshot(accepted, raw.sessionId, ActionKey(raw))
  }

  predicate Late(accepted: seq<RawCodexEvent>, raw: RawCodexEvent) {
    var last := LastSequence(accepted, raw.sessionId);
    raw.sequence.Some? && last.Some? && raw.sequence.value <= last.value
  }

  ghost function AnswerEvent(config: Config, h: History, raw: RawCodexEvent): (History, Result<Output, AdapterError>) {
    if !ValidRaw(raw) then (h, Err(InvalidPayload))
    else if Late(h.accepted, raw) then (h, Ok(Silent({OutOfOrderSequence})))
    else (h.(accepted := h.accepted + [raw]),
          Ok(Emit(config, raw, SnapshotFor(h.accepted, raw), SequenceGaps(raw) + TerminalGaps(h.accepted, raw))))
  }

  /** An id is consumed by the first document that has it, whatever becomes of that document's event. */
  ghost function Answer(config: Config, h: History, bytes: seq<byte>): (History, Result<Output, AdapterError>) {
    match Admit(config, bytes)
    case Err(e) => (h, Err(e))
    case Ok((None, output)) => (h, Ok(output))
    case Ok((Some(raw), _)) =>
      if raw.eventId in h.consumed then (h, Ok(Output(None, None, {}, true)))
      else AnswerEvent(config, h.(consumed := h.consumed + {raw.eventId}), raw)
  }

  // Sessions summarize the history

  ghost predicate OpensAgree(s: SessionState, accepted: seq<RawCodexEvent>, session: Text) {
    forall key :: key in s.openActions <==> IsOpen(accepted, session, key)
  }

  ghost predicate SnapshotsAgree(s: SessionState, accepted: seq<RawCodexEvent>, session: Text) {
    forall key :: (if key in s.pendingBefore then Some(s.pendingBefore[key])
        else None) == StartSnapshot(accepted, session, key)
  }

  ghost predicate Summarizes(s: SessionState, accepted: seq<RawCodexEvent>, session: Text) {
    s.lastSequence == LastSequence(accepted, session) && OpensAgree(s, accepted, session)
        && SnapshotsAgree(s, accepted, session)
  }

  ghost predicate Refines(a: Adapter, h: History) {
    a.seen == h.consumed && forall session :: Summarizes(SessionOf(a, session), h.accepted, session)
  }

  lemma {:induction false} UnclosedStep(accepted: seq<RawCodexEvent>, raw: RawCodexEvent, session: Text, key: Text,
      i: int)
    ensures Unclosed(accepted + [raw], session, key, i) <==>
            || (i == |accepted| && At(raw, session, key) && Starts(raw.kind))
            || (Unclosed(accepted, session, key, i) && !(At(raw, session, key) && Closes(raw.kind)))
  {
    var more := accepted + [raw];
    assert more[|accepted|] == raw && forall j | 0 <= j < |accepted| :: more[j] == accepted[j];
  }

  lemma {:induction false} OpenStep(accepted: seq<RawCodexEvent>, raw: RawCodexEvent, session: Text, key: Text)
    ensures IsOpen(accepted + [raw], session, key) <==>
            || (At(raw, session, key) && Starts(raw.kind))
            || (IsOpen(accepted, session, key) && !(At(raw, session, key) && Closes(raw.kind)))
  {
    UnclosedStep(accepted, raw, session, key, |accepted|);
    if IsOpen(accepted + [raw], session, key) {
      var i :| Unclosed(accepted + [raw], session, key, i);
      UnclosedStep(accepted, raw, session, key, i);
    }
    if IsOpen(accepted, session, key) {
      var i :| Unclosed(accepted, session, key, i);
      UnclosedStep(accepted, raw, session, key, i);
    }
  }

  lemma {:induction false} StandingStep(accepted: seq<RawCodexEvent>, raw: RawCodexEvent, session: Text, key: Text,
      i: int)
    ensures Standing(accepted + [raw], session, key, i) <==>
            || (i == |accepted| && At(raw, session, key) && Snapshots(raw))
            || (Standing(accepted, session, key, i)
               && !(At(raw, session, key) && (Snapshots(raw) || EndsCommand(raw.kind))))
  {
    var more := accepted + [raw];
    assert more[|accepted|] == raw && forall j | 0 <= j < |accepted| :: more[j] == accepted[j];
  }

  lemma {:induction false} SnapshotIs(accepted: seq<RawCodexEvent>, session: Text, key: Text, i: int)
    requires Standing(accepted, session, key, i)
    ensures StartSnapshot(accepted, session, key) == accepted[i].inventoryBefore
  {
    var j :| Standing(accepted, session, key, j) && StartSnapshot(accepted, session, key) ==
        accepted[j].inventoryBefore;
    StandingUnique(accepted, session, key, i, j);
  }

  lemma {:induction false} SnapshotNone(accepted: seq<RawCodexEvent>, session: Text, key: Text)
    requires forall i :: !Standing(accepted, session, key, i)
    ensures StartSnapshot(accepted, session, key) == None
  {}

  lemma {:induction false} SnapshotStep(accepted: seq<RawCodexEvent>, raw: RawCodexEvent, session: Text, key: Text)
    ensures StartSnapshot(accepted + [raw], session, key) ==
            if At(raw, session, key) && Snapshots(raw) then raw.inventoryBefore
            else if At(raw, session, key) && EndsCommand(raw.kind) then None
            else StartSnapshot(accepted, session, key)
  {
    var more := accepted + [raw];
    StandingStep(accepted, raw, session, key, |accepted|);
    if At(raw, session, key) && Snapshots(raw) {
      SnapshotIs(more, session, key, |accepted|);
    } else if i :| Standing(more, session, key, i) {
      StandingStep(accepted, raw, session, key, i);
      SnapshotIs(more, session, key, i);
      SnapshotIs(accepted, session, key, i);
    } else {
      SnapshotNone(more, session, key);
      forall i ensures !Standing(accepted, session, key, i) || (At(raw, session, key) && EndsCommand(raw.kind)) {
        StandingStep(accepted, raw, session, key, i);
      }
      if !(At(raw, session, key) && EndsCommand(raw.kind)) {
        SnapshotNone(accepted, session, key);
      }
    }
  }

  lemma {:induction false} LastStep(accepted: seq<RawCodexEvent>, raw: RawCodexEvent, session: Text)
    ensures LastSequence(accepted + [raw], session) ==
            if raw.sessionId == session && raw.sequence.Some? then raw.sequence else LastSequence(accepted, session)
  {
    assert (accepted + [raw])[..|accepted|] == accepted;
  }

  lemma {:induction false} OtherSessionStep(s: SessionState, accepted: seq<RawCodexEvent>, raw: RawCodexEvent,
      session: Text)
    requires Summarizes(s, accepted, session) && raw.sessionId != session
    ensures Summarizes(s, accepted + [raw], session)
  {
    LastStep(accepted, raw, session);
    forall key ensures key in s.openActions <==> IsOpen(accepted + [raw], session, key) {
      OpenStep(accepted, raw, session, key);
    }
    forall key ensures (if key in s.pendingBefore then Some(s.pendingBefore[key])
        else None) == StartSnapshot(accepted + [raw], session, key) {
      SnapshotStep(accepted, raw, session, key);
    }
  }

  /** The session after an accepted event. */
  function Moved(s: SessionState, raw: RawCodexEvent): SessionState {
    DropSnapshot(WithSnapshot(Track(s.(lastSequence := if raw.sequence.Some? then raw.sequence else s.lastSequence),
        raw).0, raw), raw)
  }

  lemma {:induction false} OwnSessionStep(s: SessionState, accepted: seq<RawCodexEvent>, raw: RawCodexEvent)
    requires Summarizes(s, accepted, raw.sessionId)
    ensures Summarizes(Moved(s, raw), accepted + [raw], raw.sessionId)
  {
    var session, next := raw.sessionId, Moved(s, raw);
    LastStep(accepted, raw, session);
    forall key ensures key in next.openActions <==> IsOpen(accepted + [raw], session, key) {
      OpenStep(accepted, raw, session, key);
    }
    forall key ensures (if key in next.pendingBefore then Some(next.pendingBefore[key])
        else None) == StartSnapshot(accepted + [raw], session, key) {
      SnapshotStep(accepted, raw, session, key);
    }
  }

  lemma {:induction false} SummaryAnswers(s: SessionState, accepted: seq<RawCodexEvent>, raw: RawCodexEvent)
    requires Summarizes(s, accepted, raw.sessionId)
    ensures OutOfOrder(s, raw) == Late(accepted, raw)
    ensures var sequenced := s.(lastSequence := if raw.sequence.Some? then raw.sequence else s.lastSequence);
            && Track(sequenced, raw).1 == TerminalGaps(accepted, raw)
            && Pending(WithSnapshot(Track(sequenced, raw).0, raw), raw) == SnapshotFor(accepted, raw)
  {
    assert s.openActions != {} <==> exists key :: IsOpen(accepted, raw.sessionId, key) by {
      if s.openActions != {} {
        var key :| key in s.openActions;
        assert IsOpen(accepted, raw.sessionId, key);
      }
    }
    assert (if ActionKey(raw) in s.pendingBefore then Some(s.pendingBefore[ActionKey(raw)]) else None)
           == StartSnapshot(accepted, raw.sessionId, ActionKey(raw));
  }

  lemma {:induction false} EventRefines(config: Config, a: Adapter, h: History, raw: RawCodexEvent)
    requires Refines(a, h)
    ensures var (next, result) := AnswerEvent(config, h, raw);
            NormalizeEvent(config, a, raw).result == result && Refines(NormalizeEvent(config, a, raw).adapter, next)
  {
    if ValidRaw(raw) {
      var s := SessionOf(a, raw.sessionId);
      SummaryAnswers(s, h.accepted, raw);
      if !OutOfOrder(s, raw) {
        OwnSessionStep(s, h.accepted, raw);
        var after := NormalizeEvent(config, a, raw).adapter;
        assert SessionOf(after, raw.sessionId) == Moved(s, raw);
        forall session ensures Summarizes(SessionOf(after, session), h.accepted + [raw], session) {
          if session != raw.sessionId {
            OtherSessionStep(SessionOf(a, session), h.accepted, raw, session);
          }
        }
      } else {
        assert forall session :: SessionOf(NormalizeEvent(config, a, raw).adapter, session) == SessionOf(a, session);
      }
    }
  }

  lemma {:induction false} DocumentRefines(config: Config, a: Adapter, h: History, bytes: seq<byte>)
    requires Refines(a, h)
    ensures Normalize(config, a, bytes).result == Answer(config, h, bytes).1
    ensures Refines(Normalize(config, a, bytes).adapter, Answer(config, h, bytes).0)
  {
    var admitted := Admit(config, bytes);
    if admitted.Ok? && admitted.value.0.Some? && admitted.value.0.value.eventId !in a.seen {
      var raw := admitted.value.0.value;
      var seen := a.seen + {raw.eventId};
      assert forall session :: SessionOf(a.(seen := seen), session) == SessionOf(a, session);
      EventRefines(config, a.(seen := seen), h.(consumed := h.consumed + {raw.eventId}), raw);
    }
  }

  // Streams

  function Feed(config: Config, documents: seq<seq<byte>>): Adapter {
    if documents == [] then Adapter(map[], {})
    else Normalize(config, Feed(config, documents[..|documents| - 1]), documents[|documents| - 1]).adapter
  }

  ghost function HistoryOf(config: Config, documents: seq<seq<byte>>): History {
    if documents == [] then EMPTY
    else Answer(config, HistoryOf(config, documents[..|documents| - 1]), documents[|documents| - 1]).0
  }

  /** What the adapter answers to one more document. */
  function Reply(config: Config, documents: seq<seq<byte>>, bytes: seq<byte>): Result<Output, AdapterError> {
    Normalize(config, Feed(config, documents), bytes).result
  }

  /** After any stream the adapter answers what the history of the stream says. */
  lemma {:induction false} AdapterFollowsHistory(config: Config, documents: seq<seq<byte>>, bytes: seq<byte>)
    ensures Refines(Feed(config, documents), HistoryOf(config, documents))
    ensures Reply(config, documents, bytes) == Answer(config, HistoryOf(config, documents), bytes).1
  {
    if documents == [] {
      forall session, key ensures !IsOpen([], session, key) && StartSnapshot([], session, key) == None {
        SnapshotNone([], session, key);
      }
    } else {
      var front, last := documents[..|documents| - 1], documents[|documents| - 1];
      AdapterFollowsHistory(config, front, last);
      DocumentRefines(config, Feed(config, front), HistoryOf(config, front), last);
    }
    DocumentRefines(config, Feed(config, documents), HistoryOf(config, documents), bytes);
  }

  /** The events given out for a stream. */
  function Emitted(config: Config, documents: seq<seq<byte>>): seq<Normalized> {
    if documents == [] then [] else
    var front, last := documents[..|documents| - 1], documents[|documents| - 1];
    match Reply(config, front, last)
    case Ok(output) => Emitted(config, front) + (if output.event.Some? then [output.event.value] else [])
    case Err(_) => Emitted(config, front)
  }

  predicate Matches(event: Normalized, raw: RawCodexEvent) {
    && event.eventId == raw.eventId && event.kind == raw.kind && event.sessionId == raw.sessionId
    && event.toolCallId == raw.toolCallId && event.sequence == raw.sequence
  }

  ghost predicate AllMatch(events: seq<Normalized>, accepted: seq<RawCodexEvent>) {
    |events| == |accepted| && forall i | 0 <= i < |events| :: Matches(events[i], accepted[i])
  }

  /** Accepted events have distinct ids, and sequences that ascend within each session. */
  ghost predicate InOrder(h: History) {
    && (forall i | 0 <= i < |h.accepted| :: h.accepted[i].eventId in h.consumed)
    && (forall i, j | 0 <= i < j < |h.accepted| :: h.accepted[i].eventId != h.accepted[j].eventId)
    && Ascending(h.accepted)
  }

  ghost predicate Ascending(accepted: seq<RawCodexEvent>) {
    forall i, j | 0 <= i < j < |accepted| && accepted[i].sessionId == accepted[j].sessionId
                  && accepted[i].sequence.Some? && accepted[j].sequence.Some? ::
      accepted[i].sequence.value < accepted[j].sequence.value
  }

  /** The last sequence is the greatest so far. */
  lemma {:induction false} LastIsGreatest(accepted: seq<RawCodexEvent>, session: Text, i: nat)
    requires Ascending(accepted) && i < |accepted| && accepted[i].sessionId == session && accepted[i].sequence.Some?
    ensures LastSequence(accepted, session).Some? && accepted[i].sequence.value <= LastSequence(accepted, session).value
  {
    var last := |accepted| - 1;
    if !(accepted[last].sessionId == session && accepted[last].sequence.Some?) {
      LastIsGreatest(accepted[..last], session, i);
    }
  }

  lemma {:induction false} AscendingStep(accepted: seq<RawCodexEvent>, raw: RawCodexEvent)
    requires Ascending(accepted) && !Late(accepted, raw)
    ensures Ascending(accepted + [raw])
  {
    forall i | 0 <= i < |accepted| && accepted[i].sessionId == raw.sessionId && accepted[i].sequence.Some?
        && raw.sequence.Some?
      ensures accepted[i].sequence.value < raw.sequence.value
    {
      LastIsGreatest(accepted, raw.sessionId, i);
    }
  }

  lemma {:induction false} AnswerKeepsOrder(config: Config, h: History, bytes: seq<byte>)
    requires InOrder(h)
    ensures InOrder(Answer(config, h, bytes).0)
  {
    var admitted := Admit(config, bytes);
    if admitted.Ok? && admitted.value.0.Some? && !Late(h.accepted, admitted.value.0.value) {
      AscendingStep(h.accepted, admitted.value.0.value);
    }
  }

  lemma {:induction false} AnswerMatches(config: Config, h: History, bytes: seq<byte>)
    ensures var (next, result) := Answer(config, h, bytes);
            if result.Ok? && result.value.event.Some?
            then exists raw :: Admit(config, bytes).Ok? && Admit(config, bytes).value.0 == Some(raw)
                               && next.accepted == h.accepted + [raw] && Matches(result.value.event.value, raw)
            else next.accepted == h.accepted
  {
    var admitted := Admit(config, bytes);
    if admitted.Ok? && admitted.value.0.Some? {
      var raw := admitted.value.0.value;
      assert Admit(config, bytes).value.0 == Some(raw);
    }
  }

  lemma {:induction false} EmittedAreAccepted(config: Config, documents: seq<seq<byte>>)
    ensures AllMatch(Emitted(config, documents), HistoryOf(config, documents).accepted)
            && InOrder(HistoryOf(config, documents))
  {
    if documents != [] {
      var front, last := documents[..|documents| - 1], documents[|documents| - 1];
      EmittedAreAccepted(config, front);
      AdapterFollowsHistory(config, front, last);
      AnswerMatches(config, HistoryOf(config, front), last);
      AnswerKeepsOrder(config, HistoryOf(config, front), last);
    }
  }

  /** Whatever the input, no event id is given out twice and sequences ascend strictly within a session. */
  lemma {:induction false} EmittedOnceAndInOrder(config: Config, documents: seq<seq<byte>>, i: nat, j: nat)
    requires i < j < |Emitted(config, documents)|
    ensures var events := Emitted(config, documents);
            && events[i].eventId != events[j].eventId
            && (events[i].sessionId == events[j].sessionId && events[i].sequence.Some? && events[j].sequence.Some? ==>
                  events[i].sequence.value < events[j].sequence.value)
  {
    EmittedAreAccepted(config, documents);
    var events, accepted := Emitted(config, documents), HistoryOf(config, documents).accepted;
    assert Matches(events[i], accepted[i]) && Matches(events[j], accepted[j]);
  }

  function EventKey(event: Normalized): Text {
    if event.toolCallId.Some? then event.toolCallId.value else event.eventId
  }

  /** Among the events given out, `i` starts an action of the session that none after it closes. */
  predicate LeftOpen(events: seq<Normalized>, session: Text, i: int) {
    && 0 <= i < |events| && events[i].sessionId == session && Starts(events[i].kind)
    && forall j | i < j < |events| ::
         !(events[j].sessionId == session && EventKey(events[j]) == EventKey(events[i]) && Closes(events[j].kind))
  }

  lemma {:induction false} LeftOpenIsUnclosed(events: seq<Normalized>, accepted: seq<RawCodexEvent>, session: Text,
      i: nat)
    requires AllMatch(events, accepted) && i < |events|
    ensures LeftOpen(events, session, i) <==> Unclosed(accepted, session, ActionKey(accepted[i]), i)
  {
    assert forall j | 0 <= j < |events| :: Matches(events[j], accepted[j]);
  }

  lemma {:induction false} OpenMatches(events: seq<Normalized>, accepted: seq<RawCodexEvent>, session: Text)
    requires AllMatch(events, accepted)
    ensures (exists key :: IsOpen(accepted, session, key)) <==> exists i :: LeftOpen(events, session, i)
  {
    if key :| IsOpen(accepted, session, key) {
      var i :| Unclosed(accepted, session, key, i);
      LeftOpenIsUnclosed(events, accepted, session, i);
    }
    if i :| LeftOpen(events, session, i) {
      LeftOpenIsUnclosed(events, accepted, session, i);
      assert IsOpen(accepted, session, ActionKey(accepted[i]));
    }
  }

  /** Among the events given out, one starts this action of the session and none after it closes it. */
  ghost predicate LeftOpenAs(events: seq<Normalized>, session: Text, key: Text) {
    exists i :: LeftOpen(events, session, i) && EventKey(events[i]) == key
  }

  lemma {:induction false} OneOpenMatches(events: seq<Normalized>, accepted: seq<RawCodexEvent>, session: Text,
      key: Text)
    requires AllMatch(events, accepted)
    ensures IsOpen(accepted, session, key) <==> LeftOpenAs(events, session, key)
  {
    if i :| Unclosed(accepted, session, key, i) {
      LeftOpenIsUnclosed(events, accepted, session, i);
      assert Matches(events[i], accepted[i]);
    }
    if i :| LeftOpen(events, session, i) && EventKey(events[i]) == key {
      LeftOpenIsUnclosed(events, accepted, session, i);
      assert Matches(events[i], accepted[i]);
    }
  }

  lemma {:induction false} AnswerGaps(config: Config, h: History, bytes: seq<byte>) returns (raw: RawCodexEvent)
    requires var result := Answer(config, h, bytes).1; result.Ok? && result.value.event.Some?
    ensures var event := Answer(config, h, bytes).1.value.event.value;
            && Matches(event, raw)
            && (MissingTerminalEvent in event.gaps <==> MissingTerminalEvent in TerminalGaps(h.accepted, raw))
  {
    raw := Admit(config, bytes).value.0.value;
  }

  /** A session end reports a missing close exactly when some start given out has no later close. */
  lemma {:induction false} SessionEndExactly(config: Config, documents: seq<seq<byte>>, bytes: seq<byte>)
    requires var reply := Reply(config, documents, bytes);
             reply.Ok? && reply.value.event.Some? && reply.value.event.value.kind.SessionEnded?
    ensures var event := Reply(config, documents, bytes).value.event.value;
            MissingTerminalEvent in event.gaps <==> exists i :: LeftOpen(Emitted(config, documents), event.sessionId, i)
  {
    AdapterFollowsHistory(config, documents, bytes);
    EmittedAreAccepted(config, documents);
    var h := HistoryOf(config, documents);
    var raw := AnswerGaps(config, h, bytes);
    OpenMatches(Emitted(config, documents), h.accepted, raw.sessionId);
  }

  /** A close reports a missing start exactly when its action was not open. */
  lemma {:induction false} CloseExactly(config: Config, documents: seq<seq<byte>>, bytes: seq<byte>)
    requires var reply := Reply(config, documents, bytes);
             reply.Ok? && reply.value.event.Some? && Closes(reply.value.event.value.kind)
    ensures var event := Reply(config, documents, bytes).value.event.value;
            MissingTerminalEvent in event.gaps <==>
                !LeftOpenAs(Emitted(config, documents), event.sessionId, EventKey(event))
  {
    AdapterFollowsHistory(config, documents, bytes);
    EmittedAreAccepted(config, documents);
    var h := HistoryOf(config, documents);
    var raw := AnswerGaps(config, h, bytes);
    OneOpenMatches(Emitted(config, documents), h.accepted, raw.sessionId, ActionKey(raw));
  }

  /**
   The inventory before an action: the event's own, or that of the last start snapshot of its command still standing.
   */
  ghost function BeforeOf(config: Config, documents: seq<seq<byte>>, raw: RawCodexEvent): Option<InstalledState> {
    if raw.inventoryBefore.Some? then raw.inventoryBefore
    else StartSnapshot(HistoryOf(config, documents).accepted, raw.sessionId, ActionKey(raw))
  }

  lemma {:induction false} ActionOf(config: Config, raw: RawCodexEvent, pending: Option<InstalledState>, gaps: set<Gap>)
    requires BuildAction(raw, pending, gaps).Some? && MissingPreState !in gaps
    ensures var action := BuildAction(raw, pending, gaps).value;
            var before := if raw.inventoryBefore.Some? then raw.inventoryBefore else pending;
            if before.Some? && raw.inventoryAfter.Some? then
              && Apply(before.value.packages, action.delta) == raw.inventoryAfter.value.packages
              && MissingPreState !in action.gaps
              && (action.effect == NoEffect <==> before.value.packages == raw.inventoryAfter.value.packages)
            else MissingPreState in action.gaps && action.effect == UnknownEffect
  {
    var before := if raw.inventoryBefore.Some? then raw.inventoryBefore else pending;
    if before.Some? && raw.inventoryAfter.Some? {
      DeltaLeads(before.value, raw.inventoryAfter.value);
    }
  }

  /** With both inventories known, an action's delta leads from the one before to the one after. */
  lemma {:induction false} DeltaExactly(config: Config, documents: seq<seq<byte>>, bytes: seq<byte>, raw: RawCodexEvent)
    requires Admit(config, bytes).Ok? && Admit(config, bytes).value.0 == Some(raw)
    requires var reply := Reply(config, documents, bytes);
             reply.Ok? && reply.value.event.Some? && reply.value.event.value.action.Some?
    ensures var event, before := Reply(config, documents, bytes).value.event.value, BeforeOf(config, documents, raw);
            var action := event.action.value;
            if before.Some? && raw.inventoryAfter.Some? then
              && Apply(before.value.packages, action.delta) == raw.inventoryAfter.value.packages
              && MissingPreState !in action.gaps
              && (action.effect == NoEffect <==> before.value.packages == raw.inventoryAfter.value.packages)
            else MissingPreState in action.gaps && action.effect == UnknownEffect
  {
    AdapterFollowsHistory(config, documents, bytes);
    var accepted := HistoryOf(config, documents).accepted;
    ActionOf(config, raw, SnapshotFor(accepted, raw), SequenceGaps(raw) + TerminalGaps(accepted, raw));
  }

  /** The event a document puts before the adapter, if its header is in order and hooks are on. */
  function EventIn(config: Config, bytes: seq<byte>): Option<RawCodexEvent> {
    match Admit(config, bytes) case Ok((raw, _)) => raw case Err(_) => None
  }

  predicate Carries(config: Config, bytes: seq<byte>, id: Text) {
    EventIn(config, bytes).Some? && EventIn(config, bytes).value.eventId == id
  }

  ghost predicate CarriedBefore(config: Config, documents: seq<seq<byte>>, id: Text) {
    exists n :: 0 <= n < |documents| && Carries(config, documents[n], id)
  }

  /** The ids consumed are those of the documents let in, whatever became of their events. */
  lemma {:induction false} ConsumedExactly(config: Config, documents: seq<seq<byte>>, id: Text)
    ensures id in HistoryOf(config, documents).consumed <==> CarriedBefore(config, documents, id)
  {
    if documents != [] {
      var front, last := documents[..|documents| - 1], documents[|documents| - 1];
      ConsumedExactly(config, front, id);
      AnswerConsumes(config, HistoryOf(config, front), last, id);
      if CarriedBefore(config, front, id) {
        var n :| 0 <= n < |front| && Carries(config, front[n], id);
        assert Carries(config, documents[n], id);
      }
      if Carries(config, last, id) {
        assert Carries(config, documents[|documents| - 1], id);
      }
    }
  }

  lemma {:induction false} AnswerConsumes(config: Config, h: History, bytes: seq<byte>, id: Text)
    ensures id in Answer(config, h, bytes).0.consumed <==> id in h.consumed || Carries(config, bytes, id)
  {}

  ghost predicate GivesEvent(reply: Result<Output, AdapterError>) {
    reply.Ok? && reply.value.event.Some?
  }

  /** An event is given out if and only if it is valid, not late, and no earlier document let in had its id. */
  lemma {:induction false} GivenOutExactly(config: Config, documents: seq<seq<byte>>, bytes: seq<byte>,
      raw: RawCodexEvent)
    requires EventIn(config, bytes) == Some(raw)
    ensures GivesEvent(Reply(config, documents, bytes)) <==>
            && !CarriedBefore(config, documents, raw.eventId)
            && ValidRaw(raw) && !Late(HistoryOf(config, documents).accepted, raw)
    ensures CarriedBefore(config, documents, raw.eventId) ==>
            Reply(config, documents, bytes) == Ok(Output(None, None, {}, true))
  {
    AdapterFollowsHistory(config, documents, bytes);
    ConsumedExactly(config, documents, raw.eventId);
  }

  /** An id is decided once: a later document with it is dropped, even when the first was invalid or out of order. */
  lemma {:induction false} DecidedOnce(config: Config, documents: seq<seq<byte>>, n: nat, bytes: seq<byte>)
    requires n < |documents| && Admit(config, documents[n]).Ok? && Admit(config, documents[n]).value.0.Some?
    requires Admit(config, bytes).Ok? && Admit(config, bytes).value.0.Some?
    requires Admit(config, bytes).value.0.value.eventId == Admit(config, documents[n]).value.0.value.eventId
    ensures Reply(config, documents, bytes) == Ok(Output(None, None, {}, true))
  {
    var raw := Admit(config, bytes).value.0.value;
    assert Carries(config, documents[n], raw.eventId);
    GivenOutExactly(config, documents, bytes, raw);
  }

  // A resend that is dropped

  /** A turn of session "s" with the given id, sequence and realm. */
  function Turn(id: string, sequence: nat, realm: string): RawCodexEvent {
    RawCodexEvent(Text(Ascii(id)), Some(sequence), TurnStarted, Text(Ascii("s")), None, None, None, 0,
        Text(Ascii(realm)), None, None, None, None, None)
  }

  function Hook(event: RawCodexEvent): HookDocument {
    HookDocument(CODEX_HOOK_SCHEMA_VERSION, Text(Ascii("codex")), Text([]), Text([]), event)
  }

  /** Four documents: turn "a" without its realm, turn "a" corrected, turn "b", and turn "a" before "b" in sequence. */
  function FourDocuments(redactText: (Text, nat) -> Text): Config {
    Config(Text([]), Text([]), true, false,
           (bytes: seq<byte>) =>
             if bytes == [0] then Some(Hook(Turn("a", 3, "")))
             else if bytes == [1] then Some(Hook(Turn("a", 3, "r")))
             else if bytes == [2] then Some(Hook(Turn("b", 2, "r")))
             else if bytes == [3] then Some(Hook(Turn("a", 1, "r")))
             else None,
           redactText)
  }

  lemma {:induction false} TurnsRead(redactText: (Text, nat) -> Text)
    ensures var config := FourDocuments(redactText);
            && EventIn(config, [0]) == Some(Turn("a", 3, "")) && EventIn(config, [1]) == Some(Turn("a", 3, "r"))
            && EventIn(config, [2]) == Some(Turn("b", 2, "r")) && EventIn(config, [3]) == Some(Turn("a", 1, "r"))
  {
    assert [0] != [1] && [0][0] != [2][0] && [1][0] != [2][0] && [0][0] != [3][0] && [1][0] != [3][0]
        && [2][0] != [3][0];
  }

  lemma {:induction false} TurnFacts()
    ensures !ValidRaw(Turn("a", 3, "")) && ValidRaw(Turn("a", 3, "r")) && ValidRaw(Turn("b", 2, "r"))
            && ValidRaw(Turn("a", 1, "r"))
    ensures Turn("a", 3, "r").eventId != Turn("b", 2, "r").eventId
  {
    assert |Ascii("a")| == 1 && |Ascii("b")| == 1 && |Ascii("r")| == 1 && |Ascii("s")| == 1 && |Ascii("")| == 0;
    assert Ascii("a")[0] == 97 && Ascii("b")[0] == 98;
  }

  /**
   A corrected turn is given out on its own and after turn "b", but dropped once an invalid turn had its id,
   and dropped once a late one had.
   */
  lemma {:induction false} CorrectedResendDropped(redactText: (Text, nat) -> Text)
    ensures var config := FourDocuments(redactText);
            && GivesEvent(Reply(config, [], [1])) && GivesEvent(Reply(config, [[2]], [1]))
            && Reply(config, [], [0]) == Err(InvalidPayload)
               && Reply(config, [[0]], [1]) == Ok(Output(None, None, {}, true))
            && Reply(config, [[2]], [3]) == Ok(Silent({OutOfOrderSequence}))
               && Reply(config, [[2], [3]], [1]) == Ok(Output(None, None, {}, true))
  {
    var config := FourDocuments(redactText);
    var a := Turn("a", 3, "r");
    TurnsRead(redactText);
    TurnFacts();
    GivenOutExactly(config, [], [1], a);
    assert Carries(config, [[0]][0], a.eventId);
    GivenOutExactly(config, [[0]], [1], a);
    AfterTurnB(redactText);
    GivenOutExactly(config, [[2]], [1], a);
    assert Carries(config, [[2], [3]][1], a.eventId);
    GivenOutExactly(config, [[2], [3]], [1], a);
    AdapterFollowsHistory(config, [], [0]);
    AdapterFollowsHistory(config, [[2]], [3]);
  }

  lemma {:induction false} AfterTurnB(redactText: (Text, nat) -> Text)
    ensures var config := FourDocuments(redactText);
            HistoryOf(config, [[2]]) == History({Turn("b", 2, "r").eventId}, [Turn("b", 2, "r")])
            && !CarriedBefore(config, [[2]], Turn("a", 3, "r").eventId)
            && Late(HistoryOf(config, [[2]]).accepted, Turn("a", 1, "r"))
               && !Late(HistoryOf(config, [[2]]).accepted, Turn("a", 3, "r"))
  {
    var config := FourDocuments(redactText);
    TurnsRead(redactText);
    TurnFacts();
    assert [[2]][..0] == [] && HistoryOf(config, []) == EMPTY;
    assert HistoryOf(config, [[2]]) == Answer(config, EMPTY, [2]).0;
  }
}

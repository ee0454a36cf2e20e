/** What the spool promises over whole runs, read off the invariant. */
module SpoolGuarantees {
  import opened Common
  import opened Chain
  import opened Sorting
  import opened SpoolState
  import opened SpoolRuns

  // Integrity

  /** Every unpruned row's key version is loaded. */
  ghost predicate KeysLoaded(s: Settings, accepted: seq<Accepted>, from: nat) {
    forall i | from <= i < |accepted| :: accepted[i].row.keyVersion in s.keys
  }

  /** No loaded version that an unpruned row was sealed under holds other bytes now. */
  ghost predicate KeysUnchanged(s: Settings, accepted: seq<Accepted>, from: nat) {
    forall i | from <= i < |accepted| && accepted[i].row.keyVersion in s.keys ::
        s.keys[accepted[i].row.keyVersion] == accepted[i].key
  }

  ghost predicate KeysHeld(s: Settings, accepted: seq<Accepted>, from: nat) {
    KeysLoaded(s, accepted, from) && KeysUnchanged(s, accepted, from)
  }

  ghost predicate KeyHeld(s: Settings, a: Accepted) {
    a.row.keyVersion in s.keys && s.keys[a.row.keyVersion] == a.key
  }

  /** The cipher does not open what was sealed for this event with another key. */
  ghost predicate Refuses(p: Primitives, a: Accepted, other: Key) {
    var aad := EventAad(a.row.eventId, a.row.localSequence, a.row.eventHash);
    p.decrypt(other, a.nonce, aad, p.encrypt(a.key, a.nonce, aad, p.printPayload(a.stored))) == None
  }

  /** No unpruned row opens under the wrong key that its version is loaded with; trivial if no version was rebound. */
  ghost predicate WrongKeysRefused(s: Settings, accepted: seq<Accepted>, from: nat) {
    forall i | from <= i < |accepted| && accepted[i].row.keyVersion in s.keys
        && s.keys[accepted[i].row.keyVersion] != accepted[i].key ::
      Refuses(s.primitives, accepted[i], s.keys[accepted[i].row.keyVersion])
  }

  lemma {:induction false} RowDecrypts(s: Settings, accepted: seq<Accepted>, i: nat, row: EventRow)
    requires s.primitives.Lawful() && i < |accepted| && AcceptedOk(s.primitives, accepted, i)
    requires row.keyVersion in s.keys && s.keys[row.keyVersion] == accepted[i].key
    requires row == accepted[i].row.(state := row.state, batchId := row.batchId)
    ensures DecryptRow(s, row) == Ok(accepted[i].stored)
    ensures RowIsSound(s, row) == Ok(())
  {
    var p, a := s.primitives, accepted[i];
    var plaintext := p.printPayload(a.stored);
    var aad := EventAad(row.eventId, row.localSequence, row.eventHash);
    var sealed := Seal(p, row.keyVersion, a.key, a.nonce, aad, plaintext);
    assert row.envelope == p.encodeEnvelope(sealed);
    assert p.decodeEnvelope(row.envelope) == Some(sealed);
    assert p.decrypt(a.key, a.nonce, aad, p.encrypt(a.key, a.nonce, aad, plaintext)) == Some(plaintext);
    assert Open(p, sealed, a.key, aad) == Some(plaintext);
    assert p.parsePayload(plaintext) == Some(a.stored);
  }

  lemma {:induction false} RowRefused(s: Settings, accepted: seq<Accepted>, i: nat, row: EventRow)
    requires s.primitives.Lawful() && i < |accepted| && AcceptedOk(s.primitives, accepted, i)
    requires row.keyVersion in s.keys && s.keys[row.keyVersion] != accepted[i].key
    requires Refuses(s.primitives, accepted[i], s.keys[row.keyVersion])
    requires row == accepted[i].row.(state := row.state, batchId := row.batchId)
    ensures DecryptRow(s, row) == Err(Tampered)
  {
    var p, a := s.primitives, accepted[i];
    var plaintext := p.printPayload(a.stored);
    var aad := EventAad(row.eventId, row.localSequence, row.eventHash);
    var sealed := Seal(p, row.keyVersion, a.key, a.nonce, aad, plaintext);
    assert row.envelope == p.encodeEnvelope(sealed);
    assert p.decodeEnvelope(row.envelope) == Some(sealed);
    assert p.decrypt(s.keys[row.keyVersion], a.nonce, aad, p.encrypt(a.key, a.nonce, aad, plaintext)) == None;
    assert Open(p, sealed, s.keys[row.keyVersion], aad) == None;
  }

  /** The walk takes the row of event `i`, in its place, exactly when the key it was sealed with is held. */
  lemma {:induction false} WalkTakesRow(s: Settings, accepted: seq<Accepted>, i: nat, row: EventRow)
    requires s.primitives.Lawful() && i < |accepted| < U64_MAX && AcceptedOk(s.primitives, accepted, i)
    requires row.keyVersion in s.keys && s.keys[row.keyVersion] != accepted[i].key ==>
             Refuses(s.primitives, accepted[i], s.keys[row.keyVersion])
    requires row == accepted[i].row.(state := row.state, batchId := row.batchId)
    ensures if KeyHeld(s, accepted[i]) then WalkRow(s, row, i + 1, HeadAt(accepted, i)) == Ok(())
            else WalkRow(s, row, i + 1, HeadAt(accepted, i)).Err?
  {
    if KeyHeld(s, accepted[i]) {
      RowDecrypts(s, accepted, i, row);
    } else if row.keyVersion in s.keys {
      RowRefused(s, accepted, i, row);
    }
  }

  /** The walk takes row `k` of the spool, having taken the ones before it. */
  ghost predicate Takes(s: Settings, db: Database, accepted: seq<Accepted>, k: nat)
    requires db.prunedSequence + |db.events| == |accepted| && k < |db.events|
  {
    WalkRow(s, db.events[k], db.prunedSequence + k + 1, HeadAt(accepted, db.prunedSequence + k)).Ok?
  }

  function WalkAt(s: Settings, db: Database, accepted: seq<Accepted>, k: nat): Result<Hash, SpoolError>
    requires db.prunedSequence + |db.events| == |accepted| && k <= |db.events|
  {
    ChainWalk(s, db.events[k..], db.prunedSequence + k + 1, HeadAt(accepted, db.prunedSequence + k))
  }

  lemma {:induction false} WalkUnfold(s: Settings, db: Database, accepted: seq<Accepted>, k: nat)
    requires EventsOk(db, accepted) && k < |db.events|
    ensures if Takes(s, db, accepted, k) then WalkAt(s, db, accepted, k) == WalkAt(s, db, accepted, k + 1)
            else WalkAt(s, db, accepted, k).Err?
  {
    assert db.events[k..][0] == db.events[k] && db.events[k..][1..] == db.events[k + 1..];
    assert db.events[k] == Stamped(db.batches, accepted[db.prunedSequence + k].row);
  }

  lemma {:induction false} WalkPasses(s: Settings, db: Database, accepted: seq<Accepted>, k: nat)
    requires EventsOk(db, accepted) && k <= |db.events|
    requires forall j | 0 <= j < |db.events| :: Takes(s, db, accepted, j)
    ensures WalkAt(s, db, accepted, k) == Ok(HeadAt(accepted, |accepted|))
    decreases |db.events| - k
  {
    if k < |db.events| {
      WalkUnfold(s, db, accepted, k);
      WalkPasses(s, db, accepted, k + 1);
    }
  }

  lemma {:induction false} WalkFails(s: Settings, db: Database, accepted: seq<Accepted>, k: nat, m: nat)
    requires EventsOk(db, accepted) && k <= m < |db.events| && !Takes(s, db, accepted, m)
    ensures WalkAt(s, db, accepted, k).Err?
    decreases m - k
  {
    WalkUnfold(s, db, accepted, k);
    if k < m && Takes(s, db, accepted, k) {
      WalkFails(s, db, accepted, k + 1, m);
    }
  }

  lemma {:induction false} RowTaken(s: Settings, db: Database, accepted: seq<Accepted>, k: nat)
    requires s.primitives.Lawful() && HistoryOk(s.primitives, accepted) && EventsOk(db, accepted)
             && |accepted| < U64_MAX
    requires k < |db.events| && WrongKeysRefused(s, accepted, db.prunedSequence)
    ensures Takes(s, db, accepted, k) <==> KeyHeld(s, accepted[db.prunedSequence + k])
  {
    var i := db.prunedSequence + k;
    assert AcceptedOk(s.primitives, accepted, i);
    WalkTakesRow(s, accepted, i, db.events[k]);
  }

  lemma {:induction false} TableWalks(s: Settings, db: Database, accepted: seq<Accepted>)
    requires s.primitives.Lawful() && HistoryOk(s.primitives, accepted) && EventsOk(db, accepted)
             && |accepted| < U64_MAX
    requires WrongKeysRefused(s, accepted, db.prunedSequence)
    ensures if KeysHeld(s, accepted, db.prunedSequence) then
            WalkAt(s, db, accepted, 0) == Ok(HeadAt(accepted, |accepted|))
            else WalkAt(s, db, accepted, 0).Err?
  {
    if KeysHeld(s, accepted, db.prunedSequence) {
      forall k | 0 <= k < |db.events|
        ensures Takes(s, db, accepted, k)
      {
        RowTaken(s, db, accepted, k);
      }
      WalkPasses(s, db, accepted, 0);
    } else {
      var i :| db.prunedSequence <= i < |accepted| && !KeyHeld(s, accepted[i]);
      RowTaken(s, db, accepted, i - db.prunedSequence);
      WalkFails(s, db, accepted, 0, i - db.prunedSequence);
    }
  }

  lemma {:induction false} BatchSignaturesVerify(p: Primitives, db: Database, accepted: seq<Accepted>)
    requires BatchesOk(p, db, accepted)
    ensures SignaturesVerify(p, db.batches)
  {
    forall b | b in db.batches
      ensures p.verify(b.publicKey, b.chainHead, b.signature)
    {
      var j :| 0 <= j < |db.batches| && db.batches[j] == b;
      assert BatchOk(p, db.batches, accepted, j);
    }
  }

  lemma {:induction false} IntegrityOfTables(s: Settings, db: Database, accepted: seq<Accepted>)
    requires s.primitives.Lawful() && HistoryOk(s.primitives, accepted) && PlacesOk(accepted) && DeviceOk(db, accepted)
             && EventsOk(db, accepted)
    requires SignaturesVerify(s.primitives, db.batches) && WrongKeysRefused(s, accepted, db.prunedSequence)
    ensures VerifyIntegrity(s, db) == Ok(()) <==> KeysHeld(s, accepted, db.prunedSequence)
  {
    TableWalks(s, db, accepted);
    SelectAllInOrder(db, accepted);
    assert db.events[0..] == db.events;
  }

  lemma {:induction false} SelectAllInOrder(db: Database, accepted: seq<Accepted>)
    requires PlacesOk(accepted) && EventsOk(db, accepted)
    ensures SelectAll(db) == db.events
  {
    RowsAscend(db, accepted);
    SortKeepsSorted(db.events, BySequence);
  }

  /**
   The check passes exactly when every key an unpruned row was sealed with is loaded under its version.
   That a rebound version fails takes a cipher that refuses its wrong key on the rows at hand.
   */
  lemma {:induction false} IntegrityExactly(w: World)
    requires w.settings.primitives.Lawful() && Invariant(w)
    requires WrongKeysRefused(w.settings, w.accepted, w.db.prunedSequence)
    ensures VerifyIntegrity(w.settings, w.db) == Ok(()) <==> KeysHeld(w.settings, w.accepted, w.db.prunedSequence)
  {
    BatchSignaturesVerify(w.settings.primitives, w.db, w.accepted);
    IntegrityOfTables(w.settings, w.db, w.accepted);
  }

  /** A key change that leaves every unpruned row readable. */
  ghost predicate KeySafe(w: World, op: Op) {
    match op
    case AddKey(key, _) =>
      forall i | w.db.prunedSequence <= i < |w.accepted| && w.accepted[i].row.keyVersion == key.version ::
          w.accepted[i].key == key.key
    case Restart(_, key, _) =>
      forall i | w.db.prunedSequence <= i < |w.accepted| ::
          w.accepted[i].row.keyVersion == key.version && w.accepted[i].key == key.key
    case _ => true
  }

  ghost predicate SafeRun(w: World, ops: seq<Op>)
    decreases |ops|
  {
    ops == [] || (KeySafe(w, ops[0]) && SafeRun(Step(w, ops[0]), ops[1..]))
  }

  lemma {:induction false} ConfirmKeepsPruned(p: Primitives, db: Database, accepted: seq<Accepted>, batchId: Text,
      chainHead: Text, receiptId: Text)
    requires TablesOk(p, db, accepted)
    ensures db.prunedSequence <= Acknowledge(db, batchId, chainHead, receiptId).db.prunedSequence
  {
    AcknowledgeShape(p, db, accepted, batchId, chainHead, receiptId);
    CoveredBound(p, db, accepted);
    if HasPending(db.batches) {
      assert Pruned(db, Newest(db.batches), receiptId).prunedSequence == Covered(db.batches);
    }
  }

  lemma {:induction false} StepKeepsPruned(w: World, op: Op)
    requires Invariant(w)
    ensures w.db.prunedSequence <= Step(w, op).db.prunedSequence
    ensures !op.Confirm? ==> Step(w, op).db.prunedSequence == w.db.prunedSequence
  {
    match op {
      case CommitAppend(thread, nonce) =>
        if thread in w.inFlight { var _ := CommitShape(w, thread, nonce); }
      case TakeBatch(now) => TakeBatchKeepsPruned(w.settings, w.db, now);
      case Retry(batchId, now, delay, failure) => RetryShape(w.db, batchId, now, delay, failure);
      case Confirm(batchId, chainHead, receiptId) =>
          ConfirmKeepsPruned(w.settings.primitives, w.db, w.accepted, batchId, chainHead, receiptId);
      case _ => OtherStepShape(w, op);
    }
  }

  /** A step adds at most one entry to the history and never changes an old one. */
  lemma {:induction false} StepExtendsHistory(w: World, op: Op)
    requires FlightOk(w)
    ensures w.accepted <= Step(w, op).accepted
    ensures Step(w, op).accepted != w.accepted ==>
              op.CommitAppend? && |Step(w, op).accepted| == |w.accepted| + 1 && Step(w, op).settings == w.settings
              && var a := Step(w, op).accepted[|w.accepted|];
                 a.row.keyVersion in w.settings.keys && w.settings.keys[a.row.keyVersion] == a.key
  {
    if op.CommitAppend? && op.thread in w.inFlight {
      var _ := CommitShape(w, op.thread, op.nonce);
    }
  }

  lemma {:induction false} KeysStayHeld(s: Settings, after: Settings, accepted: seq<Accepted>, history: seq<Accepted>,
      from: nat, later: nat)
    requires KeysHeld(s, accepted, from) && from <= later && accepted <= history
    requires forall i | later <= i < |accepted| ::
             accepted[i].row.keyVersion in after.keys && after.keys[accepted[i].row.keyVersion] == accepted[i].key
    requires forall i | |accepted| <= i < |history| ::
             history[i].row.keyVersion in after.keys && after.keys[history[i].row.keyVersion] == history[i].key
    ensures KeysHeld(after, history, later)
  {
    forall i | later <= i < |history|
      ensures history[i].row.keyVersion in after.keys && after.keys[history[i].row.keyVersion] == history[i].key
    {
      if i < |accepted| {
        assert history[i] == accepted[i];
      }
    }
  }

  lemma {:induction false} OldKeysStay(w: World, op: Op, i: nat)
    requires KeysHeld(w.settings, w.accepted, w.db.prunedSequence) && KeySafe(w, op)
             && w.db.prunedSequence <= i < |w.accepted|
    ensures var keys, version := Step(w, op).settings.keys, w.accepted[i].row.keyVersion;
            version in keys && keys[version] == w.accepted[i].key
  {
    StepSettings(w, op);
  }

  lemma {:induction false} StepKeepsKeys(w: World, op: Op)
    requires FlightOk(w) && w.db.prunedSequence <= Step(w, op).db.prunedSequence
    requires KeysHeld(w.settings, w.accepted, w.db.prunedSequence) && KeySafe(w, op)
    ensures var after := Step(w, op); KeysHeld(after.settings, after.accepted, after.db.prunedSequence)
  {
    StepExtendsHistory(w, op);
    var after := Step(w, op);
    forall i | w.db.prunedSequence <= i < |w.accepted|
      ensures w.accepted[i].row.keyVersion in after.settings.keys
              && after.settings.keys[w.accepted[i].row.keyVersion] == w.accepted[i].key
    {
      OldKeysStay(w, op, i);
    }
    KeysStayHeld(w.settings, after.settings, w.accepted, after.accepted, w.db.prunedSequence, after.db.prunedSequence);
  }

  lemma {:induction false} StepSettings(w: World, op: Op)
    ensures !op.AddKey? && !op.Restart? ==> Step(w, op).settings.keys == w.settings.keys
    ensures op.AddKey? ==>
            Step(w, op).settings.keys == w.settings.keys
            || Step(w, op).settings.keys == w.settings.keys[op.key.version := op.key.key]
    ensures op.Restart? ==>
      Step(w, op).settings.keys == w.settings.keys
          || Step(w, op).settings.keys == map[op.encryptionKey.version := op.encryptionKey.key]
  {}

  lemma {:induction false} SafeRunKeepsKeys(w: World, ops: seq<Op>)
    requires w.settings.primitives.Lawful() && Invariant(w) && KeysHeld(w.settings, w.accepted, w.db.prunedSequence)
             && SafeRun(w, ops)
    ensures var after := Run(w, ops); KeysHeld(after.settings, after.accepted, after.db.prunedSequence)
    decreases |ops|
  {
    if ops != [] {
      StepKeepsPruned(w, ops[0]);
      StepKeepsKeys(w, ops[0]);
      StepKeepsInvariant(w, ops[0]);
      SafeRunKeepsKeys(Step(w, ops[0]), ops[1..]);
    }
  }

  /**
   In every state a run can reach, restarts and key changes in any order included, the check passes when the
   keys of the unpruned rows are loaded then; and only then, if the wrong keys then loaded are refused.
   */
  lemma {:induction false} IntegrityInEveryRun(p: Primitives, limits: Limits, encryptionKey: VersionedKey,
      signingKey: VersionedKey, ops: seq<Op>)
    requires p.Lawful() && ValidLimits(limits)
    ensures var w := Run(Fresh(p, limits, encryptionKey, signingKey), ops);
            && (KeysHeld(w.settings, w.accepted, w.db.prunedSequence) ==> VerifyIntegrity(w.settings, w.db) == Ok(()))
            && (WrongKeysRefused(w.settings, w.accepted, w.db.prunedSequence) ==>
                  (VerifyIntegrity(w.settings, w.db) == Ok(()) <==>
                      KeysHeld(w.settings, w.accepted, w.db.prunedSequence)))
  {
    var start := Fresh(p, limits, encryptionKey, signingKey);
    FreshInvariant(p, limits, encryptionKey, signingKey);
    RunKeepsInvariant(start, ops);
    var w := Run(start, ops);
    if WrongKeysRefused(w.settings, w.accepted, w.db.prunedSequence) {
      IntegrityExactly(w);
    }
  }

  /**
   A run that never loses or rebinds a needed key, not even between a restart and the keys loaded after it, is one
   such.
   */
  lemma {:induction false} SafeRunKeepsIntegrity(p: Primitives, limits: Limits, encryptionKey: VersionedKey,
      signingKey: VersionedKey, ops: seq<Op>)
    requires p.Lawful() && ValidLimits(limits)
    requires SafeRun(Fresh(p, limits, encryptionKey, signingKey), ops)
    ensures var w := Run(Fresh(p, limits, encryptionKey, signingKey), ops); VerifyIntegrity(w.settings, w.db) == Ok(())
  {
    FreshInvariant(p, limits, encryptionKey, signingKey);
    SafeRunKeepsKeys(Fresh(p, limits, encryptionKey, signingKey), ops);
    IntegrityInEveryRun(p, limits, encryptionKey, signingKey, ops);
  }

  // Conservation

  function HistoryRows(accepted: seq<Accepted>): (rows: seq<EventRow>)
    ensures |rows| == |accepted|
  {
    seq(|accepted|, i requires 0 <= i < |accepted| => accepted[i].row)
  }

  lemma {:induction false} ConservationOfTables(db: Database, accepted: seq<Accepted>, delivered: seq<EventRow>)
    requires PlacesOk(accepted) && EventsOk(db, accepted) && DeliveredOk(delivered, db.prunedSequence, accepted)
    ensures delivered + UnstampedAll(db.events) == HistoryRows(accepted)
  {
    PendingRowsPlain(db, accepted, |db.events|);
    assert db.events[..|db.events|] == db.events;
  }

  /** Delivered events followed by spooled ones are the accepted ones: none lost, doubled or reordered. */
  lemma {:induction false} ConservationInEveryRun(p: Primitives, limits: Limits, encryptionKey: VersionedKey,
      signingKey: VersionedKey, ops: seq<Op>)
    requires p.Lawful() && ValidLimits(limits)
    ensures var w := Run(Fresh(p, limits, encryptionKey, signingKey), ops);
            && w.delivered + UnstampedAll(w.db.events) == HistoryRows(w.accepted)
            && forall i, j | 0 <= i < j < |w.accepted| :: w.accepted[i].row.eventId != w.accepted[j].row.eventId
  {
    var start := Fresh(p, limits, encryptionKey, signingKey);
    FreshInvariant(p, limits, encryptionKey, signingKey);
    RunKeepsInvariant(start, ops);
    var w := Run(start, ops);
    ConservationOfTables(w.db, w.accepted, w.delivered);
    forall i, j | 0 <= i < j < |w.accepted|
      ensures w.accepted[i].row.eventId != w.accepted[j].row.eventId
    {
      AcceptedIdsDistinct(w.db, w.accepted, i, j);
    }
  }

  // One sequence and one hash for every event id

  lemma {:induction false} RunExtendsHistory(w: World, ops: seq<Op>)
    requires w.settings.primitives.Lawful() && Invariant(w)
    ensures w.accepted <= Run(w, ops).accepted
    decreases |ops|
  {
    if ops != [] {
      StepExtendsHistory(w, ops[0]);
      StepKeepsInvariant(w, ops[0]);
      RunExtendsHistory(Step(w, ops[0]), ops[1..]);
    }
  }

  /** What the answer to an append says, whichever of the two lookups or the insert gave it. */
  ghost predicate AnswersEntry(answer: Result<DurableCapture, SpoolError>, accepted: seq<Accepted>, k: nat)
    requires k < |accepted|
  {
    answer.Ok? ==>
        answer.value.localSequence == k + 1 && answer.value.eventHash == PrefixedHash(accepted[k].row.eventHash)
  }

  lemma {:induction false} ReceiptAnswers(s: Settings, db: Database, accepted: seq<Accepted>, k: nat, raw: RawEvent,
      nonce: Option<Nonce>)
    requires ReceiptsOk(db, accepted) && s.activeVersion in s.keys
    requires k < |accepted| && raw.eventId == accepted[k].row.eventId
    ensures AppendBegin(s, db, raw).Some? ==> AnswersEntry(AppendBegin(s, db, raw).value, accepted, k)
    ensures var reply := AppendTransaction(s, db, raw, nonce);
            reply.db == db && reply.result.Ok? && reply.result.value.replayed && AnswersEntry(reply.result, accepted, k)
  {}

  /**
   Once event `k` of the history is accepted, every later answer for its id, early or inside the
   transaction, after any interleaving and even after it was pruned, gives that sequence and hash.
   */
  lemma {:induction false} OneSequenceForever(w: World, ops: seq<Op>, k: nat, raw: RawEvent, nonce: Option<Nonce>)
    requires w.settings.primitives.Lawful() && Invariant(w)
    requires k < |w.accepted| && raw.eventId == w.accepted[k].row.eventId
    ensures var after := Run(w, ops);
            && (AppendBegin(after.settings, after.db, raw).Some? ==>
               AnswersEntry(AppendBegin(after.settings, after.db, raw).value, w.accepted, k))
            && after.settings.activeVersion in after.settings.keys
            && var reply := AppendTransaction(after.settings, after.db, raw, nonce);
               reply.db == after.db && reply.result.Ok? && reply.result.value.replayed
                   && AnswersEntry(reply.result, w.accepted, k)
  {
    RunKeepsInvariant(w, ops);
    RunExtendsHistory(w, ops);
    var after := Run(w, ops);
    assert after.accepted[k] == w.accepted[k];
    ReceiptAnswers(after.settings, after.db, after.accepted, k, raw, nonce);
  }

  /** A first-time answer names the next sequence, and a refused append leaves the counter where it was. */
  lemma {:induction false} SequencesAreDense(w: World, raw: RawEvent, nonce: Option<Nonce>)
    requires Invariant(w)
    ensures var reply := AppendTransaction(w.settings, w.db, raw, nonce);
            && (reply.result.Err? ==> reply.db == w.db)
            && (reply.result.Ok? && !reply.result.value.replayed ==>
                  reply.result.value.localSequence == |w.accepted| + 1 && reply.db.nextSequence == |w.accepted| + 2)
  {
    AppendShape(w.settings, w.db, raw, nonce);
  }

  // Capacity

  predicate WithinLimits(s: Settings, db: Database) {
    |db.events| <= s.limits.maximumPendingEvents && EnvelopeBytes(db.events) <= s.limits.maximumPayloadBytes
  }

  lemma {:induction false} BytesAppend(events: seq<EventRow>, row: EventRow)
    ensures EnvelopeBytes(events + [row]) == EnvelopeBytes(events) + |row.envelope|
  {
    if events != [] {
      assert (events + [row])[1..] == events[1..] + [row];
      BytesAppend(events[1..], row);
    } else {
      assert events + [row] == [row];
      assert [row][1..] == [];
    }
  }

  lemma {:induction false} BytesSame(before: seq<EventRow>, after: seq<EventRow>)
    requires |before| == |after| && forall i | 0 <= i < |before| :: before[i].envelope == after[i].envelope
    ensures EnvelopeBytes(before) == EnvelopeBytes(after)
  {
    if before != [] {
      BytesSame(before[1..], after[1..]);
    }
  }

  lemma {:induction false} BytesFilter(events: seq<EventRow>, keep: EventRow -> bool)
    ensures EnvelopeBytes(Filter(events, keep)) <= EnvelopeBytes(events) && |Filter(events, keep)| <= |events|
  {
    if events != [] {
      BytesFilter(events[1..], keep);
      assert Filter(events, keep)[if keep(events[0]) then 1 else 0..] == Filter(events[1..], keep);
    }
  }

  lemma {:induction false} AppendWithinLimits(s: Settings, db: Database, raw: RawEvent, nonce: Option<Nonce>)
    requires ValidLimits(s.limits) && WithinLimits(s, db) && s.activeVersion in s.keys
    ensures WithinLimits(s, AppendTransaction(s, db, raw, nonce).db)
  {
    if nonce.Some? {
      var row := NextRow(s, db, raw, nonce.value);
      BytesAppend(db.events, row);
    }
  }

  lemma {:induction false} TakeBatchWithinLimits(s: Settings, db: Database, accepted: seq<Accepted>, now: int)
    requires ValidLimits(s.limits) && PlacesOk(accepted) && BatchesOk(s.primitives, db, accepted)
             && EventsOk(db, accepted)
    requires WithinLimits(s, db)
    ensures WithinLimits(s, NextBatch(s, db, now).db)
  {
    TakeBatchShape(s, db, accepted, now);
    if NextBatch(s, db, now).db != db {
      CreateWithinLimits(s, db, db.events[..BatchSize(s, db)], now);
    }
  }

  lemma {:induction false} CreateWithinLimits(s: Settings, db: Database, rows: seq<EventRow>, now: int)
    requires WithinLimits(s, db) && rows != []
    ensures WithinLimits(s, CreateBatch(s, db, rows, now))
  {
    BytesSame(db.events, CreateBatch(s, db, rows, now).events);
  }

  lemma {:induction false} ConfirmWithinLimits(s: Settings, db: Database, accepted: seq<Accepted>, batchId: Text,
      chainHead: Text, receiptId: Text)
    requires TablesOk(s.primitives, db, accepted) && WithinLimits(s, db)
    ensures WithinLimits(s, Acknowledge(db, batchId, chainHead, receiptId).db)
  {
    AcknowledgeShape(s.primitives, db, accepted, batchId, chainHead, receiptId);
    BytesFilter(db.events, (r: EventRow) => r.batchId != Some(batchId));
  }

  lemma {:induction false} RetryWithinLimits(s: Settings, db: Database, batchId: Text, now: int, delay: nat,
      failure: Text)
    requires WithinLimits(s, db)
    ensures WithinLimits(s, RecordRetry(db, batchId, now, delay, failure).db)
  {
    RetryShape(db, batchId, now, delay, failure);
  }

  lemma {:induction false} ConfirmedTables(w: World, batchId: Text, chainHead: Text, receiptId: Text)
    ensures Step(w, Confirm(batchId, chainHead, receiptId)).db == Acknowledge(w.db, batchId, chainHead, receiptId).db
  {}

  lemma {:induction false} BatchStepWithinLimits(w: World, op: Op)
    requires Invariant(w) && WithinLimits(w.settings, w.db) && (op.TakeBatch? || op.Retry? || op.Confirm?)
    ensures WithinLimits(w.settings, Step(w, op).db)
  {
    if op.TakeBatch? {
      StepTakesBatch(w, op.now);
      TakeBatchWithinLimits(w.settings, w.db, w.accepted, op.now);
    } else if op.Retry? {
      StepRetries(w, op.batchId, op.now, op.delay, op.failure);
      RetryWithinLimits(w.settings, w.db, op.batchId, op.now, op.delay, op.failure);
    } else {
      ConfirmedTables(w, op.batchId, op.chainHead, op.receiptId);
      ConfirmWithinLimits(w.settings, w.db, w.accepted, op.batchId, op.chainHead, op.receiptId);
    }
  }

  lemma {:induction false} StepKeepsLimits(w: World, op: Op)
    ensures !op.Restart? ==> Step(w, op).settings.limits == w.settings.limits
  {}

  lemma {:induction false} StepWithinLimits(w: World, op: Op)
    requires w.settings.primitives.Lawful() && Invariant(w) && WithinLimits(w.settings, w.db) && !op.Restart?
    ensures WithinLimits(Step(w, op).settings, Step(w, op).db)
  {
    StepKeepsLimits(w, op);
    if op.TakeBatch? || op.Retry? || op.Confirm? {
      BatchStepWithinLimits(w, op);
    } else if op.CommitAppend? && op.thread in w.inFlight {
      AppendWithinLimits(w.settings, w.db, w.inFlight[op.thread], op.nonce);
    }
  }

  /** Row count and stored bytes stay within the configured limits for as long as those limits stand. */
  lemma {:induction false} CapacityInEveryRun(w: World, ops: seq<Op>)
    requires w.settings.primitives.Lawful() && Invariant(w) && WithinLimits(w.settings, w.db)
    requires forall op | op in ops :: !op.Restart?
    ensures WithinLimits(Run(w, ops).settings, Run(w, ops).db)
    decreases |ops|
  {
    if ops != [] {
      StepWithinLimits(w, ops[0]);
      StepKeepsInvariant(w, ops[0]);
      CapacityInEveryRun(Step(w, ops[0]), ops[1..]);
    }
  }
}

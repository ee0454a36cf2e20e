/** What the upload side sees: the batches handed out, their contents, and how long they stay the same. */
module SpoolDelivery {
  import opened Common
  import opened Chain
  import opened Sorting
  import opened SpoolState
  import opened SpoolRuns
  import opened SpoolGuarantees

  /** Accepted events `from` up to `to`, as an upload shows them. */
  function UploadsOf(accepted: seq<Accepted>, from: nat, to: nat): (events: seq<UploadEvent>)
    requires from <= to <= |accepted|
    ensures |events| == to - from
  {
    seq(to - from, i requires 0 <= i < to - from => Upload(accepted[from + i].row, accepted[from + i].stored))
  }

  lemma {:induction false} DecryptStep(s: Settings, rows: seq<EventRow>, stored: StoredPayload, rest: seq<UploadEvent>)
    requires rows != [] && DecryptRow(s, rows[0]) == Ok(stored) && DecryptEvents(s, rows[1..]) == Ok(rest)
    ensures DecryptEvents(s, rows) == Ok([Upload(rows[0], stored)] + rest)
  {}

  lemma {:induction false} UploadsStep(accepted: seq<Accepted>, from: nat, to: nat)
    requires from < to <= |accepted|
    ensures UploadsOf(accepted, from, to) == [Upload(accepted[from].row, accepted[from].stored)]
            + UploadsOf(accepted, from + 1, to)
  {}

  lemma {:induction false} HeldRowDecrypts(s: Settings, accepted: seq<Accepted>, from: nat, row: EventRow)
    requires s.primitives.Lawful() && HistoryOk(s.primitives, accepted) && KeysHeld(s, accepted, from)
    requires from < |accepted| && row == accepted[from].row.(state := row.state, batchId := row.batchId)
    ensures DecryptRow(s, row) == Ok(accepted[from].stored)
    ensures KeysHeld(s, accepted, from + 1)
  {
    assert AcceptedOk(s.primitives, accepted, from);
    RowDecrypts(s, accepted, from, row);
  }

  lemma {:induction false} RowsDecrypt(s: Settings, rows: seq<EventRow>, accepted: seq<Accepted>, from: nat)
    requires s.primitives.Lawful() && HistoryOk(s.primitives, accepted) && KeysHeld(s, accepted, from)
    requires from + |rows| <= |accepted|
    requires forall i | 0 <= i < |rows| ::
             rows[i] == accepted[from + i].row.(state := rows[i].state, batchId := rows[i].batchId)
    ensures DecryptEvents(s, rows) == Ok(UploadsOf(accepted, from, from + |rows|))
    decreases |rows|
  {
    if rows != [] {
      HeldRowDecrypts(s, accepted, from, rows[0]);
      RowsDecrypt(s, rows[1..], accepted, from + 1);
      UploadsStep(accepted, from, from + |rows|);
      DecryptStep(s, rows, accepted[from].stored, UploadsOf(accepted, from + 1, from + |rows|));
    }
  }

  /** The document a batch row stands for. */
  function UploadFor(batch: BatchRow, accepted: seq<Accepted>): UploadBatch
    requires batch.firstSequence - 1 <= batch.lastSequence <= |accepted| && 1 <= batch.firstSequence
  {
    UploadOf(batch, UploadsOf(accepted, batch.firstSequence - 1, batch.lastSequence))
  }

  ghost predicate Readable(s: Settings, db: Database, accepted: seq<Accepted>) {
    s.primitives.Lawful() && TablesOk(s.primitives, db, accepted) && KeysHeld(s, accepted, db.prunedSequence)
  }

  lemma {:induction false} PendingSelected(p: Primitives, db: Database, accepted: seq<Accepted>) returns (n: nat)
    requires SpooledOk(p, db, accepted) && HasPending(db.batches)
    ensures n <= |db.events| && db.prunedSequence + n == Covered(db.batches) <= |accepted|
    ensures SelectBatch(db, Newest(db.batches).batchId) == db.events[..n]
  {
    PendingRows(p, db, accepted);
    CoveredBound(p, db, accepted);
    n := Covered(db.batches) - db.prunedSequence;
  }

  lemma {:induction false} PendingEventsDecrypt(s: Settings, db: Database, accepted: seq<Accepted>)
    requires Readable(s, db, accepted) && HasPending(db.batches)
    ensures db.prunedSequence <= Covered(db.batches) <= |accepted|
    ensures DecryptEvents(s, SelectBatch(db, Newest(db.batches).batchId)) ==
            Ok(UploadsOf(accepted, db.prunedSequence, Covered(db.batches)))
  {
    var n := PendingSelected(s.primitives, db, accepted);
    FirstRowsDecrypt(s, db, accepted, n);
  }

  lemma {:induction false} FirstRowsDecrypt(s: Settings, db: Database, accepted: seq<Accepted>, n: nat)
    requires s.primitives.Lawful() && HistoryOk(s.primitives, accepted) && KeysHeld(s, accepted, db.prunedSequence)
    requires EventsOk(db, accepted) && n <= |db.events|
    ensures DecryptEvents(s, db.events[..n]) == Ok(UploadsOf(accepted, db.prunedSequence, db.prunedSequence + n))
  {
    PendingRowsMatch(db, accepted, n);
    RowsDecrypt(s, db.events[..n], accepted, db.prunedSequence);
  }

  lemma {:induction false} PendingRowsMatch(db: Database, accepted: seq<Accepted>, n: nat)
    requires EventsOk(db, accepted) && n <= |db.events|
    ensures var rows := db.events[..n];
            forall i | 0 <= i < n ::
                rows[i] == accepted[db.prunedSequence + i].row.(state := rows[i].state, batchId := rows[i].batchId)
  {}

  lemma {:induction false} NewestRange(p: Primitives, db: Database, accepted: seq<Accepted>)
    requires BatchesOk(p, db, accepted) && HasPending(db.batches)
    ensures var b := Newest(db.batches);
            && b.firstSequence == db.prunedSequence + 1
               && b.firstSequence <= b.lastSequence == Covered(db.batches) <= |accepted|
            && p.verify(b.publicKey, b.chainHead, b.signature)
  {
    assert BatchOk(p, db.batches, accepted, |db.batches| - 1);
  }

  /** Loading the pending batch gives its document, unless its attempt count has outgrown 32 bits. */
  lemma {:induction false} PendingLoads(s: Settings, db: Database, accepted: seq<Accepted>)
    requires Readable(s, db, accepted) && HasPending(db.batches)
    ensures 1 <= Newest(db.batches).firstSequence <= Newest(db.batches).lastSequence <= |accepted|
    ensures LoadBatch(s, db, Newest(db.batches).batchId) ==
            if Newest(db.batches).attemptCount > U32_MAX then Err(Corrupt)
              else Ok(UploadFor(Newest(db.batches), accepted))
  {
    NewestRange(s.primitives, db, accepted);
    FindNewest(s.primitives, db, accepted);
    PendingEventsDecrypt(s, db, accepted);
  }

  lemma {:induction false} FoundIndex(batches: seq<BatchRow>, id: Text) returns (j: nat)
    requires FindBatch(batches, id).Some?
    ensures j < |batches| && batches[j].batchId == id
  {
    if batches[0].batchId == id {
      j := 0;
    } else {
      j := FoundIndex(batches[1..], id);
      j := j + 1;
    }
  }

  /** The id of a new batch is always free. */
  lemma {:induction false} NewIdIsFree(s: Settings, db: Database, accepted: seq<Accepted>, now: int)
    requires s.primitives.Lawful() && ValidLimits(s.limits) && TablesOk(s.primitives, db, accepted)
    requires !HasPending(db.batches) && db.events != []
    ensures FindBatch(db.batches, SignedBatch(s, db.events[..BatchSize(s, db)], now).batchId).None?
  {
    var rows := db.events[..BatchSize(s, db)];
    var batch, created := SignedBatch(s, rows, now), CreateBatch(s, db, rows, now);
    SignatureVerifies(s, rows, now);
    CreateKeepsTables(s, db, accepted, BatchSize(s, db), now);
    if FindBatch(db.batches, batch.batchId).Some? {
      var j := FoundIndex(db.batches, batch.batchId);
      BatchIdsDistinct(s.primitives, created, accepted, j, |db.batches|);
    }
  }

  /** Asking again while a batch is pending: the same document once it is due. */
  lemma {:induction false} PendingAnswer(s: Settings, db: Database, accepted: seq<Accepted>, now: int)
    requires Readable(s, db, accepted) && HasPending(db.batches)
    ensures var reply, batch := NextBatch(s, db, now), Newest(db.batches);
            && 1 <= batch.firstSequence <= batch.lastSequence <= |accepted|
            && reply.db == db
            && reply.result == if batch.nextAttempt > now then Ok(None)
                               else if batch.attemptCount > U32_MAX then Err(Corrupt)
                               else Ok(Some(UploadFor(batch, accepted)))
  {
    AtMostOnePending(s.primitives, db, accepted);
    PendingLoads(s, db, accepted);
  }

  lemma {:induction false} FreshTakes(s: Settings, db: Database, accepted: seq<Accepted>, now: int)
    requires s.primitives.Lawful() && ValidLimits(s.limits) && TablesOk(s.primitives, db, accepted)
             && !HasPending(db.batches)
    ensures if db.events == [] then NextBatch(s, db, now) == Reply(db, Ok(None))
            else
              var rows := db.events[..BatchSize(s, db)];
              NextBatch(s, db, now) ==
              match LoadBatch(s, CreateBatch(s, db, rows, now), SignedBatch(s, rows, now).batchId)
              case Err(e) => Reply(db, Err(e))
              case Ok(upload) => Reply(CreateBatch(s, db, rows, now), Ok(Some(upload)))
  {
    AtMostOnePending(s.primitives, db, accepted);
    QueuedRows(s.primitives, db, accepted, s.limits.maximumBatchEvents);
    if db.events != [] {
      assert Take(db.events, s.limits.maximumBatchEvents) == db.events[..BatchSize(s, db)];
      NewIdIsFree(s, db, accepted, now);
    }
  }

  lemma {:induction false} CreatedReadable(s: Settings, db: Database, accepted: seq<Accepted>, now: int)
    requires Readable(s, db, accepted) && ValidLimits(s.limits) && !HasPending(db.batches) && db.events != []
    ensures var rows := db.events[..BatchSize(s, db)];
            var created := CreateBatch(s, db, rows, now);
            Readable(s, created, accepted) && HasPending(created.batches)
                && Newest(created.batches) == SignedBatch(s, rows, now)
  {
    SignatureVerifies(s, db.events[..BatchSize(s, db)], now);
    CreateKeepsTables(s, db, accepted, BatchSize(s, db), now);
  }

  /** With nothing pending, the oldest rows become a batch and are handed out at once. */
  lemma {:induction false} FreshAnswer(s: Settings, db: Database, accepted: seq<Accepted>, now: int)
    requires Readable(s, db, accepted) && ValidLimits(s.limits) && !HasPending(db.batches)
    ensures var reply := NextBatch(s, db, now);
            if db.events == [] then reply == Reply(db, Ok(None))
            else var batch := SignedBatch(s, db.events[..BatchSize(s, db)], now);
                 && 1 <= batch.firstSequence <= batch.lastSequence <= |accepted|
                 && reply == Reply(CreateBatch(s, db, db.events[..BatchSize(s, db)], now),
                    Ok(Some(UploadFor(batch, accepted))))
  {
    FreshTakes(s, db, accepted, now);
    if db.events != [] {
      CreatedReadable(s, db, accepted, now);
      PendingLoads(s, CreateBatch(s, db, db.events[..BatchSize(s, db)], now), accepted);
    }
  }

  lemma {:induction false} EntryLinks(p: Primitives, accepted: seq<Accepted>, i: nat)
    requires HistoryOk(p, accepted) && i < |accepted|
    ensures accepted[i].row.localSequence == i + 1 && accepted[i].row.previousHash == HeadAt(accepted, i)
  {
    assert AcceptedOk(p, accepted, i);
  }

  /** Event `k` of a batch's document: the accepted event in its place, between the two chain heads there. */
  ghost predicate InPlace(b: BatchRow, accepted: seq<Accepted>, k: nat)
    requires 1 <= b.firstSequence <= b.lastSequence <= |accepted| && k <= b.lastSequence - b.firstSequence
  {
    var event, a := UploadFor(b, accepted).events[k], accepted[b.firstSequence - 1 + k];
    && event.localSequence == b.firstSequence + k
    && event.previousHash == PrefixedHash(HeadAt(accepted, b.firstSequence - 1 + k))
    && event.eventHash == PrefixedHash(HeadAt(accepted, b.firstSequence + k))
    && event.eventId == a.row.eventId && event.sourceSequence == a.stored.sourceSequence && event.payload == a.stored
  }

  /** Batches follow each other without gap or overlap, each from the head of the one before to its own. */
  lemma {:induction false} BatchRange(p: Primitives, db: Database, accepted: seq<Accepted>, j: nat)
    requires BatchesOk(p, db, accepted) && j < |db.batches|
    ensures var b := db.batches[j];
            && b.firstSequence == LastBefore(db.batches, j) + 1
            && 1 <= b.firstSequence <= b.lastSequence <= |accepted|
            && b.eventCount == b.lastSequence - b.firstSequence + 1
            && b.chainHead == HeadAt(accepted, b.lastSequence)
            && HeadAt(accepted, b.firstSequence - 1) == if j == 0 then GenesisHash() else db.batches[j - 1].chainHead
  {
    assert BatchOk(p, db.batches, accepted, j);
    assert j > 0 ==> BatchOk(p, db.batches, accepted, j - 1);
  }

  /** The events of a batch are consecutive and linked head to head. */
  lemma {:induction false} BatchIsContiguous(p: Primitives, db: Database, accepted: seq<Accepted>, j: nat, k: nat)
    requires HistoryOk(p, accepted) && BatchesOk(p, db, accepted) && j < |db.batches| && k < db.batches[j].eventCount
    ensures var b := db.batches[j];
            && 1 <= b.firstSequence <= b.lastSequence <= |accepted|
            && |UploadFor(b, accepted).events| == b.eventCount
            && InPlace(b, accepted, k)
  {
    BatchRange(p, db, accepted, j);
    RangeInPlace(p, accepted, db.batches[j], k);
  }

  lemma {:induction false} RangeInPlace(p: Primitives, accepted: seq<Accepted>, b: BatchRow, k: nat)
    requires HistoryOk(p, accepted) && 1 <= b.firstSequence <= b.lastSequence <= |accepted|
             && k <= b.lastSequence - b.firstSequence
    ensures InPlace(b, accepted, k)
  {
    var i := b.firstSequence - 1 + k;
    EntryLinks(p, accepted, i);
    assert UploadFor(b, accepted).events[k] == Upload(accepted[i].row, accepted[i].stored);
    assert HeadAt(accepted, i + 1) == accepted[i].row.eventHash;
  }

  // A pending batch over time

  predicate SameButCursor(a: BatchRow, b: BatchRow) {
    b == a.(attemptCount := b.attemptCount, nextAttempt := b.nextAttempt, lastFailure := b.lastFailure)
  }

  ghost predicate StillPending(w: World, after: World) {
    && HasPending(w.db.batches) && HasPending(after.db.batches)
    && SameButCursor(Newest(w.db.batches), Newest(after.db.batches))
    && after.db.prunedSequence == w.db.prunedSequence
  }

  /** No batch is created while one is pending. */
  lemma {:induction false} PendingBlocksNew(s: Settings, db: Database, accepted: seq<Accepted>, now: int)
    requires BatchesOk(s.primitives, db, accepted) && HasPending(db.batches)
    ensures NextBatch(s, db, now).db == db
  {
    AtMostOnePending(s.primitives, db, accepted);
  }

  lemma {:induction false} AcknowledgedMoves(p: Primitives, db: Database, accepted: seq<Accepted>, batchId: Text,
      chainHead: Text, receiptId: Text)
    requires BatchesOk(p, db, accepted) && HasPending(db.batches)
    ensures var after := Acknowledge(db, batchId, chainHead, receiptId).db;
            after == db || db.prunedSequence < after.prunedSequence
  {
    AcknowledgeShape(p, db, accepted, batchId, chainHead, receiptId);
    CoveredBound(p, db, accepted);
  }

  lemma {:induction false} RetryKeepsPending(db: Database, batchId: Text, now: int, delay: nat, failure: Text)
    requires HasPending(db.batches)
    ensures var after := RecordRetry(db, batchId, now, delay, failure).db;
            HasPending(after.batches) && SameButCursor(Newest(db.batches), Newest(after.batches))
  {
    RetryShape(db, batchId, now, delay, failure);
  }

  lemma {:induction false} CommitKeepsPending(w: World, thread: nat, nonce: Option<Nonce>)
    requires FlightOk(w) && HasPending(w.db.batches)
    ensures StillPending(w, StepCommit(w, thread, nonce))
  {
    if thread in w.inFlight {
      var _ := CommitShape(w, thread, nonce);
    }
  }

  lemma {:induction false} TableStepKeepsPending(w: World, op: Op)
    requires BatchesOk(w.settings.primitives, w.db, w.accepted) && HasPending(w.db.batches)
    requires (op.TakeBatch? || op.Retry? || op.Confirm?) && Step(w, op).db.prunedSequence == w.db.prunedSequence
    ensures StillPending(w, Step(w, op))
  {
    match op {
      case TakeBatch(now) => PendingBlocksNew(w.settings, w.db, w.accepted, now);
      case Retry(batchId, now, delay, failure) => RetryKeepsPending(w.db, batchId, now, delay, failure);
      case Confirm(batchId, chainHead, receiptId) =>
        AcknowledgedMoves(w.settings.primitives, w.db, w.accepted, batchId, chainHead, receiptId);
    }
  }

  lemma {:induction false} StepKeepsPending(w: World, op: Op)
    requires Invariant(w) && HasPending(w.db.batches) && Step(w, op).db.prunedSequence == w.db.prunedSequence
    ensures StillPending(w, Step(w, op))
  {
    if op.CommitAppend? {
      CommitKeepsPending(w, op.thread, op.nonce);
    } else if op.TakeBatch? || op.Retry? || op.Confirm? {
      TableStepKeepsPending(w, op);
    } else {
      OtherStepShape(w, op);
    }
  }

  lemma {:induction false} RunKeepsPruned(w: World, ops: seq<Op>)
    requires w.settings.primitives.Lawful() && Invariant(w)
    ensures w.db.prunedSequence <= Run(w, ops).db.prunedSequence
    decreases |ops|
  {
    if ops != [] {
      StepKeepsPruned(w, ops[0]);
      StepKeepsInvariant(w, ops[0]);
      RunKeepsPruned(Step(w, ops[0]), ops[1..]);
    }
  }

  lemma {:induction false} RunKeepsPending(w: World, ops: seq<Op>)
    requires w.settings.primitives.Lawful() && Invariant(w) && HasPending(w.db.batches)
    requires Run(w, ops).db.prunedSequence == w.db.prunedSequence
    ensures StillPending(w, Run(w, ops))
    decreases |ops|
  {
    if ops != [] {
      var next := Step(w, ops[0]);
      StepKeepsPruned(w, ops[0]);
      StepKeepsInvariant(w, ops[0]);
      RunKeepsPruned(next, ops[1..]);
      StepKeepsPending(w, ops[0]);
      RunKeepsPending(next, ops[1..]);
    }
  }

  lemma {:induction false} UploadsStay(before: seq<Accepted>, after: seq<Accepted>, a: BatchRow, b: BatchRow)
    requires before <= after && SameButCursor(a, b) && 1 <= a.firstSequence <= a.lastSequence <= |before|
    ensures UploadFor(b, after) == UploadFor(a, before).(attemptCount := b.attemptCount)
  {
    assert UploadsOf(before, a.firstSequence - 1, a.lastSequence) ==
        UploadsOf(after, a.firstSequence - 1, a.lastSequence);
  }

  /** The answer to asking at `later` with a pending batch first handed out as `first`. */
  ghost predicate AnswersAgain(first: UploadBatch, s: Settings, db: Database, later: int) {
    && HasPending(db.batches)
    && var batch := Newest(db.batches);
       NextBatch(s, db, later).result == if batch.nextAttempt > later then Ok(None)
                                         else if batch.attemptCount > U32_MAX then Err(Corrupt)
                                         else Ok(Some(first.(attemptCount := batch.attemptCount)))
  }

  lemma {:induction false} AnswerUnchanged(s: Settings, before: Database, old': seq<Accepted>, t: Settings,
      db: Database, accepted: seq<Accepted>,
                        now: int, later: int, first: UploadBatch)
    requires Readable(s, before, old') && Readable(t, db, accepted) && old' <= accepted
    requires HasPending(before.batches) && HasPending(db.batches)
             && SameButCursor(Newest(before.batches), Newest(db.batches))
    requires NextBatch(s, before, now).result == Ok(Some(first))
    ensures AnswersAgain(first, t, db, later)
  {
    PendingAnswer(s, before, old', now);
    PendingAnswer(t, db, accepted, later);
    UploadsStay(old', accepted, Newest(before.batches), Newest(db.batches));
  }

  /**
   Until it is acknowledged, a pending batch is handed out again with only its attempt count changed, whatever
   is appended, retried, rotated or restarted in between, once the keys of the unpruned rows are loaded again.
   */
  lemma {:induction false} PendingUntilAcknowledged(w: World, ops: seq<Op>, now: int, later: int, first: UploadBatch)
    requires w.settings.primitives.Lawful() && Invariant(w) && HasPending(w.db.batches)
    requires KeysHeld(w.settings, w.accepted, w.db.prunedSequence)
    requires KeysHeld(Run(w, ops).settings, Run(w, ops).accepted, w.db.prunedSequence)
    requires Run(w, ops).db.prunedSequence == w.db.prunedSequence
    requires NextBatch(w.settings, w.db, now).result == Ok(Some(first))
    ensures AnswersAgain(first, Run(w, ops).settings, Run(w, ops).db, later)
  {
    var after := Run(w, ops);
    RunKeepsInvariant(w, ops);
    RunKeepsPending(w, ops);
    RunExtendsHistory(w, ops);
    AnswerUnchanged(w.settings, w.db, w.accepted, after.settings, after.db, after.accepted, now, later, first);
  }

  /** In particular in a run that never loses or rebinds a needed key. */
  lemma {:induction false} SafeRunKeepsBatch(w: World, ops: seq<Op>, now: int, later: int, first: UploadBatch)
    requires w.settings.primitives.Lawful() && Invariant(w) && KeysHeld(w.settings, w.accepted, w.db.prunedSequence)
    requires SafeRun(w, ops) && HasPending(w.db.batches)
    requires Run(w, ops).db.prunedSequence == w.db.prunedSequence
    requires NextBatch(w.settings, w.db, now).result == Ok(Some(first))
    ensures AnswersAgain(first, Run(w, ops).settings, Run(w, ops).db, later)
  {
    SafeRunKeepsKeys(w, ops);
    PendingUntilAcknowledged(w, ops, now, later, first);
  }
}

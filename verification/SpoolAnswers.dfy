/**
 What each operation of the spool answers and writes, in any state of the invariant, each field in terms of the history
 of accepted events.
 */
module SpoolAnswers {
  import opened Common
  import opened Chain
  import opened Sorting
  import opened SpoolState
  import opened SpoolRuns
  import opened SpoolGuarantees
  import opened SpoolDelivery
  import opened SpoolChecks

  /** A hash as the spool shows it. */
  ghost predicate Shows(text: Text, hash: Hash) {
    text.bytes == Ascii("sha256:") + Hex(hash.bytes)
  }

  /** Letters, digits, dots, underscores, colons, hyphens and slashes. */
  ghost predicate Identifier(text: Text, maximumLength: nat) {
    && 1 <= |text.bytes| <= maximumLength
    && forall b | b in text.bytes ::
         48 <= b <= 57 || 65 <= b <= 90 || 97 <= b <= 122 || b == 46 || b == 95 || b == 58 || b == 45 || b == 47
  }

  // Batches

  /** An event of a document is accepted event number `sequence`, between two chain heads. */
  ghost predicate IsEvent(event: UploadEvent, accepted: seq<Accepted>, sequence: nat)
    requires 1 <= sequence <= |accepted|
  {
    && event.localSequence == sequence
    && event.eventId == accepted[sequence - 1].stored.eventId
    && event.sourceSequence == accepted[sequence - 1].stored.sourceSequence
    && event.payload == accepted[sequence - 1].stored
    && Shows(event.previousHash, HeadAt(accepted, sequence - 1))
    && Shows(event.eventHash, HeadAt(accepted, sequence))
  }

  /** A document holds the accepted events of its range, one after the other, and is signed over its chain head. */
  ghost predicate IsDocument(p: Primitives, accepted: seq<Accepted>, document: UploadBatch) {
    && 1 <= document.firstSequence <= document.lastSequence <= |accepted|
    && document.eventCount == |document.events| == document.lastSequence - document.firstSequence + 1
    && (forall k: nat | k < |document.events| :: IsEvent(document.events[k], accepted, document.firstSequence + k))
    && Shows(document.chainHead, HeadAt(accepted, document.lastSequence))
    && p.verify(document.publicKey, HeadAt(accepted, document.lastSequence), document.signature)
    && document.batchId.bytes ==
       Ascii("batch-") + Decimal(document.firstSequence) + [45] + Decimal(document.lastSequence) + [45]
       + Hex(HeadAt(accepted, document.lastSequence).bytes[..8])
    && document.attemptCount <= 0xFFFF_FFFF
  }

  /** A document says of its batch what the batch's row says. */
  ghost predicate IsOf(document: UploadBatch, batch: BatchRow) {
    && document.batchId == batch.batchId
    && document.firstSequence == batch.firstSequence && document.lastSequence == batch.lastSequence
    && document.eventCount == batch.eventCount && Shows(document.chainHead, batch.chainHead)
    && document.signingKeyVersion == batch.signingKeyVersion && document.publicKey == batch.publicKey
    && document.signature == batch.signature && document.attemptCount == batch.attemptCount
  }

  lemma {:induction false} UploadIsEvent(p: Primitives, accepted: seq<Accepted>, i: nat)
    requires HistoryOk(p, accepted) && i < |accepted|
    ensures IsEvent(Upload(accepted[i].row, accepted[i].stored), accepted, i + 1)
  {
    EntryLinks(p, accepted, i);
    assert AcceptedOk(p, accepted, i);
  }

  lemma {:induction false} UploadsAreEvents(p: Primitives, accepted: seq<Accepted>, from: nat, to: nat)
    requires HistoryOk(p, accepted) && from <= to <= |accepted|
    ensures forall k: nat | k < to - from :: IsEvent(UploadsOf(accepted, from, to)[k], accepted, from + 1 + k)
  {
    forall k: nat | k < to - from ensures IsEvent(UploadsOf(accepted, from, to)[k], accepted, from + 1 + k) {
      UploadIsEvent(p, accepted, from + k);
    }
  }

  lemma {:induction false} RowIsDocument(p: Primitives, accepted: seq<Accepted>, b: BatchRow)
    requires HistoryOk(p, accepted) && 1 <= b.firstSequence <= b.lastSequence <= |accepted|
    requires b.eventCount == b.lastSequence - b.firstSequence + 1 && b.chainHead == HeadAt(accepted, b.lastSequence)
    requires b.batchId == BatchId(b.firstSequence, b.lastSequence, b.chainHead)
    requires p.verify(b.publicKey, b.chainHead, b.signature) && b.attemptCount <= 0xFFFF_FFFF
    ensures IsDocument(p, accepted, UploadFor(b, accepted)) && IsOf(UploadFor(b, accepted), b)
  {
    UploadsAreEvents(p, accepted, b.firstSequence - 1, b.lastSequence);
    var first, last, head := Decimal(b.firstSequence), Decimal(b.lastSequence), Hex(b.chainHead.bytes[..8]);
    assert Ascii("batch-") + first + [45] + last + [45] + head == Ascii("batch-")
        + (first + [45] + (last + [45] + head));
  }

  lemma {:induction false} UploadIsDocument(p: Primitives, db: Database, accepted: seq<Accepted>, j: nat)
    requires HistoryOk(p, accepted) && BatchesOk(p, db, accepted) && j < |db.batches|
    requires db.batches[j].attemptCount <= 0xFFFF_FFFF
    ensures var b := db.batches[j];
            && 1 <= b.firstSequence <= b.lastSequence <= |accepted|
            && IsDocument(p, accepted, UploadFor(b, accepted)) && IsOf(UploadFor(b, accepted), b)
  {
    BatchRange(p, db, accepted, j);
    assert BatchOk(p, db.batches, accepted, j);
    RowIsDocument(p, accepted, db.batches[j]);
  }

  /** Asked for a batch while one is pending, the spool changes nothing, and answers that batch once it is due. */
  lemma {:induction false} PendingDocument(s: Settings, db: Database, accepted: seq<Accepted>, now: int)
    requires Readable(s, db, accepted) && HasPending(db.batches)
    ensures var reply, batch := NextBatch(s, db, now), Newest(db.batches);
            && reply.db == db
            && (reply.result == Ok(None) <==> batch.nextAttempt > now)
            && (reply.result == Err(Corrupt) <==> batch.nextAttempt <= now && batch.attemptCount > 0xFFFF_FFFF)
            && (reply.result.Ok? || reply.result == Err(Corrupt))
            && (reply.result.Ok? && reply.result.value.Some? ==>
                  IsDocument(s.primitives, accepted, reply.result.value.value) && IsOf(reply.result.value.value, batch))
  {
    PendingAnswer(s, db, accepted, now);
    if Newest(db.batches).attemptCount <= 0xFFFF_FFFF {
      UploadIsDocument(s.primitives, db, accepted, |db.batches| - 1);
    }
  }

  /** A batch of the `n` oldest events, signed with the current key, of which no attempt has been made. */
  ghost predicate IsNew(s: Settings, db: Database, accepted: seq<Accepted>, batch: BatchRow, n: nat, now: int)
    requires db.prunedSequence + n <= |accepted|
  {
    && batch.firstSequence == db.prunedSequence + 1 && batch.lastSequence == db.prunedSequence + n
       && batch.eventCount == n
    && batch.chainHead == HeadAt(accepted, db.prunedSequence + n)
    && batch.signingKeyVersion == s.signingKey.version
    && batch.publicKey == s.primitives.verifyingKey(s.signingKey.key)
    && batch.signature == s.primitives.sign(s.signingKey.key, batch.chainHead)
    && batch.state == Pending && batch.attemptCount == 0 && batch.nextAttempt == now && batch.lastFailure == None
  }

  /** The first `n` rows now belong to the batch, and the others are as they were. */
  ghost predicate Batches(events: seq<EventRow>, after: seq<EventRow>, batchId: Text, n: nat) {
    |after| == |events| && forall i | 0 <= i < |events| ::
      after[i] == if i < n then events[i].(state := Batched, batchId := Some(batchId)) else events[i]
  }

  /** The tables after a batch of the `n` oldest events was made: those events belong to it and nothing else changes. */
  ghost predicate Takes(db: Database, after: Database, batch: BatchRow, n: nat)
    requires n <= |db.events|
  {
    && after == db.(batches := db.batches + [batch], batchEvents := after.batchEvents, events := after.events)
    && Batches(db.events, after.events, batch.batchId, n) && |db.batchEvents| <= |after.batchEvents|
    && after.batchEvents == db.batchEvents + after.batchEvents[|db.batchEvents|..]
    && Lists(after.batchEvents[|db.batchEvents|..], db.events[..n], batch.batchId)
  }

  /** One membership row for each event. */
  ghost predicate Lists(members: seq<BatchEvent>, rows: seq<EventRow>, batchId: Text) {
    |members| == |rows| && forall i | 0 <= i < |rows| ::
      members[i].batchId == batchId && members[i].eventId == rows[i].eventId
      && members[i].localSequence == rows[i].localSequence
  }

  lemma {:induction false} MarksFirst(events: seq<EventRow>, n: nat, batchId: Text)
    requires n <= |events| && forall i, j | 0 <= i < j < |events| :: events[i].eventId != events[j].eventId
    ensures Batches(events, MarkBatched(events, events[..n], batchId), batchId, n)
  {
    var rows := events[..n];
    forall i | 0 <= i < |events|
      ensures (exists r | r in rows :: r.eventId == events[i].eventId) <==> i < n
    {
      if i < n {
        assert rows[i] in rows;
      }
    }
  }

  lemma {:induction false} MembersListed(rows: seq<EventRow>, batchId: Text)
    ensures Lists(Memberships(rows, batchId), rows, batchId)
  {}

  lemma {:induction false} CreateTakes(s: Settings, db: Database, n: nat, now: int)
    requires 0 < n <= |db.events|
             && forall i, j | 0 <= i < j < |db.events| :: db.events[i].eventId != db.events[j].eventId
    ensures var rows := db.events[..n];
            Takes(db, CreateBatch(s, db, rows, now), SignedBatch(s, rows, now), n)
  {
    var rows := db.events[..n];
    var id := SignedBatch(s, rows, now).batchId;
    MarksFirst(db.events, n, id);
    MembersListed(rows, id);
    assert (db.batchEvents + Memberships(rows, id))[|db.batchEvents|..] == Memberships(rows, id);
  }

  /** The tables and the answer of a batch just made of the `n` oldest events. */
  ghost predicate Makes(s: Settings, db: Database, accepted: seq<Accepted>, n: nat, now: int,
      reply: Reply<Option<UploadBatch>>) {
    && n <= |db.events| && db.prunedSequence + n <= |accepted| && reply.db.batches != []
    && IsNew(s, db, accepted, Newest(reply.db.batches), n, now) && Takes(db, reply.db, Newest(reply.db.batches), n)
    && reply.result.Ok? && reply.result.value.Some?
    && IsDocument(s.primitives, accepted, reply.result.value.value)
    && IsOf(reply.result.value.value, Newest(reply.db.batches))
  }

  lemma {:induction false} CreatedDocument(s: Settings, db: Database, accepted: seq<Accepted>, batch: BatchRow)
    requires HistoryOk(s.primitives, accepted) && BatchesOk(s.primitives, db, accepted)
    requires db.batches != [] && batch == Newest(db.batches) && batch.attemptCount == 0
    ensures 1 <= batch.firstSequence <= batch.lastSequence <= |accepted|
    ensures IsDocument(s.primitives, accepted, UploadFor(batch, accepted)) && IsOf(UploadFor(batch, accepted), batch)
  {
    UploadIsDocument(s.primitives, db, accepted, |db.batches| - 1);
  }

  lemma {:induction false} CreateMakes(s: Settings, db: Database, accepted: seq<Accepted>, n: nat, now: int,
      document: UploadBatch)
    requires PlacesOk(accepted) && EventsOk(db, accepted) && ReceiptsOk(db, accepted) && 0 < n <= |db.events|
    requires IsDocument(s.primitives, accepted, document) && IsOf(document, SignedBatch(s, db.events[..n], now))
    ensures Makes(s, db, accepted, n, now, Reply(CreateBatch(s, db, db.events[..n], now), Ok(Some(document))))
  {
    EventIdsDistinct(db, accepted);
    CreateTakes(s, db, n, now);
    NewestIsNew(s, db, accepted, n, now);
    MakesFrom(s, db, accepted, n, now, CreateBatch(s, db, db.events[..n], now), document);
  }

  lemma {:induction false} MakesFrom(s: Settings, db: Database, accepted: seq<Accepted>, n: nat, now: int,
      after: Database, document: UploadBatch)
    requires n <= |db.events| && db.prunedSequence + n <= |accepted| && after.batches != []
    requires IsNew(s, db, accepted, Newest(after.batches), n, now) && Takes(db, after, Newest(after.batches), n)
    requires IsDocument(s.primitives, accepted, document) && IsOf(document, Newest(after.batches))
    ensures Makes(s, db, accepted, n, now, Reply(after, Ok(Some(document))))
  {}

  /** With nothing pending, as many of the oldest events as a batch holds become one, and its document is the answer. */
  lemma {:induction false} NewDocument(s: Settings, db: Database, accepted: seq<Accepted>, now: int)
    requires Readable(s, db, accepted) && ValidLimits(s.limits) && !HasPending(db.batches)
    ensures if db.events == [] then NextBatch(s, db, now) == Reply(db, Ok(None))
            else Makes(s, db, accepted, Min(|db.events|, s.limits.maximumBatchEvents), now, NextBatch(s, db, now))
  {
    FreshAnswer(s, db, accepted, now);
    if db.events != [] {
      var n := BatchSize(s, db);
      var batch := SignedBatch(s, db.events[..n], now);
      CreatedReadable(s, db, accepted, now);
      CreatedDocument(s, CreateBatch(s, db, db.events[..n], now), accepted, batch);
      CreateMakes(s, db, accepted, n, now, UploadFor(batch, accepted));
    }
  }

  lemma {:induction false} NewestIsNew(s: Settings, db: Database, accepted: seq<Accepted>, n: nat, now: int)
    requires PlacesOk(accepted) && EventsOk(db, accepted) && 0 < n <= |db.events|
    ensures db.prunedSequence + n <= |accepted| && IsNew(s, db, accepted, SignedBatch(s, db.events[..n], now), n, now)
  {
    RowsAscend(db, accepted);
    assert db.events[n - 1] == Stamped(db.batches, accepted[db.prunedSequence + n - 1].row);
  }

  /** Neighbouring events of a document share a hash, and its last one ends at its chain head. */
  lemma {:induction false} DocumentIsChained(p: Primitives, accepted: seq<Accepted>, document: UploadBatch)
    requires IsDocument(p, accepted, document)
    ensures forall k: nat | k + 1 < |document.events| ::
            document.events[k].eventHash == document.events[k + 1].previousHash
    ensures document.events[|document.events| - 1].eventHash == document.chainHead
  {
    forall k: nat | k + 1 < |document.events| ensures document.events[k].eventHash ==
        document.events[k + 1].previousHash {
      assert IsEvent(document.events[k], accepted, document.firstSequence + k);
      assert IsEvent(document.events[k + 1], accepted, document.firstSequence + (k + 1));
    }
    var last := |document.events| - 1;
    assert IsEvent(document.events[last], accepted, document.firstSequence + last);
  }

  // Loading a batch from any tables

  /** An uploaded event shows its row, and the payload the row opens to. */
  ghost predicate ShowsRow(s: Settings, row: EventRow, event: UploadEvent) {
    && Opens(s, row, event.payload)
    && event.eventId == row.eventId && event.localSequence == row.localSequence
    && event.sourceSequence == event.payload.sourceSequence
    && Shows(event.previousHash, row.previousHash) && Shows(event.eventHash, row.eventHash)
  }

  ghost predicate ShowsRows(s: Settings, rows: seq<EventRow>, events: seq<UploadEvent>) {
    |events| == |rows| && forall k | 0 <= k < |rows| :: ShowsRow(s, rows[k], events[k])
  }

  lemma {:induction false} ShowsText(text: Text, hash: Hash)
    ensures Shows(text, hash) <==> text == PrefixedHash(hash)
  {
    assert Shows(PrefixedHash(hash), hash);
  }

  lemma {:induction false} RowShown(s: Settings, row: EventRow, event: UploadEvent)
    ensures ShowsRow(s, row, event) <==> DecryptRow(s, row).Ok? && event == Upload(row, DecryptRow(s, row).value)
  {
    OpensExactly(s, row, event.payload);
    ShowsText(event.previousHash, row.previousHash);
    ShowsText(event.eventHash, row.eventHash);
    if DecryptRow(s, row).Ok? {
      OpensExactly(s, row, DecryptRow(s, row).value);
    }
  }

  lemma {:induction false} RowsShown(s: Settings, rows: seq<EventRow>, events: seq<UploadEvent>)
    ensures ShowsRows(s, rows, events) <==> DecryptEvents(s, rows) == Ok(events)
    decreases |rows|
  {
    if rows != [] {
      if events != [] {
        RowShown(s, rows[0], events[0]);
        RowsShown(s, rows[1..], events[1..]);
        assert events == [events[0]] + events[1..];
        ShowsCons(s, rows, events);
      }
      if DecryptEvents(s, rows).Ok? {
        var event, rest := Upload(rows[0], DecryptRow(s, rows[0]).value), DecryptEvents(s, rows[1..]).value;
        assert ([event] + rest)[1..] == rest;
      }
    }
  }

  lemma {:induction false} ShowsCons(s: Settings, rows: seq<EventRow>, events: seq<UploadEvent>)
    requires rows != [] && events != []
    ensures ShowsRows(s, rows, events) <==> ShowsRow(s, rows[0], events[0]) && ShowsRows(s, rows[1..], events[1..])
  {
    if ShowsRow(s, rows[0], events[0]) && ShowsRows(s, rows[1..], events[1..]) {
      forall k | 0 <= k < |rows| ensures ShowsRow(s, rows[k], events[k]) {
        assert k > 0 ==> rows[k] == rows[1..][k - 1] && events[k] == events[1..][k - 1];
      }
    }
  }

  /** A batch's document is given out if and only if its rows open, its signature verifies and its count fits. */
  lemma {:induction false} LoadExactly(s: Settings, db: Database, batch: BatchRow, document: UploadBatch)
    requires FindBatch(db.batches, batch.batchId) == Some(batch)
    ensures LoadBatch(s, db, batch.batchId) == Ok(document) <==>
            && IsOf(document, batch) && ShowsRows(s, SelectBatch(db, batch.batchId), document.events)
            && s.primitives.verify(batch.publicKey, batch.chainHead, batch.signature)
               && batch.attemptCount <= 0xFFFF_FFFF
    ensures (exists events :: ShowsRows(s, SelectBatch(db, batch.batchId), events))
            && !s.primitives.verify(batch.publicKey, batch.chainHead, batch.signature) ==>
            LoadBatch(s, db, batch.batchId) == Err(Tampered)
  {
    RowsShown(s, SelectBatch(db, batch.batchId), document.events);
    ShowsText(document.chainHead, batch.chainHead);
    if events :| ShowsRows(s, SelectBatch(db, batch.batchId), events) {
      RowsShown(s, SelectBatch(db, batch.batchId), events);
    }
  }

  // Appends

  /** An event as it is stored: each text redacted with its limit, and the payload. */
  ghost predicate Redacts(p: Primitives, raw: RawEvent, stored: StoredPayload) {
    && stored.schemaVersion == 1 && stored.eventId == raw.eventId
    && stored.source == p.redactText(raw.source, 100) && stored.actionType == p.redactText(raw.actionType, 100)
    && (stored.sourceSequence.Some? <==> raw.sourceSequence.Some?)
    && (raw.sourceSequence.Some? ==> stored.sourceSequence.value == p.redactText(raw.sourceSequence.value, 200))
    && stored.payload == p.redactPayload(raw.payload) && stored.redactionPolicyVersion == p.redactionPolicyVersion
  }

  /**
   The row of an event: hashed after the head before it, and sealed with the active key for its own place and hash.
   */
  ghost predicate Seals(s: Settings, stored: StoredPayload, sequence: nat, head: Hash, nonce: Nonce, row: EventRow) {
    var p, plaintext := s.primitives, s.primitives.printPayload(stored);
    && s.activeVersion in s.keys
    && row.eventId == stored.eventId && row.localSequence == sequence && row.previousHash == head
    && row.payloadDigest == p.sha256(plaintext)
    && row.eventHash ==
       p.sha256(Preimage(ChainRecord(sequence, head, stored.eventId, stored.sourceSequence, row.payloadDigest)))
    && row.keyVersion == s.activeVersion && row.state == Queued && row.batchId == None
    && var aad := Ascii("event-envelope-v1") + [0] + BigEndian(sequence, 8) + row.eventHash.bytes
       + stored.eventId.bytes;
       row.envelope ==
           p.encodeEnvelope(AeadEnvelope(1, s.activeVersion, nonce, Text(Ascii("sha256:") + Hex(p.sha256(aad).bytes)),
                                                     p.encrypt(s.keys[s.activeVersion], nonce, aad, plaintext)))
  }

  /** The tables with one more event. */
  ghost predicate Inserts(db: Database, after: Database, row: EventRow) {
    && after.events == db.events + [row] && after.nextSequence == row.localSequence + 1
       && after.chainHead == row.eventHash
    && after.receipts == db.receipts[row.eventId := Receipt(row.localSequence, row.eventHash, false)]
    && after.prunedSequence == db.prunedSequence && after.prunedHead == db.prunedHead
    && after.batches == db.batches && after.batchEvents == db.batchEvents && after.anchors == db.anchors
  }

  ghost predicate ProperRaw(raw: RawEvent) {
    && Identifier(raw.eventId, 200) && Identifier(raw.source, 100) && Identifier(raw.actionType, 100)
    && (raw.sourceSequence.Some? ==> Identifier(raw.sourceSequence.value, 200))
  }

  ghost predicate Known(accepted: seq<Accepted>, id: Text) {
    exists k :: 0 <= k < |accepted| && accepted[k].row.eventId == id
  }

  /** Room for one more event by count, and for its text by size. */
  ghost predicate Spacious(s: Settings, db: Database, stored: StoredPayload) {
    && |db.events| < s.limits.maximumPendingEvents
    && Min(|s.primitives.printPayload(stored)| + 512, U64_MAX) <= s.limits.maximumPayloadBytes
  }

  /** Room for the sealed row, and for the place after it. */
  ghost predicate Fits(s: Settings, db: Database, row: EventRow) {
    && |row.envelope| <= I64_MAX && row.localSequence < I64_MAX
    && Min(EnvelopeBytes(db.events) + |row.envelope|, U64_MAX) <= s.limits.maximumPayloadBytes
  }

  /** What an append is answered once its row is sealed. */
  ghost predicate AnswersSealed(s: Settings, db: Database, row: EventRow, reply: Reply<DurableCapture>) {
    if |row.envelope| <= I64_MAX && EnvelopeBytes(db.events) > I64_MAX then reply == Reply(db, Err(Sql))
    else if !Fits(s, db, row) then reply == Reply(db, Err(DiskPressure))
    else
      && Inserts(db, reply.db, row)
      && reply.result.Ok? && reply.result.value.localSequence == row.localSequence && !reply.result.value.replayed
      && Shows(reply.result.value.eventHash, row.eventHash)
  }

  /** What a new event is answered, when its id and texts are in order and its key is loaded. */
  ghost predicate AnswersNew(s: Settings, db: Database, accepted: seq<Accepted>, stored: StoredPayload,
      nonce: Option<Nonce>, reply: Reply<DurableCapture>) {
    if !Spacious(s, db, stored) then reply == Reply(db, Err(DiskPressure))
    else if nonce.None? then reply == Reply(db, Err(Crypto))
    else
      exists row {:trigger AnswersSealed(s, db, row, reply)} ::
        && Seals(s, stored, |accepted| + 1, HeadAt(accepted, |accepted|), nonce.value, row)
        && AnswersSealed(s, db, row, reply)
  }

  /** What any event is answered. */
  ghost predicate AnswersAppend(s: Settings, db: Database, accepted: seq<Accepted>, raw: RawEvent, nonce: Option<Nonce>,
      reply: Reply<DurableCapture>) {
    if !ProperRaw(raw) then reply == Reply(db, Err(InvalidEvent))
    else if s.activeVersion !in s.keys then reply == Reply(db, Err(MissingKey))
    else if Known(accepted, raw.eventId) then
      exists k :: 0 <= k < |accepted| && accepted[k].row.eventId == raw.eventId
        && reply.db == db && reply.result.Ok? && reply.result.value.replayed
           && reply.result.value.localSequence == k + 1
        && Shows(reply.result.value.eventHash, HeadAt(accepted, k + 1))
    else exists stored :: Redacts(s.primitives, raw, stored) && AnswersNew(s, db, accepted, stored, nonce, reply)
  }

  lemma {:induction false} IdentifierExactly(text: Text, maximumLength: nat)
    ensures Identifier(text, maximumLength) <==> ValidIdentifier(text, maximumLength)
  {
    forall b: byte ensures IdentifierByte(b) <==>
        48 <= b <= 57 || 65 <= b <= 90 || 97 <= b <= 122 || b == 46 || b == 95 || b == 58 || b == 45 || b == 47 {}
  }

  lemma {:induction false} ProperExactly(raw: RawEvent)
    ensures ProperRaw(raw) <==> ValidRaw(raw)
  {
    IdentifierExactly(raw.eventId, 200);
    IdentifierExactly(raw.source, 100);
    IdentifierExactly(raw.actionType, 100);
    if raw.sourceSequence.Some? {
      IdentifierExactly(raw.sourceSequence.value, 200);
    }
  }

  lemma {:induction false} KnownExactly(db: Database, accepted: seq<Accepted>, id: Text)
    requires ReceiptsOk(db, accepted)
    ensures Known(accepted, id) <==> id in db.receipts
    ensures id in db.receipts ==>
              var k := db.receipts[id].localSequence - 1;
              0 <= k < |accepted| && accepted[k].row.eventId == id
                  && db.receipts[id].eventHash == HeadAt(accepted, k + 1)
  {
    if id in db.receipts {
      var k := db.receipts[id].localSequence - 1;
      assert accepted[k].row.eventId == id;
    }
  }

  lemma {:induction false} SealedExactly(s: Settings, db: Database, raw: RawEvent, nonce: Nonce, row: EventRow)
    requires s.activeVersion in s.keys && raw.eventId !in db.receipts && row == NextRow(s, db, raw, nonce)
    requires Spacious(s, db, Redacted(s.primitives, raw)) && !Conflicts(db, row)
    ensures AnswersSealed(s, db, row, AppendTransaction(s, db, raw, Some(nonce)))
  {}

  lemma {:induction false} RowSeals(s: Settings, db: Database, accepted: seq<Accepted>, raw: RawEvent, nonce: Nonce)
    requires DeviceOk(db, accepted) && s.activeVersion in s.keys
    ensures Seals(s, Redacted(s.primitives, raw), |accepted| + 1, HeadAt(accepted, |accepted|), nonce,
                  NextRow(s, db, raw, nonce))
  {}

  lemma {:induction false} NewExactly(s: Settings, db: Database, accepted: seq<Accepted>, raw: RawEvent,
      nonce: Option<Nonce>)
    requires PlacesOk(accepted) && DeviceOk(db, accepted) && EventsOk(db, accepted) && ReceiptsOk(db, accepted)
    requires s.activeVersion in s.keys && raw.eventId !in db.receipts
    ensures AnswersNew(s, db, accepted, Redacted(s.primitives, raw), nonce, AppendTransaction(s, db, raw, nonce))
  {
    if nonce.Some? && Spacious(s, db, Redacted(s.primitives, raw)) {
      var row := NextRow(s, db, raw, nonce.value);
      NoKeyIsTaken(db, accepted, row);
      RowSeals(s, db, accepted, raw, nonce.value);
      SealedExactly(s, db, raw, nonce.value, row);
    }
  }

  /** In any state of the invariant, an append is answered and recorded as described. */
  lemma {:induction false} AppendExactly(s: Settings, db: Database, accepted: seq<Accepted>, raw: RawEvent,
      nonce: Option<Nonce>)
    requires TablesOk(s.primitives, db, accepted)
    ensures AnswersAppend(s, db, accepted, raw, nonce, Append(s, db, raw, nonce))
  {
    ProperExactly(raw);
    KnownExactly(db, accepted, raw.eventId);
    if ValidRaw(raw) && s.activeVersion in s.keys && raw.eventId !in db.receipts {
      NewExactly(s, db, accepted, raw, nonce);
      assert Redacts(s.primitives, raw, Redacted(s.primitives, raw));
    }
  }

  // Retries

  /**
   The tables after a retry: the newest batch has one more attempt, a next one and a failure, and nothing else changes.
   */
  ghost predicate Delays(db: Database, after: Database, nextAttempt: int, failure: Text) {
    && db.batches != [] && after == db.(batches := after.batches) && |after.batches| == |db.batches|
    && (forall i | 0 <= i < |db.batches| - 1 :: after.batches[i] == db.batches[i])
    && var old', new' := Newest(db.batches), Newest(after.batches);
       && new' == old'.(attemptCount := old'.attemptCount + 1, nextAttempt := nextAttempt, lastFailure := Some(failure))
  }

  ghost predicate AnswersRetry(db: Database, batchId: Text, now: int, delay: nat, failure: Text,
      reply: Reply<RetryCursor>) {
    if !Identifier(failure, 100) || delay > I64_MAX || now + delay > I64_MAX then reply == Reply(db, Err(InvalidEvent))
    else if !(HasPending(db.batches) && Newest(db.batches).batchId == batchId) then reply == Reply(db, Err(NotFound))
    else
      && Delays(db, reply.db, now + delay, failure)
      && reply.result ==
         if Newest(db.batches).attemptCount >= 0xFFFF_FFFF then Err(Corrupt)
         else Ok(RetryCursor(Newest(db.batches).attemptCount + 1, now + delay))
  }

  lemma {:induction false} OnlyNewestPends(p: Primitives, db: Database, accepted: seq<Accepted>, batchId: Text)
    requires BatchesOk(p, db, accepted)
    ensures (exists b | b in db.batches :: b.batchId == batchId && b.state.Pending?) <==>
            HasPending(db.batches) && Newest(db.batches).batchId == batchId
    ensures forall i | 0 <= i < |db.batches| - 1 ::
            db.batches[i].state.Acknowledged? && db.batches[i].batchId != Newest(db.batches).batchId
  {
    forall i | 0 <= i < |db.batches| - 1
      ensures db.batches[i].state.Acknowledged? && db.batches[i].batchId != Newest(db.batches).batchId
    {
      assert BatchOk(p, db.batches, accepted, i);
      BatchIdsDistinct(p, db, accepted, i, |db.batches| - 1);
    }
    if b :| b in db.batches && b.batchId == batchId && b.state.Pending? {
      var i :| 0 <= i < |db.batches| && db.batches[i] == b;
    }
  }

  lemma {:induction false} NewestRetried(batches: seq<BatchRow>, nextAttempt: int, failure: Text)
    requires HasPending(batches)
    requires forall i | 0 <= i < |batches| - 1 :: batches[i].batchId != Newest(batches).batchId
    ensures var updated := Retried(batches, Newest(batches).batchId, nextAttempt, failure);
            && |updated| == |batches| && (forall i | 0 <= i < |batches| - 1 :: updated[i] == batches[i])
            && Newest(updated) == Newest(batches).(attemptCount := Newest(batches).attemptCount + 1,
                                                   nextAttempt := nextAttempt, lastFailure := Some(failure))
            && FindBatch(updated, Newest(batches).batchId) == Some(Newest(updated))
  {
    var updated := Retried(batches, Newest(batches).batchId, nextAttempt, failure);
    FindFirst(updated, |batches| - 1);
  }

  lemma {:induction false} RetryRecorded(db: Database, now: int, delay: nat, failure: Text)
    requires HasPending(db.batches) && Identifier(failure, 100) && delay <= I64_MAX && now + delay <= I64_MAX
    requires forall i | 0 <= i < |db.batches| - 1 :: db.batches[i].batchId != Newest(db.batches).batchId
    ensures AnswersRetry(db, Newest(db.batches).batchId, now, delay, failure,
                         RecordRetry(db, Newest(db.batches).batchId, now, delay, failure))
  {
    IdentifierExactly(failure, 100);
    NewestRetried(db.batches, now + delay, failure);
    assert Newest(db.batches) in db.batches;
  }

  /** A retry is recorded for the pending batch and for no other. */
  lemma {:induction false} RetryExactly(p: Primitives, db: Database, accepted: seq<Accepted>, batchId: Text, now: int,
      delay: nat, failure: Text)
    requires BatchesOk(p, db, accepted)
    ensures AnswersRetry(db, batchId, now, delay, failure, RecordRetry(db, batchId, now, delay, failure))
  {
    IdentifierExactly(failure, 100);
    OnlyNewestPends(p, db, accepted, batchId);
    if HasPending(db.batches) && Newest(db.batches).batchId == batchId
        && Identifier(failure, 100) && delay <= I64_MAX && now + delay <= I64_MAX {
      RetryRecorded(db, now, delay, failure);
    }
  }

  // Acknowledgements

  /** The tables after the pending batch is acknowledged: its events are gone, their receipts and its anchor stay. */
  ghost predicate Prunes(db: Database, after: Database, receiptId: Text, n: nat)
    requires db.batches != [] && n <= |db.events|
  {
    var batch := Newest(db.batches);
    && after.batches == db.batches[..|db.batches| - 1] + [batch.(state := Acknowledged)]
    && after.events == db.events[n..] && after.batchEvents == []
    && after.prunedSequence == batch.lastSequence == db.prunedSequence + n && after.prunedHead == batch.chainHead
    && after.anchors == db.anchors[receiptId := Anchor(batch.batchId, batch.chainHead)]
    && after.receipts.Keys == db.receipts.Keys
    && (forall id | id in db.receipts ::
          after.receipts[id] == db.receipts[id].(acknowledged := db.receipts[id].localSequence <= batch.lastSequence))
    && after.nextSequence == db.nextSequence && after.chainHead == db.chainHead
  }

  ghost predicate HasBatch(db: Database, j: int, batchId: Text) {
    0 <= j < |db.batches| && db.batches[j].batchId == batchId
  }

  /** What an acknowledgement of this batch is answered. */
  ghost predicate AnswersFor(db: Database, batch: BatchRow, chainHead: Text, receiptId: Text,
      reply: Reply<Acknowledgement>) {
    if !Shows(chainHead, batch.chainHead) then reply == Reply(db, Err(InvalidAcknowledgement))
    else if batch.state == Acknowledged then reply == Reply(db, Ok(Duplicate))
    else if receiptId in db.anchors then reply == Reply(db, Err(Sql))
    else
      && db.batches != [] && batch == Newest(db.batches) && reply.result == Ok(Applied)
      && exists n: nat {:trigger db.events[n..]} :: n <= |db.events| && Prunes(db, reply.db, receiptId, n)
  }

  ghost predicate AnswersAcknowledgement(db: Database, batchId: Text, chainHead: Text, receiptId: Text,
      reply: Reply<Acknowledgement>) {
    if !Identifier(receiptId, 200) then reply == Reply(db, Err(InvalidEvent))
    else if !exists j :: HasBatch(db, j, batchId) then reply == Reply(db, Err(NotFound))
    else exists j :: HasBatch(db, j, batchId) && AnswersFor(db, db.batches[j], chainHead, receiptId, reply)
  }

  lemma {:induction false} FindsBatch(p: Primitives, db: Database, accepted: seq<Accepted>, j: nat)
    requires BatchesOk(p, db, accepted) && j < |db.batches|
    ensures FindBatch(db.batches, db.batches[j].batchId) == Some(db.batches[j])
  {
    forall i | 0 <= i < j ensures db.batches[i].batchId != db.batches[j].batchId {
      BatchIdsDistinct(p, db, accepted, i, j);
    }
    FindFirst(db.batches, j);
  }

  lemma {:induction false} FindsNone(db: Database, batchId: Text)
    requires FindBatch(db.batches, batchId).Some?
    ensures exists j :: HasBatch(db, j, batchId)
  {
    var j := FoundIndex(db.batches, batchId);
    assert HasBatch(db, j, batchId);
  }

  /** The pruned tables, field by field. */
  lemma {:induction false} PrunedExactly(p: Primitives, db: Database, accepted: seq<Accepted>, receiptId: Text)
    requires TablesOk(p, db, accepted) && HasPending(db.batches)
    ensures var n := Covered(db.batches) - db.prunedSequence;
            0 <= n <= |db.events| && Prunes(db, Pruned(db, Newest(db.batches), receiptId), receiptId, n)
  {
    PendingRows(p, db, accepted);
    MarkNewest(p, db, accepted);
    MembersGone(db, receiptId);
    PruneKeepsTables(p, db, accepted, receiptId);
    ReceiptsMarked(db, Pruned(db, Newest(db.batches), receiptId), accepted);
  }

  lemma {:induction false} MembersGone(db: Database, receiptId: Text)
    requires MembersOk(db) && HasPending(db.batches)
    ensures Pruned(db, Newest(db.batches), receiptId).batchEvents == []
  {
    FilterNone(db.batchEvents, (b: BatchEvent) => b.batchId != Newest(db.batches).batchId);
  }

  lemma {:induction false} ReceiptOf(db: Database, accepted: seq<Accepted>, i: nat)
    requires ReceiptsOk(db, accepted) && i < |accepted|
    ensures accepted[i].row.eventId in db.receipts
    ensures db.receipts[accepted[i].row.eventId] == Receipt(i + 1, accepted[i].row.eventHash, i < db.prunedSequence)
  {}

  lemma {:induction false} ReceiptPlace(db: Database, accepted: seq<Accepted>, id: Text) returns (i: nat)
    requires ReceiptsOk(db, accepted) && id in db.receipts
    ensures i < |accepted| && accepted[i].row.eventId == id
  {
    i := db.receipts[id].localSequence - 1;
  }

  /** Receipts of one history, after more of it was pruned: the same ids, and those up to there acknowledged. */
  lemma {:induction false} ReceiptsMarked(db: Database, after: Database, accepted: seq<Accepted>)
    requires ReceiptsOk(db, accepted) && ReceiptsOk(after, accepted)
    ensures after.receipts.Keys == db.receipts.Keys
    ensures forall id | id in db.receipts ::
              after.receipts[id] ==
                  db.receipts[id].(acknowledged := db.receipts[id].localSequence <= after.prunedSequence)
  {
    forall id | id in db.receipts
      ensures id in after.receipts
      ensures after.receipts[id] ==
              db.receipts[id].(acknowledged := db.receipts[id].localSequence <= after.prunedSequence)
    {
      var i := ReceiptPlace(db, accepted, id);
      ReceiptOf(db, accepted, i);
      ReceiptOf(after, accepted, i);
    }
    forall id | id in after.receipts ensures id in db.receipts {
      var i := ReceiptPlace(after, accepted, id);
      ReceiptOf(db, accepted, i);
    }
  }

  lemma {:induction false} NewestPends(p: Primitives, db: Database, accepted: seq<Accepted>, j: nat)
    requires BatchesOk(p, db, accepted) && j < |db.batches| && db.batches[j].state.Pending?
    ensures HasPending(db.batches) && j == |db.batches| - 1
  {
    assert BatchOk(p, db.batches, accepted, j);
  }

  /** No batch that is still pending has an anchor. */
  lemma {:induction false} NoAnchorYet(p: Primitives, db: Database, accepted: seq<Accepted>)
    requires BatchesOk(p, db, accepted) && AnchorsOk(db) && HasPending(db.batches)
    ensures !exists id | id in db.anchors :: db.anchors[id].batchId == Newest(db.batches).batchId
  {
    OnlyNewestPends(p, db, accepted, Newest(db.batches).batchId);
    forall id | id in db.anchors ensures db.anchors[id].batchId != Newest(db.batches).batchId {
      var b :| b in db.batches && b.batchId == db.anchors[id].batchId && b.state.Acknowledged?;
      var i :| 0 <= i < |db.batches| && db.batches[i] == b;
    }
  }

  lemma {:induction false} AcknowledgeSettled(db: Database, batch: BatchRow, chainHead: Text, receiptId: Text)
    requires FindBatch(db.batches, batch.batchId) == Some(batch) && ValidIdentifier(receiptId, 200)
    requires batch.state.Acknowledged?
    ensures AnswersFor(db, batch, chainHead, receiptId, Acknowledge(db, batch.batchId, chainHead, receiptId))
  {
    ShowsText(chainHead, batch.chainHead);
  }

  lemma {:induction false} AcknowledgePending(db: Database, batch: BatchRow, chainHead: Text, receiptId: Text)
    requires FindBatch(db.batches, batch.batchId) == Some(batch) && ValidIdentifier(receiptId, 200)
    requires PendingBatches(db.batches) == [batch] && batch.state.Pending?
    requires !exists id | id in db.anchors :: db.anchors[id].batchId == batch.batchId
    requires Pruned(db, batch, receiptId).batchEvents == []
    ensures Acknowledge(db, batch.batchId, chainHead, receiptId) ==
            if !Shows(chainHead, batch.chainHead) then Reply(db, Err(InvalidAcknowledgement))
            else if receiptId in db.anchors then Reply(db, Err(Sql))
            else Reply(Pruned(db, batch, receiptId), Ok(Applied))
  {
    ShowsText(chainHead, batch.chainHead);
  }

  lemma {:induction false} AcknowledgeFound(p: Primitives, db: Database, accepted: seq<Accepted>, j: nat,
      chainHead: Text, receiptId: Text)
    requires TablesOk(p, db, accepted) && j < |db.batches| && ValidIdentifier(receiptId, 200)
    ensures AnswersFor(db, db.batches[j], chainHead, receiptId,
                       Acknowledge(db, db.batches[j].batchId, chainHead, receiptId))
  {
    FindsBatch(p, db, accepted, j);
    if db.batches[j].state.Acknowledged? {
      AcknowledgeSettled(db, db.batches[j], chainHead, receiptId);
    } else {
      NewestPends(p, db, accepted, j);
      AtMostOnePending(p, db, accepted);
      NoAnchorYet(p, db, accepted);
      MembersGone(db, receiptId);
      AcknowledgePending(db, db.batches[j], chainHead, receiptId);
      PrunedExactly(p, db, accepted, receiptId);
      assert db.batches[j] == Newest(db.batches);
    }
  }

  /** In any state of the invariant, an acknowledgement is answered and recorded as described. */
  lemma {:induction false} AcknowledgeExactly(p: Primitives, db: Database, accepted: seq<Accepted>, batchId: Text,
      chainHead: Text, receiptId: Text)
    requires TablesOk(p, db, accepted)
    ensures AnswersAcknowledgement(db, batchId, chainHead, receiptId, Acknowledge(db, batchId, chainHead, receiptId))
  {
    IdentifierExactly(receiptId, 200);
    if ValidIdentifier(receiptId, 200) {
      if j: int :| HasBatch(db, j, batchId) {
        AcknowledgeFound(p, db, accepted, j, chainHead, receiptId);
      } else if FindBatch(db.batches, batchId).Some? {
        FindsNone(db, batchId);
      }
    }
  }
}

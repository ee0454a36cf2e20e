/**
 The encrypted spool as an object. A transaction works on its own copy of the tables and
 becomes the spool's state only at its commit, so every early return is a rollback.
 */
module Spool {
  import opened Common
  import opened Chain
  import opened Sorting
  import opened SpoolState

  /** Primary keys and references the schema keeps, whatever the tables hold. */
  ghost predicate SchemaHolds(db: Database) {
    && (forall i, j | 0 <= i < j < |db.events| :: db.events[i].eventId != db.events[j].eventId)
    && (forall b | b in db.batchEvents :: FindBatch(db.batches, b.batchId).Some?)
  }

  lemma {:induction false} FilterMembers<T>(xs: seq<T>, keep: T -> bool)
    ensures forall x :: x in Filter(xs, keep) <==> x in xs && keep(x)
  {
    if xs != [] {
      FilterMembers(xs[1..], keep);
    }
  }

  lemma {:induction false} FilterDistinctIds(xs: seq<EventRow>, keep: EventRow -> bool)
    requires forall i, j | 0 <= i < j < |xs| :: xs[i].eventId != xs[j].eventId
    ensures forall i, j | 0 <= i < j < |Filter(xs, keep)| :: Filter(xs, keep)[i].eventId != Filter(xs, keep)[j].eventId
  {
    if xs != [] {
      FilterDistinctIds(xs[1..], keep);
      FilterMembers(xs[1..], keep);
      forall r | r in Filter(xs[1..], keep)
        ensures r.eventId != xs[0].eventId
      {
        var k :| 0 <= k < |xs[1..]| && xs[1..][k] == r;
        assert r == xs[k + 1];
      }
    }
  }

  lemma {:induction false} FindBatchAppend(batches: seq<BatchRow>, batch: BatchRow, id: Text)
    ensures FindBatch(batches + [batch], id) ==
            if FindBatch(batches, id).Some? then FindBatch(batches, id)
            else if batch.batchId == id then Some(batch) else None
  {
    if batches != [] {
      assert (batches + [batch])[1..] == batches[1..] + [batch];
      FindBatchAppend(batches[1..], batch, id);
    }
  }

  /** Row updates that leave the key alone leave lookups alone. */
  lemma {:induction false} FindBatchSameIds(before: seq<BatchRow>, after: seq<BatchRow>, id: Text)
    requires |before| == |after|
    requires forall i | 0 <= i < |before| :: before[i].batchId == after[i].batchId
    ensures FindBatch(before, id).Some? <==> FindBatch(after, id).Some?
  {
    if before != [] {
      FindBatchSameIds(before[1..], after[1..], id);
    }
  }

  function Prepend(events: seq<UploadEvent>,
      rest: Result<seq<UploadEvent>, SpoolError>): Result<seq<UploadEvent>, SpoolError> {
    match rest
    case Ok(tail) => Ok(events + tail)
    case Err(e) => Err(e)
  }

  lemma {:induction false} PrependOne(events: seq<UploadEvent>, event: UploadEvent,
      rest: Result<seq<UploadEvent>, SpoolError>)
    ensures Prepend(events, Prepend([event], rest)) == Prepend(events + [event], rest)
  {
    if rest.Ok? {
      assert events + ([event] + rest.value) == events + [event] + rest.value;
    }
  }

  lemma {:induction false} PrependNone(rest: Result<seq<UploadEvent>, SpoolError>)
    ensures Prepend([], rest) == rest
  {
    if rest.Ok? {
      assert [] + rest.value == rest.value;
    }
  }

  lemma {:induction false} WalkStep(s: Settings, rows: seq<EventRow>, i: nat, sequence: nat, previous: Hash)
    requires i < |rows|
    ensures ChainWalk(s, rows[i..], sequence, previous) ==
            if WalkRow(s, rows[i], sequence, previous).Err? then Err(WalkRow(s, rows[i], sequence, previous).error)
            else ChainWalk(s, rows[i + 1..], sequence + 1, rows[i].eventHash)
  {
    assert rows[i..][1..] == rows[i + 1..];
  }

  class EncryptedSpool {
    const primitives: Primitives
    const limits: Limits
    var activeVersion: nat
    var keys: map<nat, Key>
    var signingKey: VersionedKey
    var db: Database

    ghost predicate Valid()
      reads this
    {
      SchemaHolds(db)
    }

    function CurrentSettings(): Settings
      reads this
    {
      Settings(primitives, activeVersion, keys, signingKey, limits)
    }

    /** Opens the tables found on disk with only the given keys loaded. */
    constructor (primitives: Primitives, limits: Limits, encryptionKey: VersionedKey, signingKey: VersionedKey,
        persisted: Database)
      requires ValidLimits(limits) && SchemaHolds(persisted)
      ensures Valid() && db == persisted
      ensures CurrentSettings() ==
              Settings(primitives, encryptionKey.version, map[encryptionKey.version := encryptionKey.key], signingKey,
              limits)
    {
      this.primitives, this.limits := primitives, limits;
      this.activeVersion := encryptionKey.version;
      this.keys := map[encryptionKey.version := encryptionKey.key];
      this.signingKey := signingKey;
      this.db := persisted;
    }

    method AddEncryptionKey(key: VersionedKey, makeActive: bool)
      modifies this`activeVersion, this`keys
      ensures keys == old(keys)[key.version := key.key]
      ensures activeVersion == if makeActive then key.version else old(activeVersion)
    {
      if makeActive {
        activeVersion := key.version;
      }
      keys := keys[key.version := key.key];
    }

    method RotateSigningKey(key: VersionedKey)
      modifies this`signingKey
      ensures signingKey == key
    {
      signingKey := key;
    }

    /** The first critical section of an append: an early answer, or none. */
    method BeginAppend(raw: RawEvent) returns (answer: Option<Result<DurableCapture, SpoolError>>)
      ensures answer == AppendBegin(CurrentSettings(), db, raw)
    {
      if !ValidRaw(raw) {
        return Some(Err(InvalidEvent));
      }
      if activeVersion !in keys {
        return Some(Err(MissingKey));
      }
      if raw.eventId in db.receipts {
        return Some(Ok(Replay(db.receipts[raw.eventId])));
      }
      answer := None;
    }

    /** The second critical section: whatever happened since the first, it looks again and then writes. */
    method CommitAppend(raw: RawEvent, nonce: Option<Nonce>) returns (result: Result<DurableCapture, SpoolError>)
      requires Valid() && activeVersion in keys
      modifies this`db
      ensures Valid()
      ensures Reply(db, result) == AppendTransaction(CurrentSettings(), old(db), raw, nonce)
      ensures result.Err? ==> db == old(db)
    {
      var stored := Redacted(primitives, raw);
      var plaintext := primitives.printPayload(stored);
      var digest := primitives.sha256(plaintext);
      var transaction := db;
      if raw.eventId in transaction.receipts {
        return Ok(Replay(transaction.receipts[raw.eventId]));
      }
      if |transaction.events| >= limits.maximumPendingEvents {
        return Err(DiskPressure);
      }
      if SaturatingAdd(|plaintext|, 512) > limits.maximumPayloadBytes {
        return Err(DiskPressure);
      }
      var sequence, previous := transaction.nextSequence, transaction.chainHead;
      var hash := EventHash(primitives.sha256, sequence, previous, raw.eventId, stored.sourceSequence, digest);
      var aad := EventAad(raw.eventId, sequence, hash);
      if nonce.None? {
        return Err(Crypto);
      }
      var envelope :=
          primitives.encodeEnvelope(Seal(primitives, activeVersion, keys[activeVersion], nonce.value, aad, plaintext));
      if |envelope| > I64_MAX {
        return Err(DiskPressure);
      }
      var bytes := EnvelopeBytes(transaction.events);
      if bytes > I64_MAX {
        return Err(Sql);
      }
      if SaturatingAdd(bytes, |envelope|) > limits.maximumPayloadBytes {
        return Err(DiskPressure);
      }
      if sequence > I64_MAX {
        return Err(DiskPressure);
      }
      var row := EventRow(raw.eventId, sequence, previous, hash, digest, envelope, activeVersion, Queued, None);
      if Conflicts(transaction, row) {
        return Err(Sql);
      }
      transaction := transaction.(events := transaction.events + [row]);
      transaction := transaction.(receipts := transaction.receipts[raw.eventId := Receipt(sequence, hash, false)]);
      if sequence + 1 > I64_MAX {
        return Err(DiskPressure);
      }
      transaction := transaction.(nextSequence := sequence + 1, chainHead := hash);
      db := transaction;
      result := Ok(DurableCapture(sequence, PrefixedHash(hash), false));
    }

    method AppendEvent(raw: RawEvent, nonce: Option<Nonce>) returns (result: Result<DurableCapture, SpoolError>)
      requires Valid()
      modifies this`db
      ensures Valid()
      ensures Reply(db, result) == Append(CurrentSettings(), old(db), raw, nonce)
    {
      var early := BeginAppend(raw);
      if early.Some? {
        return early.value;
      }
      result := CommitAppend(raw, nonce);
    }

    method LoadBatchRows(transaction: Database, batchId: Text) returns (result: Result<UploadBatch, SpoolError>)
      ensures result == LoadBatch(CurrentSettings(), transaction, batchId)
    {
      var found := FindBatch(transaction.batches, batchId);
      if found.None? {
        return Err(Sql);
      }
      var rows := SelectBatch(transaction, batchId);
      var events: seq<UploadEvent> := [];
      var i := 0;
      assert rows[0..] == rows;
      PrependNone(DecryptEvents(CurrentSettings(), rows));
      while i < |rows|
        invariant 0 <= i <= |rows|
        invariant DecryptEvents(CurrentSettings(), rows) == Prepend(events, DecryptEvents(CurrentSettings(), rows[i..]))
      {
        var stored := DecryptRow(CurrentSettings(), rows[i]);
        assert rows[i..][1..] == rows[i + 1..];
        if stored.Err? {
          return Err(stored.error);
        }
        PrependOne(events, Upload(rows[i], stored.value), DecryptEvents(CurrentSettings(), rows[i + 1..]));
        events := events + [Upload(rows[i], stored.value)];
        i := i + 1;
      }
      assert events + [] == events;
      var batch := found.value;
      if !primitives.verify(batch.publicKey, batch.chainHead, batch.signature) {
        return Err(Tampered);
      }
      if batch.attemptCount > U32_MAX {
        return Err(Corrupt);
      }
      result := Ok(UploadOf(batch, events));
    }

    /** Inserts the batch row, then one membership row and one update for each of its events. */
    method WriteBatch(before: Database, rows: seq<EventRow>, batch: BatchRow) returns (transaction: Database)
      ensures transaction == before.(
                batches := before.batches + [batch],
                batchEvents := before.batchEvents + Memberships(rows, batch.batchId),
                events := MarkBatched(before.events, rows, batch.batchId))
    {
      transaction := before.(batches := before.batches + [batch]);
      var i := 0;
      while i < |rows|
        invariant 0 <= i <= |rows|
        invariant transaction == before.(
                    batches := before.batches + [batch],
                    batchEvents := before.batchEvents + Memberships(rows[..i], batch.batchId),
                    events := MarkBatched(before.events, rows[..i], batch.batchId))
      {
        transaction :=
            transaction.(batchEvents :=
            transaction.batchEvents + [BatchEvent(batch.batchId, rows[i].eventId, rows[i].localSequence)]);
        transaction := transaction.(events := UpdateEvent(transaction.events, rows[i].eventId, batch.batchId));
        MarkOneMore(before.events, rows, i, batch.batchId);
        i := i + 1;
      }
      assert rows[..|rows|] == rows;
    }

    method TakeNextBatch(now: int) returns (result: Result<Option<UploadBatch>, SpoolError>)
      requires Valid()
      modifies this`db
      ensures Valid()
      ensures Reply(db, result) == NextBatch(CurrentSettings(), old(db), now)
    {
      var transaction := db;
      var pending := PendingBatches(transaction.batches);
      if pending != [] {
        if pending[0].nextAttempt > now {
          return Ok(None);
        }
        var existing := LoadBatchRows(transaction, pending[0].batchId);
        if existing.Err? {
          return Err(existing.error);
        }
        return Ok(Some(existing.value));
      }
      var rows := SelectQueued(transaction, limits.maximumBatchEvents);
      if rows == [] {
        return Ok(None);
      }
      var batch := SignedBatch(CurrentSettings(), rows, now);
      if FindBatch(transaction.batches, batch.batchId).Some? {
        return Err(Sql);
      }
      transaction := WriteBatch(transaction, rows, batch);
      var loaded := LoadBatchRows(transaction, batch.batchId);
      if loaded.Err? {
        return Err(loaded.error);
      }
      CreateKeepsSchema(CurrentSettings(), db, rows, now);
      db := transaction;
      result := Ok(Some(loaded.value));
    }

    method RecordRetryAttempt(batchId: Text, now: int, delay: nat, failure: Text)
        returns (result: Result<RetryCursor, SpoolError>)
      requires Valid()
      modifies this`db
      ensures Valid()
      ensures Reply(db, result) == RecordRetry(old(db), batchId, now, delay, failure)
    {
      if !ValidIdentifier(failure, 100) {
        return Err(InvalidEvent);
      }
      if delay > I64_MAX || now + delay > I64_MAX {
        return Err(InvalidEvent);
      }
      if !exists b | b in db.batches :: b.batchId == batchId && b.state.Pending? {
        return Err(NotFound);
      }
      forall id {
        FindBatchSameIds(db.batches, Retried(db.batches, batchId, now + delay, failure), id);
      }
      db := db.(batches := Retried(db.batches, batchId, now + delay, failure));
      var found := FindBatch(db.batches, batchId);
      if found.None? {
        return Err(Sql);
      }
      if found.value.attemptCount > U32_MAX {
        return Err(Corrupt);
      }
      result := Ok(RetryCursor(found.value.attemptCount, now + delay));
    }

    method AcknowledgeBatch(batchId: Text, chainHead: Text, receiptId: Text)
        returns (result: Result<Acknowledgement, SpoolError>)
      requires Valid()
      modifies this`db
      ensures Valid()
      ensures Reply(db, result) == Acknowledge(old(db), batchId, chainHead, receiptId)
      ensures result != Ok(Applied) ==> db == old(db)
    {
      if !ValidIdentifier(receiptId, 200) {
        return Err(InvalidEvent);
      }
      var transaction := db;
      var found := FindBatch(transaction.batches, batchId);
      if found.None? {
        return Err(NotFound);
      }
      var batch := found.value;
      FoundHasId(db.batches, batchId);
      if chainHead != PrefixedHash(batch.chainHead) {
        return Err(InvalidAcknowledgement);
      }
      if batch.state.Acknowledged? {
        return Ok(Duplicate);
      }
      var pending := PendingBatches(transaction.batches);
      if pending == [] {
        return Err(Sql);
      }
      if pending[0].batchId != batchId {
        return Err(InvalidAcknowledgement);
      }
      transaction := transaction.(batches := MarkAcknowledged(transaction.batches, batchId));
      if receiptId in transaction.anchors || exists id | id in transaction.anchors ::
        transaction.anchors[id].batchId == batchId {
        return Err(Sql);
      }
      transaction := transaction.(anchors := transaction.anchors[receiptId := Anchor(batchId, batch.chainHead)]);
      transaction := transaction.(receipts := map id | id in transaction.receipts ::
        if Listed(transaction.batchEvents, batchId, id) then transaction.receipts[id].(acknowledged := true)
          else transaction.receipts[id]);
      transaction :=
          transaction.(batchEvents := Filter(transaction.batchEvents, (b: BatchEvent) => b.batchId != batchId));
      transaction := transaction.(events := Filter(transaction.events, (r: EventRow) => r.batchId != Some(batchId)));
      if !ReferencesHold(transaction.batchEvents, transaction.events) {
        return Err(Sql);
      }
      transaction := transaction.(prunedSequence := batch.lastSequence, prunedHead := batch.chainHead);
      assert transaction == Pruned(db, batch, receiptId);
      PruneKeepsSchema(db, batch, receiptId);
      db := transaction;
      result := Ok(Applied);
    }

    method ReadStats() returns (stats: Stats)
      ensures stats == GatherStats(db)
    {
      stats := Stats(db.nextSequence, |db.events|, |PendingBatches(db.batches)|, EnvelopeBytes(db.events));
    }

    /** Decrypts a row and checks its digest and its hash. */
    method CheckRow(row: EventRow) returns (result: Result<(), SpoolError>)
      ensures result == RowIsSound(CurrentSettings(), row)
    {
      var decrypted := DecryptRow(CurrentSettings(), row);
      if decrypted.Err? {
        return Err(decrypted.error);
      }
      var stored := decrypted.value;
      var digest := primitives.sha256(primitives.printPayload(stored));
      if digest != row.payloadDigest || stored.eventId != row.eventId {
        return Err(Tampered);
      }
      var computed := EventHash(primitives.sha256, row.localSequence, row.previousHash, row.eventId,
          stored.sourceSequence, row.payloadDigest);
      if computed != row.eventHash {
        return Err(Tampered);
      }
      result := Ok(());
    }

    method CheckStep(row: EventRow, expectedSequence: nat, expectedPrevious: Hash)
        returns (result: Result<(), SpoolError>)
      ensures result == WalkRow(CurrentSettings(), row, expectedSequence, expectedPrevious)
    {
      if row.localSequence != expectedSequence || row.previousHash != expectedPrevious {
        return Err(Tampered);
      }
      result := CheckRow(row);
      if result.Ok? && expectedSequence + 1 > U64_MAX {
        return Err(Corrupt);
      }
    }

    /** The loop over the rows, carrying the sequence and parent the next one must have. */
    method WalkRows(rows: seq<EventRow>, sequence: nat, previous: Hash) returns (result: Result<Hash, SpoolError>)
      ensures result == ChainWalk(CurrentSettings(), rows, sequence, previous)
    {
      ghost var walk := ChainWalk(CurrentSettings(), rows, sequence, previous);
      var expectedSequence: nat, expectedPrevious := sequence, previous;
      var i := 0;
      assert rows[0..] == rows;
      while i < |rows|
        invariant 0 <= i <= |rows|
        invariant walk == ChainWalk(CurrentSettings(), rows[i..], expectedSequence, expectedPrevious)
      {
        var step := CheckStep(rows[i], expectedSequence, expectedPrevious);
        WalkStep(CurrentSettings(), rows, i, expectedSequence, expectedPrevious);
        if step.Err? {
          return Err(step.error);
        }
        expectedSequence, expectedPrevious := expectedSequence + 1, rows[i].eventHash;
        i := i + 1;
      }
      result := Ok(expectedPrevious);
    }

    method CheckSignatures() returns (sound: bool)
      ensures sound == SignaturesVerify(primitives, db.batches)
    {
      var i := 0;
      while i < |db.batches|
        invariant 0 <= i <= |db.batches|
        invariant SignaturesVerify(primitives, db.batches[..i])
      {
        var batch := db.batches[i];
        if !primitives.verify(batch.publicKey, batch.chainHead, batch.signature) {
          return false;
        }
        i := i + 1;
      }
      assert db.batches[..|db.batches|] == db.batches;
      sound := true;
    }

    /** Walks every spooled row from the pruned head to the chain head, then checks every batch signature. */
    method CheckIntegrity() returns (result: Result<(), SpoolError>)
      ensures result == VerifyIntegrity(CurrentSettings(), db)
    {
      if db.prunedSequence + 1 > U64_MAX {
        return Err(Corrupt);
      }
      var walked := WalkRows(SelectAll(db), db.prunedSequence + 1, db.prunedHead);
      if walked.Err? {
        return Err(walked.error);
      }
      if db.chainHead != walked.value {
        return Err(Tampered);
      }
      var signed := CheckSignatures();
      if !signed {
        return Err(Tampered);
      }
      result := Ok(());
    }
  }

  /** `UPDATE event_spool SET state = 'batched' ... WHERE event_id = ?`. */
  function UpdateEvent(events: seq<EventRow>, eventId: Text, batchId: Text): (updated: seq<EventRow>)
    ensures |updated| == |events|
  {
    seq(|events|, i requires 0 <= i < |events| =>
      if events[i].eventId == eventId then events[i].(state := Batched, batchId := Some(batchId)) else events[i])
  }

  lemma {:induction false} MarkOneMore(events: seq<EventRow>, rows: seq<EventRow>, n: nat, batchId: Text)
    requires n < |rows|
    ensures UpdateEvent(MarkBatched(events, rows[..n], batchId), rows[n].eventId, batchId) ==
            MarkBatched(events, rows[..n + 1], batchId)
  {
    var next := rows[..n + 1];
    assert next == rows[..n] + [rows[n]];
    forall i | 0 <= i < |events|
      ensures UpdateEvent(MarkBatched(events, rows[..n], batchId), rows[n].eventId, batchId)[i] ==
              MarkBatched(events, next, batchId)[i]
    {
      if events[i].eventId == rows[n].eventId {
        assert rows[n] in next;
      }
    }
  }

  lemma {:induction false} FoundHasId(batches: seq<BatchRow>, id: Text)
    ensures FindBatch(batches, id).Some? ==>
            FindBatch(batches, id).value.batchId == id && FindBatch(batches, id).value in batches
  {
    if batches != [] {
      FoundHasId(batches[1..], id);
    }
  }

  lemma {:induction false} CreateKeepsSchema(s: Settings, db: Database, rows: seq<EventRow>, now: int)
    requires SchemaHolds(db) && rows != []
    ensures SchemaHolds(CreateBatch(s, db, rows, now))
  {
    var after := CreateBatch(s, db, rows, now);
    var batch := SignedBatch(s, rows, now);
    forall b | b in after.batchEvents
      ensures FindBatch(after.batches, b.batchId).Some?
    {
      FindBatchAppend(db.batches, batch, b.batchId);
      assert b in db.batchEvents || b in Memberships(rows, batch.batchId);
    }
    forall i, j | 0 <= i < j < |after.events|
      ensures after.events[i].eventId != after.events[j].eventId
    {
      assert after.events[i].eventId == db.events[i].eventId && after.events[j].eventId == db.events[j].eventId;
    }
  }

  lemma {:induction false} PruneKeepsSchema(db: Database, batch: BatchRow, receiptId: Text)
    requires SchemaHolds(db)
    ensures SchemaHolds(Pruned(db, batch, receiptId))
  {
    var after := Pruned(db, batch, receiptId);
    FilterDistinctIds(db.events, (r: EventRow) => r.batchId != Some(batch.batchId));
    FilterMembers(db.batchEvents, (b: BatchEvent) => b.batchId != batch.batchId);
    forall b | b in after.batchEvents
      ensures FindBatch(after.batches, b.batchId).Some?
    {
      FindBatchSameIds(db.batches, after.batches, b.batchId);
    }
  }
}

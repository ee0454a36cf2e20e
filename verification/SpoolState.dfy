/**
 The event spool as tables and transactions. Every operation is a function from the tables
 before it to its answer and the tables after it; an operation that fails before its commit
 gives back the tables it was given.
 */
module SpoolState {
  import opened Common
  import opened Chain
  import opened Sorting

  type Key = k: seq<byte> | |k| == 32 witness seq(32, _ => 0)
  type Nonce = n: seq<byte> | |n| == 12 witness seq(12, _ => 0)

  datatype SpoolError =
    Corrupt | Crypto | DiskPressure | InvalidAcknowledgement | InvalidEvent | MissingKey | NotFound | Sql | Tampered

  datatype RawEvent = RawEvent(
    eventId: Text, source: Text, actionType: Text, sourceSequence: Option<Text>, payload: Text)

  datatype StoredPayload = StoredPayload(
    schemaVersion: nat, eventId: Text, source: Text, actionType: Text, sourceSequence: Option<Text>, payload: Text,
    redactionPolicyVersion: Text)

  datatype AeadEnvelope = AeadEnvelope(
    envelopeVersion: nat, keyVersion: nat, nonce: seq<byte>, aadDigest: Text, ciphertext: seq<byte>)

  /** Cryptography, serialization and redaction, of which only `Lawful` is assumed. */
  datatype Primitives = Primitives(
    sha256: seq<byte> -> Hash,
    encrypt: (Key, seq<byte>, seq<byte>, seq<byte>) -> seq<byte>,
    decrypt: (Key, seq<byte>, seq<byte>, seq<byte>) -> Option<seq<byte>>,
    encodeEnvelope: AeadEnvelope -> seq<byte>,
    decodeEnvelope: seq<byte> -> Option<AeadEnvelope>,
    sign: (Key, Hash) -> seq<byte>,
    verifyingKey: Key -> seq<byte>,
    verify: (seq<byte>, Hash, seq<byte>) -> bool,
    printPayload: StoredPayload -> seq<byte>,
    parsePayload: seq<byte> -> Option<StoredPayload>,
    redactText: (Text, nat) -> Text,
    redactPayload: Text -> Text,
    redactionPolicyVersion: Text)
  {
    /** Opening undoes sealing, decoding undoes encoding, signatures verify; `SpoolPrimitives` has an instance. */
    ghost predicate Lawful() {
      && (forall k, n: Nonce, aad, m :: decrypt(k, n, aad, encrypt(k, n, aad, m)) == Some(m))
      && (forall e :: decodeEnvelope(encodeEnvelope(e)) == Some(e))
      && (forall k, h :: verify(verifyingKey(k), h, sign(k, h)))
      && (forall p :: parsePayload(printPayload(p)) == Some(p))
    }
  }

  datatype VersionedKey = VersionedKey(version: nat, key: Key)

  datatype Limits = Limits(maximumPayloadBytes: nat, maximumPendingEvents: nat, maximumBatchEvents: nat)

  predicate ValidLimits(limits: Limits) {
    && 0 < limits.maximumPayloadBytes <= U64_MAX
    && 0 < limits.maximumPendingEvents <= U64_MAX
    && 0 < limits.maximumBatchEvents <= 10_000
  }

  /** The in-memory half of the spool: loaded keys and configured limits. */
  datatype Settings = Settings(
    primitives: Primitives, activeVersion: nat, keys: map<nat, Key>, signingKey: VersionedKey, limits: Limits)

  // Tables

  datatype RowState = Queued | Batched

  datatype EventRow = EventRow(
    eventId: Text, localSequence: nat, previousHash: Hash, eventHash: Hash, payloadDigest: Hash,
    envelope: seq<byte>, keyVersion: nat, state: RowState, batchId: Option<Text>)

  datatype Receipt = Receipt(localSequence: nat, eventHash: Hash, acknowledged: bool)

  datatype BatchState = Pending | Acknowledged

  datatype BatchRow = BatchRow(
    batchId: Text, firstSequence: nat, lastSequence: nat, eventCount: nat, chainHead: Hash,
    signingKeyVersion: nat, publicKey: seq<byte>, signature: seq<byte>, state: BatchState,
    attemptCount: nat, nextAttempt: int, lastFailure: Option<Text>)

  datatype BatchEvent = BatchEvent(batchId: Text, eventId: Text, localSequence: nat)

  datatype Anchor = Anchor(batchId: Text, chainHead: Hash)

  /** Rows of a table are kept in insertion order; receipts and anchors are keyed by their primary key. */
  datatype Database = Database(
    nextSequence: nat, chainHead: Hash, prunedSequence: nat, prunedHead: Hash,
    events: seq<EventRow>, receipts: map<Text, Receipt>, batches: seq<BatchRow>,
    batchEvents: seq<BatchEvent>, anchors: map<Text, Anchor>)

  function EmptyDatabase(): Database {
    Database(1, GenesisHash(), 0, GenesisHash(), [], map[], [], [], map[])
  }

  // Answers

  datatype DurableCapture = DurableCapture(localSequence: nat, eventHash: Text, replayed: bool)

  datatype UploadEvent = UploadEvent(
    eventId: Text, localSequence: nat, sourceSequence: Option<Text>, previousHash: Text, eventHash: Text,
    payload: StoredPayload)

  datatype UploadBatch = UploadBatch(
    batchId: Text, firstSequence: nat, lastSequence: nat, eventCount: nat, chainHead: Text,
    signingKeyVersion: nat, publicKey: seq<byte>, signature: seq<byte>, attemptCount: nat, events: seq<UploadEvent>)

  datatype Acknowledgement = Applied | Duplicate

  datatype RetryCursor = RetryCursor(attemptCount: nat, nextAttempt: int)

  datatype Stats = Stats(nextSequence: nat, pendingEvents: nat, pendingBatches: nat, payloadBytes: nat)

  datatype Reply<T> = Reply(db: Database, result: Result<T, SpoolError>)

  // Texts and envelopes

  predicate IdentifierByte(b: byte) {
    48 <= b <= 57 || 65 <= b <= 90 || 97 <= b <= 122 || b in {46, 95, 58, 45, 47}
  }

  predicate ValidIdentifier(value: Text, maximumLength: nat) {
    0 < |value.bytes| <= maximumLength && forall b | b in value.bytes :: IdentifierByte(b)
  }

  function PrefixedHash(hash: Hash): Text {
    Text(Ascii("sha256:") + Hex(hash.bytes))
  }

  function BatchId(first: nat, last: nat, head: Hash): Text {
    Text(Ascii("batch-") + (Decimal(first) + [45] + (Decimal(last) + [45] + Hex(head.bytes[..8]))))
  }

  function EventAad(eventId: Text, sequence: nat, hash: Hash): seq<byte> {
    Ascii("event-envelope-v1") + [0] + BigEndian(sequence, 8) + hash.bytes + eventId.bytes
  }

  function Seal(p: Primitives, version: nat, key: Key, nonce: Nonce, aad: seq<byte>,
      plaintext: seq<byte>): AeadEnvelope {
    AeadEnvelope(1, version, nonce, PrefixedHash(p.sha256(aad)), p.encrypt(key, nonce, aad, plaintext))
  }

  function Open(p: Primitives, e: AeadEnvelope, key: Key, aad: seq<byte>): Option<seq<byte>> {
    if e.envelopeVersion != 1 || |e.nonce| != 12 || e.aadDigest != PrefixedHash(p.sha256(aad)) then None
    else p.decrypt(key, e.nonce, aad, e.ciphertext)
  }

  function SaturatingAdd(a: nat, b: nat): nat {
    Min(a + b, U64_MAX)
  }

  // Queries

  predicate BySequence(a: EventRow, b: EventRow) {
    a.localSequence <= b.localSequence
  }

  function Take<T>(xs: seq<T>, limit: nat): seq<T> {
    if |xs| <= limit then xs else xs[..limit]
  }

  function SelectQueued(db: Database, limit: nat): seq<EventRow> {
    Take(Sort(Filter(db.events, (r: EventRow) => r.state.Queued?), BySequence), limit)
  }

  function SelectAll(db: Database): seq<EventRow> {
    Sort(db.events, BySequence)
  }

  predicate Listed(batchEvents: seq<BatchEvent>, batchId: Text, eventId: Text) {
    exists b | b in batchEvents :: b.batchId == batchId && b.eventId == eventId
  }

  /** The join of the spool with one batch's membership rows. */
  function SelectBatch(db: Database, batchId: Text): seq<EventRow> {
    Sort(Filter(db.events, (r: EventRow) => Listed(db.batchEvents, batchId, r.eventId)), BySequence)
  }

  function FindBatch(batches: seq<BatchRow>, batchId: Text): Option<BatchRow> {
    if batches == [] then None
    else if batches[0].batchId == batchId then Some(batches[0])
    else FindBatch(batches[1..], batchId)
  }

  predicate ByFirstSequence(a: BatchRow, b: BatchRow) {
    a.firstSequence <= b.firstSequence
  }

  function PendingBatches(batches: seq<BatchRow>): seq<BatchRow> {
    Sort(Filter(batches, (b: BatchRow) => b.state.Pending?), ByFirstSequence)
  }

  function EnvelopeBytes(events: seq<EventRow>): nat {
    if events == [] then 0 else |events[0].envelope| + EnvelopeBytes(events[1..])
  }

  // Append

  predicate ValidRaw(raw: RawEvent) {
    && ValidIdentifier(raw.eventId, 200)
    && ValidIdentifier(raw.source, 100)
    && ValidIdentifier(raw.actionType, 100)
    && (raw.sourceSequence.Some? ==> ValidIdentifier(raw.sourceSequence.value, 200))
  }

  function Redacted(p: Primitives, raw: RawEvent): StoredPayload {
    StoredPayload(1, raw.eventId, p.redactText(raw.source, 100), p.redactText(raw.actionType, 100),
                  if raw.sourceSequence.Some? then Some(p.redactText(raw.sourceSequence.value, 200)) else None,
                  p.redactPayload(raw.payload), p.redactionPolicyVersion)
  }

  function Replay(receipt: Receipt): DurableCapture {
    DurableCapture(receipt.localSequence, PrefixedHash(receipt.eventHash), true)
  }

  /**
   The part of an append before its transaction: validation, the active key, and the early look at
   the receipts, whose lock is given up again. `None` means the append goes on to its transaction.
   */
  function AppendBegin(s: Settings, db: Database, raw: RawEvent): Option<Result<DurableCapture, SpoolError>> {
    if !ValidRaw(raw) then Some(Err(InvalidEvent))
    else if s.activeVersion !in s.keys then Some(Err(MissingKey))
    else if raw.eventId in db.receipts then Some(Ok(Replay(db.receipts[raw.eventId])))
    else None
  }

  function RecordOf(stored: StoredPayload, sequence: nat, previous: Hash, digest: Hash): ChainRecord {
    ChainRecord(sequence, previous, stored.eventId, stored.sourceSequence, digest)
  }

  /** The row an append writes for `stored` as event number `sequence` after `previous`. */
  function SealedRow(p: Primitives, stored: StoredPayload, sequence: nat, previous: Hash, version: nat, key: Key,
      nonce: Nonce): EventRow {
    var plaintext := p.printPayload(stored);
    var digest := p.sha256(plaintext);
    var hash := p.sha256(Preimage(RecordOf(stored, sequence, previous, digest)));
    var sealed := Seal(p, version, key, nonce, EventAad(stored.eventId, sequence, hash), plaintext);
    EventRow(stored.eventId, sequence, previous, hash, digest, p.encodeEnvelope(sealed), version, Queued, None)
  }

  /** A row the primary key or a UNIQUE column keeps out. */
  predicate Conflicts(db: Database, row: EventRow) {
    || (exists r | r in db.events :: r.eventId == row.eventId || r.localSequence == row.localSequence)
    || (exists id | id in db.receipts :: db.receipts[id].localSequence == row.localSequence)
  }

  function InsertEvent(db: Database, row: EventRow): Database {
    db.(events := db.events + [row],
        receipts := db.receipts[row.eventId := Receipt(row.localSequence, row.eventHash, false)],
        nextSequence := row.localSequence + 1,
        chainHead := row.eventHash)
  }

  /** The append transaction; `nonce` is absent when the system has no randomness to give. */
  function AppendTransaction(s: Settings, db: Database, raw: RawEvent, nonce: Option<Nonce>): Reply<DurableCapture>
    requires s.activeVersion in s.keys
  {
    var p := s.primitives;
    var stored := Redacted(p, raw);
    if raw.eventId in db.receipts then Reply(db, Ok(Replay(db.receipts[raw.eventId])))
    else if |db.events| >= s.limits.maximumPendingEvents then Reply(db, Err(DiskPressure))
    else if SaturatingAdd(|p.printPayload(stored)|, 512) > s.limits.maximumPayloadBytes then
      Reply(db, Err(DiskPressure))
    else if nonce.None? then Reply(db, Err(Crypto))
    else
      var row := SealedRow(p, stored, db.nextSequence, db.chainHead, s.activeVersion, s.keys[s.activeVersion],
          nonce.value);
      if |row.envelope| > I64_MAX then Reply(db, Err(DiskPressure))
      else if EnvelopeBytes(db.events) > I64_MAX then Reply(db, Err(Sql))
      else if SaturatingAdd(EnvelopeBytes(db.events), |row.envelope|) > s.limits.maximumPayloadBytes then
        Reply(db, Err(DiskPressure))
      else if db.nextSequence > I64_MAX then Reply(db, Err(DiskPressure))
      else if Conflicts(db, row) then Reply(db, Err(Sql))
      else if db.nextSequence + 1 > I64_MAX then Reply(db, Err(DiskPressure))
      else Reply(InsertEvent(db, row), Ok(DurableCapture(row.localSequence, PrefixedHash(row.eventHash), false)))
  }

  /** An append with no other operation between its two parts. */
  function Append(s: Settings, db: Database, raw: RawEvent, nonce: Option<Nonce>): Reply<DurableCapture> {
    match AppendBegin(s, db, raw)
    case Some(result) => Reply(db, result)
    case None => AppendTransaction(s, db, raw, nonce)
  }

  // Batches

  function DecryptRow(s: Settings, row: EventRow): Result<StoredPayload, SpoolError> {
    if row.keyVersion !in s.keys then Err(MissingKey) else
    match s.primitives.decodeEnvelope(row.envelope)
    case None => Err(Crypto)
    case Some(envelope) =>
      if envelope.keyVersion != row.keyVersion then Err(Tampered) else
      match Open(s.primitives, envelope, s.keys[row.keyVersion],
          EventAad(row.eventId, row.localSequence, row.eventHash))
      case None => Err(Tampered)
      case Some(plaintext) =>
        match s.primitives.parsePayload(plaintext)
        case None => Err(Corrupt)
        case Some(stored) => Ok(stored)
  }

  function Upload(row: EventRow, stored: StoredPayload): UploadEvent {
    UploadEvent(row.eventId, row.localSequence, stored.sourceSequence, PrefixedHash(row.previousHash),
                PrefixedHash(row.eventHash), stored)
  }

  function DecryptEvents(s: Settings, rows: seq<EventRow>): Result<seq<UploadEvent>, SpoolError> {
    if rows == [] then Ok([]) else
    match DecryptRow(s, rows[0])
    case Err(e) => Err(e)
    case Ok(stored) =>
      match DecryptEvents(s, rows[1..])
      case Err(e) => Err(e)
      case Ok(rest) => Ok([Upload(rows[0], stored)] + rest)
  }

  function UploadOf(batch: BatchRow, events: seq<UploadEvent>): UploadBatch {
    UploadBatch(batch.batchId, batch.firstSequence, batch.lastSequence, batch.eventCount, PrefixedHash(batch.chainHead),
                batch.signingKeyVersion, batch.publicKey, batch.signature, batch.attemptCount, events)
  }

  function LoadBatch(s: Settings, db: Database, batchId: Text): Result<UploadBatch, SpoolError> {
    match FindBatch(db.batches, batchId)
    case None => Err(Sql)
    case Some(batch) =>
      match DecryptEvents(s, SelectBatch(db, batchId))
      case Err(e) => Err(e)
      case Ok(events) =>
        if !s.primitives.verify(batch.publicKey, batch.chainHead, batch.signature) then Err(Tampered)
        else if batch.attemptCount > U32_MAX then Err(Corrupt)
        else Ok(UploadOf(batch, events))
  }

  function SignedBatch(s: Settings, rows: seq<EventRow>, now: int): BatchRow
    requires rows != []
  {
    var first, last := rows[0].localSequence, rows[|rows| - 1].localSequence;
    var head := rows[|rows| - 1].eventHash;
    BatchRow(BatchId(first, last, head), first, last, |rows|, head, s.signingKey.version,
             s.primitives.verifyingKey(s.signingKey.key), s.primitives.sign(s.signingKey.key, head), Pending, 0, now,
                 None)
  }

  function MarkBatched(events: seq<EventRow>, rows: seq<EventRow>, batchId: Text): (marked: seq<EventRow>)
    ensures |marked| == |events|
  {
    seq(|events|, i requires 0 <= i < |events| =>
      if exists r | r in rows :: r.eventId == events[i].eventId
      then events[i].(state := Batched, batchId := Some(batchId)) else events[i])
  }

  function Memberships(rows: seq<EventRow>, batchId: Text): (members: seq<BatchEvent>)
    ensures |members| == |rows|
  {
    seq(|rows|, i requires 0 <= i < |rows| => BatchEvent(batchId, rows[i].eventId, rows[i].localSequence))
  }

  function CreateBatch(s: Settings, db: Database, rows: seq<EventRow>, now: int): Database
    requires rows != []
  {
    var batch := SignedBatch(s, rows, now);
    db.(batches := db.batches + [batch],
        batchEvents := db.batchEvents + Memberships(rows, batch.batchId),
        events := MarkBatched(db.events, rows, batch.batchId))
  }

  function NextBatch(s: Settings, db: Database, now: int): Reply<Option<UploadBatch>> {
    var pending := PendingBatches(db.batches);
    if pending != [] then
      if pending[0].nextAttempt > now then Reply(db, Ok(None)) else
      match LoadBatch(s, db, pending[0].batchId)
      case Err(e) => Reply(db, Err(e))
      case Ok(batch) => Reply(db, Ok(Some(batch)))
    else
      var rows := SelectQueued(db, s.limits.maximumBatchEvents);
      if rows == [] then Reply(db, Ok(None)) else
      var batch := SignedBatch(s, rows, now);
      if FindBatch(db.batches, batch.batchId).Some? then Reply(db, Err(Sql)) else
      var created := CreateBatch(s, db, rows, now);
      match LoadBatch(s, created, batch.batchId)
      case Err(e) => Reply(db, Err(e))
      case Ok(upload) => Reply(created, Ok(Some(upload)))
  }

  // Retry

  function Retried(batches: seq<BatchRow>, batchId: Text, nextAttempt: int, failure: Text): (updated: seq<BatchRow>)
    ensures |updated| == |batches|
  {
    seq(|batches|, i requires 0 <= i < |batches| =>
      if batches[i].batchId == batchId && batches[i].state.Pending?
      then batches[i].(attemptCount := batches[i].attemptCount + 1, nextAttempt := nextAttempt, lastFailure :=
          Some(failure))
      else batches[i])
  }

  /** The update is its own transaction: an attempt count too large to report stays recorded. */
  function RecordRetry(db: Database, batchId: Text, now: int, delay: nat, failure: Text): Reply<RetryCursor> {
    if !ValidIdentifier(failure, 100) then Reply(db, Err(InvalidEvent))
    else if delay > I64_MAX || now + delay > I64_MAX then Reply(db, Err(InvalidEvent))
    else if !exists b | b in db.batches :: b.batchId == batchId && b.state.Pending? then Reply(db, Err(NotFound))
    else
      var updated := db.(batches := Retried(db.batches, batchId, now + delay, failure));
      match FindBatch(updated.batches, batchId)
      case None => Reply(updated, Err(Sql))
      case Some(batch) =>
        if batch.attemptCount > U32_MAX then Reply(updated, Err(Corrupt))
        else Reply(updated, Ok(RetryCursor(batch.attemptCount, now + delay)))
  }

  // Acknowledge

  function MarkAcknowledged(batches: seq<BatchRow>, batchId: Text): (updated: seq<BatchRow>)
    ensures |updated| == |batches|
  {
    seq(|batches|, i requires 0 <= i < |batches| =>
      if batches[i].batchId == batchId then batches[i].(state := Acknowledged) else batches[i])
  }

  function Pruned(db: Database, batch: BatchRow, receiptId: Text): Database {
    db.(batches := MarkAcknowledged(db.batches, batch.batchId),
        anchors := db.anchors[receiptId := Anchor(batch.batchId, batch.chainHead)],
        receipts := map id | id in db.receipts ::
          if Listed(db.batchEvents, batch.batchId, id) then db.receipts[id].(acknowledged := true) else db.receipts[id],
        batchEvents := Filter(db.batchEvents, (b: BatchEvent) => b.batchId != batch.batchId),
        events := Filter(db.events, (r: EventRow) => r.batchId != Some(batch.batchId)),
        prunedSequence := batch.lastSequence,
        prunedHead := batch.chainHead)
  }

  /** Every membership row still points at a spooled event. */
  predicate ReferencesHold(batchEvents: seq<BatchEvent>, events: seq<EventRow>) {
    forall b | b in batchEvents :: exists r | r in events :: r.eventId == b.eventId
  }

  function Acknowledge(db: Database, batchId: Text, chainHead: Text, receiptId: Text): Reply<Acknowledgement> {
    if !ValidIdentifier(receiptId, 200) then Reply(db, Err(InvalidEvent)) else
    match FindBatch(db.batches, batchId)
    case None => Reply(db, Err(NotFound))
    case Some(batch) =>
      if chainHead != PrefixedHash(batch.chainHead) then Reply(db, Err(InvalidAcknowledgement))
      else if batch.state.Acknowledged? then Reply(db, Ok(Duplicate)) else
      var pending := PendingBatches(db.batches);
      if pending == [] then Reply(db, Err(Sql))
      else if pending[0].batchId != batchId then Reply(db, Err(InvalidAcknowledgement))
      else if receiptId in db.anchors || (exists id | id in db.anchors :: db.anchors[id].batchId == batchId) then
        Reply(db, Err(Sql))
      else
        var after := Pruned(db, batch, receiptId);
        if !ReferencesHold(after.batchEvents, after.events) then Reply(db, Err(Sql))
        else Reply(after, Ok(Applied))
  }

  // Integrity

  /** A row decrypts to the payload its digest and its event hash were computed from. */
  function RowIsSound(s: Settings, row: EventRow): Result<(), SpoolError> {
    match DecryptRow(s, row)
    case Err(e) => Err(e)
    case Ok(stored) =>
      var p := s.primitives;
      if p.sha256(p.printPayload(stored)) != row.payloadDigest || stored.eventId != row.eventId then Err(Tampered)
      else if p.sha256(Preimage(RecordOf(stored, row.localSequence, row.previousHash, row.payloadDigest)))
        != row.eventHash
      then Err(Tampered)
      else Ok(())
  }

  /** One step of the walk: the row is the expected one, sound, and leaves room for a successor. */
  function WalkRow(s: Settings, row: EventRow, sequence: nat, previous: Hash): Result<(), SpoolError> {
    if row.localSequence != sequence || row.previousHash != previous then Err(Tampered) else
    match RowIsSound(s, row)
    case Err(e) => Err(e)
    case Ok(_) => if sequence + 1 > U64_MAX then Err(Corrupt) else Ok(())
  }

  /** Walks the rows from an expected place and parent to the head they end at. */
  function ChainWalk(s: Settings, rows: seq<EventRow>, sequence: nat, previous: Hash): Result<Hash, SpoolError> {
    if rows == [] then Ok(previous) else
    match WalkRow(s, rows[0], sequence, previous)
    case Err(e) => Err(e)
    case Ok(_) => ChainWalk(s, rows[1..], sequence + 1, rows[0].eventHash)
  }

  predicate SignaturesVerify(p: Primitives, batches: seq<BatchRow>) {
    forall b | b in batches :: p.verify(b.publicKey, b.chainHead, b.signature)
  }

  function VerifyIntegrity(s: Settings, db: Database): Result<(), SpoolError> {
    if db.prunedSequence + 1 > U64_MAX then Err(Corrupt) else
    match ChainWalk(s, SelectAll(db), db.prunedSequence + 1, db.prunedHead)
    case Err(e) => Err(e)
    case Ok(head) =>
      if db.chainHead != head then Err(Tampered)
      else if !SignaturesVerify(s.primitives, db.batches) then Err(Tampered)
      else Ok(())
  }

  function GatherStats(db: Database): Stats {
    Stats(db.nextSequence, |db.events|, |PendingBatches(db.batches)|, EnvelopeBytes(db.events))
  }
}

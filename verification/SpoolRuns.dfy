/**
 Whole runs of the spool: any interleaving of appends from many threads, each cut in two between its unlocked lookup
 and its transaction, with batching, retries, acknowledgements, key changes, failures and restarts. `Invariant` ties the
 tables to the history of first-time accepted appends and holds after every step.
 */
module SpoolRuns {
  import opened Common
  import opened Chain
  import opened Sorting
  import opened SpoolState
  import Spool

  /** One accepted append: what was stored, how it was sealed, and the row as inserted. */
  datatype Accepted = Accepted(stored: StoredPayload, key: Key, nonce: Nonce, row: EventRow)

  /** The spool together with the appends between their two lookups and the history so far. */
  datatype World = World(
    settings: Settings, db: Database, inFlight: map<nat, RawEvent>, accepted: seq<Accepted>, delivered: seq<EventRow>)

  datatype Op =
    | BeginAppend(thread: nat, raw: RawEvent)
    | CommitAppend(thread: nat, nonce: Option<Nonce>)
    | AbandonAppend(thread: nat)
    | TakeBatch(now: int)
    | Retry(batchId: Text, now: int, delay: nat, failure: Text)
    | Confirm(batchId: Text, chainHead: Text, receiptId: Text)
    | AddKey(key: VersionedKey, makeActive: bool)
    | RotateSigningKey(key: VersionedKey)
    | Restart(limits: Limits, encryptionKey: VersionedKey, signingKey: VersionedKey)

  function Unstamped(row: EventRow): EventRow {
    row.(state := Queued, batchId := None)
  }

  function UnstampedAll(rows: seq<EventRow>): (plain: seq<EventRow>)
    ensures |plain| == |rows|
  {
    seq(|rows|, i requires 0 <= i < |rows| => Unstamped(rows[i]))
  }

  /** The row an append would insert now. */
  function NextRow(s: Settings, db: Database, raw: RawEvent, nonce: Nonce): EventRow
    requires s.activeVersion in s.keys
  {
    SealedRow(s.primitives, Redacted(s.primitives, raw), db.nextSequence, db.chainHead, s.activeVersion,
        s.keys[s.activeVersion], nonce)
  }

  function StepCommit(w: World, thread: nat, nonce: Option<Nonce>): World {
    if thread !in w.inFlight then w else
    var raw, rest := w.inFlight[thread], w.inFlight - {thread};
    if w.settings.activeVersion !in w.settings.keys then w.(inFlight := rest) else
    var reply := AppendTransaction(w.settings, w.db, raw, nonce);
    var history := if reply.result.Ok? && !reply.result.value.replayed && nonce.Some?
                   then w.accepted + [Entry(w.settings, w.db, raw, nonce.value)] else w.accepted;
    w.(inFlight := rest, db := reply.db, accepted := history)
  }

  function Entry(s: Settings, db: Database, raw: RawEvent, nonce: Nonce): Accepted
    requires s.activeVersion in s.keys
  {
    Accepted(Redacted(s.primitives, raw), s.keys[s.activeVersion], nonce, NextRow(s, db, raw, nonce))
  }

  function StepConfirm(w: World, batchId: Text, chainHead: Text, receiptId: Text): World {
    var reply := Acknowledge(w.db, batchId, chainHead, receiptId);
    w.(db := reply.db,
       delivered := if reply.result == Ok(Applied) then w.delivered + UnstampedAll(SelectBatch(w.db, batchId))
           else w.delivered)
  }

  /** Key changes wait until no append holds the keys; a restart drops the appends in flight. */
  function Step(w: World, op: Op): World {
    match op
    case BeginAppend(thread, raw) =>
      if thread !in w.inFlight && AppendBegin(w.settings, w.db, raw).None? then
        w.(inFlight := w.inFlight[thread := raw]) else w
    case CommitAppend(thread, nonce) => StepCommit(w, thread, nonce)
    case AbandonAppend(thread) => w.(inFlight := w.inFlight - {thread})
    case TakeBatch(now) => w.(db := NextBatch(w.settings, w.db, now).db)
    case Retry(batchId, now, delay, failure) => w.(db := RecordRetry(w.db, batchId, now, delay, failure).db)
    case Confirm(batchId, chainHead, receiptId) => StepConfirm(w, batchId, chainHead, receiptId)
    case AddKey(key, makeActive) =>
      if w.inFlight != map[] then w else
      w.(settings := w.settings.(keys := w.settings.keys[key.version := key.key],
                                 activeVersion := if makeActive then key.version else w.settings.activeVersion))
    case RotateSigningKey(key) =>
      if w.inFlight != map[] then w else w.(settings := w.settings.(signingKey := key))
    case Restart(limits, encryptionKey, signingKey) =>
      if !ValidLimits(limits) then w else
      w.(inFlight := map[],
         settings := Settings(w.settings.primitives, encryptionKey.version,
             map[encryptionKey.version := encryptionKey.key], signingKey, limits))
  }

  function Run(w: World, ops: seq<Op>): World
    decreases |ops|
  {
    if ops == [] then w else Run(Step(w, ops[0]), ops[1..])
  }

  function Fresh(p: Primitives, limits: Limits, encryptionKey: VersionedKey, signingKey: VersionedKey): World {
    World(Settings(p, encryptionKey.version, map[encryptionKey.version := encryptionKey.key], signingKey, limits),
          EmptyDatabase(), map[], [], [])
  }

  // The invariant

  /** The chain head after the first `n` accepted events. */
  function HeadAt(accepted: seq<Accepted>, n: nat): Hash
    requires n <= |accepted|
  {
    if n == 0 then GenesisHash() else accepted[n - 1].row.eventHash
  }

  ghost predicate AcceptedOk(p: Primitives, accepted: seq<Accepted>, i: nat)
    requires i < |accepted|
  {
    var a := accepted[i];
    && a.row == SealedRow(p, a.stored, i + 1, HeadAt(accepted, i), a.row.keyVersion, a.key, a.nonce)
    && ValidIdentifier(a.stored.eventId, 200)
  }

  ghost predicate HistoryOk(p: Primitives, accepted: seq<Accepted>) {
    forall i | 0 <= i < |accepted| :: AcceptedOk(p, accepted, i)
  }

  /** Places in the history, apart from how each row was sealed. */
  ghost predicate PlacesOk(accepted: seq<Accepted>) {
    forall i | 0 <= i < |accepted| ::
      accepted[i].row.localSequence == i + 1 && accepted[i].row.state == Queued && accepted[i].row.batchId == None
  }

  ghost predicate DeviceOk(db: Database, accepted: seq<Accepted>) {
    && db.nextSequence == |accepted| + 1 <= I64_MAX
    && db.chainHead == HeadAt(accepted, |accepted|)
    && db.prunedSequence <= |accepted|
    && db.prunedHead == HeadAt(accepted, db.prunedSequence)
  }

  /** How many accepted events have been put into batches. */
  function Covered(batches: seq<BatchRow>): nat {
    if batches == [] then 0 else batches[|batches| - 1].lastSequence
  }

  function LastBefore(batches: seq<BatchRow>, j: nat): nat
    requires j <= |batches|
  {
    if j == 0 then 0 else batches[j - 1].lastSequence
  }

  predicate HasPending(batches: seq<BatchRow>) {
    batches != [] && batches[|batches| - 1].state.Pending?
  }

  function Newest(batches: seq<BatchRow>): BatchRow
    requires batches != []
  {
    batches[|batches| - 1]
  }

  function Stamped(batches: seq<BatchRow>, row: EventRow): EventRow {
    if batches != [] && row.localSequence <= Covered(batches)
    then row.(state := Batched, batchId := Some(Newest(batches).batchId)) else row
  }

  ghost predicate EventsOk(db: Database, accepted: seq<Accepted>) {
    && db.prunedSequence + |db.events| == |accepted|
    && forall i | 0 <= i < |db.events| :: db.events[i] == Stamped(db.batches, accepted[db.prunedSequence + i].row)
  }

  ghost predicate ReceiptsOk(db: Database, accepted: seq<Accepted>) {
    Entered(db.receipts, db.prunedSequence, accepted) && Traced(db.receipts, accepted)
  }

  /** Each accepted event has its receipt, acknowledged once the event is pruned. */
  ghost predicate Entered(receipts: map<Text, Receipt>, pruned: nat, accepted: seq<Accepted>) {
    forall i | 0 <= i < |accepted| ::
      && accepted[i].row.eventId in receipts
      && receipts[accepted[i].row.eventId] == Receipt(i + 1, accepted[i].row.eventHash, i < pruned)
  }

  /** Each receipt is that of the accepted event in its place. */
  ghost predicate Traced(receipts: map<Text, Receipt>, accepted: seq<Accepted>) {
    forall id | id in receipts ::
      1 <= receipts[id].localSequence <= |accepted| && accepted[receipts[id].localSequence - 1].row.eventId == id
  }

  ghost predicate BatchOk(p: Primitives, batches: seq<BatchRow>, accepted: seq<Accepted>, j: nat)
    requires j < |batches|
  {
    var b := batches[j];
    && b.firstSequence == LastBefore(batches, j) + 1
    && b.firstSequence <= b.lastSequence <= |accepted|
    && b.eventCount == b.lastSequence - b.firstSequence + 1
    && b.chainHead == HeadAt(accepted, b.lastSequence)
    && b.batchId == BatchId(b.firstSequence, b.lastSequence, b.chainHead)
    && p.verify(b.publicKey, b.chainHead, b.signature)
    && (j < |batches| - 1 ==> b.state.Acknowledged?)
  }

  ghost predicate BatchesOk(p: Primitives, db: Database, accepted: seq<Accepted>) {
    && (forall j | 0 <= j < |db.batches| :: BatchOk(p, db.batches, accepted, j))
    && db.prunedSequence == if HasPending(db.batches) then LastBefore(db.batches, |db.batches| - 1)
       else Covered(db.batches)
  }

  ghost predicate MembersOk(db: Database) {
    if HasPending(db.batches)
    then Covered(db.batches) - db.prunedSequence <= |db.events|
         && 0 <= Covered(db.batches) - db.prunedSequence
         && db.batchEvents == Memberships(db.events[..Covered(db.batches) - db.prunedSequence],
            Newest(db.batches).batchId)
    else db.batchEvents == []
  }

  predicate Anchored(batches: seq<BatchRow>, batchId: Text) {
    exists b | b in batches :: b.batchId == batchId && b.state.Acknowledged?
  }

  ghost predicate AnchorsOk(db: Database) {
    forall id | id in db.anchors :: Anchored(db.batches, db.anchors[id].batchId)
  }

  /** What was delivered is exactly what was pruned, in order. */
  ghost predicate DeliveredOk(delivered: seq<EventRow>, pruned: nat, accepted: seq<Accepted>) {
    && |delivered| == pruned <= |accepted|
    && forall i | 0 <= i < |delivered| :: delivered[i] == accepted[i].row
  }

  ghost predicate FlightOk(w: World) {
    && w.settings.activeVersion in w.settings.keys
    && ValidLimits(w.settings.limits)
    && forall t | t in w.inFlight :: ValidRaw(w.inFlight[t])
  }

  ghost predicate TablesOk(p: Primitives, db: Database, accepted: seq<Accepted>) {
    && HistoryOk(p, accepted)
    && PlacesOk(accepted)
    && DeviceOk(db, accepted)
    && BatchesOk(p, db, accepted)
    && EventsOk(db, accepted)
    && ReceiptsOk(db, accepted)
    && MembersOk(db)
    && AnchorsOk(db)
  }

  ghost predicate Invariant(w: World) {
    && TablesOk(w.settings.primitives, w.db, w.accepted)
    && DeliveredOk(w.delivered, w.db.prunedSequence, w.accepted)
    && FlightOk(w)
  }

  // Lookups in a table that satisfies the invariant

  lemma {:induction false} FilterPrefix<T>(xs: seq<T>, keep: T -> bool, n: nat)
    requires n <= |xs|
    requires forall i | 0 <= i < |xs| :: keep(xs[i]) <==> i < n
    ensures Filter(xs, keep) == xs[..n]
  {
    if xs != [] {
      assert forall i | 0 <= i < |xs[1..]| :: xs[1..][i] == xs[i + 1];
      FilterPrefix(xs[1..], keep, if n == 0 then 0 else n - 1);
    }
  }

  lemma {:induction false} FilterSuffix<T>(xs: seq<T>, keep: T -> bool, n: nat)
    requires n <= |xs|
    requires forall i | 0 <= i < |xs| :: keep(xs[i]) <==> i >= n
    ensures Filter(xs, keep) == xs[n..]
  {
    if xs != [] {
      assert forall i | 0 <= i < |xs[1..]| :: xs[1..][i] == xs[i + 1];
      FilterSuffix(xs[1..], keep, if n == 0 then 0 else n - 1);
    }
  }

  lemma {:induction false} DecimalHasNoDash(n: nat)
    ensures 45 !in Decimal(n)
  {}

  /** Batch ids are injective in the sequence range they name and the part of the head they show. */
  lemma {:induction false} BatchIdInjective(f: nat, l: nat, h: Hash, f': nat, l': nat, h': Hash)
    requires BatchId(f, l, h) == BatchId(f', l', h')
    ensures f == f' && l == l' && h.bytes[..8] == h'.bytes[..8]
  {
    var tag := Ascii("batch-");
    var tail, tail' := Decimal(l) + [45] + Hex(h.bytes[..8]), Decimal(l') + [45] + Hex(h'.bytes[..8]);
    ConcatCancel(tag, Decimal(f) + [45] + tail, tag, Decimal(f') + [45] + tail');
    DecimalHasNoDash(f);
    DecimalHasNoDash(f');
    DecimalHasNoDash(l);
    DecimalHasNoDash(l');
    SplitAtSeparator(Decimal(f), tail, Decimal(f'), tail', 45);
    SplitAtSeparator(Decimal(l), Hex(h.bytes[..8]), Decimal(l'), Hex(h'.bytes[..8]), 45);
    DecimalRoundTrip(f);
    DecimalRoundTrip(f');
    DecimalRoundTrip(l);
    DecimalRoundTrip(l');
    HexInjective(h.bytes[..8], h'.bytes[..8]);
  }

  /** Batches cover ascending ranges. */
  lemma {:induction false} BatchesAscend(p: Primitives, batches: seq<BatchRow>, accepted: seq<Accepted>, j: nat, k: nat)
    requires forall i | 0 <= i < |batches| :: BatchOk(p, batches, accepted, i)
    requires j < k < |batches|
    ensures batches[j].lastSequence < batches[k].firstSequence
    decreases k
  {
    assert BatchOk(p, batches, accepted, k);
    if j < k - 1 {
      BatchesAscend(p, batches, accepted, j, k - 1);
      assert BatchOk(p, batches, accepted, k - 1);
    }
  }

  /** Batch ids never collide. */
  lemma {:induction false} BatchIdsDistinct(p: Primitives, db: Database, accepted: seq<Accepted>, j: nat, k: nat)
    requires BatchesOk(p, db, accepted) && j < k < |db.batches|
    ensures db.batches[j].batchId != db.batches[k].batchId
  {
    var a, b := db.batches[j], db.batches[k];
    assert BatchOk(p, db.batches, accepted, j) && BatchOk(p, db.batches, accepted, k);
    BatchesAscend(p, db.batches, accepted, j, k);
    if a.batchId == b.batchId {
      BatchIdInjective(a.firstSequence, a.lastSequence, a.chainHead, b.firstSequence, b.lastSequence, b.chainHead);
    }
  }

  lemma {:induction false} FindFirst(batches: seq<BatchRow>, j: nat)
    requires j < |batches|
    requires forall i | 0 <= i < j :: batches[i].batchId != batches[j].batchId
    ensures FindBatch(batches, batches[j].batchId) == Some(batches[j])
  {
    if j > 0 {
      assert batches[1..][j - 1] == batches[j];
      assert forall i | 0 <= i < j - 1 :: batches[1..][i] == batches[i + 1];
      FindFirst(batches[1..], j - 1);
    }
  }

  lemma {:induction false} FindNewest(p: Primitives, db: Database, accepted: seq<Accepted>)
    requires BatchesOk(p, db, accepted) && db.batches != []
    ensures FindBatch(db.batches, Newest(db.batches).batchId) == Some(Newest(db.batches))
  {
    var last := |db.batches| - 1;
    forall i | 0 <= i < last
      ensures db.batches[i].batchId != db.batches[last].batchId
    {
      BatchIdsDistinct(p, db, accepted, i, last);
    }
    FindFirst(db.batches, last);
  }

  /** There is at most one pending batch and it is the newest. */
  lemma {:induction false} AtMostOnePending(p: Primitives, db: Database, accepted: seq<Accepted>)
    requires BatchesOk(p, db, accepted)
    ensures PendingBatches(db.batches) == if HasPending(db.batches) then [Newest(db.batches)] else []
  {
    var n := if HasPending(db.batches) then |db.batches| - 1 else |db.batches|;
    var isPending := (b: BatchRow) => b.state.Pending?;
    forall i | 0 <= i < |db.batches|
      ensures isPending(db.batches[i]) <==> i >= n
    {
      assert BatchOk(p, db.batches, accepted, i);
    }
    FilterSuffix(db.batches, isPending, n);
    SortKeepsSorted(db.batches[n..], ByFirstSequence);
  }

  lemma {:induction false} RowsAscend(db: Database, accepted: seq<Accepted>)
    requires PlacesOk(accepted) && EventsOk(db, accepted)
    ensures forall i | 0 <= i < |db.events| ::
              db.events[i].localSequence == db.prunedSequence + i + 1
                  && db.events[i].eventId == accepted[db.prunedSequence + i].row.eventId
    ensures Sorted(db.events, BySequence)
  {}

  lemma {:induction false} AcceptedIdsDistinct(db: Database, accepted: seq<Accepted>, i: nat, j: nat)
    requires ReceiptsOk(db, accepted) && i < j < |accepted|
    ensures accepted[i].row.eventId != accepted[j].row.eventId
  {
    assert db.receipts[accepted[i].row.eventId].localSequence == i + 1;
    assert db.receipts[accepted[j].row.eventId].localSequence == j + 1;
  }

  /** The tables of a fresh spool satisfy the invariant. */
  lemma {:induction false} FreshInvariant(p: Primitives, limits: Limits, encryptionKey: VersionedKey,
      signingKey: VersionedKey)
    requires ValidLimits(limits)
    ensures Invariant(Fresh(p, limits, encryptionKey, signingKey))
  {}

  // Appends

  /** A first-time append inserts its sealed row; every other outcome leaves the tables alone. */
  lemma {:induction false} AppendShape(s: Settings, db: Database, raw: RawEvent, nonce: Option<Nonce>)
    requires s.activeVersion in s.keys
    ensures var reply := AppendTransaction(s, db, raw, nonce);
            if reply.result.Ok? && !reply.result.value.replayed then
              && nonce.Some? && raw.eventId !in db.receipts && db.nextSequence + 1 <= I64_MAX
              && reply.db == InsertEvent(db, NextRow(s, db, raw, nonce.value))
            else reply.db == db
  {}

  lemma {:induction false} CoveredBound(p: Primitives, db: Database, accepted: seq<Accepted>)
    requires BatchesOk(p, db, accepted)
    ensures db.prunedSequence <= Covered(db.batches) <= |accepted|
    ensures HasPending(db.batches) ==> db.prunedSequence < Covered(db.batches)
    ensures !HasPending(db.batches) ==> db.prunedSequence == Covered(db.batches)
  {
    if db.batches != [] {
      assert BatchOk(p, db.batches, accepted, |db.batches| - 1);
    }
  }

  lemma {:induction false} HeadAtPrefix(accepted: seq<Accepted>, a: Accepted, n: nat)
    requires n <= |accepted|
    ensures HeadAt(accepted + [a], n) == HeadAt(accepted, n)
  {}

  lemma {:induction false} InsertKeepsHistory(p: Primitives, accepted: seq<Accepted>, a: Accepted)
    requires HistoryOk(p, accepted)
    requires AcceptedOk(p, accepted + [a], |accepted|)
    ensures HistoryOk(p, accepted + [a])
  {
    forall i | 0 <= i < |accepted + [a]|
      ensures AcceptedOk(p, accepted + [a], i)
    {
      if i < |accepted| {
        assert AcceptedOk(p, accepted, i);
        HeadAtPrefix(accepted, a, i);
      }
    }
  }

  lemma {:induction false} InsertKeepsBatches(p: Primitives, db: Database, accepted: seq<Accepted>, a: Accepted)
    requires BatchesOk(p, db, accepted)
    ensures BatchesOk(p, InsertEvent(db, a.row), accepted + [a])
  {
    forall j | 0 <= j < |db.batches|
      ensures BatchOk(p, db.batches, accepted + [a], j)
    {
      assert BatchOk(p, db.batches, accepted, j);
      HeadAtPrefix(accepted, a, db.batches[j].lastSequence);
    }
  }

  lemma {:induction false} InsertKeepsEvents(p: Primitives, db: Database, accepted: seq<Accepted>, a: Accepted)
    requires BatchesOk(p, db, accepted) && EventsOk(db, accepted)
    requires a.row.localSequence == |accepted| + 1
    ensures EventsOk(InsertEvent(db, a.row), accepted + [a])
  {
    CoveredBound(p, db, accepted);
    assert Stamped(db.batches, a.row) == a.row;
  }

  lemma {:induction false} EnteredMore(receipts: map<Text, Receipt>, pruned: nat, accepted: seq<Accepted>, a: Accepted)
    requires Entered(receipts, pruned, accepted) && pruned <= |accepted| && a.row.eventId !in receipts
    ensures Entered(receipts[a.row.eventId := Receipt(|accepted| + 1, a.row.eventHash, false)], pruned, accepted + [a])
  {}

  lemma {:induction false} TracedMore(receipts: map<Text, Receipt>, accepted: seq<Accepted>, a: Accepted, r: Receipt)
    requires Traced(receipts, accepted) && a.row.eventId !in receipts && r.localSequence == |accepted| + 1
    ensures Traced(receipts[a.row.eventId := r], accepted + [a])
  {}

  lemma {:induction false} InsertKeepsReceipts(db: Database, accepted: seq<Accepted>, a: Accepted)
    requires ReceiptsOk(db, accepted) && db.prunedSequence <= |accepted|
    requires a.row.localSequence == |accepted| + 1 && a.row.eventId !in db.receipts
    ensures ReceiptsOk(InsertEvent(db, a.row), accepted + [a])
  {
    EnteredMore(db.receipts, db.prunedSequence, accepted, a);
    TracedMore(db.receipts, accepted, a, Receipt(|accepted| + 1, a.row.eventHash, false));
  }

  lemma {:induction false} InsertKeepsMembers(db: Database, row: EventRow)
    requires MembersOk(db)
    ensures MembersOk(InsertEvent(db, row))
  {
    if HasPending(db.batches) {
      var n := Covered(db.batches) - db.prunedSequence;
      assert InsertEvent(db, row).events[..n] == db.events[..n];
    }
  }

  lemma {:induction false} NewEntryOk(s: Settings, db: Database, accepted: seq<Accepted>, raw: RawEvent, nonce: Nonce)
    requires DeviceOk(db, accepted) && ValidRaw(raw) && s.activeVersion in s.keys
    ensures AcceptedOk(s.primitives, accepted + [Entry(s, db, raw, nonce)], |accepted|)
  {
    HeadAtPrefix(accepted, Entry(s, db, raw, nonce), |accepted|);
  }

  /** A commit either only ends the append or inserts its entry. */
  lemma {:induction false} CommitShape(w: World, thread: nat, nonce: Option<Nonce>) returns (inserted: bool)
    requires FlightOk(w) && thread in w.inFlight
    ensures var rest, raw := w.inFlight - {thread}, w.inFlight[thread];
            if inserted then
              && nonce.Some? && raw.eventId !in w.db.receipts && w.db.nextSequence + 1 <= I64_MAX
              && var a := Entry(w.settings, w.db, raw, nonce.value);
                 StepCommit(w, thread, nonce) == World(w.settings, InsertEvent(w.db, a.row), rest, w.accepted + [a],
                     w.delivered)
            else StepCommit(w, thread, nonce) == w.(inFlight := rest)
  {
    var result := AppendTransaction(w.settings, w.db, w.inFlight[thread], nonce).result;
    AppendShape(w.settings, w.db, w.inFlight[thread], nonce);
    inserted := result.Ok? && !result.value.replayed;
  }

  lemma {:induction false} DeliveredStays(delivered: seq<EventRow>, pruned: nat, accepted: seq<Accepted>,
      later: seq<Accepted>)
    requires DeliveredOk(delivered, pruned, accepted) && accepted <= later
    ensures DeliveredOk(delivered, pruned, later)
  {}

  lemma {:induction false} InsertKeepsInvariant(w: World, thread: nat, a: Accepted, after: World)
    requires Invariant(w) && a.row.eventId !in w.db.receipts && w.db.nextSequence + 1 <= I64_MAX
    requires AcceptedOk(w.settings.primitives, w.accepted + [a], |w.accepted|)
    requires after == World(w.settings, InsertEvent(w.db, a.row), w.inFlight - {thread}, w.accepted + [a], w.delivered)
    ensures Invariant(after)
  {
    CommitKeepsTables(w.settings.primitives, w.db, w.accepted, a);
    DeliveredStays(w.delivered, w.db.prunedSequence, w.accepted, w.accepted + [a]);
  }

  lemma {:induction false} CommitKeepsInvariant(w: World, thread: nat, nonce: Option<Nonce>)
    requires Invariant(w)
    ensures Invariant(StepCommit(w, thread, nonce))
  {
    if thread in w.inFlight {
      var after := StepCommit(w, thread, nonce);
      var inserted := CommitShape(w, thread, nonce);
      if inserted {
        var raw, s := w.inFlight[thread], w.settings;
        NewEntryOk(s, w.db, w.accepted, raw, nonce.value);
        InsertKeepsInvariant(w, thread, Entry(s, w.db, raw, nonce.value), after);
      } else {
        assert after == w.(inFlight := w.inFlight - {thread});
      }
    }
  }

  lemma {:induction false} CommitKeepsTables(p: Primitives, db: Database, accepted: seq<Accepted>, a: Accepted)
    requires TablesOk(p, db, accepted) && a.row.eventId !in db.receipts && db.nextSequence + 1 <= I64_MAX
    requires AcceptedOk(p, accepted + [a], |accepted|)
    ensures TablesOk(p, InsertEvent(db, a.row), accepted + [a])
  {
    InsertKeepsHistory(p, accepted, a);
    InsertKeepsBatches(p, db, accepted, a);
    InsertKeepsEvents(p, db, accepted, a);
    InsertKeepsReceipts(db, accepted, a);
    InsertKeepsMembers(db, a.row);
    HeadAtPrefix(accepted, a, db.prunedSequence);
  }

  // Batches

  /** With nothing pending, the queue is the whole spool and a batch takes its oldest rows. */
  lemma {:induction false} RowsPlain(p: Primitives, db: Database, accepted: seq<Accepted>)
    requires PlacesOk(accepted) && BatchesOk(p, db, accepted) && EventsOk(db, accepted) && !HasPending(db.batches)
    ensures forall i | 0 <= i < |db.events| :: db.events[i] == accepted[db.prunedSequence + i].row
    ensures forall i | 0 <= i < |db.events| :: db.events[i].state.Queued?
  {
    CoveredBound(p, db, accepted);
    forall i | 0 <= i < |db.events| ensures db.events[i] == accepted[db.prunedSequence + i].row {
      assert Stamped(db.batches, accepted[db.prunedSequence + i].row) == accepted[db.prunedSequence + i].row;
    }
  }

  lemma {:induction false} QueuedRows(p: Primitives, db: Database, accepted: seq<Accepted>, limit: nat)
    requires PlacesOk(accepted) && BatchesOk(p, db, accepted) && EventsOk(db, accepted) && !HasPending(db.batches)
    ensures SelectQueued(db, limit) == Take(db.events, limit)
    ensures forall i | 0 <= i < |db.events| :: db.events[i] == accepted[db.prunedSequence + i].row
  {
    RowsPlain(p, db, accepted);
    RowsAscend(db, accepted);
    FilterPrefix(db.events, (r: EventRow) => r.state.Queued?, |db.events|);
    assert db.events[..|db.events|] == db.events;
    SortKeepsSorted(db.events, BySequence);
  }

  lemma {:induction false} SignedBatchRange(s: Settings, db: Database, accepted: seq<Accepted>, n: nat, now: int)
    requires PlacesOk(accepted) && EventsOk(db, accepted) && 0 < n <= |db.events|
    ensures var batch := SignedBatch(s, db.events[..n], now);
            && batch.firstSequence == db.prunedSequence + 1
            && batch.lastSequence == db.prunedSequence + n
            && batch.chainHead == HeadAt(accepted, db.prunedSequence + n)
  {
    RowsAscend(db, accepted);
    assert db.events[..n][n - 1] == db.events[n - 1];
  }

  lemma {:induction false} CreateKeepsBatches(p: Primitives, db: Database, after: Database, accepted: seq<Accepted>,
      batch: BatchRow)
    requires BatchesOk(p, db, accepted) && !HasPending(db.batches)
    requires after.batches == db.batches + [batch] && after.prunedSequence == db.prunedSequence
    requires batch.firstSequence == db.prunedSequence + 1 <= batch.lastSequence <= |accepted|
    requires batch.eventCount == batch.lastSequence - db.prunedSequence
    requires batch.chainHead == HeadAt(accepted, batch.lastSequence)
    requires batch.batchId == BatchId(batch.firstSequence, batch.lastSequence, batch.chainHead)
    requires p.verify(batch.publicKey, batch.chainHead, batch.signature) && batch.state.Pending?
    ensures BatchesOk(p, after, accepted)
  {
    CoveredBound(p, db, accepted);
    forall j | 0 <= j < |after.batches|
      ensures BatchOk(p, after.batches, accepted, j)
    {
      if j < |db.batches| {
        assert BatchOk(p, db.batches, accepted, j);
        assert after.batches[j] == db.batches[j];
      }
    }
  }

  /** Rows of distinct events: marking the first `n` marks no other. */
  lemma {:induction false} MarkFirst(events: seq<EventRow>, n: nat, batchId: Text)
    requires forall i, j | 0 <= i < j < |events| :: events[i].eventId != events[j].eventId
    requires n <= |events|
    ensures forall i | 0 <= i < |events| ::
              MarkBatched(events, events[..n], batchId)[i] ==
              if i < n then events[i].(state := Batched, batchId := Some(batchId)) else events[i]
  {
    var rows := events[..n];
    forall i | 0 <= i < |events|
      ensures (exists r | r in rows :: r.eventId == events[i].eventId) <==> i < n
    {
      if i < n {
        assert rows[i] in rows;
      }
    }
  }

  lemma {:induction false} EventIdsDistinct(db: Database, accepted: seq<Accepted>)
    requires PlacesOk(accepted) && EventsOk(db, accepted) && ReceiptsOk(db, accepted)
    ensures forall i, j | 0 <= i < j < |db.events| :: db.events[i].eventId != db.events[j].eventId
  {
    RowsAscend(db, accepted);
    forall i, j | 0 <= i < j < |db.events|
      ensures db.events[i].eventId != db.events[j].eventId
    {
      AcceptedIdsDistinct(db, accepted, db.prunedSequence + i, db.prunedSequence + j);
    }
  }

  lemma {:induction false} MarkOldest(db: Database, accepted: seq<Accepted>, n: nat, batchId: Text)
    requires PlacesOk(accepted) && EventsOk(db, accepted) && ReceiptsOk(db, accepted) && n <= |db.events|
    ensures forall i | 0 <= i < |db.events| ::
              MarkBatched(db.events, db.events[..n], batchId)[i] ==
              if i < n then db.events[i].(state := Batched, batchId := Some(batchId)) else db.events[i]
  {
    EventIdsDistinct(db, accepted);
    MarkFirst(db.events, n, batchId);
  }

  lemma {:induction false} CreateKeepsEvents(s: Settings, db: Database, accepted: seq<Accepted>, n: nat, now: int)
    requires PlacesOk(accepted) && EventsOk(db, accepted) && ReceiptsOk(db, accepted)
             && BatchesOk(s.primitives, db, accepted)
    requires !HasPending(db.batches) && 0 < n <= |db.events|
    ensures EventsOk(CreateBatch(s, db, db.events[..n], now), accepted)
  {
    SignedBatchRange(s, db, accepted, n, now);
    QueuedRows(s.primitives, db, accepted, n);
    MarkOldest(db, accepted, n, SignedBatch(s, db.events[..n], now).batchId);
    CreatedEvents(db, CreateBatch(s, db, db.events[..n], now), accepted, n);
  }

  lemma {:induction false} CreatedEvents(db: Database, after: Database, accepted: seq<Accepted>, n: nat)
    requires PlacesOk(accepted) && db.prunedSequence + |db.events| == |accepted| && n <= |db.events| == |after.events|
    requires after.batches != [] && Covered(after.batches) == db.prunedSequence + n
             && after.prunedSequence == db.prunedSequence
    requires forall i | 0 <= i < |db.events| :: db.events[i] == accepted[db.prunedSequence + i].row
    requires forall i | 0 <= i < |db.events| ::
               after.events[i] == if i < n then
                   db.events[i].(state := Batched, batchId := Some(Newest(after.batches).batchId)) else db.events[i]
    ensures EventsOk(after, accepted)
  {}

  lemma {:induction false} CreateKeepsMembers(s: Settings, db: Database, accepted: seq<Accepted>, n: nat, now: int)
    requires PlacesOk(accepted) && EventsOk(db, accepted) && MembersOk(db) && !HasPending(db.batches)
             && 0 < n <= |db.events|
    ensures MembersOk(CreateBatch(s, db, db.events[..n], now))
  {
    var rows := db.events[..n];
    var batch := SignedBatch(s, rows, now);
    var after := CreateBatch(s, db, rows, now);
    SignedBatchRange(s, db, accepted, n, now);
    assert Memberships(after.events[..n], batch.batchId) == Memberships(rows, batch.batchId);
  }

  lemma {:induction false} AnchorsGrow(before: Database, after: Database)
    requires AnchorsOk(before) && after.anchors == before.anchors
    requires forall b | b in before.batches && b.state.Acknowledged? :: Anchored(after.batches, b.batchId)
    ensures AnchorsOk(after)
  {
    forall id | id in after.anchors
      ensures Anchored(after.batches, after.anchors[id].batchId)
    {
      assert Anchored(before.batches, before.anchors[id].batchId);
    }
  }

  lemma {:induction false} CreateKeepsTables(s: Settings, db: Database, accepted: seq<Accepted>, n: nat, now: int)
    requires TablesOk(s.primitives, db, accepted) && !HasPending(db.batches) && 0 < n <= |db.events|
    requires var b := SignedBatch(s, db.events[..n], now); s.primitives.verify(b.publicKey, b.chainHead, b.signature)
    ensures TablesOk(s.primitives, CreateBatch(s, db, db.events[..n], now), accepted)
  {
    var after := CreateBatch(s, db, db.events[..n], now);
    CreateKeepsEvents(s, db, accepted, n, now);
    CreateKeepsMembers(s, db, accepted, n, now);
    CreateKeepsBatchTable(s, db, accepted, n, now);
    assert DeviceOk(after, accepted) && ReceiptsOk(after, accepted);
  }

  lemma {:induction false} CreateKeepsBatchTable(s: Settings, db: Database, accepted: seq<Accepted>, n: nat, now: int)
    requires PlacesOk(accepted) && EventsOk(db, accepted) && BatchesOk(s.primitives, db, accepted) && AnchorsOk(db)
    requires !HasPending(db.batches) && 0 < n <= |db.events|
    requires var b := SignedBatch(s, db.events[..n], now); s.primitives.verify(b.publicKey, b.chainHead, b.signature)
    ensures var after := CreateBatch(s, db, db.events[..n], now);
            BatchesOk(s.primitives, after, accepted) && AnchorsOk(after)
  {
    var after := CreateBatch(s, db, db.events[..n], now);
    SignedBatchRange(s, db, accepted, n, now);
    CreateKeepsBatches(s.primitives, db, after, accepted, SignedBatch(s, db.events[..n], now));
    AnchorsGrow(db, after);
  }

  lemma {:induction false} SignatureVerifies(s: Settings, rows: seq<EventRow>, now: int)
    requires s.primitives.Lawful() && rows != []
    ensures var b := SignedBatch(s, rows, now); s.primitives.verify(b.publicKey, b.chainHead, b.signature)
  {}

  /** How many rows a batch created now would take; none while one is pending. */
  function BatchSize(s: Settings, db: Database): nat {
    if HasPending(db.batches) then 0 else Min(|db.events|, s.limits.maximumBatchEvents)
  }

  /** Asking for a batch changes the tables only by creating one from the oldest rows. */
  lemma {:induction false} TakeBatchShape(s: Settings, db: Database, accepted: seq<Accepted>, now: int)
    requires ValidLimits(s.limits) && PlacesOk(accepted) && BatchesOk(s.primitives, db, accepted)
             && EventsOk(db, accepted)
    ensures var after, n := NextBatch(s, db, now).db, BatchSize(s, db);
            after == db || (0 < n <= |db.events| && after == CreateBatch(s, db, db.events[..n], now))
  {
    AtMostOnePending(s.primitives, db, accepted);
    if !HasPending(db.batches) {
      QueuedRows(s.primitives, db, accepted, s.limits.maximumBatchEvents);
      assert Take(db.events, s.limits.maximumBatchEvents) == db.events[..BatchSize(s, db)];
    }
  }

  lemma {:induction false} TakeBatchKeepsTables(s: Settings, db: Database, accepted: seq<Accepted>, now: int)
    requires s.primitives.Lawful() && ValidLimits(s.limits) && TablesOk(s.primitives, db, accepted)
    ensures TablesOk(s.primitives, NextBatch(s, db, now).db, accepted)
  {
    TakeBatchShape(s, db, accepted, now);
    var n := BatchSize(s, db);
    if NextBatch(s, db, now).db != db {
      SignatureVerifies(s, db.events[..n], now);
      CreateKeepsTables(s, db, accepted, n, now);
    }
  }

  // Retries

  /** Equal up to the retry cursor. */
  ghost predicate SameBatches(before: seq<BatchRow>, after: seq<BatchRow>) {
    && |before| == |after|
    && forall i | 0 <= i < |before| ::
         after[i] == before[i].(attemptCount := after[i].attemptCount, nextAttempt := after[i].nextAttempt,
             lastFailure := after[i].lastFailure)
  }

  lemma {:induction false} SameBatchesKeepBatches(p: Primitives, db: Database, after: Database, accepted: seq<Accepted>)
    requires BatchesOk(p, db, accepted) && SameBatches(db.batches, after.batches)
             && after == db.(batches := after.batches)
    ensures BatchesOk(p, after, accepted)
  {
    forall j | 0 <= j < |after.batches|
      ensures BatchOk(p, after.batches, accepted, j)
    {
      assert BatchOk(p, db.batches, accepted, j);
    }
  }

  lemma {:induction false} SameBatchesKeepAnchors(db: Database, after: Database)
    requires AnchorsOk(db) && SameBatches(db.batches, after.batches) && after.anchors == db.anchors
    ensures AnchorsOk(after)
  {
    forall b | b in db.batches && b.state.Acknowledged?
      ensures Anchored(after.batches, b.batchId)
    {
      var j :| 0 <= j < |db.batches| && db.batches[j] == b;
      assert after.batches[j] in after.batches;
    }
    AnchorsGrow(db, after);
  }

  lemma {:induction false} SameBatchesKeepRows(db: Database, after: Database, accepted: seq<Accepted>)
    requires SameBatches(db.batches, after.batches) && after == db.(batches := after.batches)
    ensures EventsOk(db, accepted) ==> EventsOk(after, accepted)
    ensures MembersOk(db) ==> MembersOk(after)
  {
    assert Covered(after.batches) == Covered(db.batches) && HasPending(after.batches) == HasPending(db.batches);
    assert forall row :: Stamped(after.batches, row) == Stamped(db.batches, row);
  }

  lemma {:induction false} SameBatchesKeepTables(p: Primitives, db: Database, after: Database, accepted: seq<Accepted>)
    requires TablesOk(p, db, accepted) && SameBatches(db.batches, after.batches)
             && after == db.(batches := after.batches)
    ensures TablesOk(p, after, accepted)
  {
    SameBatchesKeepBatches(p, db, after, accepted);
    SameBatchesKeepAnchors(db, after);
    SameBatchesKeepRows(db, after, accepted);
  }

  lemma {:induction false} RetryShape(db: Database, batchId: Text, now: int, delay: nat, failure: Text)
    ensures var after := RecordRetry(db, batchId, now, delay, failure).db;
            after == db.(batches := after.batches) && SameBatches(db.batches, after.batches)
  {}

  // Acknowledgements

  lemma {:induction false} ListedIndex(db: Database, id: Text, eventId: Text) returns (k: nat)
    requires MembersOk(db) && HasPending(db.batches) && Listed(db.batchEvents, id, eventId)
    ensures k < Covered(db.batches) - db.prunedSequence <= |db.events| && db.events[k].eventId == eventId
  {
    var b :| b in db.batchEvents && b.batchId == id && b.eventId == eventId;
    k :| 0 <= k < |db.batchEvents| && db.batchEvents[k] == b;
  }

  lemma {:induction false} ListedRow(db: Database, i: nat)
    requires forall i, j | 0 <= i < j < |db.events| :: db.events[i].eventId != db.events[j].eventId
    requires MembersOk(db) && HasPending(db.batches) && i < |db.events|
    ensures Listed(db.batchEvents, Newest(db.batches).batchId, db.events[i].eventId) <==>
            i < Covered(db.batches) - db.prunedSequence
  {
    var id, n := Newest(db.batches).batchId, Covered(db.batches) - db.prunedSequence;
    if i < n {
      assert db.batchEvents[i] in db.batchEvents;
    } else if Listed(db.batchEvents, id, db.events[i].eventId) {
      var k := ListedIndex(db, id, db.events[i].eventId);
    }
  }

  ghost predicate SpooledOk(p: Primitives, db: Database, accepted: seq<Accepted>) {
    PlacesOk(accepted) && BatchesOk(p, db, accepted) && EventsOk(db, accepted) && ReceiptsOk(db, accepted)
        && MembersOk(db)
  }

  /** The rows of the pending batch are the oldest of the spool, and only they carry its id. */
  lemma {:induction false} PendingRows(p: Primitives, db: Database, accepted: seq<Accepted>)
    requires SpooledOk(p, db, accepted) && HasPending(db.batches)
    ensures var id, n := Newest(db.batches).batchId, Covered(db.batches) - db.prunedSequence;
            && 0 < n <= |db.events|
            && SelectBatch(db, id) == db.events[..n]
            && Filter(db.events, (r: EventRow) => r.batchId != Some(id)) == db.events[n..]
  {
    CoveredBound(p, db, accepted);
    RowsAscend(db, accepted);
    EventIdsDistinct(db, accepted);
    PendingRowsOf(db);
    var id, n := Newest(db.batches).batchId, Covered(db.batches) - db.prunedSequence;
    FilterSuffix(db.events, (r: EventRow) => r.batchId != Some(id), n);
  }

  lemma {:induction false} PendingRowsOf(db: Database)
    requires forall i, j | 0 <= i < j < |db.events| :: db.events[i].eventId != db.events[j].eventId
    requires MembersOk(db) && HasPending(db.batches) && Sorted(db.events, BySequence)
    ensures SelectBatch(db, Newest(db.batches).batchId) == db.events[..Covered(db.batches) - db.prunedSequence]
  {
    var id, n := Newest(db.batches).batchId, Covered(db.batches) - db.prunedSequence;
    var listed := (r: EventRow) => Listed(db.batchEvents, id, r.eventId);
    forall i | 0 <= i < |db.events|
      ensures listed(db.events[i]) <==> i < n
    {
      ListedRow(db, i);
    }
    FilterPrefix(db.events, listed, n);
    SortKeepsSorted(db.events[..n], BySequence);
  }

  lemma {:induction false} ListedReceipt(p: Primitives, db: Database, accepted: seq<Accepted>, k: nat)
    requires SpooledOk(p, db, accepted) && HasPending(db.batches) && k < |accepted|
    ensures Listed(db.batchEvents, Newest(db.batches).batchId, accepted[k].row.eventId) <==>
            db.prunedSequence <= k < Covered(db.batches)
  {
    var id := Newest(db.batches).batchId;
    RowsAscend(db, accepted);
    EventIdsDistinct(db, accepted);
    if db.prunedSequence <= k {
      ListedRow(db, k - db.prunedSequence);
    } else if Listed(db.batchEvents, id, accepted[k].row.eventId) {
      var i := ListedIndex(db, id, accepted[k].row.eventId);
      AcceptedIdsDistinct(db, accepted, k, db.prunedSequence + i);
    }
  }

  lemma {:induction false} MarkNewest(p: Primitives, db: Database, accepted: seq<Accepted>)
    requires BatchesOk(p, db, accepted) && HasPending(db.batches)
    ensures MarkAcknowledged(db.batches, Newest(db.batches).batchId)
         == db.batches[..|db.batches| - 1] + [Newest(db.batches).(state := Acknowledged)]
  {
    forall i | 0 <= i < |db.batches| - 1
      ensures db.batches[i].batchId != Newest(db.batches).batchId
    {
      BatchIdsDistinct(p, db, accepted, i, |db.batches| - 1);
    }
  }

  lemma {:induction false} PruneKeepsBatches(p: Primitives, db: Database, accepted: seq<Accepted>, receiptId: Text)
    requires BatchesOk(p, db, accepted) && HasPending(db.batches)
    ensures var after := Pruned(db, Newest(db.batches), receiptId);
            BatchesOk(p, after, accepted) && !HasPending(after.batches) && Covered(after.batches) == Covered(db.batches)
  {
    MarkNewest(p, db, accepted);
    var after := Pruned(db, Newest(db.batches), receiptId);
    forall j | 0 <= j < |after.batches|
      ensures BatchOk(p, after.batches, accepted, j)
    {
      assert BatchOk(p, db.batches, accepted, j);
    }
  }

  /** Acknowledging changes no receipt but for the mark that it was acknowledged. */
  lemma {:induction false} PrunedReceipt(db: Database, batch: BatchRow, receiptId: Text, id: Text)
    ensures id in Pruned(db, batch, receiptId).receipts <==> id in db.receipts
    ensures id in db.receipts ==>
              Pruned(db, batch, receiptId).receipts[id] ==
              if Listed(db.batchEvents, batch.batchId, id) then db.receipts[id].(acknowledged := true)
                else db.receipts[id]
  {}

  /** The receipts after a change, from those before it and the marks. */
  ghost predicate OnlyMarksChange(db: Database, after: Database) {
    && (forall id :: id in after.receipts <==> id in db.receipts)
    && forall id | id in db.receipts ::
         after.receipts[id].localSequence == db.receipts[id].localSequence
             && after.receipts[id].eventHash == db.receipts[id].eventHash
  }

  ghost predicate MarksOk(after: Database, accepted: seq<Accepted>) {
    forall i | 0 <= i < |accepted| && accepted[i].row.eventId in after.receipts ::
      after.receipts[accepted[i].row.eventId].acknowledged == (i < after.prunedSequence)
  }

  lemma {:induction false} ReceiptStays(db: Database, after: Database, accepted: seq<Accepted>, i: nat)
    requires ReceiptsOk(db, accepted) && OnlyMarksChange(db, after) && MarksOk(after, accepted) && i < |accepted|
    ensures var id := accepted[i].row.eventId;
            id in after.receipts
            && after.receipts[id] == Receipt(i + 1, accepted[i].row.eventHash, i < after.prunedSequence)
  {
    var id := accepted[i].row.eventId;
    assert db.receipts[id] == Receipt(i + 1, accepted[i].row.eventHash, i < db.prunedSequence);
  }

  lemma {:induction false} TracedStays(db: Database, after: Database, accepted: seq<Accepted>)
    requires Traced(db.receipts, accepted) && OnlyMarksChange(db, after)
    ensures Traced(after.receipts, accepted)
  {
    forall id | id in after.receipts
      ensures 1 <= after.receipts[id].localSequence <= |accepted|
      ensures accepted[after.receipts[id].localSequence - 1].row.eventId == id
    {
      assert id in db.receipts && db.receipts[id].localSequence == after.receipts[id].localSequence;
    }
  }

  lemma {:induction false} ReceiptsStay(db: Database, after: Database, accepted: seq<Accepted>)
    requires ReceiptsOk(db, accepted) && OnlyMarksChange(db, after) && MarksOk(after, accepted)
    ensures ReceiptsOk(after, accepted)
  {
    forall i: nat | i < |accepted|
      ensures accepted[i].row.eventId in after.receipts
      ensures after.receipts[accepted[i].row.eventId] ==
              Receipt(i + 1, accepted[i].row.eventHash, i < after.prunedSequence)
    {
      ReceiptStays(db, after, accepted, i);
    }
    TracedStays(db, after, accepted);
  }

  lemma {:induction false} OnlyMarksPruned(db: Database, batch: BatchRow, receiptId: Text)
    ensures OnlyMarksChange(db, Pruned(db, batch, receiptId))
  {
    var after := Pruned(db, batch, receiptId);
    forall id ensures id in after.receipts <==> id in db.receipts {
      PrunedReceipt(db, batch, receiptId, id);
    }
    forall id | id in db.receipts
      ensures after.receipts[id].localSequence == db.receipts[id].localSequence
              && after.receipts[id].eventHash == db.receipts[id].eventHash
    {
      PrunedReceipt(db, batch, receiptId, id);
    }
  }

  lemma {:induction false} PruneKeepsReceipts(p: Primitives, db: Database, accepted: seq<Accepted>, receiptId: Text)
    requires SpooledOk(p, db, accepted) && HasPending(db.batches)
    ensures ReceiptsOk(Pruned(db, Newest(db.batches), receiptId), accepted)
  {
    var batch := Newest(db.batches);
    var after := Pruned(db, batch, receiptId);
    OnlyMarksPruned(db, batch, receiptId);
    forall i | 0 <= i < |accepted| && accepted[i].row.eventId in after.receipts
      ensures after.receipts[accepted[i].row.eventId].acknowledged == (i < after.prunedSequence)
    {
      PrunedAcknowledged(p, db, accepted, receiptId, i);
    }
    ReceiptsStay(db, after, accepted);
  }

  lemma {:induction false} PrunedAcknowledged(p: Primitives, db: Database, accepted: seq<Accepted>, receiptId: Text,
      i: nat)
    requires SpooledOk(p, db, accepted) && HasPending(db.batches) && i < |accepted|
             && accepted[i].row.eventId in db.receipts
    ensures var after := Pruned(db, Newest(db.batches), receiptId);
            && accepted[i].row.eventId in after.receipts
            && after.receipts[accepted[i].row.eventId].acknowledged == (i < after.prunedSequence)
  {
    CoveredBound(p, db, accepted);
    ListedReceipt(p, db, accepted, i);
    PrunedReceipt(db, Newest(db.batches), receiptId, accepted[i].row.eventId);
  }

  /** The first `n` rows are gone, and the pruned sequence has moved past them to the end of the last batch. */
  ghost predicate Shortens(db: Database, after: Database, n: nat) {
    && n <= |db.events| && after.events == db.events[n..]
    && after.prunedSequence == db.prunedSequence + n == Covered(after.batches) == Covered(db.batches)
  }

  /** Rows after the batched ones keep their places when those before them go. */
  lemma {:induction false} PruneKeepsEvents(db: Database, after: Database, accepted: seq<Accepted>, n: nat)
    requires EventsOk(db, accepted) && PlacesOk(accepted) && Shortens(db, after, n)
    ensures EventsOk(after, accepted)
  {
    forall i | 0 <= i < |after.events|
      ensures after.events[i] == Stamped(after.batches, accepted[after.prunedSequence + i].row)
    {
      var k := n + i;
      assert after.events[i] == db.events[k] && db.prunedSequence + k == after.prunedSequence + i;
    }
  }

  lemma {:induction false} PruneShape(p: Primitives, db: Database, accepted: seq<Accepted>, receiptId: Text)
      returns (n: nat)
    requires SpooledOk(p, db, accepted) && HasPending(db.batches)
    ensures Shortens(db, Pruned(db, Newest(db.batches), receiptId), n)
  {
    n := Covered(db.batches) - db.prunedSequence;
    PendingRows(p, db, accepted);
    MarkNewest(p, db, accepted);
  }

  lemma {:induction false} PruneKeepsAnchors(p: Primitives, db: Database, accepted: seq<Accepted>, receiptId: Text)
    requires BatchesOk(p, db, accepted) && AnchorsOk(db) && HasPending(db.batches)
    ensures AnchorsOk(Pruned(db, Newest(db.batches), receiptId))
  {
    var after, last := Pruned(db, Newest(db.batches), receiptId), |db.batches| - 1;
    MarkNewest(p, db, accepted);
    assert after.batches[last] in after.batches;
    forall id | id in after.anchors
      ensures Anchored(after.batches, after.anchors[id].batchId)
    {
      if id != receiptId {
        assert Anchored(db.batches, db.anchors[id].batchId);
        var b :| b in db.batches && b.batchId == db.anchors[id].batchId && b.state.Acknowledged?;
        var j :| 0 <= j < |db.batches| && db.batches[j] == b;
        assert after.batches[j] in after.batches;
      }
    }
  }

  lemma {:induction false} MembersGone(db: Database)
    requires MembersOk(db) && HasPending(db.batches)
    ensures Filter(db.batchEvents, (b: BatchEvent) => b.batchId != Newest(db.batches).batchId) == []
  {
    FilterPrefix(db.batchEvents, (b: BatchEvent) => b.batchId != Newest(db.batches).batchId, 0);
  }

  lemma {:induction false} PruneKeepsTables(p: Primitives, db: Database, accepted: seq<Accepted>, receiptId: Text)
    requires TablesOk(p, db, accepted) && HasPending(db.batches)
    ensures TablesOk(p, Pruned(db, Newest(db.batches), receiptId), accepted)
  {
    PruneKeepsBatches(p, db, accepted, receiptId);
    var n := PruneShape(p, db, accepted, receiptId);
    PruneKeepsEvents(db, Pruned(db, Newest(db.batches), receiptId), accepted, n);
    PruneKeepsReceipts(p, db, accepted, receiptId);
    PruneKeepsAnchors(p, db, accepted, receiptId);
    MembersGone(db);
    CoveredBound(p, db, accepted);
    assert BatchOk(p, db.batches, accepted, |db.batches| - 1);
  }

  /** An applied acknowledgement is one of the newest batch, the only pending one. */
  lemma {:induction false} AcknowledgeShape(p: Primitives, db: Database, accepted: seq<Accepted>, batchId: Text,
      chainHead: Text, receiptId: Text)
    requires BatchesOk(p, db, accepted)
    ensures var reply := Acknowledge(db, batchId, chainHead, receiptId);
            if reply.result == Ok(Applied) then
              HasPending(db.batches) && batchId == Newest(db.batches).batchId
                  && reply.db == Pruned(db, Newest(db.batches), receiptId)
            else reply.db == db
  {
    AtMostOnePending(p, db, accepted);
    if HasPending(db.batches) {
      FindNewest(p, db, accepted);
    }
  }

  lemma {:induction false} ConfirmKeepsInvariant(w: World, batchId: Text, chainHead: Text, receiptId: Text)
    requires Invariant(w)
    ensures Invariant(StepConfirm(w, batchId, chainHead, receiptId))
  {
    var p := w.settings.primitives;
    AcknowledgeShape(p, w.db, w.accepted, batchId, chainHead, receiptId);
    if Acknowledge(w.db, batchId, chainHead, receiptId).result == Ok(Applied) {
      PruneKeepsTables(p, w.db, w.accepted, receiptId);
      PruneDelivers(p, w.db, w.accepted, w.delivered);
    }
  }

  lemma {:induction false} PendingRowsPlain(db: Database, accepted: seq<Accepted>, n: nat)
    requires PlacesOk(accepted) && EventsOk(db, accepted) && n <= |db.events|
    ensures forall i | 0 <= i < n :: UnstampedAll(db.events[..n])[i] == accepted[db.prunedSequence + i].row
  {}

  lemma {:induction false} DeliverMore(delivered: seq<EventRow>, more: seq<EventRow>, pruned: nat,
      accepted: seq<Accepted>)
    requires DeliveredOk(delivered, pruned, accepted) && pruned + |more| <= |accepted|
    requires forall i | 0 <= i < |more| :: more[i] == accepted[pruned + i].row
    ensures DeliveredOk(delivered + more, pruned + |more|, accepted)
  {
    forall i | 0 <= i < |delivered + more| ensures (delivered + more)[i] == accepted[i].row {
      if i >= |delivered| {
        assert (delivered + more)[i] == more[i - pruned];
      }
    }
  }

  lemma {:induction false} RowsDelivered(db: Database, accepted: seq<Accepted>, delivered: seq<EventRow>, n: nat)
    requires PlacesOk(accepted) && EventsOk(db, accepted) && DeliveredOk(delivered, db.prunedSequence, accepted)
             && n <= |db.events|
    ensures DeliveredOk(delivered + UnstampedAll(db.events[..n]), db.prunedSequence + n, accepted)
  {
    PendingRowsPlain(db, accepted, n);
    DeliverMore(delivered, UnstampedAll(db.events[..n]), db.prunedSequence, accepted);
  }

  lemma {:induction false} PruneDelivers(p: Primitives, db: Database, accepted: seq<Accepted>, delivered: seq<EventRow>)
    requires SpooledOk(p, db, accepted) && DeliveredOk(delivered, db.prunedSequence, accepted) && HasPending(db.batches)
    ensures DeliveredOk(delivered + UnstampedAll(SelectBatch(db, Newest(db.batches).batchId)), Covered(db.batches),
            accepted)
  {
    PendingRows(p, db, accepted);
    CoveredBound(p, db, accepted);
    RowsDelivered(db, accepted, delivered, Covered(db.batches) - db.prunedSequence);
  }

  // Every run

  /** New tables over the same history keep the invariant if nothing was pruned. */
  lemma {:induction false} WithTables(w: World, db: Database)
    requires Invariant(w) && TablesOk(w.settings.primitives, db, w.accepted) && db.prunedSequence == w.db.prunedSequence
    ensures Invariant(w.(db := db))
  {}

  lemma {:induction false} StepTakesBatch(w: World, now: int)
    ensures Step(w, TakeBatch(now)) == w.(db := NextBatch(w.settings, w.db, now).db)
  {}

  lemma {:induction false} TakenTables(w: World, now: int) returns (db: Database)
    requires w.settings.primitives.Lawful() && FlightOk(w) && TablesOk(w.settings.primitives, w.db, w.accepted)
    ensures Step(w, TakeBatch(now)) == w.(db := db)
    ensures TablesOk(w.settings.primitives, db, w.accepted) && db.prunedSequence == w.db.prunedSequence
  {
    db := NextBatch(w.settings, w.db, now).db;
    StepTakesBatch(w, now);
    TakeBatchKeepsTables(w.settings, w.db, w.accepted, now);
    TakeBatchKeepsPruned(w.settings, w.db, now);
  }

  lemma {:induction false} TakeBatchKeepsInvariant(w: World, now: int)
    requires w.settings.primitives.Lawful() && Invariant(w)
    ensures Invariant(Step(w, TakeBatch(now)))
  {
    var db := TakenTables(w, now);
    WithTables(w, db);
  }

  lemma {:induction false} StepRetries(w: World, batchId: Text, now: int, delay: nat, failure: Text)
    ensures Step(w, Retry(batchId, now, delay, failure)) == w.(db := RecordRetry(w.db, batchId, now, delay, failure).db)
  {}

  lemma {:induction false} RetriedTables(w: World, batchId: Text, now: int, delay: nat, failure: Text)
      returns (db: Database)
    requires TablesOk(w.settings.primitives, w.db, w.accepted)
    ensures Step(w, Retry(batchId, now, delay, failure)) == w.(db := db)
    ensures TablesOk(w.settings.primitives, db, w.accepted) && db.prunedSequence == w.db.prunedSequence
  {
    db := RecordRetry(w.db, batchId, now, delay, failure).db;
    StepRetries(w, batchId, now, delay, failure);
    RetryShape(w.db, batchId, now, delay, failure);
    SameBatchesKeepTables(w.settings.primitives, w.db, db, w.accepted);
  }

  lemma {:induction false} RetryKeepsInvariant(w: World, batchId: Text, now: int, delay: nat, failure: Text)
    requires w.settings.primitives.Lawful() && Invariant(w)
    ensures Invariant(Step(w, Retry(batchId, now, delay, failure)))
  {
    var db := RetriedTables(w, batchId, now, delay, failure);
    WithTables(w, db);
  }

  lemma {:induction false} TakeBatchKeepsPruned(s: Settings, db: Database, now: int)
    ensures NextBatch(s, db, now).db.prunedSequence == db.prunedSequence
  {}

  lemma {:induction false} OtherStepShape(w: World, op: Op)
    requires FlightOk(w) && (op.BeginAppend? || op.AbandonAppend? || op.AddKey? || op.RotateSigningKey? || op.Restart?)
    ensures var after := Step(w, op);
            after.db == w.db && after.accepted == w.accepted && after.delivered == w.delivered && FlightOk(after)
  {}

  lemma {:induction false} OtherStepKeepsInvariant(w: World, op: Op)
    requires Invariant(w) && (op.BeginAppend? || op.AbandonAppend? || op.AddKey? || op.RotateSigningKey? || op.Restart?)
    ensures Invariant(Step(w, op))
  {
    OtherStepShape(w, op);
    StepKeepsPrimitives(w, op);
  }

  lemma {:induction false} StepKeepsPrimitives(w: World, op: Op)
    ensures Step(w, op).settings.primitives == w.settings.primitives
  {}

  lemma {:induction false} StepKeepsInvariant(w: World, op: Op)
    requires w.settings.primitives.Lawful() && Invariant(w)
    ensures Invariant(Step(w, op)) && Step(w, op).settings.primitives == w.settings.primitives
  {
    StepKeepsPrimitives(w, op);
    if op.CommitAppend? {
      CommitKeepsInvariant(w, op.thread, op.nonce);
    } else if op.Confirm? {
      ConfirmKeepsInvariant(w, op.batchId, op.chainHead, op.receiptId);
    } else if op.TakeBatch? {
      TakeBatchKeepsInvariant(w, op.now);
    } else if op.Retry? {
      RetryKeepsInvariant(w, op.batchId, op.now, op.delay, op.failure);
    } else {
      OtherStepKeepsInvariant(w, op);
    }
  }

  lemma {:induction false} RunKeepsInvariant(w: World, ops: seq<Op>)
    requires w.settings.primitives.Lawful() && Invariant(w)
    ensures Invariant(Run(w, ops)) && Run(w, ops).settings.primitives == w.settings.primitives
    decreases |ops|
  {
    if ops != [] {
      StepKeepsInvariant(w, ops[0]);
      RunKeepsInvariant(Step(w, ops[0]), ops[1..]);
    }
  }

  // The schema

  lemma {:induction false} MembersFound(p: Primitives, db: Database, accepted: seq<Accepted>)
    requires BatchesOk(p, db, accepted) && MembersOk(db)
    ensures forall b | b in db.batchEvents :: FindBatch(db.batches, b.batchId).Some?
  {
    if HasPending(db.batches) {
      FindNewest(p, db, accepted);
      var rows, id := db.events[..Covered(db.batches) - db.prunedSequence], Newest(db.batches).batchId;
      forall b | b in Memberships(rows, id) ensures b.batchId == id {
        var k :| 0 <= k < |rows| && Memberships(rows, id)[k] == b;
      }
    }
  }

  /**
   Every state a run can reach keeps the primary keys and references of the schema, so its tables can be opened again.
   */
  lemma {:induction false} RunHoldsSchema(w: World, ops: seq<Op>)
    requires w.settings.primitives.Lawful() && Invariant(w)
    ensures Spool.SchemaHolds(Run(w, ops).db)
  {
    RunKeepsInvariant(w, ops);
    TablesHoldSchema(w.settings.primitives, Run(w, ops).db, Run(w, ops).accepted);
  }

  lemma {:induction false} TablesHoldSchema(p: Primitives, db: Database, accepted: seq<Accepted>)
    requires TablesOk(p, db, accepted)
    ensures Spool.SchemaHolds(db)
  {
    EventIdsDistinct(db, accepted);
    MembersFound(p, db, accepted);
  }

  lemma {:induction false} RowsBelowNext(db: Database, accepted: seq<Accepted>, r: EventRow)
    requires PlacesOk(accepted) && EventsOk(db, accepted) && r in db.events
    ensures exists i :: 0 <= i < |accepted| && r.eventId == accepted[i].row.eventId && r.localSequence == i + 1
  {
    var i :| 0 <= i < |db.events| && db.events[i] == r;
    assert r == Stamped(db.batches, accepted[db.prunedSequence + i].row);
  }

  /** A new event never meets a key that is taken: no append fails on a constraint. */
  lemma {:induction false} NoKeyIsTaken(db: Database, accepted: seq<Accepted>, row: EventRow)
    requires PlacesOk(accepted) && EventsOk(db, accepted) && ReceiptsOk(db, accepted)
    requires row.eventId !in db.receipts && row.localSequence == |accepted| + 1
    ensures !Conflicts(db, row)
  {
    forall r | r in db.events ensures r.eventId != row.eventId && r.localSequence != row.localSequence {
      RowsBelowNext(db, accepted, r);
    }
  }
}

/** What a passed integrity check says, of any tables at all: every stored row, the chain through them, and its end. */
module SpoolChecks {
  import opened Common
  import opened Chain
  import opened Sorting
  import opened SpoolState
  import opened SpoolTamper

  // One row

  /** The envelope of a row opens under the loaded key of its version, bound to the row's own id, place and hash. */
  ghost predicate Opens(s: Settings, row: EventRow, stored: StoredPayload) {
    var p := s.primitives;
    var aad := Ascii("event-envelope-v1") + [0] + BigEndian(row.localSequence, 8) + row.eventHash.bytes
        + row.eventId.bytes;
    && row.keyVersion in s.keys
    && exists envelope {:trigger Encloses(p, row, aad, envelope)} ::
         && Encloses(p, row, aad, envelope)
         && exists plaintext {:trigger p.parsePayload(plaintext)} ::
              && p.decrypt(s.keys[row.keyVersion], envelope.nonce, aad, envelope.ciphertext) == Some(plaintext)
              && p.parsePayload(plaintext) == Some(stored)
  }

  /** The stored bytes are this envelope, of the right versions, nonce length and bound data. */
  ghost predicate Encloses(p: Primitives, row: EventRow, aad: seq<byte>, envelope: AeadEnvelope) {
    && p.decodeEnvelope(row.envelope) == Some(envelope)
    && envelope.envelopeVersion == 1 && envelope.keyVersion == row.keyVersion && |envelope.nonce| == 12
    && envelope.aadDigest.bytes == Ascii("sha256:") + Hex(p.sha256(aad).bytes)
  }

  lemma {:induction false} OpensExactly(s: Settings, row: EventRow, stored: StoredPayload)
    ensures Opens(s, row, stored) <==> DecryptRow(s, row) == Ok(stored)
  {
    var p := s.primitives;
    var aad := EventAad(row.eventId, row.localSequence, row.eventHash);
    if DecryptRow(s, row) == Ok(stored) {
      var envelope := p.decodeEnvelope(row.envelope).value;
      assert Encloses(p, row, aad, envelope);
      var plaintext := Open(p, envelope, s.keys[row.keyVersion], aad).value;
      assert p.parsePayload(plaintext) == Some(stored);
    }
    if Opens(s, row, stored) {
      var envelope :| Encloses(p, row, aad, envelope);
    }
  }

  /**
   A row that is the next of a chain: in its place, opened to a payload with its id and digest, and hashed over all of
   that.
   */
  ghost predicate Intact(s: Settings, row: EventRow, stored: StoredPayload, sequence: nat, previous: Hash) {
    var p := s.primitives;
    && row.localSequence == sequence && row.previousHash == previous
    && Opens(s, row, stored)
    && stored.eventId == row.eventId
    && row.payloadDigest == p.sha256(p.printPayload(stored))
    && row.eventHash ==
       p.sha256(Preimage(ChainRecord(sequence, previous, row.eventId, stored.sourceSequence, row.payloadDigest)))
  }

  ghost predicate IsIntact(s: Settings, row: EventRow, sequence: nat, previous: Hash) {
    exists stored :: Intact(s, row, stored, sequence, previous)
  }

  lemma {:induction false} IntactExactly(s: Settings, row: EventRow, sequence: nat, previous: Hash)
    ensures WalkRow(s, row, sequence, previous) == Ok(()) <==>
            sequence + 1 <= U64_MAX && IsIntact(s, row, sequence, previous)
  {
    if WalkRow(s, row, sequence, previous) == Ok(()) {
      var stored := DecryptRow(s, row).value;
      OpensExactly(s, row, stored);
      assert Intact(s, row, stored, sequence, previous);
    }
    if stored :| Intact(s, row, stored, sequence, previous) {
      OpensExactly(s, row, stored);
    }
  }

  // A chain of rows

  /** The hash row `k` has to name: that of the row before it. */
  function ParentAt(rows: seq<EventRow>, k: nat, previous: Hash): Hash
    requires k <= |rows|
  {
    if k == 0 then previous else rows[k - 1].eventHash
  }

  type RowLaw = (EventRow, nat, Hash) -> bool

  /** Each row obeys the law in the place after the one before it, with its hash as the parent. */
  ghost predicate InChain(law: RowLaw, rows: seq<EventRow>, sequence: nat, previous: Hash) {
    forall k: nat {:trigger ParentAt(rows, k, previous)} | k < |rows| ::
      law(rows[k], sequence + k, ParentAt(rows, k, previous))
  }

  /** The law that a row is intact. */
  ghost function IntactLaw(s: Settings): (law: RowLaw)
    ensures IsLaw(law, s)
  {
    (row: EventRow, sequence: nat, previous: Hash) => IsIntact(s, row, sequence, previous)
  }

  ghost predicate IsLaw(law: RowLaw, s: Settings) {
    forall row, sequence, previous {:trigger IsIntact(s, row, sequence, previous)} ::
      law(row, sequence, previous) == IsIntact(s, row, sequence, previous)
  }

  lemma {:induction false} ParentCons(rows: seq<EventRow>, k: nat, previous: Hash)
    requires rows != [] && k < |rows|
    ensures ParentAt(rows, k + 1, previous) == ParentAt(rows[1..], k, rows[0].eventHash)
  {}

  lemma {:induction false} InChainCons(law: RowLaw, rows: seq<EventRow>, sequence: nat, previous: Hash)
    requires rows != []
    ensures InChain(law, rows, sequence, previous) <==>
            law(rows[0], sequence, previous) && InChain(law, rows[1..], sequence + 1, rows[0].eventHash)
  {
    var rest := rows[1..];
    assert ParentAt(rows, 0, previous) == previous;
    forall k: nat | k < |rest|
      ensures rest[k] == rows[k + 1] && ParentAt(rest, k, rows[0].eventHash) == ParentAt(rows, k + 1, previous)
    {
      ParentCons(rows, k, previous);
    }
    if InChain(law, rest, sequence + 1, rows[0].eventHash) && law(rows[0], sequence, previous) {
      forall k: nat | k < |rows| ensures law(rows[k], sequence + k, ParentAt(rows, k, previous)) {
        assert k > 0 ==> ParentAt(rest, k - 1, rows[0].eventHash) == ParentAt(rows, k, previous);
      }
    }
    if InChain(law, rows, sequence, previous) {
      forall k: nat | k < |rest| ensures law(rest[k], sequence + 1 + k, ParentAt(rest, k, rows[0].eventHash)) {
        assert ParentAt(rows, k + 1, previous) == ParentAt(rest, k, rows[0].eventHash);
        assert law(rows[k + 1], sequence + (k + 1), ParentAt(rows, k + 1, previous));
      }
    }
  }

  lemma {:induction false} WalkFirst(s: Settings, law: RowLaw, rows: seq<EventRow>, sequence: nat, previous: Hash)
    requires IsLaw(law, s) && rows != []
    ensures if law(rows[0], sequence, previous) && sequence + 1 <= U64_MAX
            then ChainWalk(s, rows, sequence, previous) == ChainWalk(s, rows[1..], sequence + 1, rows[0].eventHash)
            else ChainWalk(s, rows, sequence, previous).Err?
  {
    IntactExactly(s, rows[0], sequence, previous);
  }

  /** The walk succeeds exactly on a chain of intact rows whose places fit, and ends at the hash of the last. */
  lemma {:induction false} WalkExactly(s: Settings, law: RowLaw, rows: seq<EventRow>, sequence: nat, previous: Hash,
      head: Hash)
    requires IsLaw(law, s) && sequence <= U64_MAX
    ensures ChainWalk(s, rows, sequence, previous) == Ok(head) <==>
            InChain(law, rows, sequence, previous) && sequence + |rows| <= U64_MAX
                && head == ParentAt(rows, |rows|, previous)
    decreases |rows|
  {
    if rows != [] {
      WalkFirst(s, law, rows, sequence, previous);
      InChainCons(law, rows, sequence, previous);
      ParentCons(rows, |rows| - 1, previous);
      if sequence + 1 <= U64_MAX {
        WalkExactly(s, law, rows[1..], sequence + 1, rows[0].eventHash, head);
      }
    }
  }

  // The whole check

  /** The stored rows, in some order, are a chain of intact rows from the pruned state to the stored head. */
  ghost predicate IntactTable(s: Settings, db: Database, rows: seq<EventRow>) {
    && multiset(rows) == multiset(db.events)
    && InChain(IntactLaw(s), rows, db.prunedSequence + 1, db.prunedHead)
    && db.chainHead == ParentAt(rows, |rows|, db.prunedHead)
    && db.prunedSequence + 1 + |rows| <= U64_MAX
  }

  lemma {:induction false} BySequencePreorder()
    ensures TotalPreorder(BySequence)
  {}

  lemma {:induction false} ChainIsSelected(s: Settings, db: Database, rows: seq<EventRow>)
    requires IntactTable(s, db, rows)
    ensures SelectAll(db) == rows
  {
    BySequencePreorder();
    forall k: nat | k < |rows| ensures rows[k].localSequence == db.prunedSequence + 1 + k {
      assert IsIntact(s, rows[k], db.prunedSequence + 1 + k, ParentAt(rows, k, db.prunedHead));
    }
    SortOfDistinct(db.events, rows, BySequence);
  }

  /** The rows in order of sequence walk from the pruned state to the stored head. */
  ghost predicate Walks(s: Settings, db: Database) {
    ChainWalk(s, SelectAll(db), db.prunedSequence + 1, db.prunedHead) == Ok(db.chainHead)
  }

  lemma {:induction false} WalksIntact(s: Settings, db: Database)
    requires db.prunedSequence + 1 <= U64_MAX && Walks(s, db)
    ensures IntactTable(s, db, SelectAll(db))
  {
    SortPermutes(db.events, BySequence);
    WalkIntact(s, db, SelectAll(db));
  }

  lemma {:induction false} WalkIntact(s: Settings, db: Database, rows: seq<EventRow>)
    requires db.prunedSequence + 1 <= U64_MAX && multiset(rows) == multiset(db.events)
    requires ChainWalk(s, rows, db.prunedSequence + 1, db.prunedHead) == Ok(db.chainHead)
    ensures IntactTable(s, db, rows)
  {
    WalkExactly(s, IntactLaw(s), rows, db.prunedSequence + 1, db.prunedHead, db.chainHead);
  }

  lemma {:induction false} IntactWalks(s: Settings, db: Database, rows: seq<EventRow>)
    requires IntactTable(s, db, rows)
    ensures Walks(s, db) && db.prunedSequence + 1 <= U64_MAX
  {
    ChainIsSelected(s, db, rows);
    WalkExactly(s, IntactLaw(s), rows, db.prunedSequence + 1, db.prunedHead, db.chainHead);
  }

  lemma {:induction false} CheckWalks(s: Settings, db: Database)
    ensures VerifyIntegrity(s, db) == Ok(()) <==>
            db.prunedSequence + 1 <= U64_MAX && Walks(s, db) && SignaturesVerify(s.primitives, db.batches)
  {}

  /** Every batch row's signature is valid for its chain head under its public key. */
  ghost predicate AllSigned(p: Primitives, batches: seq<BatchRow>) {
    forall j | 0 <= j < |batches| :: p.verify(batches[j].publicKey, batches[j].chainHead, batches[j].signature)
  }

  lemma {:induction false} SignedExactly(p: Primitives, batches: seq<BatchRow>)
    ensures SignaturesVerify(p, batches) <==> AllSigned(p, batches)
  {
    if SignaturesVerify(p, batches) {
      forall j | 0 <= j < |batches| ensures p.verify(batches[j].publicKey, batches[j].chainHead, batches[j].signature) {
        assert batches[j] in batches;
      }
    }
  }

  /**
   The check passes exactly on tables whose rows are, in some order, a chain of intact rows that starts at the pruned
   state and ends at the stored head, and whose batch signatures all verify. Nothing is assumed of the tables.
   */
  lemma {:induction false} CheckExactly(s: Settings, db: Database)
    ensures VerifyIntegrity(s, db) == Ok(()) <==>
            (exists rows :: IntactTable(s, db, rows)) && AllSigned(s.primitives, db.batches)
  {
    CheckWalks(s, db);
    SignedExactly(s.primitives, db.batches);
    if db.prunedSequence + 1 <= U64_MAX && Walks(s, db) {
      WalksIntact(s, db);
    }
    if rows :| IntactTable(s, db, rows) {
      IntactWalks(s, db, rows);
    }
  }

  // What a failed check says

  /** The error of a row that is not the next of the chain: the first thing wrong with it. */
  ghost predicate Breaks(s: Settings, row: EventRow, sequence: nat, previous: Hash, error: SpoolError) {
    var p := s.primitives;
    var aad := Ascii("event-envelope-v1") + [0] + BigEndian(row.localSequence, 8) + row.eventHash.bytes
               + row.eventId.bytes;
    if row.localSequence != sequence || row.previousHash != previous then error == Tampered
    else if row.keyVersion !in s.keys then error == MissingKey
    else match p.decodeEnvelope(row.envelope)
      case None => error == Crypto
      case Some(envelope) =>
        if !Encloses(p, row, aad, envelope) then error == Tampered
        else match p.decrypt(s.keys[row.keyVersion], envelope.nonce, aad, envelope.ciphertext)
          case None => error == Tampered
          case Some(plaintext) => if p.parsePayload(plaintext).None? then error == Corrupt else error == Tampered
  }

  lemma {:induction false} BreaksExactly(s: Settings, row: EventRow, sequence: nat, previous: Hash)
    requires sequence + 1 <= U64_MAX && !IsIntact(s, row, sequence, previous)
    ensures WalkRow(s, row, sequence, previous).Err?
    ensures Breaks(s, row, sequence, previous, WalkRow(s, row, sequence, previous).error)
  {
    IntactExactly(s, row, sequence, previous);
  }

  lemma {:induction false} LawAt(law: RowLaw, rows: seq<EventRow>, n: nat, k: nat, sequence: nat, previous: Hash)
    requires k < n <= |rows| && InChain(law, rows[..n], sequence, previous)
    ensures law(rows[k], sequence + k, ParentAt(rows, k, previous))
  {
    assert ParentAt(rows[..n], k, previous) == ParentAt(rows, k, previous);
  }

  lemma {:induction false} WalkNext(s: Settings, law: RowLaw, rows: seq<EventRow>, k: nat, sequence: nat,
      previous: Hash)
    requires IsLaw(law, s) && k < |rows| && sequence + k + 1 <= U64_MAX
    requires law(rows[k], sequence + k, ParentAt(rows, k, previous))
    ensures ChainWalk(s, rows[k..], sequence + k, ParentAt(rows, k, previous)) ==
            ChainWalk(s, rows[k + 1..], sequence + (k + 1), ParentAt(rows, k + 1, previous))
  {
    WalkFirst(s, law, rows[k..], sequence + k, ParentAt(rows, k, previous));
    assert rows[k..][0] == rows[k] && rows[k..][1..] == rows[k + 1..];
  }

  lemma {:induction false} Unchanged<T>(f: nat -> T, n: nat)
    requires forall k: nat | k < n :: f(k) == f(k + 1)
    ensures f(0) == f(n)
  {
    if n > 0 {
      Unchanged(f, n - 1);
      assert f(n - 1) == f(n - 1 + 1);
    }
  }

  /** The walk over intact rows goes on with what is behind them. */
  lemma {:induction false} WalkOn(s: Settings, law: RowLaw, rows: seq<EventRow>, n: nat, sequence: nat, previous: Hash)
    requires IsLaw(law, s) && n <= |rows| && sequence + n <= U64_MAX && InChain(law, rows[..n], sequence, previous)
    ensures ChainWalk(s, rows, sequence, previous) == ChainWalk(s, rows[n..], sequence + n, ParentAt(rows, n, previous))
  {
    var walk := (k: nat) =>
      if k <= |rows| then ChainWalk(s, rows[k..], sequence + k, ParentAt(rows, k, previous)) else Err(Corrupt);
    forall k: nat | k < n ensures walk(k) == walk(k + 1) {
      LawAt(law, rows, n, k, sequence, previous);
      WalkNext(s, law, rows, k, sequence, previous);
    }
    Unchanged(walk, n);
    assert rows[0..] == rows;
  }

  lemma {:induction false} WalkBreaks(s: Settings, law: RowLaw, rows: seq<EventRow>, n: nat, sequence: nat,
      previous: Hash)
    requires IsLaw(law, s) && n < |rows| && sequence + n + 1 <= U64_MAX && InChain(law, rows[..n], sequence, previous)
    requires !IsIntact(s, rows[n], sequence + n, ParentAt(rows, n, previous))
    ensures ChainWalk(s, rows, sequence, previous).Err?
    ensures Breaks(s, rows[n], sequence + n, ParentAt(rows, n, previous), ChainWalk(s, rows, sequence, previous).error)
  {
    WalkOn(s, law, rows, n, sequence, previous);
    BreaksExactly(s, rows[n], sequence + n, ParentAt(rows, n, previous));
    assert rows[n..][0] == rows[n];
  }

  lemma {:induction false} CheckStops(s: Settings, db: Database, error: SpoolError)
    requires db.prunedSequence + 1 <= U64_MAX
    requires ChainWalk(s, SelectAll(db), db.prunedSequence + 1, db.prunedHead) == Err(error)
    ensures VerifyIntegrity(s, db) == Err(error)
  {}

  /** The check reports the first row, in order of sequence, that breaks the chain, for what is wrong with it. */
  lemma {:induction false} FirstBreakReported(s: Settings, db: Database, law: RowLaw, rows: seq<EventRow>, n: nat)
    requires IsLaw(law, s) && rows == SelectAll(db) && n < |rows| && db.prunedSequence + n + 2 <= U64_MAX
    requires InChain(law, rows[..n], db.prunedSequence + 1, db.prunedHead)
    requires !IsIntact(s, rows[n], db.prunedSequence + 1 + n, ParentAt(rows, n, db.prunedHead))
    ensures VerifyIntegrity(s, db).Err?
    ensures Breaks(s, rows[n], db.prunedSequence + 1 + n, ParentAt(rows, n, db.prunedHead),
                   VerifyIntegrity(s, db).error)
  {
    WalkBreaks(s, law, rows, n, db.prunedSequence + 1, db.prunedHead);
    CheckStops(s, db, ChainWalk(s, rows, db.prunedSequence + 1, db.prunedHead).error);
  }

  lemma {:induction false} CheckRefuses(s: Settings, db: Database, head: Hash)
    requires db.prunedSequence + 1 <= U64_MAX
    requires ChainWalk(s, SelectAll(db), db.prunedSequence + 1, db.prunedHead) == Ok(head)
    requires db.chainHead != head || !AllSigned(s.primitives, db.batches)
    ensures VerifyIntegrity(s, db) == Err(Tampered)
  {
    SignedExactly(s.primitives, db.batches);
  }

  /** If no row breaks the chain, a head that is not its end, or a signature that is not valid, is tampering. */
  lemma {:induction false} WrongEndReported(s: Settings, db: Database, law: RowLaw, rows: seq<EventRow>)
    requires IsLaw(law, s) && rows == SelectAll(db) && InChain(law, rows, db.prunedSequence + 1, db.prunedHead)
    requires db.prunedSequence + 1 + |rows| <= U64_MAX
    requires db.chainHead != ParentAt(rows, |rows|, db.prunedHead) || !AllSigned(s.primitives, db.batches)
    ensures VerifyIntegrity(s, db) == Err(Tampered)
  {
    WalkExactly(s, law, rows, db.prunedSequence + 1, db.prunedHead, ParentAt(rows, |rows|, db.prunedHead));
    CheckRefuses(s, db, ParentAt(rows, |rows|, db.prunedHead));
  }

  // Two databases

  /** The records of all stored rows, in order of sequence. */
  function RecordsOf(s: Settings, db: Database): (records: seq<ChainRecord>)
    ensures |records| == |db.events|
  {
    RowRecords(s, SelectAll(db))
  }

  /** Records without a collision among them, none of which leads back to the start if the head is the start. */
  ghost predicate NoClash(sha256: seq<byte> -> Hash, a: seq<ChainRecord>, b: seq<ChainRecord>, start: Hash,
      head: Hash) {
    && AllEncodable(a) && AllEncodable(b) && NoCollision(sha256, a, b)
    && (head == start ==> NoReturn(sha256, a, start) && NoReturn(sha256, b, start))
  }

  ghost predicate SameEnds(db: Database, other: Database) {
    db.prunedSequence == other.prunedSequence && db.prunedHead == other.prunedHead && db.chainHead == other.chainHead
  }

  lemma {:induction false} WalksDetermineEvents(s: Settings, db: Database, t: Settings, other: Database)
    requires s.primitives.sha256 == t.primitives.sha256 && SameEnds(db, other) && Walks(s, db) && Walks(t, other)
    requires NoClash(s.primitives.sha256, RecordsOf(s, db), RecordsOf(t, other), db.prunedHead, db.chainHead)
    ensures RecordsOf(s, db) == RecordsOf(t, other)
  {
    HeadDeterminesRows(s, SelectAll(db), t, SelectAll(other), db.prunedSequence + 1, db.prunedHead, db.chainHead);
  }

  /**
   Two databases that pass the check and agree on their pruned state and head hold the same events, as many and
   with equal sequences, parents, ids, source sequences and payload digests.
   */
  lemma {:induction false} CheckDeterminesEvents(s: Settings, db: Database, t: Settings, other: Database)
    requires s.primitives.sha256 == t.primitives.sha256 && SameEnds(db, other)
    requires VerifyIntegrity(s, db) == Ok(()) && VerifyIntegrity(t, other) == Ok(())
    requires NoClash(s.primitives.sha256, RecordsOf(s, db), RecordsOf(t, other), db.prunedHead, db.chainHead)
    ensures |db.events| == |other.events| && RecordsOf(s, db) == RecordsOf(t, other)
  {
    CheckWalks(s, db);
    CheckWalks(t, other);
    WalksDetermineEvents(s, db, t, other);
  }
}

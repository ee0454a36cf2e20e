/** What the chain walk proves about stored rows: agreeing heads mean agreeing histories. */
module SpoolTamper {
  import opened Common
  import opened Chain
  import opened SpoolState

  // Chains of records

  function RecordHash(sha256: seq<byte> -> Hash, r: ChainRecord): Hash {
    sha256(Preimage(r))
  }

  /** Consecutive records from `sequence` on, each naming the digest of the one before as its parent. */
  ghost predicate Linked(sha256: seq<byte> -> Hash, records: seq<ChainRecord>, sequence: nat, previous: Hash) {
    forall k | 0 <= k < |records| ::
      && records[k].sequence == sequence + k
      && records[k].parent == if k == 0 then previous else RecordHash(sha256, records[k - 1])
  }

  function Head(sha256: seq<byte> -> Hash, records: seq<ChainRecord>, previous: Hash): Hash {
    if records == [] then previous else RecordHash(sha256, records[|records| - 1])
  }

  /** Every field fits the machine's integers. */
  ghost predicate AllEncodable(records: seq<ChainRecord>) {
    forall i | 0 <= i < |records| :: Encodable(records[i])
  }

  /** SHA-256 gives no two different preimages of these records one digest. */
  ghost predicate NoCollision(sha256: seq<byte> -> Hash, a: seq<ChainRecord>, b: seq<ChainRecord>) {
    forall i, j | 0 <= i < |a| && 0 <= j < |b| :: RecordHash(sha256, a[i]) == RecordHash(sha256, b[j]) ==>
        Preimage(a[i]) == Preimage(b[j])
  }

  /** No record leads back to the head the chain starts from. */
  ghost predicate NoReturn(sha256: seq<byte> -> Hash, records: seq<ChainRecord>, head: Hash) {
    forall i | 0 <= i < |records| :: RecordHash(sha256, records[i]) != head
  }

  /** A start that is the hash of the event before the chain is never reached again, unless two records collide. */
  lemma {:induction false} StartNotRevisited(sha256: seq<byte> -> Hash, before: ChainRecord, records: seq<ChainRecord>,
      sequence: nat)
    requires Encodable(before) && AllEncodable(records) && NoCollision(sha256, [before], records)
    requires before.sequence + 1 == sequence && Linked(sha256, records, sequence, RecordHash(sha256, before))
    ensures NoReturn(sha256, records, RecordHash(sha256, before))
  {
    forall i | 0 <= i < |records|
      ensures RecordHash(sha256, records[i]) != RecordHash(sha256, before)
    {
      if RecordHash(sha256, [before][0]) == RecordHash(sha256, records[i]) {
        PreimageInjective(before, records[i]);
      }
    }
  }

  lemma {:induction false} SameDigestSameRecord(sha256: seq<byte> -> Hash, a: seq<ChainRecord>, b: seq<ChainRecord>,
      i: nat, j: nat)
    requires NoCollision(sha256, a, b) && AllEncodable(a) && AllEncodable(b) && i < |a| && j < |b|
    requires RecordHash(sha256, a[i]) == RecordHash(sha256, b[j])
    ensures a[i] == b[j]
  {
    PreimageInjective(a[i], b[j]);
  }

  /** Walking back from a common head: the records `k` places before the end are equal. */
  lemma {:induction false} AgreeFromEnd(sha256: seq<byte> -> Hash, a: seq<ChainRecord>, b: seq<ChainRecord>,
      sequence: nat, previous: Hash, k: nat)
    requires NoCollision(sha256, a, b) && AllEncodable(a) && AllEncodable(b)
    requires Linked(sha256, a, sequence, previous) && Linked(sha256, b, sequence, previous)
    requires Head(sha256, a, previous) == Head(sha256, b, previous)
    requires k < |a| && k < |b|
    ensures a[|a| - 1 - k] == b[|b| - 1 - k]
    decreases k
  {
    var i, j := |a| - 1 - k, |b| - 1 - k;
    if k > 0 {
      AgreeFromEnd(sha256, a, b, sequence, previous, k - 1);
      assert a[i + 1].parent == RecordHash(sha256, a[i]) && b[j + 1].parent == RecordHash(sha256, b[j]);
    }
    SameDigestSameRecord(sha256, a, b, i, j);
  }

  /** Two chains from one start to one head are one chain; a head back at the start has to be out of reach. */
  lemma {:induction false} HeadDeterminesRecords(sha256: seq<byte> -> Hash, a: seq<ChainRecord>, b: seq<ChainRecord>,
      sequence: nat, previous: Hash)
    requires NoCollision(sha256, a, b) && AllEncodable(a) && AllEncodable(b)
    requires Linked(sha256, a, sequence, previous) && Linked(sha256, b, sequence, previous)
    requires Head(sha256, a, previous) == Head(sha256, b, previous)
    requires Head(sha256, a, previous) == previous ==> NoReturn(sha256, a, previous) && NoReturn(sha256, b, previous)
    ensures a == b
  {
    if a != [] && b != [] {
      AgreeFromEnd(sha256, a, b, sequence, previous, 0);
      assert a[|a| - 1].sequence == sequence + (|a| - 1) && b[|b| - 1].sequence == sequence + (|b| - 1);
      forall i | 0 <= i < |a|
        ensures a[i] == b[i]
      {
        AgreeFromEnd(sha256, a, b, sequence, previous, |a| - 1 - i);
      }
    }
  }

  // The records behind stored rows

  /** The record a row's hash is checked against; its source sequence is inside the sealed payload. */
  function RowRecord(s: Settings, row: EventRow): ChainRecord {
    var source := match DecryptRow(s, row) case Ok(stored) => stored.sourceSequence case Err(_) => None;
    ChainRecord(row.localSequence, row.previousHash, row.eventId, source, row.payloadDigest)
  }

  function RowRecords(s: Settings, rows: seq<EventRow>): (records: seq<ChainRecord>)
    ensures |records| == |rows|
  {
    if rows == [] then [] else [RowRecord(s, rows[0])] + RowRecords(s, rows[1..])
  }

  lemma {:induction false} SoundRowHash(s: Settings, row: EventRow)
    requires RowIsSound(s, row).Ok?
    ensures row.eventHash == RecordHash(s.primitives.sha256, RowRecord(s, row))
  {}

  lemma {:induction false} WalkStart(s: Settings, rows: seq<EventRow>, sequence: nat, previous: Hash, head: Hash)
    requires rows != [] && ChainWalk(s, rows, sequence, previous) == Ok(head)
    ensures rows[0].eventHash == RecordHash(s.primitives.sha256, RowRecord(s, rows[0]))
    ensures RowRecord(s, rows[0]).sequence == sequence && RowRecord(s, rows[0]).parent == previous
    ensures ChainWalk(s, rows[1..], sequence + 1, rows[0].eventHash) == Ok(head)
  {
    SoundRowHash(s, rows[0]);
  }

  lemma {:induction false} LinkFirst(sha256: seq<byte> -> Hash, first: ChainRecord, rest: seq<ChainRecord>)
    requires Linked(sha256, rest, first.sequence + 1, RecordHash(sha256, first))
    ensures Linked(sha256, [first] + rest, first.sequence, first.parent)
    ensures Head(sha256, [first] + rest, first.parent) == Head(sha256, rest, RecordHash(sha256, first))
  {
    var records := [first] + rest;
    forall k | 0 <= k < |records|
      ensures records[k].sequence == first.sequence + k
      ensures records[k].parent == if k == 0 then first.parent else RecordHash(sha256, records[k - 1])
    {
      if k > 0 {
        assert records[k] == rest[k - 1];
        assert k > 1 ==> records[k - 1] == rest[k - 2];
      }
    }
  }

  /** A walk that succeeds has walked a linked chain to its head. */
  lemma {:induction false} WalkIsLinked(s: Settings, rows: seq<EventRow>, sequence: nat, previous: Hash, head: Hash)
    requires ChainWalk(s, rows, sequence, previous) == Ok(head)
    ensures Linked(s.primitives.sha256, RowRecords(s, rows), sequence, previous)
    ensures Head(s.primitives.sha256, RowRecords(s, rows), previous) == head
    decreases |rows|
  {
    if rows != [] {
      WalkStart(s, rows, sequence, previous, head);
      WalkIsLinked(s, rows[1..], sequence + 1, rows[0].eventHash, head);
      LinkFirst(s.primitives.sha256, RowRecord(s, rows[0]), RowRecords(s, rows[1..]));
    }
  }

  /**
   Two tables that pass the walk from one pruned state to one head hold the same events: equally
   many, with equal ids, sequences, source sequences, parents and payload digests.
   */
  lemma {:induction false} HeadDeterminesRows(s: Settings, a: seq<EventRow>, t: Settings, b: seq<EventRow>,
      sequence: nat, previous: Hash, head: Hash)
    requires s.primitives.sha256 == t.primitives.sha256
    requires NoCollision(s.primitives.sha256, RowRecords(s, a), RowRecords(t, b))
    requires AllEncodable(RowRecords(s, a)) && AllEncodable(RowRecords(t, b))
    requires ChainWalk(s, a, sequence, previous) == Ok(head) && ChainWalk(t, b, sequence, previous) == Ok(head)
    requires head == previous ==>
             NoReturn(s.primitives.sha256, RowRecords(s, a), previous)
             && NoReturn(s.primitives.sha256, RowRecords(t, b), previous)
    ensures |a| == |b| && RowRecords(s, a) == RowRecords(t, b)
  {
    WalkIsLinked(s, a, sequence, previous, head);
    WalkIsLinked(t, b, sequence, previous, head);
    HeadDeterminesRecords(s.primitives.sha256, RowRecords(s, a), RowRecords(t, b), sequence, previous);
  }

  /** After a pruned event, whose record is `before`, collision-freedom is all it takes. */
  lemma {:induction false} HeadDeterminesPrunedRows(
    s: Settings, a: seq<EventRow>, t: Settings, b: seq<EventRow>, before: ChainRecord, sequence: nat, head: Hash)
    requires s.primitives.sha256 == t.primitives.sha256
    requires NoCollision(s.primitives.sha256, RowRecords(s, a), RowRecords(t, b))
    requires NoCollision(s.primitives.sha256, [before], RowRecords(s, a))
             && NoCollision(s.primitives.sha256, [before], RowRecords(t, b))
    requires Encodable(before) && AllEncodable(RowRecords(s, a)) && AllEncodable(RowRecords(t, b))
    requires before.sequence + 1 == sequence
    requires ChainWalk(s, a, sequence, RecordHash(s.primitives.sha256, before)) == Ok(head)
    requires ChainWalk(t, b, sequence, RecordHash(s.primitives.sha256, before)) == Ok(head)
    ensures |a| == |b| && RowRecords(s, a) == RowRecords(t, b)
  {
    var previous := RecordHash(s.primitives.sha256, before);
    WalkIsLinked(s, a, sequence, previous, head);
    WalkIsLinked(t, b, sequence, previous, head);
    StartNotRevisited(s.primitives.sha256, before, RowRecords(s, a), sequence);
    StartNotRevisited(s.primitives.sha256, before, RowRecords(t, b), sequence);
    HeadDeterminesRows(s, a, t, b, sequence, previous, head);
  }
}

/**
 The append-only event hash chain: the bytes fed to SHA-256 for one event, and why no two
 different events are fed the same bytes.
 */
module Chain {
  import opened Common

  /** A SHA-256 digest. */
  datatype Digest = Digest(bytes: seq<byte>)

  type Hash = d: Digest | |d.bytes| == 32 witness Digest(seq(32, _ => 0))

  /** The parent of the first event. */
  function GenesisHash(): Hash {
    Digest(seq(32, _ => 0))
  }

  /** The domain separator, closed by a zero byte. */
  const DOMAIN: seq<byte> := Ascii("environment-REDACTED:event-chain:v1") + [0]

  /** What one event binds: its place, its parent, its identity and its payload. */
  datatype ChainRecord = ChainRecord(
    sequence: nat,
    parent: Hash,
    eventId: Text,
    sourceSequence: Option<Text>,
    payloadDigest: Hash)

  /** Values a `u64` and a string whose length fits one can hold. */
  predicate Encodable(r: ChainRecord) {
    && r.sequence <= U64_MAX
    && |r.eventId.bytes| <= U64_MAX
    && (r.sourceSequence.Some? ==> |r.sourceSequence.value.bytes| <= U64_MAX)
  }

  /** A length the hasher cannot hold in eight bytes is written as the largest one. */
  function LengthPrefixed(value: seq<byte>): seq<byte> {
    BigEndian(Min(|value|, U64_MAX), 8) + value
  }

  function SourceField(source: Option<Text>): seq<byte> {
    match source
    case Some(value) => [1] + LengthPrefixed(value.bytes)
    case None => [0]
  }

  function AfterParent(r: ChainRecord): seq<byte> {
    LengthPrefixed(r.eventId.bytes) + (SourceField(r.sourceSequence) + r.payloadDigest.bytes)
  }

  function AfterDomain(r: ChainRecord): seq<byte> {
    BigEndian(r.sequence, 8) + (r.parent.bytes + AfterParent(r))
  }

  /** The bytes hashed for one event, in the order they are fed. */
  function Preimage(r: ChainRecord): seq<byte> {
    DOMAIN + AfterDomain(r)
  }

  /**
   The layout of those bytes: fixed places up to the id, whose length and text come first, then the source and the
   digest.
   */
  lemma {:induction false} PreimageLayout(r: ChainRecord)
    requires Encodable(r)
    ensures Preimage(r) ==
            Ascii("environment-REDACTED:event-chain:v1") + [0] + BigEndian(r.sequence, 8) + r.parent.bytes
            + BigEndian(|r.eventId.bytes|, 8) + r.eventId.bytes
            + (if r.sourceSequence.Some? then
                 [1] + BigEndian(|r.sourceSequence.value.bytes|, 8) + r.sourceSequence.value.bytes else [0])
            + r.payloadDigest.bytes
  {
    var id, digest := LengthPrefixed(r.eventId.bytes), r.payloadDigest.bytes;
    var source := SourceField(r.sourceSequence);
    if r.sourceSequence.Some? {
      Regroup([1], BigEndian(|r.sourceSequence.value.bytes|, 8), r.sourceSequence.value.bytes);
    }
    assert DOMAIN + (BigEndian(r.sequence, 8) + (r.parent.bytes + (id + (source + digest)))) ==
           DOMAIN + BigEndian(r.sequence, 8) + r.parent.bytes + id + source + digest;
    Regroup(DOMAIN + BigEndian(r.sequence, 8) + r.parent.bytes, BigEndian(|r.eventId.bytes|, 8), r.eventId.bytes);
  }

  /** The incremental hasher: every update adds to what has been fed so far. */
  class Hasher {
    const sha256: seq<byte> -> Hash
    var fed: seq<byte>

    constructor (sha256: seq<byte> -> Hash)
      ensures fed == [] && this.sha256 == sha256
    {
      this.sha256 := sha256;
      fed := [];
    }

    method Update(bytes: seq<byte>)
      modifies this
      ensures fed == old(fed) + bytes
    {
      fed := fed + bytes;
    }

    method UpdateLengthPrefixed(value: seq<byte>)
      modifies this
      ensures fed == old(fed) + LengthPrefixed(value)
    {
      Update(BigEndian(Min(|value|, U64_MAX), 8));
      Update(value);
      assert fed == old(fed) + LengthPrefixed(value);
    }

    method Finalize() returns (digest: Hash)
      ensures digest == sha256(fed)
    {
      digest := sha256(fed);
    }
  }

  lemma FedInOrder(a: seq<byte>, b: seq<byte>, c: seq<byte>, d: seq<byte>, e: seq<byte>, f: seq<byte>)
    ensures a + b + c + d + e + f == a + (b + (c + (d + (e + f))))
  {}

  method UpdateSource(hasher: Hasher, source: Option<Text>)
    modifies hasher
    ensures hasher.fed == old(hasher.fed) + SourceField(source)
  {
    match source {
      case Some(sequence) =>
        hasher.Update([1]);
        hasher.UpdateLengthPrefixed(sequence.bytes);
        assert hasher.fed == old(hasher.fed) + SourceField(source);
      case None =>
        hasher.Update([0]);
    }
  }

  method EventHash(sha256: seq<byte> -> Hash, localSequence: nat, previousHash: Hash, eventId: Text,
                   sourceSequence: Option<Text>, payloadDigest: Hash) returns (digest: Hash)
    ensures digest == sha256(Preimage(ChainRecord(localSequence, previousHash, eventId, sourceSequence, payloadDigest)))
  {
    var hasher := new Hasher(sha256);
    hasher.Update(DOMAIN);
    assert hasher.fed == DOMAIN;
    hasher.Update(BigEndian(localSequence, 8));
    hasher.Update(previousHash.bytes);
    hasher.UpdateLengthPrefixed(eventId.bytes);
    UpdateSource(hasher, sourceSequence);
    hasher.Update(payloadDigest.bytes);
    FedInOrder(DOMAIN, BigEndian(localSequence, 8), previousHash.bytes, LengthPrefixed(eventId.bytes),
        SourceField(sourceSequence), payloadDigest.bytes);
    digest := hasher.Finalize();
  }

  /** A length-prefixed field is self-delimiting. */
  lemma LengthPrefixedCancel(a: seq<byte>, x: seq<byte>, b: seq<byte>, y: seq<byte>)
    requires |a| <= U64_MAX && |b| <= U64_MAX
    requires LengthPrefixed(a) + x == LengthPrefixed(b) + y
    ensures a == b && x == y
  {
    assert LengthPrefixed(a) + x == BigEndian(|a|, 8) + (a + x);
    assert LengthPrefixed(b) + y == BigEndian(|b|, 8) + (b + y);
    ConcatCancel(BigEndian(|a|, 8), a + x, BigEndian(|b|, 8), b + y);
    BigEndian8Injective(|a|, |b|);
    ConcatCancel(a, x, b, y);
  }

  lemma PresentFieldCancel(a: seq<byte>, x: seq<byte>, b: seq<byte>, y: seq<byte>)
    requires |a| <= U64_MAX && |b| <= U64_MAX
    requires [1] + LengthPrefixed(a) + x == [1] + LengthPrefixed(b) + y
    ensures a == b && x == y
  {
    assert [1] + LengthPrefixed(a) + x == [1] + (LengthPrefixed(a) + x);
    assert [1] + LengthPrefixed(b) + y == [1] + (LengthPrefixed(b) + y);
    ConcatCancel([1], LengthPrefixed(a) + x, [1], LengthPrefixed(b) + y);
    LengthPrefixedCancel(a, x, b, y);
  }

  /** The presence byte tells a missing source sequence from an empty one. */
  lemma SourceFieldCancel(a: Option<Text>, x: seq<byte>, b: Option<Text>, y: seq<byte>)
    requires a.Some? ==> |a.value.bytes| <= U64_MAX
    requires b.Some? ==> |b.value.bytes| <= U64_MAX
    requires SourceField(a) + x == SourceField(b) + y
    ensures a == b && x == y
  {
    assert (SourceField(a) + x)[0] == (SourceField(b) + y)[0];
    match (a, b) {
      case (Some(s), Some(t)) => PresentFieldCancel(s.bytes, x, t.bytes, y);
      case (None, None) => ConcatCancel([0], x, [0], y);
      case _ =>
    }
  }

  lemma AfterParentInjective(a: ChainRecord, b: ChainRecord)
    requires Encodable(a) && Encodable(b)
    requires AfterParent(a) == AfterParent(b)
    ensures a.eventId == b.eventId && a.sourceSequence == b.sourceSequence && a.payloadDigest == b.payloadDigest
  {
    LengthPrefixedCancel(a.eventId.bytes, SourceField(a.sourceSequence) + a.payloadDigest.bytes,
                         b.eventId.bytes, SourceField(b.sourceSequence) + b.payloadDigest.bytes);
    SourceFieldCancel(a.sourceSequence, a.payloadDigest.bytes, b.sourceSequence, b.payloadDigest.bytes);
  }

  /** The preimage determines every field: length prefixes and the presence byte leave no ambiguity. */
  lemma PreimageInjective(a: ChainRecord, b: ChainRecord)
    requires Encodable(a) && Encodable(b)
    requires Preimage(a) == Preimage(b)
    ensures a == b
  {
    ConcatCancel(DOMAIN, AfterDomain(a), DOMAIN, AfterDomain(b));
    ConcatCancel(BigEndian(a.sequence, 8), a.parent.bytes + AfterParent(a), BigEndian(b.sequence, 8),
        b.parent.bytes + AfterParent(b));
    BigEndian8Injective(a.sequence, b.sequence);
    ConcatCancel(a.parent.bytes, AfterParent(a), b.parent.bytes, AfterParent(b));
    AfterParentInjective(a, b);
  }
}

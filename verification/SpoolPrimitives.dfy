/** Primitives that meet every law assumed of them, so that what is proved under those laws is about something. */
module SpoolPrimitives {
  import opened Common
  import opened Chain
  import opened SpoolState

  ghost function Inverse<A(!new), B(!new)>(f: A -> B): B -> Option<A> {
    (b: B) => if a :| f(a) == b then Some(a) else None
  }

  lemma {:induction false} Inverts<A(!new), B(!new)>(f: A -> B, a: A)
    requires forall x, y | f(x) == f(y) :: x == y
    ensures Inverse(f)(f(a)) == Some(a)
  {}

  function Zeros(n: nat): (zeros: seq<byte>)
    ensures |zeros| == n && 1 !in zeros
  {
    seq(n, _ => 0)
  }

  /** Byte strings one after another, each behind its length. */
  function Packed(parts: seq<seq<byte>>): seq<byte> {
    if parts == [] then [] else Zeros(|parts[0]|) + [1] + (parts[0] + Packed(parts[1..]))
  }

  lemma {:induction false} PackedInjective(a: seq<seq<byte>>, b: seq<seq<byte>>)
    requires Packed(a) == Packed(b)
    ensures a == b
  {
    if a != [] && b != [] {
      var x, y := a[0] + Packed(a[1..]), b[0] + Packed(b[1..]);
      SplitAtSeparator(Zeros(|a[0]|), x, Zeros(|b[0]|), y, 1);
      assert |Zeros(|a[0]|)| == |Zeros(|b[0]|)|;
      ConcatCancel(a[0], Packed(a[1..]), b[0], Packed(b[1..]));
      PackedInjective(a[1..], b[1..]);
      assert a == [a[0]] + a[1..] && b == [b[0]] + b[1..];
    }
  }

  function EnvelopeParts(e: AeadEnvelope): seq<seq<byte>> {
    [Zeros(e.envelopeVersion), Zeros(e.keyVersion), e.nonce, e.aadDigest.bytes, e.ciphertext]
  }

  lemma {:induction false} EnvelopeFromParts(d: AeadEnvelope, e: AeadEnvelope)
    requires Packed(EnvelopeParts(d)) == Packed(EnvelopeParts(e))
    ensures d == e
  {
    var a, b := EnvelopeParts(d), EnvelopeParts(e);
    PackedInjective(a, b);
    assert |a[0]| == |b[0]| && |a[1]| == |b[1]| && a[2] == b[2] && a[3] == b[3] && a[4] == b[4];
  }

  function PayloadParts(p: StoredPayload): seq<seq<byte>> {
    [Zeros(p.schemaVersion), p.eventId.bytes, p.source.bytes, p.actionType.bytes,
     if p.sourceSequence.Some? then [1] + p.sourceSequence.value.bytes else [],
     p.payload.bytes, p.redactionPolicyVersion.bytes]
  }

  lemma {:induction false} PayloadFromParts(p: StoredPayload, q: StoredPayload)
    requires Packed(PayloadParts(p)) == Packed(PayloadParts(q))
    ensures p == q
  {
    var a, b := PayloadParts(p), PayloadParts(q);
    PackedInjective(a, b);
    assert |a[0]| == |b[0]| && a[1] == b[1] && a[2] == b[2] && a[3] == b[3];
    assert a[4] == b[4] && a[5] == b[5] && a[6] == b[6];
    assert a[4] != [] ==> a[4][1..] == p.sourceSequence.value.bytes && b[4][1..] == q.sourceSequence.value.bytes;
  }

  function Unlocked(key: Key, sealed: seq<byte>): Option<seq<byte>> {
    if |sealed| >= 32 && sealed[..32] == key then Some(sealed[32..]) else None
  }

  /** Sealing puts the key in front, signatures are empty, and printing packs the fields. */
  ghost function Instance(): Primitives {
    Primitives(
      _ => GenesisHash(),
      (k: Key, n: seq<byte>, aad: seq<byte>, m: seq<byte>) => k + m,
      (k: Key, n: seq<byte>, aad: seq<byte>, c: seq<byte>) => Unlocked(k, c),
      e => Packed(EnvelopeParts(e)),
      Inverse(e => Packed(EnvelopeParts(e))),
      (k, h) => [],
      k => [],
      (k, h, s) => true,
      p => Packed(PayloadParts(p)),
      Inverse(p => Packed(PayloadParts(p))),
      (t, n) => t,
      t => t,
      Text([]))
  }

  /** The laws of the primitives have an instance, and one whose cipher refuses every wrong key. */
  lemma {:induction false} LawfulInstance() returns (p: Primitives)
    ensures p.Lawful()
    ensures forall k, other, n: Nonce, aad, m | k != other :: p.decrypt(other, n, aad, p.encrypt(k, n, aad, m)) == None
  {
    p := Instance();
    forall k: Key, m: seq<byte>
      ensures (k + m)[..32] == k && (k + m)[32..] == m
    {}
    var envelope := (e: AeadEnvelope) => Packed(EnvelopeParts(e));
    forall d, e | envelope(d) == envelope(e) ensures d == e {
      EnvelopeFromParts(d, e);
    }
    forall e ensures p.decodeEnvelope(p.encodeEnvelope(e)) == Some(e) {
      Inverts(envelope, e);
    }
    var payload := (q: StoredPayload) => Packed(PayloadParts(q));
    forall q, r | payload(q) == payload(r) ensures q == r {
      PayloadFromParts(q, r);
    }
    forall q ensures p.parsePayload(p.printPayload(q)) == Some(q) {
      Inverts(payload, q);
    }
  }
}

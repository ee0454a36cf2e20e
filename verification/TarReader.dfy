/** Reading exact amounts from a stream that arrives in chunks of any size, empty ones included. */
module TarReader {
  import opened Common

  datatype ArchiveError = InvalidArchive | LimitsExceeded | UnsupportedSource

  /** What reading `length` bytes off a whole byte sequence gives; `None` is a clean end. */
  function FlatRead(bytes: seq<byte>, length: nat): Result<Option<seq<byte>>, ArchiveError> {
    if length <= |bytes| then Ok(Some(bytes[..length]))
    else if bytes == [] then Ok(None)
    else Err(InvalidArchive)
  }

  predicate AllZero(bytes: seq<byte>) {
    forall b | b in bytes :: b == 0
  }

  class BoundedByteReader {
    const maximumBytes: nat
    var stream: seq<seq<byte>>
    var chunk: seq<byte>
    var offset: nat
    var ended: bool
    var totalBytes: nat

    ghost predicate Valid()
      reads this
    {
      offset <= |chunk| && totalBytes <= maximumBytes && (ended ==> stream == [])
    }

    /** The bytes not yet read, however they are cut into chunks. */
    ghost function Remaining(): seq<byte>
      reads this
      requires offset <= |chunk|
    {
      chunk[offset..] + Flatten(stream)
    }

    /** The length of the whole stream. */
    ghost function StreamLength(): nat
      reads this
    {
      totalBytes + |Flatten(stream)|
    }

    constructor (stream: seq<seq<byte>>, maximumBytes: nat)
      ensures Valid() && Remaining() == Flatten(stream) && StreamLength() == |Flatten(stream)|
      ensures this.maximumBytes == maximumBytes
    {
      this.stream, this.maximumBytes := stream, maximumBytes;
      chunk, offset, ended, totalBytes := [], 0, false, 0;
    }

    /** Moves to a chunk with unread bytes, unless the stream has ended or grown past its limit. */
    method EnsureChunk() returns (result: Result<bool, ArchiveError>)
      requires Valid()
      modifies this
      ensures StreamLength() == old(StreamLength())
      ensures result.Ok? ==> Valid() && Remaining() == old(Remaining())
      ensures result == Ok(true) ==> offset < |chunk|
      ensures result == Ok(false) ==> Remaining() == [] && totalBytes == StreamLength()
      ensures result.Err? ==> result.error == LimitsExceeded && StreamLength() > maximumBytes
    {
      while offset >= |chunk|
        invariant Valid() && Remaining() == old(Remaining()) && StreamLength() == old(StreamLength())
        decreases |stream|
      {
        if ended {
          return Ok(false);
        }
        if stream == [] {
          ended := true;
          return Ok(false);
        }
        chunk, offset := stream[0], 0;
        stream := stream[1..];
        totalBytes := totalBytes + |chunk|;
        if totalBytes > maximumBytes {
          return Err(LimitsExceeded);
        }
      }
      result := Ok(true);
    }

    /** Consumes the next `take` bytes of the current chunk. */
    method Advance(take: nat) returns (taken: seq<byte>)
      requires Valid() && take <= |chunk| - offset
      modifies this`offset
      ensures Valid() && offset == old(offset) + take
      ensures |taken| == take && old(Remaining()) == taken + Remaining()
      ensures taken == chunk[old(offset)..old(offset) + take]
    {
      taken := chunk[offset..offset + take];
      assert chunk[offset..] == taken + chunk[offset + take..];
      offset := offset + take;
      assert old(Remaining()) == taken + Remaining();
    }

    method ReadExactly(length: nat) returns (result: Result<Option<seq<byte>>, ArchiveError>)
      requires Valid()
      modifies this
      ensures StreamLength() == old(StreamLength())
      ensures result == FlatRead(old(Remaining()), length)
              || (result == Err(LimitsExceeded) && StreamLength() > maximumBytes)
      ensures result.Ok? && result.value.Some? ==> Valid() && Remaining() == old(Remaining())[length..]
    {
      var buffer := new byte[length];
      var written := 0;
      ghost var before := Remaining();
      while written < length
        invariant 0 <= written <= length && Valid() && StreamLength() == old(StreamLength())
        invariant fresh(buffer) && before == buffer[..written] + Remaining()
        decreases length - written
      {
        var ready := EnsureChunk();
        if ready.Err? {
          return Err(ready.error);
        }
        if !ready.value {
          if written == 0 {
            return Ok(None);
          }
          return Err(InvalidArchive);
        }
        ghost var filled, rest := buffer[..written], Remaining();
        var taken := Advance(Min(|chunk| - offset, length - written));
        forall i | 0 <= i < |taken| {
          buffer[written + i] := taken[i];
        }
        AppendShift(filled, taken, Remaining());
        written := written + |taken|;
        assert buffer[..written] == filled + taken;
      }
      assert buffer[..written] == buffer[..];
      SplitsAt(before, buffer[..], Remaining());
      result := Ok(Some(buffer[..]));
    }

    /** As `ReadExactly`, with the clean end an error too. */
    method ReadRequired(length: nat) returns (result: Result<seq<byte>, ArchiveError>)
      requires Valid()
      modifies this
      ensures StreamLength() == old(StreamLength())
      ensures || (result.Ok? && length <= |old(Remaining())| && result.value == old(Remaining())[..length])
              || (result == Err(InvalidArchive) && length > |old(Remaining())|)
              || (result == Err(LimitsExceeded) && StreamLength() > maximumBytes)
      ensures result.Ok? ==> Valid() && Remaining() == old(Remaining())[length..]
    {
      var read := ReadExactly(length);
      if read.Err? {
        return Err(read.error);
      }
      if read.value.None? {
        return Err(InvalidArchive);
      }
      result := Ok(read.value.value);
    }

    method Skip(length: nat) returns (result: Result<(), ArchiveError>)
      requires Valid()
      modifies this
      ensures StreamLength() == old(StreamLength())
      ensures || (result.Ok? && length <= |old(Remaining())|)
              || (result == Err(InvalidArchive) && length > |old(Remaining())|)
              || (result == Err(LimitsExceeded) && StreamLength() > maximumBytes)
      ensures result.Ok? ==> Valid() && Remaining() == old(Remaining())[length..]
    {
      var remaining := length;
      ghost var before, passed := Remaining(), [];
      while remaining > 0
        invariant 0 <= remaining <= length && Valid() && StreamLength() == old(StreamLength())
        invariant |passed| == length - remaining && before == passed + Remaining()
        decreases remaining
      {
        var ready := EnsureChunk();
        if ready.Err? {
          return Err(ready.error);
        }
        if !ready.value {
          return Err(InvalidArchive);
        }
        var taken := Advance(Min(|chunk| - offset, remaining));
        AppendShift(passed, taken, Remaining());
        passed := passed + taken;
        remaining := remaining - |taken|;
      }
      SplitsAt(before, passed, Remaining());
      result := Ok(());
    }

    /** Whether the unread part of the current chunk is all zeros; if so it is consumed. */
    method PassZeros() returns (zero: bool)
      requires Valid()
      modifies this`offset
      ensures Valid()
      ensures zero == AllZero(chunk[old(offset)..])
      ensures zero ==> offset == |chunk|
    {
      while offset < |chunk|
        invariant old(offset) <= offset && Valid() && AllZero(chunk[old(offset)..offset])
      {
        if chunk[offset] != 0 {
          ghost var rest := chunk[old(offset)..];
          assert rest[offset - old(offset)] == chunk[offset] && rest[offset - old(offset)] in rest;
          return false;
        }
        assert chunk[old(offset)..offset + 1] == chunk[old(offset)..offset] + [chunk[offset]];
        offset := offset + 1;
      }
      assert chunk[old(offset)..offset] == chunk[old(offset)..];
      zero := true;
    }

    /** Reads to the end of the stream, which must hold nothing but zeros from here on. */
    method AssertRemainingZero() returns (result: Result<(), ArchiveError>)
      requires Valid()
      modifies this
      ensures StreamLength() == old(StreamLength())
      ensures || (result.Ok? && AllZero(old(Remaining())) && totalBytes == StreamLength() <= maximumBytes)
              || (result == Err(InvalidArchive) && !AllZero(old(Remaining())))
              || (result == Err(LimitsExceeded) && StreamLength() > maximumBytes)
    {
      while true
        invariant Valid() && StreamLength() == old(StreamLength())
        invariant AllZero(Remaining()) == AllZero(old(Remaining()))
        decreases |Remaining()|
      {
        var ready := EnsureChunk();
        if ready.Err? {
          return Err(ready.error);
        }
        if !ready.value {
          return Ok(());
        }
        ZeroConcat(chunk[offset..], Flatten(stream));
        var zero := PassZeros();
        if !zero {
          return Err(InvalidArchive);
        }
        assert Remaining() == Flatten(stream);
      }
    }
  }

  lemma AppendShift(a: seq<byte>, b: seq<byte>, c: seq<byte>)
    ensures a + (b + c) == (a + b) + c
  {}

  lemma SplitsAt(whole: seq<byte>, front: seq<byte>, back: seq<byte>)
    requires whole == front + back
    ensures whole[..|front|] == front && whole[|front|..] == back
  {}

  lemma ZeroConcat(a: seq<byte>, b: seq<byte>)
    ensures AllZero(a + b) <==> AllZero(a) && AllZero(b)
  {
    assert forall x | x in a + b :: x in a || x in b;
    assert forall x | x in a || x in b :: x in a + b;
  }
}

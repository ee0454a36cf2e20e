/**
 Length-prefixed frames: the extension's encoder and incremental decoder, the Companion's reader,
 and what ties them to the whole byte stream.
 */
module Frames {
  import opened Common

  const MAXIMUM_FRAME_BYTES := 1_024 * 1_024

  /** JSON texts of objects. `text` is partial: not every value can be serialized. */
  datatype Format<!V(!new)> = Format(text: V -> Option<seq<byte>>, parse: seq<byte> -> Option<V>)
  {
    /** Parsing undoes printing. */
    ghost predicate Lawful() {
      forall v :: text(v).Some? ==> parse(text(v).value) == Some(v)
    }
  }

  /** A payload behind its length. */
  function Framed(payload: seq<byte>): seq<byte> {
    BigEndian(|payload|, 4) + payload
  }

  function LengthOf(bytes: seq<byte>): nat
    requires |bytes| >= 4
  {
    FromBigEndian(bytes[..4])
  }

  /** What is at the front of a buffer. */
  datatype Front = Incomplete | BadLength | Payload(bytes: seq<byte>, rest: seq<byte>)

  function TakeFrame(buffer: seq<byte>, maximum: nat): (front: Front)
    ensures front.Payload? ==> 0 < |front.bytes| <= maximum && |front.rest| < |buffer|
    ensures front.Incomplete? ==> |buffer| < 4 + maximum || |buffer| < 4
  {
    if |buffer| < 4 then Incomplete
    else if LengthOf(buffer) == 0 || LengthOf(buffer) > maximum then BadLength
    else if |buffer| < 4 + LengthOf(buffer) then Incomplete
    else Payload(buffer[4..4 + LengthOf(buffer)], buffer[4 + LengthOf(buffer)..])
  }

  /** The frames of a buffer, what is left of it, and whether it had to stop at a bad frame. */
  datatype Decoded<+V> = Decoded(frames: seq<V>, leftover: seq<byte>, failed: bool)

  function Decode<V(!new)>(format: Format<V>, maximum: nat, buffer: seq<byte>): Decoded<V>
    decreases |buffer|
  {
    match TakeFrame(buffer, maximum)
    case Incomplete => Decoded([], buffer, false)
    case BadLength => Decoded([], buffer, true)
    case Payload(bytes, rest) =>
      match format.parse(bytes)
      case None => Decoded([], rest, true)
      case Some(v) => var later := Decode(format, maximum, rest); later.(frames := [v] + later.frames)
  }

  class JsonFrameDecoder<!V(!new)> {
    const maximumFrameBytes: nat
    const format: Format<V>
    var buffer: seq<byte>

    constructor (format: Format<V>, maximumFrameBytes: nat)
      requires 256 <= maximumFrameBytes <= MAXIMUM_FRAME_BYTES
      ensures buffer == [] && this.format == format && this.maximumFrameBytes == maximumFrameBytes
    {
      this.format, this.maximumFrameBytes, this.buffer := format, maximumFrameBytes, [];
    }

    /**
     Adds a chunk and takes off every complete frame. On a bad frame the frames before it in the
     same chunk are lost, and the buffer is left where the fault was found.
     */
    method Push(chunk: seq<byte>) returns (result: Option<seq<V>>)
      modifies this
      ensures chunk == [] ==> result == Some([]) && buffer == old(buffer)
      ensures chunk != [] ==>
                var decoded := Decode(format, maximumFrameBytes, old(buffer) + chunk);
                buffer == decoded.leftover && result == if decoded.failed then None else Some(decoded.frames)
      ensures chunk != [] && result.Some? && maximumFrameBytes > 0 ==> |buffer| < 4 + maximumFrameBytes
    {
      if |chunk| == 0 {
        return Some([]);
      }
      buffer := buffer + chunk;
      var frames: seq<V> := [];
      ghost var whole := Decode(format, maximumFrameBytes, buffer);
      while |buffer| >= 4
        invariant Decode(format, maximumFrameBytes, buffer).leftover == whole.leftover
        invariant Decode(format, maximumFrameBytes, buffer).failed == whole.failed
        invariant frames + Decode(format, maximumFrameBytes, buffer).frames == whole.frames
        decreases |buffer|
      {
        var length := FromBigEndian(buffer[..4]);
        if length == 0 || length > maximumFrameBytes {
          return None;
        }
        if |buffer| < 4 + length {
          break;
        }
        var bytes := buffer[4..4 + length];
        buffer := buffer[4 + length..];
        var value := format.parse(bytes);
        if value.None? {
          return None;
        }
        Regroup(frames, [value.value], Decode(format, maximumFrameBytes, buffer).frames);
        frames := frames + [value.value];
      }
      assert frames + [] == frames;
      result := Some(frames);
    }
  }

  function Encode<V(!new)>(format: Format<V>, maximum: nat, v: V): Option<seq<byte>> {
    match format.text(v)
    case None => None
    case Some(payload) => if payload == [] || |payload| > maximum || |payload| > U32_MAX then None
        else Some(Framed(payload))
  }

  /** `writeUInt32BE` into the first four places. */
  method WriteLength(frame: array<byte>, length: nat)
    requires 4 <= frame.Length && length <= U32_MAX
    modifies frame
    ensures frame[..4] == BigEndian(length, 4)
  {
    frame[0], frame[1], frame[2], frame[3] := length / 0x100_0000, length / 0x1_0000 % 256, length / 0x100 % 256,
        length % 256;
    FourBytes(length);
  }

  lemma {:induction false} FourBytes(length: nat)
    requires length <= U32_MAX
    ensures BigEndian(length, 4) == [length / 0x100_0000, length / 0x1_0000 % 256, length / 0x100 % 256, length % 256]
  {
    var a := length / 256;
    var b := a / 256;
    var c := b / 256;
    assert BigEndian(c / 256, 0) == [];
    assert BigEndian(c, 1) == [c % 256];
    assert BigEndian(b, 2) == [c % 256, b % 256];
    assert BigEndian(a, 3) == [c % 256, b % 256, a % 256];
    assert b == length / 0x1_0000 && c == length / 0x100_0000;
  }

  method EncodeJsonFrame<V(!new)>(format: Format<V>, value: V, maximumFrameBytes: nat)
      returns (frame: Option<seq<byte>>)
    ensures frame == Encode(format, maximumFrameBytes, value)
  {
    var payload := format.text(value);
    if payload.None? {
      return None;
    }
    var bytes := payload.value;
    if |bytes| == 0 || |bytes| > maximumFrameBytes || |bytes| > U32_MAX {
      return None;
    }
    var buffer := new byte[4 + |bytes|];
    WriteLength(buffer, |bytes|);
    forall i | 0 <= i < |bytes| {
      buffer[4 + i] := bytes[i];
    }
    assert buffer[..] == Framed(bytes);
    frame := Some(buffer[..]);
  }

  // Chunking

  lemma {:induction false} TakeMore(buffer: seq<byte>, more: seq<byte>, maximum: nat)
    ensures match TakeFrame(buffer, maximum)
            case Payload(bytes, rest) => TakeFrame(buffer + more, maximum) == Payload(bytes, rest + more)
            case BadLength => TakeFrame(buffer + more, maximum) == BadLength
            case Incomplete => true
  {
    if |buffer| >= 4 {
      assert (buffer + more)[..4] == buffer[..4];
      var end := 4 + LengthOf(buffer);
      if end <= |buffer| {
        assert (buffer + more)[4..end] == buffer[4..end];
        assert (buffer + more)[end..] == buffer[end..] + more;
      }
    }
  }

  /** Decoding a buffer and then its leftover with more behind it is decoding both at once. */
  lemma {:induction false} DecodeMore<V(!new)>(format: Format<V>, maximum: nat, buffer: seq<byte>, more: seq<byte>)
    ensures var first, whole := Decode(format, maximum, buffer), Decode(format, maximum, buffer + more);
            if first.failed then whole == Decoded(first.frames, first.leftover + more, true)
            else
              var later := Decode(format, maximum, first.leftover + more);
              whole == Decoded(first.frames + later.frames, later.leftover, later.failed)
    decreases |buffer|
  {
    TakeMore(buffer, more, maximum);
    match TakeFrame(buffer, maximum)
    case Payload(bytes, rest) =>
      if format.parse(bytes).Some? {
        DecodeMore(format, maximum, rest, more);
        var v := format.parse(bytes).value;
        var first := Decode(format, maximum, rest);
        Regroup([v], first.frames, Decode(format, maximum, first.leftover + more).frames);
      }
    case _ =>
  }

  /** One push after another until the first that throws; the frames of a push that throws are lost. */
  function Feed<V(!new)>(format: Format<V>, maximum: nat, buffer: seq<byte>, chunks: seq<seq<byte>>): Decoded<V>
    decreases |chunks|
  {
    if chunks == [] then Decoded([], buffer, false)
    else if chunks[0] == [] then Feed(format, maximum, buffer, chunks[1..])
    else
      var first := Decode(format, maximum, buffer + chunks[0]);
      if first.failed then Decoded([], first.leftover, true)
      else
        var later := Feed(format, maximum, first.leftover, chunks[1..]);
        later.(frames := first.frames + later.frames)
  }

  /** Nothing to take off: what a decoder holds between pushes. */
  ghost predicate Settled<V(!new)>(format: Format<V>, maximum: nat, buffer: seq<byte>) {
    Decode(format, maximum, buffer) == Decoded([], buffer, false)
  }

  lemma {:induction false} LeftoverSettled<V(!new)>(format: Format<V>, maximum: nat, buffer: seq<byte>)
    requires !Decode(format, maximum, buffer).failed
    ensures Settled(format, maximum, Decode(format, maximum, buffer).leftover)
    ensures maximum > 0 ==> |Decode(format, maximum, buffer).leftover| < 4 + maximum
    decreases |buffer|
  {
    match TakeFrame(buffer, maximum)
    case Payload(bytes, rest) => LeftoverSettled(format, maximum, rest);
    case _ =>
  }

  /**
   However a stream is cut, the decoder throws exactly when one push of the whole would; if it does
   not, the frames and the leftover are those of the whole, and if it does, the frames it gave before
   are the first frames of the whole.
   */
  lemma {:induction false} ChunkingIsInvisible<V(!new)>(format: Format<V>, maximum: nat, buffer: seq<byte>,
      chunks: seq<seq<byte>>)
    requires Settled(format, maximum, buffer)
    ensures var fed, whole := Feed(format, maximum, buffer, chunks), Decode(format, maximum, buffer + Flatten(chunks));
            && fed.failed == whole.failed
            && (!whole.failed ==> fed == whole)
            && fed.frames <= whole.frames
    decreases |chunks|
  {
    if chunks == [] {
      assert buffer + Flatten(chunks) == buffer;
    } else if chunks[0] == [] {
      assert Flatten(chunks) == Flatten(chunks[1..]);
      ChunkingIsInvisible(format, maximum, buffer, chunks[1..]);
    } else {
      var more := Flatten(chunks[1..]);
      Regroup(buffer, chunks[0], more);
      DecodeMore(format, maximum, buffer + chunks[0], more);
      var first := Decode(format, maximum, buffer + chunks[0]);
      if !first.failed {
        LeftoverSettled(format, maximum, buffer + chunks[0]);
        ChunkingIsInvisible(format, maximum, first.leftover, chunks[1..]);
      }
    }
  }

  // Round trips

  lemma {:induction false} LengthRoundTrip(payload: seq<byte>, rest: seq<byte>, maximum: nat)
    requires 0 < |payload| <= maximum && |payload| <= U32_MAX
    ensures TakeFrame(Framed(payload) + rest, maximum) == Payload(payload, rest)
  {
    var buffer := Framed(payload) + rest;
    assert buffer[..4] == BigEndian(|payload|, 4);
    assert Power256(4) == U32_MAX + 1;
    BigEndianRoundTrip(|payload|, 4);
    assert buffer[4..4 + |payload|] == payload && buffer[4 + |payload|..] == rest;
  }

  function EncodeAll<V(!new)>(format: Format<V>, maximum: nat, values: seq<V>): Option<seq<byte>> {
    if values == [] then Some([]) else
    match Encode(format, maximum, values[0])
    case None => None
    case Some(frame) =>
      match EncodeAll(format, maximum, values[1..])
      case None => None
      case Some(rest) => Some(frame + rest)
  }

  /** Whatever was encoded, one frame after another, decodes to the same values with nothing left. */
  lemma {:induction false} FramesRoundTrip<V(!new)>(format: Format<V>, maximum: nat, values: seq<V>)
    requires format.Lawful() && EncodeAll(format, maximum, values).Some?
    ensures Decode(format, maximum, EncodeAll(format, maximum, values).value) == Decoded(values, [], false)
  {
    if values != [] {
      var rest := EncodeAll(format, maximum, values[1..]).value;
      LengthRoundTrip(format.text(values[0]).value, rest, maximum);
      FramesRoundTrip(format, maximum, values[1..]);
      assert values == [values[0]] + values[1..];
    }
  }

  function FramedAll(payloads: seq<seq<byte>>): seq<byte> {
    if payloads == [] then [] else Framed(payloads[0]) + FramedAll(payloads[1..])
  }

  /** Payloads a frame can carry, with the values they parse to. */
  ghost predicate Parses<V(!new)>(format: Format<V>, maximum: nat, payloads: seq<seq<byte>>, values: seq<V>) {
    && |payloads| == |values|
    && forall i | 0 <= i < |payloads| ::
         0 < |payloads[i]| <= maximum && |payloads[i]| <= U32_MAX && format.parse(payloads[i]) == Some(values[i])
  }

  lemma {:induction false} BigEndianOf(bytes: seq<byte>)
    ensures BigEndian(FromBigEndian(bytes), |bytes|) == bytes
    ensures FromBigEndian(bytes) < Power256(|bytes|)
  {
    if bytes != [] {
      BigEndianOf(bytes[..|bytes| - 1]);
      assert bytes == bytes[..|bytes| - 1] + [bytes[|bytes| - 1]];
    }
  }

  lemma {:induction false} TakenFrame(buffer: seq<byte>, maximum: nat)
    requires TakeFrame(buffer, maximum).Payload?
    ensures var front := TakeFrame(buffer, maximum);
            buffer == Framed(front.bytes) + front.rest && |front.bytes| <= U32_MAX
  {
    BigEndianOf(buffer[..4]);
    assert Power256(4) == U32_MAX + 1;
  }

  lemma {:induction false} ParsesCons<V(!new)>(format: Format<V>, maximum: nat, payload: seq<byte>,
      payloads: seq<seq<byte>>, v: V, values: seq<V>)
    requires Parses(format, maximum, payloads, values)
    requires 0 < |payload| <= maximum && |payload| <= U32_MAX && format.parse(payload) == Some(v)
    ensures Parses(format, maximum, [payload] + payloads, [v] + values)
    ensures FramedAll([payload] + payloads) == Framed(payload) + FramedAll(payloads)
  {
    assert ([payload] + payloads)[1..] == payloads;
  }

  /** A decoded buffer is the frames it gave followed by its leftover. */
  lemma {:induction false} DecodedPayloads<V(!new)>(format: Format<V>, maximum: nat, buffer: seq<byte>)
      returns (payloads: seq<seq<byte>>)
    requires !Decode(format, maximum, buffer).failed
    ensures var whole := Decode(format, maximum, buffer);
            Parses(format, maximum, payloads, whole.frames) && buffer == FramedAll(payloads) + whole.leftover
    decreases |buffer|
  {
    payloads := [];
    match TakeFrame(buffer, maximum)
    case Payload(bytes, rest) =>
      var later := DecodedPayloads(format, maximum, rest);
      TakenFrame(buffer, maximum);
      payloads := [bytes] + later;
      ParsesCons(format, maximum, bytes, later, format.parse(bytes).value, Decode(format, maximum, rest).frames);
      Regroup(Framed(bytes), FramedAll(later), Decode(format, maximum, rest).leftover);
    case _ =>
  }

  lemma {:induction false} PayloadsDecode<V(!new)>(format: Format<V>, maximum: nat, payloads: seq<seq<byte>>,
      values: seq<V>, end: seq<byte>)
    requires Parses(format, maximum, payloads, values) && TakeFrame(end, maximum).Incomplete?
    ensures Decode(format, maximum, FramedAll(payloads) + end) == Decoded(values, end, false)
  {
    if payloads == [] {
      assert FramedAll(payloads) + end == end;
    } else {
      var rest := FramedAll(payloads[1..]) + end;
      Regroup(Framed(payloads[0]), FramedAll(payloads[1..]), end);
      LengthRoundTrip(payloads[0], rest, maximum);
      PayloadsDecode(format, maximum, payloads[1..], values[1..], end);
      assert values == [values[0]] + values[1..];
    }
  }

  /** A buffer decodes to these frames and this leftover exactly when it is made of them. */
  lemma {:induction false} DecodeExactly<V(!new)>(format: Format<V>, maximum: nat, buffer: seq<byte>, values: seq<V>,
      end: seq<byte>)
    ensures Decode(format, maximum, buffer) == Decoded(values, end, false) <==>
            && TakeFrame(end, maximum).Incomplete?
            && exists payloads :: Parses(format, maximum, payloads, values) && buffer == FramedAll(payloads) + end
  {
    if Decode(format, maximum, buffer) == Decoded(values, end, false) {
      var payloads := DecodedPayloads(format, maximum, buffer);
      LeftoverSettled(format, maximum, buffer);
    }
    forall payloads | TakeFrame(end, maximum).Incomplete? && Parses(format, maximum, payloads, values)
        && buffer == FramedAll(payloads) + end
      ensures Decode(format, maximum, buffer) == Decoded(values, end, false)
    {
      PayloadsDecode(format, maximum, payloads, values, end);
    }
  }

  // The Companion's reader

  datatype IpcError = AuthenticationFailed | ConnectionLimit | FrameTooLarge | InvalidConfiguration | InvalidFrame | Io
      | Timeout

  /** What the transport answers when it has no more bytes. */
  datatype StreamEnd = Closed | TimedOut | Broken

  function EndError(end: StreamEnd): IpcError {
    if end.TimedOut? then Timeout else Io
  }

  /** What reading one frame gives: `None` at a clean end of the stream. */
  function ReadOne<V(!new)>(format: Format<V>, maximum: nat, bytes: seq<byte>,
      end: StreamEnd): (read: Result<Option<(V, seq<byte>)>, IpcError>)
    ensures read.Ok? && read.value.Some? ==> |read.value.value.1| < |bytes|
  {
    if bytes == [] then (if end.Closed? then Ok(None) else Err(EndError(end))) else
    match TakeFrame(bytes, maximum)
    case Incomplete => Err(EndError(end))
    case BadLength => Err(FrameTooLarge)
    case Payload(payload, rest) =>
      match format.parse(payload)
      case None => Err(InvalidFrame)
      case Some(v) => Ok(Some((v, rest)))
  }

  /** The bytes from a peer, and then how the stream ends. */
  class Incoming {
    var unread: seq<byte>
    const end: StreamEnd

    constructor (unread: seq<byte>, end: StreamEnd)
      ensures this.unread == unread && this.end == end
    {
      this.unread, this.end := unread, end;
    }

    /** `read_exact`. */
    method ReadExact(length: nat) returns (result: Result<seq<byte>, IpcError>)
      modifies this
      ensures if length <= |old(unread)| then result == Ok(old(unread)[..length]) && unread == old(unread)[length..]
              else result == Err(EndError(end))
    {
      if length > |unread| {
        unread := [];
        return Err(EndError(end));
      }
      result := Ok(unread[..length]);
      unread := unread[length..];
    }

    /** The first byte alone tells a clean end from a frame cut short. */
    method ReadFrame<V(!new)>(format: Format<V>, maximumFrameBytes: nat) returns (result: Result<Option<V>, IpcError>)
      modifies this
      ensures match ReadOne(format, maximumFrameBytes, old(unread), end)
              case Err(e) => result == Err(e)
              case Ok(None) => result == Ok(None) && unread == []
              case Ok(Some((v, rest))) => result == Ok(Some(v)) && unread == rest
    {
      ghost var bytes := unread;
      if unread == [] {
        if end.Closed? {
          return Ok(None);
        }
        return Err(EndError(end));
      }
      var first := ReadExact(1);
      var others := ReadExact(3);
      if others.Err? {
        return Err(others.error);
      }
      assert bytes[..4] == first.value + others.value && bytes[4..] == unread;
      var length := FromBigEndian(first.value + others.value);
      if length == 0 || length > maximumFrameBytes {
        return Err(FrameTooLarge);
      }
      var payload := ReadExact(length);
      if payload.Err? {
        return Err(payload.error);
      }
      assert payload.value == bytes[4..4 + length] && unread == bytes[4 + length..];
      var value := format.parse(payload.value);
      if value.None? {
        return Err(InvalidFrame);
      }
      result := Ok(Some(value.value));
    }
  }

  /** Frame after frame to the end or the first error. */
  function ReadAll<V(!new)>(format: Format<V>, maximum: nat, bytes: seq<byte>,
      end: StreamEnd): (seq<V>, Option<IpcError>)
    decreases |bytes|
  {
    match ReadOne(format, maximum, bytes, end)
    case Err(e) => ([], Some(e))
    case Ok(None) => ([], None)
    case Ok(Some((v, rest))) => var later := ReadAll(format, maximum, rest, end); ([v] + later.0, later.1)
  }

  /**
   The Companion's reader takes the frames the extension's decoder gives. It ends cleanly exactly when
   the stream is closed with nothing left over, and reports the end of the stream exactly when it came
   in the middle of a frame or was not a clean one.
   */
  lemma {:induction false} ReadersAgree<V(!new)>(format: Format<V>, maximum: nat, bytes: seq<byte>, end: StreamEnd)
    ensures var (values, error) := ReadAll(format, maximum, bytes, end);
            var decoded := Decode(format, maximum, bytes);
            && values == decoded.frames
            && (error == None <==> !decoded.failed && decoded.leftover == [] && end.Closed?)
            && (error == Some(EndError(end)) <==> !decoded.failed && !(decoded.leftover == [] && end.Closed?))
    decreases |bytes|
  {
    match TakeFrame(bytes, maximum)
    case Payload(payload, rest) =>
      if format.parse(payload).Some? {
        ReadersAgree(format, maximum, rest, end);
      }
    case _ =>
  }
}

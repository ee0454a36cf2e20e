/**
 The archive inspector: one pass over a ustar stream ("ustar Interchange Format" in the pax utility of
 IEEE Std 1003.1-2017), as a function of the bytes and as a loop over chunks.
 */
module TarArchive {
  import opened Common
  import opened TarReader
  import opened TarPaths
  import opened TarHeaders
  import opened TarPax

  const MAXIMUM_EXPANDED_BYTES := 128 * 1_024 * 1_024
  const MAXIMUM_FILE_BYTES := 32 * 1_024 * 1_024
  const MAXIMUM_EXTRACTED_BYTES := 64 * 1_024 * 1_024
  const MAXIMUM_ENTRIES := 20_000
  const MAXIMUM_PAX_BYTES := 256 * 1_024

  datatype Inspection = Inspection(
    entryCount: nat, expandedBytes: nat, extractedBytes: nat, rootDirectory: string, rootPackageJson: bool)

  /** The inspector's variables between two blocks. */
  datatype Progress = Progress(
    paths: map<string, Kind>, root: Option<string>, rootPackageJson: bool, entryCount: nat, extractedBytes: nat,
    pendingPath: Option<string>, pendingPax: Option<PaxFields>)

  const START := Progress(map[], None, false, 0, 0, None, None)

  /** What one block turned out to be. */
  datatype Item =
    | PaxHeader(size: nat, global: bool, fields: PaxFields)
    | LongName(size: nat, name: string)
    | Entry(size: nat, relative: string, root: string, kind: Kind, usedPax: Option<PaxFields>, usedName: Option<string>)

  datatype Block =
    | Reject(error: ArchiveError)
    | End
    | Advance(used: nat, next: Progress, item: Item)

  function TarPadding(size: nat): (padding: nat)
    ensures (size + padding) % BLOCK == 0 && padding < BLOCK
  {
    (512 - size % 512) % 512
  }

  /** A header block, its content, and the padding that keeps the next header aligned. */
  function Span(size: nat): (span: nat)
    ensures span == BLOCK + size + TarPadding(size) && span % BLOCK == 0
  {
    BLOCK + size + TarPadding(size)
  }

  function DecimalText(digits: string): nat
    requires forall i | 0 <= i < |digits| :: '0' <= digits[i] <= '9'
  {
    if digits == [] then 0 else 10 * DecimalText(digits[..|digits| - 1]) + (digits[|digits| - 1] as int - '0' as int)
  }

  function ParsePaxSize(value: string): Result<nat, ArchiveError> {
    if value == "" || (exists i | 0 <= i < |value| :: !('0' <= value[i] <= '9'))
      || (value[0] == '0' && |value| > 1) then Err(InvalidArchive)
    else if DecimalText(value) > MAXIMUM_SAFE_INTEGER then Err(LimitsExceeded)
    else Ok(DecimalText(value))
  }

  function EntrySize(st: Progress, headerSize: nat): Result<nat, ArchiveError> {
    if st.pendingPax.Some? && st.pendingPax.value.size.Some? then ParsePaxSize(st.pendingPax.value.size.value)
      else Ok(headerSize)
  }

  /** A pax path wins over a long name, and a long name over the header's own fields. */
  function EntryPath(codec: TextCodec, header: Header, st: Progress): Option<string> {
    if st.pendingPax.Some? && st.pendingPax.value.path.Some? then st.pendingPax.value.path
    else if st.pendingPath.Some? then st.pendingPath
    else TarHeaderPath(codec, header)
  }

  function EntryKind(typeFlag: byte, size: nat, extracted: nat): Result<Kind, ArchiveError> {
    if typeFlag == 53 then (if size != 0 then Err(InvalidArchive) else Ok(Directory))
    else if typeFlag == 0 || typeFlag == 48 || typeFlag == 55 then
      (if size > MAXIMUM_FILE_BYTES || extracted + size > MAXIMUM_EXTRACTED_BYTES then Err(LimitsExceeded)
          else Ok(File))
    else Err(InvalidArchive)
  }

  /** Records one admitted entry; the root itself is not put among the paths. */
  function Admit(st: Progress, path: ArchivePath, kind: Kind, size: nat): Result<Progress, ArchiveError> {
    var cleared := st.(pendingPax := None, pendingPath := None, root := Some(path.root),
                       extractedBytes := st.extractedBytes + if kind == File then size else 0);
    if path.relative == "" then Ok(cleared)
    else if path.relative in st.paths then Err(InvalidArchive)
    else if st.entryCount + 1 > MAXIMUM_ENTRIES then Err(LimitsExceeded)
    else Ok(cleared.(paths := st.paths[path.relative := kind], entryCount := st.entryCount + 1,
                     rootPackageJson := st.rootPackageJson || (path.relative == "package.json" && kind == File)))
  }

  /** Everything about an entry but its content: its size, its path, its kind and its place. */
  function EntryBlock(codec: TextCodec, header: Header, headerSize: nat,
      st: Progress): (entry: Result<(Progress, Item), ArchiveError>)
    ensures entry.Ok? ==> entry.value.1.Entry?
  {
    match EntrySize(st, headerSize)
    case Err(e) => Err(e)
    case Ok(size) =>
      match EntryPath(codec, header, st)
      case None => Err(InvalidArchive)
      case Some(path) =>
        if st.pendingPax.Some? && st.pendingPax.value.linkpath.Some? then Err(InvalidArchive) else
        match NormalizeArchivePath(codec, path)
        case Err(e) => Err(e)
        case Ok(normalized) =>
          if st.root.Some? && st.root.value != normalized.root then Err(InvalidArchive) else
          match EntryKind(header[156], size, st.extractedBytes)
          case Err(e) => Err(e)
          case Ok(kind) =>
            match Admit(st, normalized, kind, size)
            case Err(e) => Err(e)
            case Ok(next) =>
                Ok((next, Entry(size, normalized.relative, normalized.root, kind, st.pendingPax, st.pendingPath)))
  }

  function PaxBlock(codec: TextCodec, global: bool, size: nat, rest: seq<byte>, st: Progress): (block: Block)
    ensures block.Advance? ==> BLOCK <= block.used == Span(block.item.size) <= BLOCK + |rest|
  {
    if size > MAXIMUM_PAX_BYTES then Reject(LimitsExceeded)
    else if |rest| < size + TarPadding(size) then Reject(InvalidArchive) else
    match PaxFrom(codec, rest[..size], NO_FIELDS)
    case Err(e) => Reject(e)
    case Ok(fields) =>
      if global then (if fields != NO_FIELDS then Reject(InvalidArchive)
        else Advance(Span(size), st, PaxHeader(size, true, fields)))
      else if st.pendingPax.Some? then Reject(InvalidArchive)
      else Advance(Span(size), st.(pendingPax := Some(fields)), PaxHeader(size, false, fields))
  }

  function LongNameBlock(codec: TextCodec, size: nat, rest: seq<byte>, st: Progress): (block: Block)
    ensures block.Advance? ==> BLOCK <= block.used == Span(block.item.size) <= BLOCK + |rest|
  {
    if size > MAXIMUM_PATH_BYTES + 1 || st.pendingPath.Some? then Reject(LimitsExceeded)
    else if |rest| < size + TarPadding(size) then Reject(InvalidArchive) else
    match codec.decode(rest[..size])
    case None => Reject(InvalidArchive)
    case Some(text) =>
      var name := WithoutTrailingNuls(text);
      Advance(Span(size), st.(pendingPath := Some(name)), LongName(size, name))
  }

  function ContentBlock(codec: TextCodec, header: Header, headerSize: nat, rest: seq<byte>,
      st: Progress): (block: Block)
    ensures block.Advance? ==> BLOCK <= block.used == Span(block.item.size) <= BLOCK + |rest|
  {
    PassContent(EntryBlock(codec, header, headerSize, st), rest)
  }

  /** The content of an entry, once the entry has been judged. */
  function PassContent(entry: Result<(Progress, Item), ArchiveError>, rest: seq<byte>): (block: Block)
    ensures block.Advance? ==> BLOCK <= block.used == Span(block.item.size) <= BLOCK + |rest|
  {
    match entry
    case Err(e) => Reject(e)
    case Ok((next, item)) =>
      if |rest| < item.size + TarPadding(item.size) then Reject(InvalidArchive)
      else Advance(Span(item.size), next, item)
  }

  /** What a header of recorded size `size` announces, by its type flag. */
  function TypedBlock(codec: TextCodec, header: Header, size: nat, rest: seq<byte>, st: Progress): (block: Block)
    ensures block.Advance? ==> BLOCK <= block.used == Span(block.item.size) <= BLOCK + |rest|
  {
    if header[156] == 120 || header[156] == 103 then PaxBlock(codec, header[156] == 103, size, rest, st)
    else if header[156] == 76 then LongNameBlock(codec, size, rest, st)
    else if header[156] == 75 then Reject(InvalidArchive)
    else ContentBlock(codec, header, size, rest, st)
  }

  function HeaderBlock(codec: TextCodec, header: Header, rest: seq<byte>, st: Progress): (block: Block)
    ensures block.Advance? ==> BLOCK <= block.used == Span(block.item.size) <= BLOCK + |rest|
  {
    match HeaderFault(codec, header)
    case Some(e) => Reject(e)
    case None =>
      match ParseTarOctal(codec, header[124..136])
      case Err(e) => Reject(e)
      case Ok(size) => TypedBlock(codec, header, size, rest, st)
  }

  /** The block at the front of `bytes`: two zero blocks with only zeros after them end the archive. */
  function ReadBlock(codec: TextCodec, bytes: seq<byte>, st: Progress): (block: Block)
    ensures block.Advance? ==> BLOCK <= block.used == Span(block.item.size) <= |bytes|
  {
    if |bytes| < BLOCK then Reject(InvalidArchive)
    else if AllZero(bytes[..BLOCK]) then
      (if |bytes| < 2 * BLOCK || !AllZero(bytes[BLOCK..]) then Reject(InvalidArchive) else End)
    else HeaderBlock(codec, bytes[..BLOCK], bytes[BLOCK..], st)
  }

  /** One item of the archive and the offset its header starts at. */
  datatype Placed = Placed(at: nat, item: Item)

  datatype Scanned = Scanned(progress: Progress, log: seq<Placed>)

  type BlockReader = (seq<byte>, Progress) -> Block

  /** Blocks start at multiples of 512 and end inside the bytes they are read from. */
  ghost predicate Bounded(read: BlockReader) {
    forall bytes, st {:trigger read(bytes, st)} ::
      read(bytes, st).Advance? ==> BLOCK <= read(bytes, st).used == Span(read(bytes, st).item.size) <= |bytes|
  }

  /** Block after block, with a log of what each was and where it started. */
  ghost function Scan(read: BlockReader, bytes: seq<byte>, st: Progress, log: seq<Placed>,
      at: nat): Result<Scanned, ArchiveError>
    requires Bounded(read)
    decreases |bytes|
  {
    match read(bytes, st)
    case Reject(e) => Err(e)
    case End => Ok(Scanned(st, log))
    case Advance(used, next, item) => Scan(read, bytes[used..], next, log + [Placed(at, item)], at + used)
  }

  /** The reader of tar blocks. */
  function TarReading(codec: TextCodec): (read: BlockReader)
    ensures Bounded(read) && Reads(read, codec)
  {
    (bytes: seq<byte>, st: Progress) => ReadBlock(codec, bytes, st)
  }

  ghost predicate Reads(read: BlockReader, codec: TextCodec) {
    forall bytes, st {:trigger ReadBlock(codec, bytes, st)} :: read(bytes, st) == ReadBlock(codec, bytes, st)
  }

  function Finish(st: Progress, expanded: nat): Result<Inspection, ArchiveError> {
    if st.root.None? || st.pendingPath.Some? || st.pendingPax.Some? || FileAsParent(st.paths) then Err(InvalidArchive)
    else Ok(Inspection(st.entryCount, expanded, st.extractedBytes, st.root.value, st.rootPackageJson))
  }

  /** The inspection of a whole byte sequence. */
  ghost function Inspect(codec: TextCodec, bytes: seq<byte>): Result<Inspection, ArchiveError> {
    match Scan(TarReading(codec), bytes, START, [], 0)
    case Err(e) => Err(e)
    case Ok(scanned) => Finish(scanned.progress, |bytes|)
  }

  // The reading loop

  /** How a step of the loop relates to the block at the front of what was unread before it. */
  ghost predicate Matches(block: Block, result: Result<Option<Progress>, ArchiveError>) {
    match block
    case Reject(e) => result == Err(e)
    case End => result == Ok(None)
    case Advance(_, next, _) => result == Ok(Some(next))
  }

  ghost predicate OverLimit(result: Result<Option<Progress>, ArchiveError>, length: nat, limit: nat) {
    result == Err(LimitsExceeded) && length > limit
  }

  method ReadEnd(reader: BoundedByteReader) returns (result: Result<Option<Progress>, ArchiveError>)
    requires reader.Valid()
    modifies reader
    ensures reader.StreamLength() == old(reader.StreamLength())
    ensures OverLimit(result, reader.StreamLength(), reader.maximumBytes)
         || result == (if |old(reader.Remaining())| < BLOCK || !AllZero(old(reader.Remaining())) then
            Err(InvalidArchive) else Ok(None))
    ensures result.Ok? ==> reader.totalBytes == reader.StreamLength() <= reader.maximumBytes
  {
    ghost var rest := reader.Remaining();
    var second := reader.ReadExactly(BLOCK);
    if second.Err? {
      return Err(second.error);
    }
    if second.value.None? {
      return Err(InvalidArchive);
    }
    assert rest == rest[..BLOCK] + rest[BLOCK..];
    ZeroConcat(rest[..BLOCK], rest[BLOCK..]);
    if !AllZero(second.value.value) {
      return Err(InvalidArchive);
    }
    var tail := reader.AssertRemainingZero();
    if tail.Err? {
      return Err(tail.error);
    }
    result := Ok(None);
  }

  method ReadPax(codec: TextCodec, reader: BoundedByteReader, global: bool, size: nat, st: Progress)
    returns (result: Result<Option<Progress>, ArchiveError>)
    requires reader.Valid()
    modifies reader
    ensures reader.StreamLength() == old(reader.StreamLength())
    ensures var block := PaxBlock(codec, global, size, old(reader.Remaining()), st);
            && (OverLimit(result, reader.StreamLength(), reader.maximumBytes) || Matches(block, result))
            && (result.Ok? ==>
               block.Advance? && reader.Valid() && reader.Remaining() == old(reader.Remaining())[block.used - BLOCK..])
  {
    if size > MAXIMUM_PAX_BYTES {
      return Err(LimitsExceeded);
    }
    ghost var rest := reader.Remaining();
    var payload := reader.ReadRequired(size);
    if payload.Err? {
      return Err(payload.error);
    }
    var skipped := reader.Skip(TarPadding(size));
    if skipped.Err? {
      return Err(skipped.error);
    }
    assert rest[size..][TarPadding(size)..] == rest[size + TarPadding(size)..];
    var fields := ParsePax(codec, payload.value);
    if fields.Err? {
      return Err(fields.error);
    }
    if global {
      if fields.value.path.Some? || fields.value.linkpath.Some? || fields.value.size.Some? {
        return Err(InvalidArchive);
      }
      return Ok(Some(st));
    }
    if st.pendingPax.Some? {
      return Err(InvalidArchive);
    }
    result := Ok(Some(st.(pendingPax := Some(fields.value))));
  }

  method ReadLongName(codec: TextCodec, reader: BoundedByteReader, size: nat, st: Progress)
    returns (result: Result<Option<Progress>, ArchiveError>)
    requires reader.Valid()
    modifies reader
    ensures reader.StreamLength() == old(reader.StreamLength())
    ensures var block := LongNameBlock(codec, size, old(reader.Remaining()), st);
            && (OverLimit(result, reader.StreamLength(), reader.maximumBytes) || Matches(block, result))
            && (result.Ok? ==>
               block.Advance? && reader.Valid() && reader.Remaining() == old(reader.Remaining())[block.used - BLOCK..])
  {
    if size > MAXIMUM_PATH_BYTES + 1 || st.pendingPath.Some? {
      return Err(LimitsExceeded);
    }
    ghost var rest := reader.Remaining();
    var payload := reader.ReadRequired(size);
    if payload.Err? {
      return Err(payload.error);
    }
    var text := codec.decode(payload.value);
    if text.None? {
      return Err(InvalidArchive);
    }
    var skipped := reader.Skip(TarPadding(size));
    if skipped.Err? {
      return Err(skipped.error);
    }
    assert rest[size..][TarPadding(size)..] == rest[size + TarPadding(size)..];
    result := Ok(Some(st.(pendingPath := Some(WithoutTrailingNuls(text.value)))));
  }

  method SkipContent(reader: BoundedByteReader, entry: Result<(Progress, Item), ArchiveError>)
      returns (result: Result<Option<Progress>, ArchiveError>)
    requires reader.Valid()
    modifies reader
    ensures reader.StreamLength() == old(reader.StreamLength())
    ensures var block := PassContent(entry, old(reader.Remaining()));
            && (OverLimit(result, reader.StreamLength(), reader.maximumBytes) || Matches(block, result))
            && (result.Ok? ==>
               block.Advance? && reader.Valid() && reader.Remaining() == old(reader.Remaining())[block.used - BLOCK..])
  {
    if entry.Err? {
      return Err(entry.error);
    }
    var (next, item) := entry.value;
    var skipped := reader.Skip(item.size + TarPadding(item.size));
    if skipped.Err? {
      return Err(skipped.error);
    }
    result := Ok(Some(next));
  }

  /** The entry itself is judged first; only then is its content passed over. */
  method ReadEntry(codec: TextCodec, reader: BoundedByteReader, header: Header, headerSize: nat, st: Progress)
    returns (result: Result<Option<Progress>, ArchiveError>)
    requires reader.Valid()
    modifies reader
    ensures reader.StreamLength() == old(reader.StreamLength())
    ensures var block := ContentBlock(codec, header, headerSize, old(reader.Remaining()), st);
            && (OverLimit(result, reader.StreamLength(), reader.maximumBytes) || Matches(block, result))
            && (result.Ok? ==>
               block.Advance? && reader.Valid() && reader.Remaining() == old(reader.Remaining())[block.used - BLOCK..])
  {
    var entry := EntryBlock(codec, header, headerSize, st);
    assert ContentBlock(codec, header, headerSize, reader.Remaining(), st) == PassContent(entry, reader.Remaining());
    result := SkipContent(reader, entry);
  }

  method ReadTyped(codec: TextCodec, reader: BoundedByteReader, header: Header, size: nat, st: Progress)
    returns (result: Result<Option<Progress>, ArchiveError>)
    requires reader.Valid()
    modifies reader
    ensures reader.StreamLength() == old(reader.StreamLength())
    ensures var block := TypedBlock(codec, header, size, old(reader.Remaining()), st);
            && (OverLimit(result, reader.StreamLength(), reader.maximumBytes) || Matches(block, result))
            && (result.Ok? ==>
               block.Advance? && reader.Valid() && reader.Remaining() == old(reader.Remaining())[block.used - BLOCK..])
  {
    if header[156] == 120 || header[156] == 103 {
      result := ReadPax(codec, reader, header[156] == 103, size, st);
    } else if header[156] == 76 {
      result := ReadLongName(codec, reader, size, st);
    } else if header[156] == 75 {
      result := Err(InvalidArchive);
    } else {
      result := ReadEntry(codec, reader, header, size, st);
    }
  }

  /** What a header that is not all zeros announces. */
  method ReadHeaderBlock(codec: TextCodec, reader: BoundedByteReader, header: Header, st: Progress)
    returns (result: Result<Option<Progress>, ArchiveError>)
    requires reader.Valid()
    modifies reader
    ensures reader.StreamLength() == old(reader.StreamLength())
    ensures var block := HeaderBlock(codec, header, old(reader.Remaining()), st);
            && (OverLimit(result, reader.StreamLength(), reader.maximumBytes) || Matches(block, result))
            && (result.Ok? ==>
               block.Advance? && reader.Valid() && reader.Remaining() == old(reader.Remaining())[block.used - BLOCK..])
  {
    var fault := ValidateTarHeader(codec, header);
    if fault.Some? {
      return Err(fault.value);
    }
    var size := ParseTarOctal(codec, header[124..136]);
    if size.Err? {
      return Err(size.error);
    }
    result := ReadTyped(codec, reader, header, size.value, st);
  }

  /** One turn of the inspector's loop. */
  method NextBlock(codec: TextCodec, ghost read: BlockReader, reader: BoundedByteReader, st: Progress)
    returns (result: Result<Option<Progress>, ArchiveError>)
    requires reader.Valid() && Reads(read, codec)
    modifies reader
    ensures reader.StreamLength() == old(reader.StreamLength())
    ensures var block := read(old(reader.Remaining()), st);
            && (OverLimit(result, reader.StreamLength(), reader.maximumBytes) || Matches(block, result))
            && (result.Ok? && result.value.Some? ==>
                  && block.Advance? && block.used <= |old(reader.Remaining())|
                  && reader.Valid() && reader.Remaining() == old(reader.Remaining())[block.used..])
            && (result == Ok(None) ==> reader.totalBytes == reader.StreamLength() <= reader.maximumBytes)
  {
    ghost var bytes := reader.Remaining();
    ghost var block := ReadBlock(codec, bytes, st);
    var front := reader.ReadExactly(BLOCK);
    if front.Err? {
      return Err(front.error);
    }
    if front.value.None? {
      return Err(InvalidArchive);
    }
    var header: Header := front.value.value;
    if AllZero(header) {
      result := ReadEnd(reader);
      return;
    }
    assert forall n | 0 <= n <= |bytes| - BLOCK :: bytes[BLOCK..][n..] == bytes[BLOCK + n..];
    result := ReadHeaderBlock(codec, reader, header, st);
  }

  /** The inspector's loop: block after block until the end of the archive or the first fault. */
  method ScanStream(codec: TextCodec, ghost read: BlockReader, reader: BoundedByteReader)
      returns (result: Result<Progress, ArchiveError>)
    requires reader.Valid() && Bounded(read) && Reads(read, codec)
    modifies reader
    ensures reader.StreamLength() == old(reader.StreamLength())
    ensures || (result == Err(LimitsExceeded) && reader.StreamLength() > reader.maximumBytes)
            || (match Scan(read, old(reader.Remaining()), START, [], 0)
                case Err(e) => result == Err(e)
                case Ok(scanned) => result == Ok(scanned.progress))
    ensures result.Ok? ==> reader.totalBytes == reader.StreamLength() <= reader.maximumBytes
  {
    ghost var scan := Scan(read, reader.Remaining(), START, [], 0);
    ghost var log: seq<Placed>, at: nat := [], 0;
    var st := START;
    while true
      invariant reader.Valid() && reader.StreamLength() == old(reader.StreamLength())
      invariant scan == Scan(read, reader.Remaining(), st, log, at)
      decreases |reader.Remaining()|
    {
      ghost var block := read(reader.Remaining(), st);
      var turn := NextBlock(codec, read, reader, st);
      if turn.Err? {
        return Err(turn.error);
      }
      if turn.value.None? {
        return Ok(st);
      }
      st := turn.value.value;
      log, at := log + [Placed(at, block.item)], at + block.used;
    }
  }

  /**
   Inspects a stream of expanded chunks. However the bytes are cut, the answer is that of the whole
   byte sequence, unless they exceed the limit: then some error is certain.
   */
  method InspectStream(codec: TextCodec, stream: seq<seq<byte>>) returns (result: Result<Inspection, ArchiveError>)
    ensures |Flatten(stream)| <= MAXIMUM_EXPANDED_BYTES ==> result == Inspect(codec, Flatten(stream))
    ensures |Flatten(stream)| > MAXIMUM_EXPANDED_BYTES ==> result.Err?
  {
    var reader := new BoundedByteReader(stream, MAXIMUM_EXPANDED_BYTES);
    var scanned := ScanStream(codec, TarReading(codec), reader);
    if scanned.Err? {
      return Err(scanned.error);
    }
    var st := scanned.value;
    var found := HasFileAsParent(st.paths);
    if st.root.None? || st.pendingPath.Some? || st.pendingPax.Some? || found {
      return Err(InvalidArchive);
    }
    result := Ok(Inspection(st.entryCount, reader.totalBytes, st.extractedBytes, st.root.value, st.rootPackageJson));
  }

  /** Two ways of cutting the same bytes are both accepted with one result or both refused. */
  method InspectTwice(codec: TextCodec, left: seq<seq<byte>>, right: seq<seq<byte>>)
    returns (l: Result<Inspection, ArchiveError>, r: Result<Inspection, ArchiveError>)
    requires Flatten(left) == Flatten(right)
    ensures l.Ok? <==> r.Ok?
    ensures l.Ok? ==> l == r && l.value.expandedBytes == |Flatten(left)|
    ensures |Flatten(left)| <= MAXIMUM_EXPANDED_BYTES ==> l == r
  {
    l := InspectStream(codec, left);
    r := InspectStream(codec, right);
  }
}

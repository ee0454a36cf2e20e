/**
 Why an archive is refused: the first block that is none, and which of the three errors it gives, in terms of its
 bytes and of the items before it. The items are as many as can be read, and the fault is the first one in the order in
 which they are looked for.
 */
module TarRefusals {
  import opened Common
  import opened Sorting
  import opened TarReader
  import opened TarPaths
  import opened TarHeaders
  import opened TarPax
  import opened TarArchive
  import opened TarProperties

  // One block

  /** A numeric field with a number too large to hold. */
  ghost predicate TooLarge(codec: TextCodec, bytes: seq<byte>) {
    && (bytes != [] ==> bytes[0] < 128)
    && codec.decode(bytes).Some?
    && exists left, digits, right {:trigger left + digits + right} ::
         && Filter(codec.decode(bytes).value, (c: char) => c != '\0') == left + digits + right
         && Blank(left) && OctalDigits(digits) && Blank(right) && InBaseEight(digits) > 9_007_199_254_740_991
  }

  /** The size of an entry: what the waiting pax header says, or what the header itself recorded. */
  ghost predicate SizeFault(log: Log, error: ArchiveError) {
    match Waiting(log, true)
    case Some(Pax(fields)) =>
      && fields.size.Some? && (forall n: nat :: fields.size.value == Numeral10(n) ==> n > 9_007_199_254_740_991)
      && error == if exists n: nat :: fields.size.value == Numeral10(n) then LimitsExceeded else InvalidArchive
    case _ => false
  }

  ghost predicate SizeIs(log: Log, recorded: nat, size: nat) {
    match Waiting(log, true)
    case Some(Pax(fields)) => if fields.size.Some? then fields.size.value == Numeral10(size) else size == recorded
    case _ => size == recorded
  }

  /** The path of an entry: from the waiting pax header, the waiting long name, or the header, in that order. */
  ghost predicate PathIs(codec: TextCodec, header: Header, log: Log, path: string) {
    match (Waiting(log, true), Waiting(log, false))
    case (Some(Pax(fields)), Some(Long(name))) => path == if fields.path.Some? then fields.path.value else name
    case (Some(Pax(fields)), _) => if fields.path.Some? then path == fields.path.value
        else HeaderNames(codec, header, path)
    case (_, Some(Long(name))) => path == name
    case _ => HeaderNames(codec, header, path)
  }

  ghost predicate LinkWaits(log: Log) {
    Waiting(log, true).Some? && Waiting(log, true).value.Pax? && Waiting(log, true).value.fields.linkpath.Some?
  }

  ghost predicate OtherRoot(log: Log, root: string) {
    exists i :: 0 <= i < |log| && log[i].item.Entry? && log[i].item.root != root
  }

  ghost predicate NamedBefore(log: Log, relative: string) {
    exists i :: Named(log, i) && log[i].item.relative == relative
  }

  predicate FileFlag(flag: byte) {
    flag == 0 || flag == 48 || flag == 55
  }

  /** What is wrong with an entry at a permitted path, or that its content is cut short. */
  ghost predicate AtFault(flag: byte, size: nat, log: Log, root: string, relative: string, error: ArchiveError) {
    error ==
      if OtherRoot(log, root) then InvalidArchive
      else if FileFlag(flag) && (size > 33_554_432 || FileBytes(log) + size > 67_108_864) then LimitsExceeded
      else if !FileFlag(flag) && (flag != 53 || size != 0) then InvalidArchive
      else if relative != "" && NamedBefore(log, relative) then InvalidArchive
      else if relative != "" && NamedEntries(log) + 1 > 20_000 then LimitsExceeded
      else InvalidArchive
  }

  /** What is wrong with an entry whose size and path are known, in the order it is looked for. */
  ghost predicate PlaceFault(codec: TextCodec, flag: byte, size: nat, path: string, log: Log, error: ArchiveError) {
    if LinkWaits(log) || !ProperPath(codec, LessSlash(path)) then error == InvalidArchive else
    exists root, relative {:trigger Under(LessSlash(path), root, relative)} ::
      && Under(LessSlash(path), root, relative)
      && if OffLimits(LessSlash(path), relative) then error == UnsupportedSource
         else AtFault(flag, size, log, root, relative, error)
  }

  ghost predicate EntryFault(codec: TextCodec, header: Header, recorded: nat, log: Log, error: ArchiveError) {
    || SizeFault(log, error)
    || exists size: nat {:trigger SizeIs(log, recorded, size)} ::
         && SizeIs(log, recorded, size) && size <= 9_007_199_254_740_991
         && if forall path :: !PathIs(codec, header, log, path) then error == InvalidArchive
            else exists path ::
              PathIs(codec, header, log, path) && PlaceFault(codec, header[156], size, path, log, error)
  }

  /** What is wrong behind a sound header of recorded size `size`, by its type flag. */
  ghost predicate TypeFault(codec: TextCodec, header: Header, size: nat, log: Log, error: ArchiveError) {
    if header[156] == 120 || header[156] == 103 then
      error == if size > 262_144 then LimitsExceeded else InvalidArchive
    else if header[156] == 76 then
      error == if size > 1_025 || Waiting(log, false).Some? then LimitsExceeded else InvalidArchive
    else if header[156] == 75 then error == InvalidArchive
    else EntryFault(codec, header, size, log, error)
  }

  ghost predicate HeaderIsFault(codec: TextCodec, header: Header, log: Log, error: ArchiveError) {
    if !NulText(codec, header[257..263], "ustar") then error == InvalidArchive
    else if TooLarge(codec, header[148..156]) then error == LimitsExceeded
    else if !OctalField(codec, header[148..156], SumOf(Blanked(header))) then error == InvalidArchive
    else if TooLarge(codec, header[124..136]) then error == LimitsExceeded
    else if forall n: nat :: !OctalField(codec, header[124..136], n) then error == InvalidArchive
    else exists n: nat :: OctalField(codec, header[124..136], n) && TypeFault(codec, header, n, log, error)
  }

  /** What is wrong with the bytes after some items: too few, zeros that do not go on, or a header or content. */
  ghost predicate IsFault(codec: TextCodec, bytes: seq<byte>, log: Log, error: ArchiveError) {
    if |bytes| < BLOCK || AllZero(bytes[..BLOCK]) then error == InvalidArchive
    else HeaderIsFault(codec, bytes[..BLOCK], log, error)
  }

  // Reading agrees

  lemma {:induction false} TooLargeExactly(codec: TextCodec, bytes: seq<byte>)
    ensures ParseTarOctal(codec, bytes) == Err(LimitsExceeded) <==> TooLarge(codec, bytes)
    ensures ParseTarOctal(codec, bytes).Err? ==> ParseTarOctal(codec, bytes).error in {LimitsExceeded, InvalidArchive}
  {
    if ParseTarOctal(codec, bytes) == Err(LimitsExceeded) {
      TooLargeRead(codec, bytes);
    }
    if TooLarge(codec, bytes) {
      var left, digits, right :| Filter(codec.decode(bytes).value, (c: char) => c != '\0') == left + digits + right
        && Blank(left) && OctalDigits(digits) && Blank(right) && InBaseEight(digits) > 9_007_199_254_740_991;
      NulsFiltered(codec.decode(bytes).value);
      DigitsTrimmed(left, digits, right);
      BaseEight(digits);
    }
  }

  lemma {:induction false} TooLargeRead(codec: TextCodec, bytes: seq<byte>)
    requires ParseTarOctal(codec, bytes) == Err(LimitsExceeded)
    ensures TooLarge(codec, bytes)
  {
    var stripped := WithoutNuls(codec.decode(bytes).value);
    NulsFiltered(codec.decode(bytes).value);
    var digits := TrimEnd(TrimStart(stripped));
    var left, right := TrimParts(stripped);
    assert OctalDigits(digits);
    BaseEight(digits);
    assert stripped == left + digits + right;
  }

  lemma {:induction false} PaxSizeFault(text: string)
    ensures ParsePaxSize(text).Err? <==> forall n: nat :: text == Numeral10(n) ==> n > 9_007_199_254_740_991
    ensures ParsePaxSize(text).Err? ==>
              ParsePaxSize(text).error == if exists n: nat :: text == Numeral10(n) then LimitsExceeded
                  else InvalidArchive
  {
    forall n: nat ensures ParsePaxSize(text) == Ok(n) <==> text == Numeral10(n) && n <= 9_007_199_254_740_991 {
      PaxSizeExactly(text, n);
    }
    forall n: nat | text == Numeral10(n) ensures Plain10(text) && DecimalText(text) == n {
      NumeralPlain(n);
    }
    if Plain10(text) {
      PlainNumeral(text);
    }
  }

  // What is wrong with one entry

  lemma {:induction false} PendingWaits(st: Progress, log: Log)
    requires Headers(st, log)
    ensures Waiting(log, true) == if st.pendingPax.Some? then Some(Pax(st.pendingPax.value)) else None
    ensures Waiting(log, false) == if st.pendingPath.Some? then Some(Long(st.pendingPath.value)) else None
  {
    assert Waiting(log, true) == PendingOf(st, true) && Waiting(log, false) == PendingOf(st, false);
  }

  lemma {:induction false} SizeRead(st: Progress, log: Log, recorded: nat)
    requires Headers(st, log) && recorded <= MAXIMUM_SAFE_INTEGER
    ensures match EntrySize(st, recorded)
            case Err(e) => SizeFault(log, e)
            case Ok(size) => SizeIs(log, recorded, size) && size <= 9_007_199_254_740_991
  {
    PendingWaits(st, log);
    if st.pendingPax.Some? && st.pendingPax.value.size.Some? {
      var text := st.pendingPax.value.size.value;
      PaxSizeFault(text);
      if ParsePaxSize(text).Ok? {
        PaxSizeExactly(text, ParsePaxSize(text).value);
      }
    }
  }

  lemma {:induction false} PathRead(codec: TextCodec, header: Header, st: Progress, log: Log, path: string)
    requires Headers(st, log)
    ensures EntryPath(codec, header, st) == Some(path) <==> PathIs(codec, header, log, path)
  {
    PendingWaits(st, log);
    HeaderPathExactly(codec, header, path);
  }

  lemma {:induction false} RootRead(st: Progress, log: Log, root: string)
    requires OneRoot(st.root, log)
    ensures st.root.Some? && st.root.value != root <==> OtherRoot(log, root)
  {
    if st.root.Some? && st.root.value != root {
      var i :| 0 <= i < |log| && log[i].item.Entry?;
    }
  }

  lemma {:induction false} NamesRead(st: Progress, log: Log, relative: string)
    requires Records(st.paths, log)
    ensures relative in st.paths <==> NamedBefore(log, relative)
  {}

  /** What follows once a path is taken apart: its root, the kind and size of the entry, and its place in the tree. */
  function Placing(st: Progress, flag: byte, size: nat, taken: ArchivePath): Option<ArchiveError> {
    if st.root.Some? && st.root.value != taken.root then Some(InvalidArchive) else
    match EntryKind(flag, size, st.extractedBytes)
    case Err(e) => Some(e)
    case Ok(kind) =>
      match Admit(st, taken, kind, size)
      case Err(e) => Some(e)
      case Ok(_) => None
  }

  /** The error an entry is refused with, or that of a content that is cut short. */
  function ErrorOf(entry: Result<(Progress, Item), ArchiveError>): ArchiveError {
    if entry.Err? then entry.error else InvalidArchive
  }

  lemma {:induction false} PlacingRead(st: Progress, log: Log, flag: byte, size: nat, root: string, relative: string)
    requires Content(st, log)
    ensures var fault := Placing(st, flag, size, ArchivePath(relative, root));
            AtFault(flag, size, log, root, relative, if fault.Some? then fault.value else InvalidArchive)
  {
    RootRead(st, log, root);
    NamesRead(st, log, relative);
  }

  /** What becomes of a path: the error it is refused with, or that of what follows. */
  function Taking(codec: TextCodec, st: Progress, flag: byte, size: nat, path: string): ArchiveError {
    match NormalizeArchivePath(codec, path)
    case Err(e) => e
    case Ok(taken) => match Placing(st, flag, size, taken) case None => InvalidArchive case Some(e) => e
  }

  lemma {:induction false} PlaceRead(codec: TextCodec, st: Progress, log: Log, flag: byte, size: nat, path: string)
    requires Content(st, log)
    ensures PlaceFault(codec, flag, size, path, log,
                       if LinkWaits(log) then InvalidArchive else Taking(codec, st, flag, size, path))
  {
    if !ProperPath(codec, LessSlash(path)) {
      PathExactly(codec, path, "", "");
    } else if !LinkWaits(log) {
      var root, relative := ProperUnder(codec, LessSlash(path));
      PathExactly(codec, path, root, relative);
      PlacingRead(st, log, flag, size, root, relative);
      assert Under(LessSlash(path), root, relative);
    }
  }

  lemma {:induction false} EntryErrors(codec: TextCodec, header: Header, recorded: nat, st: Progress, path: string)
    requires EntrySize(st, recorded).Ok? && EntryPath(codec, header, st) == Some(path)
    ensures ErrorOf(EntryBlock(codec, header, recorded, st)) ==
            if st.pendingPax.Some? && st.pendingPax.value.linkpath.Some? then InvalidArchive else
            Taking(codec, st, header[156], EntrySize(st, recorded).value, path)
  {}

  lemma {:induction false} EntryRefused(codec: TextCodec, header: Header, recorded: nat, st: Progress, log: Log)
    requires Content(st, log) && recorded <= MAXIMUM_SAFE_INTEGER
    ensures EntryFault(codec, header, recorded, log, ErrorOf(EntryBlock(codec, header, recorded, st)))
  {
    SizeRead(st, log, recorded);
    PendingWaits(st, log);
    if EntrySize(st, recorded).Ok? {
      var size := EntrySize(st, recorded).value;
      forall path ensures EntryPath(codec, header, st) == Some(path) <==> PathIs(codec, header, log, path) {
        PathRead(codec, header, st, log, path);
      }
      if EntryPath(codec, header, st).Some? {
        var path := EntryPath(codec, header, st).value;
        EntryErrors(codec, header, recorded, st, path);
        PlaceRead(codec, st, log, header[156], size, path);
        assert PathIs(codec, header, log, path);
      }
      assert SizeIs(log, recorded, size);
    }
  }

  // What is wrong with one block

  lemma {:induction false} PaxErrors(codec: TextCodec, payload: seq<byte>, fields: PaxFields)
    ensures PaxFrom(codec, payload, fields).Err? ==> PaxFrom(codec, payload, fields).error == InvalidArchive
    decreases |payload|
  {
    if payload != [] && FrontRecord(codec, payload).Some? {
      var (length, text) := FrontRecord(codec, payload).value;
      PaxStep(codec, payload, fields, length, text);
      if SetField(fields, text).Some? {
        PaxErrors(codec, payload[length..], SetField(fields, text).value);
      }
    } else {
      PaxStops(codec, payload, fields);
    }
  }

  lemma {:induction false} TypeRefused(codec: TextCodec, header: Header, size: nat, rest: seq<byte>, st: Progress,
      log: Log)
    requires Content(st, log) && size <= MAXIMUM_SAFE_INTEGER && TypedBlock(codec, header, size, rest, st).Reject?
    ensures TypeFault(codec, header, size, log, TypedBlock(codec, header, size, rest, st).error)
  {
    PendingWaits(st, log);
    if header[156] == 120 || header[156] == 103 {
      if size <= |rest| {
        PaxErrors(codec, rest[..size], NO_FIELDS);
      }
    } else if header[156] != 76 && header[156] != 75 {
      EntryRefused(codec, header, size, st, log);
    }
  }

  lemma {:induction false} HeaderRefused(codec: TextCodec, header: Header, rest: seq<byte>, st: Progress, log: Log)
    requires Content(st, log) && HeaderBlock(codec, header, rest, st).Reject?
    ensures HeaderIsFault(codec, header, log, HeaderBlock(codec, header, rest, st).error)
  {
    NulTextExactly(codec, header[257..263], "ustar");
    SumOfBlanked(header, 0);
    assert Blanked(header)[0..] == Blanked(header);
    OctalExactly(codec, header[148..156], HeaderSum(header, 0));
    TooLargeExactly(codec, header[148..156]);
    TooLargeExactly(codec, header[124..136]);
    forall n: nat
      ensures OctalField(codec, header[124..136], n) <==> ParseTarOctal(codec, header[124..136]) == Ok(n)
    {
      OctalExactly(codec, header[124..136], n);
    }
    if HeaderFault(codec, header).None? && ParseTarOctal(codec, header[124..136]).Ok? {
      TypeRefused(codec, header, ParseTarOctal(codec, header[124..136]).value, rest, st, log);
    }
  }

  lemma {:induction false} BlockRefused(codec: TextCodec, bytes: seq<byte>, st: Progress, log: Log)
    requires Content(st, log) && ReadBlock(codec, bytes, st).Reject?
    ensures IsFault(codec, bytes, log, ReadBlock(codec, bytes, st).error)
  {
    if |bytes| >= BLOCK && !AllZero(bytes[..BLOCK]) {
      HeaderRefused(codec, bytes[..BLOCK], bytes[BLOCK..], st, log);
    }
  }

  // Where the scan stops

  /** Items from the start of the bytes, in place and within the limits so far; what follows them is not looked at. */
  ghost predicate Begins(denotes: HeaderLaw, bytes: seq<byte>, log: Log) {
    && Chained(log) && EndOf(log) <= |bytes| && (forall placed | placed in log :: PlacedIn(denotes, bytes, placed))
    && DistinctPaths(log) && SizesInBounds(log) && NamedEntries(log) <= 20_000 && FileBytes(log) <= 67_108_864
    && (forall i, j | 0 <= i < |log| && 0 <= j < |log| && log[i].item.Entry? && log[j].item.Entry? ::
       log[i].item.root == log[j].item.root)
    && Paired(log, true) && Paired(log, false)
  }

  /** Items after which no item follows. */
  ghost predicate Longest(denotes: HeaderLaw, bytes: seq<byte>, log: Log) {
    Begins(denotes, bytes, log) && forall placed {:trigger log + [placed]} :: !Begins(denotes, bytes, log + [placed])
  }

  lemma {:induction false} NextFits(st: Progress, denotes: HeaderLaw, bytes: seq<byte>, log: Log, placed: Placed)
    requires Content(st, log) && Begins(denotes, bytes, log + [placed])
    ensures Lets(st, placed.item) && PlacedIn(denotes, bytes, placed) && placed.at == EndOf(log)
  {
    var more, k := log + [placed], |log|;
    assert more[..k] == log && more[k] == placed && placed in more;
    NextPending(st, more, k);
    NextCounts(st, more, k);
    if placed.item.Entry? {
      NextRoot(st, more, k);
      if placed.item.relative != "" {
        NextPath(st, more, k);
      }
    }
  }

  lemma {:induction false} StoppedLongest(codec: TextCodec, read: BlockReader, denotes: HeaderLaw, bytes: seq<byte>,
      st: Progress, log: Log)
    requires Reads(read, codec) && Agrees(denotes, codec) && Content(st, log) && Begins(denotes, bytes, log)
    requires !read(bytes[EndOf(log)..], st).Advance?
    ensures Longest(denotes, bytes, log)
  {
    forall placed ensures !Begins(denotes, bytes, log + [placed]) {
      if Begins(denotes, bytes, log + [placed]) {
        NextFits(st, denotes, bytes, log, placed);
        BlockAdvances(codec, read, denotes, bytes, st, placed);
      }
    }
  }

  lemma {:induction false} ContentBegins(st: Progress, denotes: HeaderLaw, fits: PlaceLaw, bytes: seq<byte>, log: Log,
      at: nat)
    requires Fits(fits, denotes, bytes) && Content(st, log) && Placement(fits, |bytes|, log, at)
    ensures Begins(denotes, bytes, log) && at == EndOf(log)
  {
    forall placed | placed in log ensures PlacedIn(denotes, bytes, placed) {
      var i :| 0 <= i < |log| && log[i] == placed;
      assert fits(log[i]);
    }
    assert Paired(log, true) && Paired(log, false);
  }

  /** A scan that fails stops at a block that is rejected, with all that holds along the way. */
  lemma {:induction false} ScanStops(read: BlockReader, holds: ScanProperty, bytes: seq<byte>, st: Progress, log: Log,
      at: nat) returns (last: Progress, items: Log, end: nat)
    requires Bounded(read) && Kept(read, holds, bytes) && at <= |bytes| && holds(st, log, at)
    requires Scan(read, bytes[at..], st, log, at).Err?
    ensures end <= |bytes| && holds(last, items, end)
    ensures read(bytes[end..], last) == Reject(Scan(read, bytes[at..], st, log, at).error)
    decreases |bytes| - at
  {
    var block := read(bytes[at..], st);
    if block.Advance? {
      assert bytes[at..][block.used..] == bytes[at + block.used..];
      last, items, end := ScanStops(read, holds, bytes, block.next, log + [Placed(at, block.item)], at + block.used);
    } else {
      last, items, end := st, log, at;
    }
  }

  lemma {:induction false} BothKept(read: BlockReader, one: ScanProperty, other: ScanProperty, both: ScanProperty,
      bytes: seq<byte>)
    requires Bounded(read) && Kept(read, one, bytes) && Kept(read, other, bytes)
    requires forall st, log, at: nat {:trigger both(st, log, at)} ::
             both(st, log, at) == (one(st, log, at) && other(st, log, at))
    ensures Kept(read, both, bytes)
  {
    forall st, log, at: nat | at <= |bytes| && both(st, log, at)
      ensures var block := read(bytes[at..], st);
              block.Advance? ==> both(block.next, log + [Placed(at, block.item)], at + block.used)
    {
      assert one(st, log, at) && other(st, log, at);
    }
  }

  lemma {:induction false} ScanRefused(codec: TextCodec, bytes: seq<byte>) returns (log: Log)
    requires Scan(TarReading(codec), bytes, START, [], 0).Err?
    ensures Longest(Denoting(codec), bytes, log) && !Terminated(bytes, log)
            && IsFault(codec, bytes[EndOf(log)..], log, Scan(TarReading(codec), bytes, START, [], 0).error)
  {
    var read, denotes := TarReading(codec), Denoting(codec);
    var fits: PlaceLaw := placed => PlacedIn(denotes, bytes, placed);
    var placement: ScanProperty := (st, log, at: nat) => Placement(fits, |bytes|, log, at);
    var content: ScanProperty := (st, log, at: nat) => Content(st, log);
    var both: ScanProperty := (st, log, at: nat) => placement(st, log, at) && content(st, log, at);
    PlacementKept(codec, read, denotes, fits, bytes, placement);
    ContentKept(codec, read, denotes, bytes, content);
    BothKept(read, placement, content, both, bytes);
    assert bytes[0..] == bytes && Content(START, []);
    var last, items, end := ScanStops(read, both, bytes, START, [], 0);
    assert placement(last, items, end) && content(last, items, end);
    log := items;
    ContentBegins(last, denotes, fits, bytes, log, end);
    StoppedLongest(codec, read, denotes, bytes, last, log);
    assert read(bytes[end..], last) == ReadBlock(codec, bytes[end..], last);
    BlockRefused(codec, bytes[end..], last, log);
    if Terminated(bytes, log) {
      EndScanned(codec, read, bytes[end..], last);
    }
  }

  lemma {:induction false} EndRefused(codec: TextCodec, bytes: seq<byte>)
    requires Inspect(codec, bytes).Err? && Scan(TarReading(codec), bytes, START, [], 0).Ok?
    ensures Inspect(codec, bytes) == Err(InvalidArchive)
    ensures Longest(Denoting(codec), bytes, LogOf(codec, bytes)) && Terminated(bytes, LogOf(codec, bytes))
  {
    var read, denotes, log := TarReading(codec), Denoting(codec), LogOf(codec, bytes);
    PlacementHolds(codec, bytes);
    ContentHolds(codec, bytes);
    var st := Scan(read, bytes, START, [], 0).value.progress;
    assert Paired(log, true) && Paired(log, false);
    EndScanned(codec, read, bytes[EndOf(log)..], st);
    StoppedLongest(codec, read, denotes, bytes, st, log);
  }

  /**
   A refused archive gets the error of its first fault: what follows the longest run of items is no block of the end,
   and the error is the one its bytes call for, or it is, and the archive is invalid as a whole.
   */
  lemma {:induction false} RefusedWith(codec: TextCodec, bytes: seq<byte>) returns (log: Log)
    requires Inspect(codec, bytes).Err?
    ensures Longest(Denoting(codec), bytes, log)
    ensures var error := Inspect(codec, bytes).error;
            if Terminated(bytes, log) then error == InvalidArchive
            else IsFault(codec, bytes[EndOf(log)..], log, error)
  {
    if Scan(TarReading(codec), bytes, START, [], 0).Ok? {
      EndRefused(codec, bytes);
      log := LogOf(codec, bytes);
    } else {
      log := ScanRefused(codec, bytes);
    }
  }
}

/**
 What an accepted archive looks like: its bytes are cut into blocks with nothing left over, its entries form one tree
 whose numbers match the report, and each extended header serves one entry. Whatever looks like that is accepted, and
 read in the one way it can be.
 */
module TarProperties {
  import opened Common
  import opened TarReader
  import opened TarPaths
  import opened TarHeaders
  import opened TarPax
  import opened TarArchive

  type Log = seq<Placed>

  // What one block does

  /** How an item changes the inspector's variables. */
  ghost predicate Moves(st: Progress, next: Progress, item: Item) {
    match item
    case PaxHeader(_, global, fields) =>
      if global then next == st && fields == NO_FIELDS
        else st.pendingPax.None? && next == st.(pendingPax := Some(fields))
    case LongName(_, name) => st.pendingPath.None? && next == st.(pendingPath := Some(name))
    case Entry(size, relative, root, kind, usedPax, usedName) =>
      && usedPax == st.pendingPax && usedName == st.pendingPath
      && next.pendingPax.None? && next.pendingPath.None?
      && (st.root.None? || st.root == Some(root)) && next.root == Some(root)
      && (if kind == Directory then size == 0
         else size <= MAXIMUM_FILE_BYTES && next.extractedBytes <= MAXIMUM_EXTRACTED_BYTES)
      && next.extractedBytes == st.extractedBytes + size
      && (if relative == "" then
            next.paths == st.paths && next.entryCount == st.entryCount && next.rootPackageJson == st.rootPackageJson
          else
            && relative !in st.paths && next.paths == st.paths[relative := kind]
            && next.entryCount == st.entryCount + 1 <= MAXIMUM_ENTRIES
            && next.rootPackageJson == (st.rootPackageJson || (relative == "package.json" && kind == File)))
  }

  /** How an item relates to the header it was read from and the content behind it. */
  ghost predicate Denotes(codec: TextCodec, header: Header, content: seq<byte>, item: Item) {
    HeaderSays(codec, header, item) && ContentSays(codec, content, item)
  }

  ghost predicate HeaderSays(codec: TextCodec, header: Header, item: Item) {
    && !AllZero(header) && HeaderFault(codec, header).None?
    && ParseTarOctal(codec, header[124..136]).Ok?
    && var recorded := ParseTarOctal(codec, header[124..136]).value;
       match item
       case PaxHeader(size, global, _) => header[156] == (if global then 103 else 120)
           && size == recorded <= MAXIMUM_PAX_BYTES
       case LongName(size, _) => header[156] == 76 && size == recorded <= MAXIMUM_PATH_BYTES + 1
       case Entry(size, relative, root, kind, pax, name) =>
         && (if kind == Directory then header[156] == 53 else header[156] in {0, 48, 55})
         && (if pax.Some? && pax.value.size.Some? then ParsePaxSize(pax.value.size.value) == Ok(size)
            else size == recorded)
         && (pax.Some? ==> pax.value.linkpath.None?)
         && var path := if pax.Some? && pax.value.path.Some? then pax.value.path else if name.Some? then name
            else TarHeaderPath(codec, header);
            path.Some? && NormalizeArchivePath(codec, path.value) == Ok(ArchivePath(relative, root))
  }

  /**
   The fields of a pax header are those of its payload, none if it is a global one, and a long name is its payload
   without trailing NULs.
   */
  ghost predicate ContentSays(codec: TextCodec, content: seq<byte>, item: Item) {
    match item
    case PaxHeader(_, global, fields) => PaxFrom(codec, content, NO_FIELDS) == Ok(fields)
        && (global ==> fields == NO_FIELDS)
    case LongName(_, name) => codec.decode(content).Some? && name == WithoutTrailingNuls(codec.decode(content).value)
    case Entry(size, _, _, _, _, _) => |content| == size
  }

  lemma {:induction false} EntryMoves(codec: TextCodec, header: Header, headerSize: nat, st: Progress)
    requires EntryBlock(codec, header, headerSize, st).Ok?
    ensures var (next, item) := EntryBlock(codec, header, headerSize, st).value; Moves(st, next, item)
  {}

  lemma {:induction false} EntryDenotes(codec: TextCodec, header: Header, headerSize: nat, st: Progress)
    requires EntryBlock(codec, header, headerSize, st).Ok?
    requires !AllZero(header) && HeaderFault(codec, header).None? && ParseTarOctal(codec, header[124..136]) ==
             Ok(headerSize)
    ensures HeaderSays(codec, header, EntryBlock(codec, header, headerSize, st).value.1)
  {}

  type HeaderLaw = (Header, seq<byte>, Item) -> bool

  ghost predicate Agrees(denotes: HeaderLaw, codec: TextCodec) {
    forall header, content, item {:trigger Denotes(codec, header, content, item)} ::
      denotes(header, content, item) == Denotes(codec, header, content, item)
  }

  // The same without the functions that read it

  /** A number in decimal digits, without superfluous zeros. */
  function Numeral10(n: nat): string {
    if n < 10 then [(n + 48) as char] else Numeral10(n / 10) + [(n % 10 + 48) as char]
  }

  ghost predicate Plain10(text: string) {
    text != "" && (forall i | 0 <= i < |text| :: '0' <= text[i] <= '9') && (text[0] == '0' ==> |text| == 1)
  }

  lemma {:induction false} NumeralPlain(n: nat)
    ensures Plain10(Numeral10(n)) && DecimalText(Numeral10(n)) == n && (n > 0 ==> Numeral10(n)[0] != '0')
  {
    if n >= 10 {
      NumeralPlain(n / 10);
      assert Numeral10(n)[..|Numeral10(n)| - 1] == Numeral10(n / 10);
    } else {
      assert Numeral10(n)[..0] == [] && DecimalText([]) == 0;
    }
  }

  lemma {:induction false} PlainNumeral(text: string)
    requires Plain10(text)
    ensures text == Numeral10(DecimalText(text)) && (text[0] != '0' ==> DecimalText(text) > 0)
  {
    var front, last := text[..|text| - 1], text[|text| - 1];
    assert text == front + [last];
    if front == "" {
      assert DecimalText(front) == 0;
    } else {
      PlainNumeral(front);
      assert DecimalText(text) == 10 * DecimalText(front) + (last as int - '0' as int);
    }
  }

  /** A pax size is a decimal number as JavaScript would print it, and one it can hold. */
  lemma {:induction false} PaxSizeExactly(text: string, n: nat)
    ensures ParsePaxSize(text) == Ok(n) <==> text == Numeral10(n) && n <= 9_007_199_254_740_991
  {
    NumeralPlain(n);
    if ParsePaxSize(text) == Ok(n) {
      PlainNumeral(text);
    }
  }

  /** What a header and the content behind it say of a file or directory. */
  ghost predicate TellsEntry(codec: TextCodec, header: Header, content: seq<byte>, recorded: nat, item: Item)
    requires item.Entry?
  {
    var pax := item.usedPax;
    && |content| == item.size
    && (if item.kind == Directory then header[156] == 53
       else header[156] == 0 || header[156] == 48 || header[156] == 55)
    && (pax.Some? ==> pax.value.linkpath.None?)
    && (if pax.Some? && pax.value.size.Some? then pax.value.size.value == Numeral10(item.size)
       && item.size <= 9_007_199_254_740_991
        else item.size == recorded)
    && exists path {:trigger Names(codec, path, item.root, item.relative)} ::
         && Names(codec, path, item.root, item.relative)
         && (if pax.Some? && pax.value.path.Some? then path == pax.value.path.value
             else if item.usedName.Some? then path == item.usedName.value
             else HeaderNames(codec, header, path))
  }

  /** What they say, by the type flag of the header and the size recorded in it. */
  ghost predicate TellsItem(codec: TextCodec, header: Header, content: seq<byte>, recorded: nat, item: Item) {
    match item
    case PaxHeader(size, global, fields) =>
      && header[156] == (if global then 103 else 120) && size == recorded <= 262_144
      && PaxMeans(codec, content, fields) && (global ==> fields == PaxFields(None, None, None))
    case LongName(size, name) =>
      && header[156] == 76 && size == recorded <= 1_025
      && codec.decode(content).Some? && TrailedByNuls(codec.decode(content).value, name)
    case Entry(_, _, _, _, _, _) => TellsEntry(codec, header, content, recorded, item)
  }

  /** A sound header, its recorded size, and what it says of the item together with the content. */
  ghost predicate Tells(codec: TextCodec, header: Header, content: seq<byte>, item: Item) {
    && (exists b | b in header :: b != 0) && SoundHeader(codec, header)
    && exists recorded: nat {:trigger OctalField(codec, header[124..136], recorded)} ::
         OctalField(codec, header[124..136], recorded) && TellsItem(codec, header, content, recorded, item)
  }

  /** What an entry's header was read as. */
  ghost predicate ReadsEntry(codec: TextCodec, header: Header, content: seq<byte>, recorded: nat, item: Item)
    requires item.Entry?
  {
    var pax := item.usedPax;
    && |content| == item.size
    && (if item.kind == Directory then header[156] == 53 else header[156] in {0, 48, 55})
    && (if pax.Some? && pax.value.size.Some? then ParsePaxSize(pax.value.size.value) == Ok(item.size)
       else item.size == recorded)
    && (pax.Some? ==> pax.value.linkpath.None?)
    && var path := if pax.Some? && pax.value.path.Some? then pax.value.path
                   else if item.usedName.Some? then item.usedName else TarHeaderPath(codec, header);
       path.Some? && NormalizeArchivePath(codec, path.value) == Ok(ArchivePath(item.relative, item.root))
  }

  lemma {:induction false} EntryTells(codec: TextCodec, header: Header, content: seq<byte>, recorded: nat, item: Item)
    requires item.Entry?
    ensures TellsEntry(codec, header, content, recorded, item) <==> ReadsEntry(codec, header, content, recorded, item)
  {
    var pax := item.usedPax;
    if pax.Some? && pax.value.size.Some? {
      PaxSizeExactly(pax.value.size.value, item.size);
    }
    forall path
      ensures NormalizeArchivePath(codec, path) == Ok(ArchivePath(item.relative, item.root)) <==>
              Names(codec, path, item.root, item.relative)
      ensures TarHeaderPath(codec, header) == Some(path) <==> HeaderNames(codec, header, path)
    {
      PathExactly(codec, path, item.root, item.relative);
      HeaderPathExactly(codec, header, path);
    }
  }

  lemma {:induction false} ItemTells(codec: TextCodec, header: Header, content: seq<byte>, recorded: nat, item: Item)
    requires !AllZero(header) && HeaderFault(codec, header).None? && ParseTarOctal(codec, header[124..136]) ==
             Ok(recorded)
    ensures TellsItem(codec, header, content, recorded, item) <==> Denotes(codec, header, content, item)
  {
    match item
    case PaxHeader(_, _, fields) => FieldsExactly(codec, content, fields);
    case LongName(_, name) =>
      if codec.decode(content).Some? {
        NulsExactly(codec.decode(content).value, name);
      }
    case Entry(_, _, _, _, _, _) => EntryTells(codec, header, content, recorded, item);
  }

  /** Reading a header and its content agrees with what they say. */
  lemma {:induction false} TellsExactly(codec: TextCodec, header: Header, content: seq<byte>, item: Item)
    ensures Tells(codec, header, content, item) <==> Denotes(codec, header, content, item)
  {
    HeaderExactly(codec, header);
    ZeroMeaning(header);
    forall recorded: nat
      ensures OctalField(codec, header[124..136], recorded) <==> ParseTarOctal(codec, header[124..136]) == Ok(recorded)
    {
      OctalExactly(codec, header[124..136], recorded);
    }
    if !AllZero(header) && HeaderFault(codec, header).None? && ParseTarOctal(codec, header[124..136]).Ok? {
      ItemTells(codec, header, content, ParseTarOctal(codec, header[124..136]).value, item);
    }
  }

  lemma {:induction false} ZeroMeaning(bytes: seq<byte>)
    ensures AllZero(bytes) <==> !exists b | b in bytes :: b != 0
  {}

  lemma {:induction false} AllTell(codec: TextCodec)
    ensures forall header, content, item {:trigger Denotes(codec, header, content, item)} ::
              Tells(codec, header, content, item) == Denotes(codec, header, content, item)
  {
    forall header, content, item ensures Tells(codec, header, content, item) == Denotes(codec, header, content, item) {
      TellsExactly(codec, header, content, item);
    }
  }

  /** The law that ties items to headers and contents. */
  ghost function Denoting(codec: TextCodec): (denotes: HeaderLaw)
    ensures Agrees(denotes, codec)
  {
    AllTell(codec);
    (header: Header, content: seq<byte>, item: Item) => Tells(codec, header, content, item)
  }

  /** What a block of any kind establishes about its item. */
  ghost predicate BlockSays(denotes: HeaderLaw, header: Header, rest: seq<byte>, st: Progress, block: Block) {
    block.Advance? ==>
      && block.item.size <= |rest| && Moves(st, block.next, block.item)
      && denotes(header, rest[..block.item.size], block.item)
  }

  lemma {:induction false} PaxSays(codec: TextCodec, denotes: HeaderLaw, header: Header, size: nat, rest: seq<byte>,
      st: Progress)
    requires Agrees(denotes, codec)
    requires !AllZero(header) && HeaderFault(codec, header).None? && ParseTarOctal(codec, header[124..136]) == Ok(size)
             && header[156] in {120, 103}
    ensures BlockSays(denotes, header, rest, st, PaxBlock(codec, header[156] == 103, size, rest, st))
  {
    var block := PaxBlock(codec, header[156] == 103, size, rest, st);
    if block.Advance? {
      assert Denotes(codec, header, rest[..size], block.item);
    }
  }

  lemma {:induction false} LongNameSays(codec: TextCodec, denotes: HeaderLaw, header: Header, size: nat,
      rest: seq<byte>, st: Progress)
    requires Agrees(denotes, codec)
    requires !AllZero(header) && HeaderFault(codec, header).None? && ParseTarOctal(codec, header[124..136]) == Ok(size)
             && header[156] == 76
    ensures BlockSays(denotes, header, rest, st, LongNameBlock(codec, size, rest, st))
  {
    var block := LongNameBlock(codec, size, rest, st);
    if block.Advance? {
      assert Denotes(codec, header, rest[..size], block.item);
    }
  }

  lemma {:induction false} ContentBlockSays(codec: TextCodec, denotes: HeaderLaw, header: Header, size: nat,
      rest: seq<byte>, st: Progress)
    requires Agrees(denotes, codec)
    requires !AllZero(header) && HeaderFault(codec, header).None? && ParseTarOctal(codec, header[124..136]) == Ok(size)
    ensures BlockSays(denotes, header, rest, st, ContentBlock(codec, header, size, rest, st))
  {
    var block := ContentBlock(codec, header, size, rest, st);
    if block.Advance? {
      EntryMoves(codec, header, size, st);
      EntryDenotes(codec, header, size, st);
      assert Denotes(codec, header, rest[..block.item.size], block.item);
    }
  }

  lemma {:induction false} HeaderBlockSays(codec: TextCodec, denotes: HeaderLaw, header: Header, rest: seq<byte>,
      st: Progress)
    requires Agrees(denotes, codec) && !AllZero(header)
    ensures BlockSays(denotes, header, rest, st, HeaderBlock(codec, header, rest, st))
  {
    if HeaderFault(codec, header).None? && ParseTarOctal(codec, header[124..136]).Ok? {
      var size := ParseTarOctal(codec, header[124..136]).value;
      if header[156] == 120 || header[156] == 103 {
        PaxSays(codec, denotes, header, size, rest, st);
      } else if header[156] == 76 {
        LongNameSays(codec, denotes, header, size, rest, st);
      } else {
        ContentBlockSays(codec, denotes, header, size, rest, st);
      }
    }
  }

  lemma {:induction false} BlockMoves(codec: TextCodec, read: BlockReader, denotes: HeaderLaw, bytes: seq<byte>,
      st: Progress)
    requires Reads(read, codec) && Agrees(denotes, codec) && read(bytes, st).Advance?
    ensures BLOCK <= |bytes| && BlockSays(denotes, bytes[..BLOCK], bytes[BLOCK..], st, read(bytes, st))
  {
    assert read(bytes, st) == ReadBlock(codec, bytes, st);
    HeaderBlockSays(codec, denotes, bytes[..BLOCK], bytes[BLOCK..], st);
  }

  // The layout of the bytes

  function EndOf(log: Log): nat {
    if log == [] then 0 else log[|log| - 1].at + Span(log[|log| - 1].item.size)
  }

  /** Each item starts where the one before it ends. */
  ghost predicate Chained(log: Log) {
    forall i | 0 <= i < |log| :: log[i].at == EndOf(log[..i])
  }

  /** A header at a multiple of 512 whose item it and the content behind it agree with. */
  ghost predicate PlacedIn(denotes: HeaderLaw, bytes: seq<byte>, placed: Placed) {
    && placed.at % BLOCK == 0 && placed.at + Span(placed.item.size) <= |bytes|
    && denotes(bytes[placed.at..placed.at + BLOCK], bytes[placed.at + BLOCK..placed.at + BLOCK + placed.item.size],
       placed.item)
  }

  type PlaceLaw = Placed -> bool

  /** `PlacedIn` as a property of placed items. */
  ghost predicate Fits(fits: PlaceLaw, denotes: HeaderLaw, bytes: seq<byte>) {
    forall placed {:trigger PlacedIn(denotes, bytes, placed)} :: fits(placed) == PlacedIn(denotes, bytes, placed)
  }

  // The tree of entries

  predicate Named(log: Log, i: int) {
    0 <= i < |log| && log[i].item.Entry? && log[i].item.relative != ""
  }

  ghost function NamedEntries(log: Log): nat {
    if log == [] then 0 else NamedEntries(log[..|log| - 1]) + if Named(log, |log| - 1) then 1 else 0
  }

  ghost function FileBytes(log: Log): nat {
    if log == [] then 0 else FileBytes(log[..|log| - 1]) + if log[|log| - 1].item.Entry? then log[|log| - 1].item.size
      else 0
  }

  ghost predicate DistinctPaths(log: Log) {
    forall i, j | Named(log, i) && Named(log, j) && i != j :: log[i].item.relative != log[j].item.relative
  }

  /** The map holds the named entries, each under its path. */
  ghost predicate Records(paths: map<string, Kind>, log: Log) {
    && (forall i | Named(log, i) :: log[i].item.relative in paths && paths[log[i].item.relative] == log[i].item.kind)
    && (forall path | path in paths :: exists i :: Named(log, i) && log[i].item.relative == path)
  }

  ghost predicate OneRoot(root: Option<string>, log: Log) {
    && (forall i | 0 <= i < |log| && log[i].item.Entry? :: root == Some(log[i].item.root))
    && (root.Some? ==> exists i :: 0 <= i < |log| && log[i].item.Entry?)
  }

  ghost predicate SizesInBounds(log: Log) {
    forall i | 0 <= i < |log| && log[i].item.Entry? ::
      if log[i].item.kind == File then log[i].item.size <= 33_554_432 else log[i].item.size == 0
  }

  // Extended headers

  datatype Extended = Pax(fields: PaxFields) | Long(name: string)

  /** The extended header an item is, of the kind asked for. */
  function Opened(item: Item, pax: bool): Option<Extended> {
    match item
    case PaxHeader(_, global, fields) => if pax && !global then Some(Pax(fields)) else None
    case LongName(_, name) => if pax then None else Some(Long(name))
    case Entry(_, _, _, _, _, _) => None
  }

  /** The extended header an entry was read with. */
  function Consumed(item: Item, pax: bool): Option<Extended>
    requires item.Entry?
  {
    if pax then (if item.usedPax.Some? then Some(Pax(item.usedPax.value)) else None)
    else if item.usedName.Some? then Some(Long(item.usedName.value)) else None
  }

  /** The header still waiting after `log`. */
  function Waiting(log: Log, pax: bool): Option<Extended> {
    if log == [] then None else
    var last := log[|log| - 1].item;
    if last.Entry? then None
    else if Opened(last, pax).Some? then Opened(last, pax)
    else Waiting(log[..|log| - 1], pax)
  }

  ghost predicate Paired(log: Log, pax: bool) {
    forall i | 0 <= i < |log| ::
      && (log[i].item.Entry? ==> Consumed(log[i].item, pax) == Waiting(log[..i], pax))
      && (Opened(log[i].item, pax).Some? ==> Waiting(log[..i], pax).None?)
  }

  function PendingOf(st: Progress, pax: bool): Option<Extended> {
    if pax then (if st.pendingPax.Some? then Some(Pax(st.pendingPax.value)) else None)
    else if st.pendingPath.Some? then Some(Long(st.pendingPath.value)) else None
  }

  // What the scan keeps

  ghost predicate Tree(st: Progress, log: Log) {
    && DistinctPaths(log) && Records(st.paths, log) && OneRoot(st.root, log) && SizesInBounds(log) && Numbers(st, log)
    && (st.rootPackageJson <==> "package.json" in st.paths && st.paths["package.json"] == File)
  }

  ghost predicate Numbers(st: Progress, log: Log) {
    && st.entryCount == |st.paths| == NamedEntries(log) <= MAXIMUM_ENTRIES
    && st.extractedBytes == FileBytes(log) <= MAXIMUM_EXTRACTED_BYTES
  }

  ghost predicate Headers(st: Progress, log: Log) {
    forall pax: bool :: Paired(log, pax) && Waiting(log, pax) == PendingOf(st, pax)
  }

  lemma {:induction false} OneMore(log: Log, placed: Placed)
    ensures var more := log + [placed]; more[..|more| - 1] == log && forall i | 0 <= i <= |log| :: more[..i] == log[..i]
  {}

  lemma {:induction false} HeadersStep(st: Progress, next: Progress, log: Log, placed: Placed)
    requires Headers(st, log) && Moves(st, next, placed.item)
    ensures Headers(next, log + [placed])
  {
    var more := log + [placed];
    OneMore(log, placed);
    forall pax: bool
      ensures Paired(more, pax) && Waiting(more, pax) == PendingOf(next, pax)
    {
      assert Paired(log, pax) && Waiting(log, pax) == PendingOf(st, pax);
    }
  }

  lemma {:induction false} DistinctStep(st: Progress, next: Progress, log: Log, placed: Placed)
    requires DistinctPaths(log) && Records(st.paths, log) && Moves(st, next, placed.item)
    ensures DistinctPaths(log + [placed])
  {
    var more := log + [placed];
    assert forall i | 0 <= i < |log| :: Named(more, i) == Named(log, i) && more[i] == log[i];
    assert more[|log|] == placed;
  }

  lemma {:induction false} RecordsStep(st: Progress, next: Progress, log: Log, placed: Placed)
    requires Records(st.paths, log) && Moves(st, next, placed.item)
    ensures Records(next.paths, log + [placed])
  {
    var more := log + [placed];
    assert forall i | 0 <= i < |log| :: Named(more, i) == Named(log, i) && more[i] == log[i];
    assert forall i | Named(log, i) :: Named(more, i);
    forall path | path in next.paths
      ensures exists i :: Named(more, i) && more[i].item.relative == path
    {
      if path in st.paths {
        var i :| Named(log, i) && log[i].item.relative == path;
        assert Named(more, i);
      } else {
        assert Named(more, |log|);
      }
    }
  }

  lemma {:induction false} NumbersStep(st: Progress, next: Progress, log: Log, placed: Placed)
    requires Numbers(st, log) && Moves(st, next, placed.item)
    ensures Numbers(next, log + [placed])
  {
    OneMore(log, placed);
    assert (log + [placed])[|log|] == placed;
  }

  lemma {:induction false} RootStep(st: Progress, next: Progress, log: Log, placed: Placed)
    requires OneRoot(st.root, log) && SizesInBounds(log) && Moves(st, next, placed.item)
    ensures OneRoot(next.root, log + [placed]) && SizesInBounds(log + [placed])
  {
    var more := log + [placed];
    assert more[|log|] == placed && forall i | 0 <= i < |log| :: more[i] == log[i];
  }

  lemma {:induction false} TreeStep(st: Progress, next: Progress, log: Log, placed: Placed)
    requires Tree(st, log) && Moves(st, next, placed.item)
    ensures Tree(next, log + [placed])
  {
    DistinctStep(st, next, log, placed);
    RecordsStep(st, next, log, placed);
    NumbersStep(st, next, log, placed);
    RootStep(st, next, log, placed);
  }

  /** The scan stands right after the items it has logged. */
  ghost predicate Placement(fits: PlaceLaw, length: nat, log: Log, at: nat) {
    at == EndOf(log) <= length && at % BLOCK == 0 && Chained(log) && forall i | 0 <= i < |log| :: fits(log[i])
  }

  ghost predicate Content(st: Progress, log: Log) {
    Tree(st, log) && Headers(st, log)
  }

  lemma {:induction false} PlacementStep(fits: PlaceLaw, length: nat, log: Log, placed: Placed)
    requires Placement(fits, length, log, placed.at) && fits(placed) && placed.at + Span(placed.item.size) <= length
    ensures Placement(fits, length, log + [placed], placed.at + Span(placed.item.size))
  {
    ChainedStep(log, placed);
    EndStep(log, placed);
    Aligned(placed.at, Span(placed.item.size));
    assert forall i | 0 <= i < |log| :: (log + [placed])[i] == log[i];
  }

  lemma {:induction false} EndStep(log: Log, placed: Placed)
    ensures EndOf(log + [placed]) == placed.at + Span(placed.item.size)
  {}

  lemma {:induction false} Aligned(a: nat, b: nat)
    requires a % BLOCK == 0 && b % BLOCK == 0
    ensures (a + b) % BLOCK == 0
  {
    assert a + b == BLOCK * (a / BLOCK + b / BLOCK);
  }

  lemma {:induction false} ChainedStep(log: Log, placed: Placed)
    requires Chained(log) && placed.at == EndOf(log)
    ensures Chained(log + [placed])
  {
    OneMore(log, placed);
    assert (log + [placed])[|log|] == placed && forall i | 0 <= i < |log| :: (log + [placed])[i] == log[i];
  }

  lemma {:induction false} ContentStep(st: Progress, next: Progress, log: Log, placed: Placed)
    requires Content(st, log) && Moves(st, next, placed.item)
    ensures Content(next, log + [placed])
  {
    TreeStep(st, next, log, placed);
    HeadersStep(st, next, log, placed);
  }

  lemma {:induction false} BlockPlaced(codec: TextCodec, read: BlockReader, denotes: HeaderLaw, fits: PlaceLaw,
      bytes: seq<byte>, st: Progress, at: nat)
    requires Bounded(read) && Reads(read, codec) && Agrees(denotes, codec) && Fits(fits, denotes, bytes)
    requires at <= |bytes| && at % BLOCK == 0 && read(bytes[at..], st).Advance?
    ensures fits(Placed(at, read(bytes[at..], st).item))
  {
    BlockMoves(codec, read, denotes, bytes[at..], st);
    var item := read(bytes[at..], st).item;
    assert bytes[at..][..BLOCK] == bytes[at..at + BLOCK];
    assert bytes[at..][BLOCK..][..item.size] == bytes[at + BLOCK..at + BLOCK + item.size];
    assert PlacedIn(denotes, bytes, Placed(at, item));
  }

  /** Where the scan ends: at zeros only, at least two blocks of them. */
  ghost predicate Terminated(bytes: seq<byte>, log: Log) {
    EndOf(log) + 2 * BLOCK <= |bytes| && AllZero(bytes[EndOf(log)..])
  }

  lemma {:induction false} EndMeaning(codec: TextCodec, read: BlockReader, bytes: seq<byte>, st: Progress)
    requires Reads(read, codec) && read(bytes, st).End?
    ensures 2 * BLOCK <= |bytes| && AllZero(bytes)
  {
    assert read(bytes, st) == ReadBlock(codec, bytes, st);
    assert bytes == bytes[..BLOCK] + bytes[BLOCK..];
    ZeroConcat(bytes[..BLOCK], bytes[BLOCK..]);
  }

  type ScanProperty = (Progress, Log, nat) -> bool

  /** Each block read keeps the property. */
  ghost predicate Kept(read: BlockReader, holds: ScanProperty, bytes: seq<byte>)
    requires Bounded(read)
  {
    forall st, log, at: nat {:trigger holds(st, log, at)} | at <= |bytes| && holds(st, log, at) ::
      var block := read(bytes[at..], st);
      block.Advance? ==> holds(block.next, log + [Placed(at, block.item)], at + block.used)
  }

  /** What every block keeps holds at the end of the scan. */
  lemma {:induction false} ScanKeeps(read: BlockReader, holds: ScanProperty, bytes: seq<byte>, st: Progress, log: Log,
      at: nat) returns (end: nat)
    requires Bounded(read) && Kept(read, holds, bytes) && at <= |bytes| && holds(st, log, at)
    requires Scan(read, bytes[at..], st, log, at).Ok?
    ensures var last := Scan(read, bytes[at..], st, log, at).value;
            end <= |bytes| && holds(last.progress, last.log, end) && read(bytes[end..], last.progress).End?
    decreases |bytes| - at
  {
    var block := read(bytes[at..], st);
    if block.Advance? {
      assert bytes[at..][block.used..] == bytes[at + block.used..];
      end := ScanKeeps(read, holds, bytes, block.next, log + [Placed(at, block.item)], at + block.used);
    } else {
      end := at;
    }
  }

  lemma {:induction false} BlockKeepsPlacement(codec: TextCodec, read: BlockReader, denotes: HeaderLaw, fits: PlaceLaw,
      bytes: seq<byte>, st: Progress, log: Log, at: nat)
    requires Bounded(read) && Reads(read, codec) && Agrees(denotes, codec) && Fits(fits, denotes, bytes)
    requires at <= |bytes| && Placement(fits, |bytes|, log, at) && read(bytes[at..], st).Advance?
    ensures var block := read(bytes[at..], st);
            Placement(fits, |bytes|, log + [Placed(at, block.item)], at + block.used)
  {
    BlockPlaced(codec, read, denotes, fits, bytes, st, at);
    PlacementStep(fits, |bytes|, log, Placed(at, read(bytes[at..], st).item));
  }

  lemma {:induction false} PlacementKept(
    codec: TextCodec, read: BlockReader, denotes: HeaderLaw, fits: PlaceLaw, bytes: seq<byte>, holds: ScanProperty)
    requires Bounded(read) && Reads(read, codec) && Agrees(denotes, codec) && Fits(fits, denotes, bytes)
    requires forall st, log, at: nat {:trigger holds(st, log, at)} ::
             holds(st, log, at) == Placement(fits, |bytes|, log, at)
    ensures Kept(read, holds, bytes)
  {
    forall st, log, at: nat | at <= |bytes| && holds(st, log, at)
      ensures var block := read(bytes[at..], st);
              block.Advance? ==> holds(block.next, log + [Placed(at, block.item)], at + block.used)
    {
      if read(bytes[at..], st).Advance? {
        BlockKeepsPlacement(codec, read, denotes, fits, bytes, st, log, at);
      }
    }
  }

  lemma {:induction false} ContentKept(codec: TextCodec, read: BlockReader, denotes: HeaderLaw, bytes: seq<byte>,
      holds: ScanProperty)
    requires Bounded(read) && Reads(read, codec) && Agrees(denotes, codec)
    requires forall st, log, at: nat {:trigger holds(st, log, at)} :: holds(st, log, at) == Content(st, log)
    ensures Kept(read, holds, bytes)
  {
    forall st, log, at: nat | at <= |bytes| && holds(st, log, at)
      ensures var block := read(bytes[at..], st);
              block.Advance? ==> holds(block.next, log + [Placed(at, block.item)], at + block.used)
    {
      var block := read(bytes[at..], st);
      if block.Advance? {
        BlockMoves(codec, read, denotes, bytes[at..], st);
        ContentStep(st, block.next, log, Placed(at, block.item));
      }
    }
  }

  /** The items of an archive that is scanned to its end. */
  ghost function LogOf(codec: TextCodec, bytes: seq<byte>): Log {
    match Scan(TarReading(codec), bytes, START, [], 0)
    case Err(_) => []
    case Ok(scanned) => scanned.log
  }

  lemma {:induction false} PlacementHolds(codec: TextCodec, bytes: seq<byte>)
    requires Scan(TarReading(codec), bytes, START, [], 0).Ok?
    ensures Chained(LogOf(codec, bytes)) && Terminated(bytes, LogOf(codec, bytes))
    ensures forall placed | placed in LogOf(codec, bytes) :: PlacedIn(Denoting(codec), bytes, placed)
  {
    var read, denotes, log := TarReading(codec), Denoting(codec), LogOf(codec, bytes);
    var fits: PlaceLaw := placed => PlacedIn(denotes, bytes, placed);
    var holds: ScanProperty := (st, log, at: nat) => Placement(fits, |bytes|, log, at);
    PlacementKept(codec, read, denotes, fits, bytes, holds);
    assert bytes[0..] == bytes;
    var end := ScanKeeps(read, holds, bytes, START, [], 0);
    EndMeaning(codec, read, bytes[end..], Scan(read, bytes, START, [], 0).value.progress);
    forall placed | placed in log ensures PlacedIn(denotes, bytes, placed) {
      var i :| 0 <= i < |log| && log[i] == placed;
      assert fits(log[i]);
    }
  }

  lemma {:induction false} ContentHolds(codec: TextCodec, bytes: seq<byte>)
    requires Scan(TarReading(codec), bytes, START, [], 0).Ok?
    ensures Content(Scan(TarReading(codec), bytes, START, [], 0).value.progress, LogOf(codec, bytes))
  {
    var read, denotes := TarReading(codec), Denoting(codec);
    var holds: ScanProperty := (st, log, at: nat) => Content(st, log);
    ContentKept(codec, read, denotes, bytes, holds);
    assert bytes[0..] == bytes;
    assert Content(START, []);
    var end := ScanKeeps(read, holds, bytes, START, [], 0);
  }

  lemma {:induction false} Accepted(codec: TextCodec, bytes: seq<byte>) returns (st: Progress)
    requires Inspect(codec, bytes).Ok?
    ensures Finish(st, |bytes|) == Inspect(codec, bytes) && Content(st, LogOf(codec, bytes))
  {
    ContentHolds(codec, bytes);
    st := Scan(TarReading(codec), bytes, START, [], 0).value.progress;
  }

  // The theorems

  /**
   The bytes of an accepted archive are its items, one after the other from offset zero with each
   header at a multiple of 512 and true to its item, and then nothing but zeros.
   */
  lemma {:induction false} AcceptedLayout(codec: TextCodec, bytes: seq<byte>)
    requires Inspect(codec, bytes).Ok?
    ensures Chained(LogOf(codec, bytes)) && Terminated(bytes, LogOf(codec, bytes))
    ensures forall placed | placed in LogOf(codec, bytes) :: PlacedIn(Denoting(codec), bytes, placed)
    ensures Inspect(codec, bytes).value.expandedBytes == |bytes|
  {
    PlacementHolds(codec, bytes);
  }

  /** No file of the log has another named entry below it. */
  ghost predicate NoFileAbove(log: Log) {
    forall i, j | Named(log, i) && Named(log, j) && log[i].item.kind == File ::
        !Above(log[i].item.relative, log[j].item.relative)
  }

  /** The root and the relative path of an entry: together a proper path that leads nowhere off limits. */
  ghost predicate ProperEntry(codec: TextCodec, item: Item)
    requires item.Entry?
  {
    var path := if item.relative == "" then item.root else item.root + "/" + item.relative;
    '/' !in item.root && ProperPath(codec, path) && !OffLimits(path, item.relative)
  }

  lemma {:induction false} PlacedProper(codec: TextCodec, denotes: HeaderLaw, bytes: seq<byte>, placed: Placed)
    requires denotes == Denoting(codec) && PlacedIn(denotes, bytes, placed) && placed.item.Entry?
    ensures ProperEntry(codec, placed.item)
  {
    EntryProper(codec, bytes[placed.at..placed.at + BLOCK],
                bytes[placed.at + BLOCK..placed.at + BLOCK + placed.item.size], placed.item);
  }

  lemma {:induction false} EntriesProper(codec: TextCodec, bytes: seq<byte>)
    requires Inspect(codec, bytes).Ok?
    ensures forall placed | placed in LogOf(codec, bytes) && placed.item.Entry? :: ProperEntry(codec, placed.item)
  {
    AcceptedLayout(codec, bytes);
    var log, denotes := LogOf(codec, bytes), Denoting(codec);
    forall placed | placed in log && placed.item.Entry? ensures ProperEntry(codec, placed.item) {
      PlacedProper(codec, denotes, bytes, placed);
    }
  }

  lemma {:induction false} EntryProper(codec: TextCodec, header: Header, content: seq<byte>, item: Item)
    requires item.Entry? && Denoting(codec)(header, content, item)
    ensures ProperEntry(codec, item)
  {
    var recorded: nat :| OctalField(codec, header[124..136], recorded)
        && TellsItem(codec, header, content, recorded, item);
    var path :| Names(codec, path, item.root, item.relative);
  }

  /** The report of an accepted archive counts and bounds what its entries hold, and they form one tree. */
  lemma {:induction false} AcceptedTree(codec: TextCodec, bytes: seq<byte>)
    requires Inspect(codec, bytes).Ok?
    ensures var log, report := LogOf(codec, bytes), Inspect(codec, bytes).value;
            && (forall placed | placed in log && placed.item.Entry? :: ProperEntry(codec, placed.item))
            && DistinctPaths(log) && NoFileAbove(log) && OneRoot(Some(report.rootDirectory), log) && SizesInBounds(log)
            && report.entryCount == NamedEntries(log) <= 20_000
            && report.extractedBytes == FileBytes(log) <= 67_108_864
            && (report.rootPackageJson <==> exists i ::
               Named(log, i) && log[i].item.relative == "package.json" && log[i].item.kind == File)
  {
    EntriesProper(codec, bytes);
    var st := Accepted(codec, bytes);
    var log := LogOf(codec, bytes);
    FileAsParentMeaning(st.paths);
    if st.rootPackageJson {
      var i :| Named(log, i) && log[i].item.relative == "package.json";
    }
  }

  /** `j` is the first entry after header `i`, with no header of that kind between them. */
  ghost predicate Serves(log: Log, pax: bool, i: nat, j: nat)
    requires i < j < |log|
  {
    log[j].item.Entry? && forall k | i < k < j :: !log[k].item.Entry? && Opened(log[k].item, pax).None?
  }

  lemma {:induction false} WaitingSince(log: Log, pax: bool) returns (i: nat)
    requires Waiting(log, pax).Some?
    ensures i < |log| && Opened(log[i].item, pax) == Waiting(log, pax)
    ensures forall k | i < k < |log| :: !log[k].item.Entry? && Opened(log[k].item, pax).None?
  {
    i := |log| - 1;
    if Opened(log[i].item, pax).None? {
      i := WaitingSince(log[..i], pax);
    }
  }

  lemma {:induction false} ServedBy(log: Log, pax: bool, i: nat, k: nat) returns (j: nat)
    requires Paired(log, pax) && Waiting(log, pax).None?
    requires i < k <= |log| && Opened(log[i].item, pax).Some? && Waiting(log[..k], pax) == Opened(log[i].item, pax)
    requires forall m | i < m < k :: !log[m].item.Entry? && Opened(log[m].item, pax).None?
    ensures i < j < |log| && Serves(log, pax, i, j) && Consumed(log[j].item, pax) == Opened(log[i].item, pax)
    decreases |log| - k
  {
    assert log[..|log|] == log;
    if log[k].item.Entry? {
      j := k;
    } else {
      assert log[..k + 1][..k] == log[..k];
      j := ServedBy(log, pax, i, k + 1);
    }
  }

  /** Header `i` is consumed by the first entry after it, with no other header of that kind between them. */
  ghost predicate IsConsumed(log: Log, pax: bool, i: nat)
    requires i < |log|
  {
    exists j :: i < j < |log| && Serves(log, pax, i, j) && Consumed(log[j].item, pax) == Opened(log[i].item, pax)
  }

  /** What entry `j` consumes is the last header before it. */
  ghost predicate IsSupplied(log: Log, pax: bool, j: nat)
    requires j < |log| && log[j].item.Entry?
  {
    exists i :: 0 <= i < j && Serves(log, pax, i, j) && Consumed(log[j].item, pax) == Opened(log[i].item, pax)
  }

  /** A header that opens is the one an entry consumes, and what an entry consumes is the last header opened. */
  ghost predicate OneForOne(log: Log, pax: bool) {
    && (forall i: nat {:trigger IsConsumed(log, pax, i)} | i < |log| && Opened(log[i].item, pax).Some? ::
       IsConsumed(log, pax, i))
    && (forall j: nat {:trigger IsSupplied(log, pax, j)} | j < |log| && log[j].item.Entry?
       && Consumed(log[j].item, pax).Some? ::
          IsSupplied(log, pax, j))
  }

  lemma {:induction false} PairedOneForOne(log: Log, pax: bool)
    requires Paired(log, pax) && Waiting(log, pax).None?
    ensures OneForOne(log, pax)
  {
    forall i: nat | i < |log| && Opened(log[i].item, pax).Some?
      ensures IsConsumed(log, pax, i)
    {
      var j := HeaderServed(log, pax, i);
    }
    forall j: nat | j < |log| && log[j].item.Entry? && Consumed(log[j].item, pax).Some?
      ensures IsSupplied(log, pax, j)
    {
      var i := EntryServed(log, pax, j);
    }
  }

  lemma {:induction false} HeaderServed(log: Log, pax: bool, i: nat) returns (j: nat)
    requires Paired(log, pax) && Waiting(log, pax).None? && i < |log| && Opened(log[i].item, pax).Some?
    ensures i < j < |log| && Serves(log, pax, i, j) && Consumed(log[j].item, pax) == Opened(log[i].item, pax)
  {
    assert log[..i + 1][i] == log[i];
    j := ServedBy(log, pax, i, i + 1);
  }

  lemma {:induction false} EntryServed(log: Log, pax: bool, j: nat) returns (i: nat)
    requires Paired(log, pax) && j < |log| && log[j].item.Entry? && Consumed(log[j].item, pax).Some?
    ensures i < j && Serves(log, pax, i, j) && Consumed(log[j].item, pax) == Opened(log[i].item, pax)
  {
    i := WaitingSince(log[..j], pax);
    assert forall k | 0 <= k < j :: log[..j][k] == log[k];
  }

  /** In an accepted archive each pax header or long name is used by the first entry after it, and by it alone. */
  lemma {:induction false} HeadersServeOneEntry(codec: TextCodec, bytes: seq<byte>, pax: bool)
    requires Inspect(codec, bytes).Ok?
    ensures OneForOne(LogOf(codec, bytes), pax)
  {
    var st := Accepted(codec, bytes);
    PairedOneForOne(LogOf(codec, bytes), pax);
  }

  /** Two headers of one kind never serve the same entry. */
  lemma {:induction false} ServesIsInjective(log: Log, pax: bool, i: nat, k: nat, j: nat)
    requires i < j < |log| && k < j && Serves(log, pax, i, j) && Serves(log, pax, k, j)
    requires Opened(log[i].item, pax).Some? && Opened(log[k].item, pax).Some?
    ensures i == k
  {}

  // The converse: what looks like that is accepted

  /** The inspector's variables let the item in. */
  ghost predicate Lets(st: Progress, item: Item) {
    match item
    case PaxHeader(_, global, _) => global || st.pendingPax.None?
    case LongName(_, _) => st.pendingPath.None?
    case Entry(size, relative, root, kind, usedPax, usedName) =>
      && usedPax == st.pendingPax && usedName == st.pendingPath
      && (st.root.None? || st.root == Some(root))
      && (if kind == Directory then size == 0
         else size <= MAXIMUM_FILE_BYTES && st.extractedBytes + size <= MAXIMUM_EXTRACTED_BYTES)
      && (relative != "" ==> relative !in st.paths && st.entryCount + 1 <= MAXIMUM_ENTRIES)
  }

  lemma {:induction false} EntryAdmitted(codec: TextCodec, header: Header, headerSize: nat, st: Progress, item: Item)
    requires item.Entry? && Lets(st, item) && HeaderSays(codec, header, item)
             && ParseTarOctal(codec, header[124..136]) == Ok(headerSize)
    ensures EntryBlock(codec, header, headerSize, st).Ok? && EntryBlock(codec, header, headerSize, st).value.1 == item
  {
    KindLet(header[156], st, item);
    PlaceLet(st, item);
    EntryTaken(codec, header, headerSize, st, item, EntryPath(codec, header, st).value);
  }

  lemma {:induction false} EntryTaken(codec: TextCodec, header: Header, headerSize: nat, st: Progress, item: Item,
      path: string)
    requires item.Entry? && EntrySize(st, headerSize) == Ok(item.size) && EntryPath(codec, header, st) == Some(path)
    requires !(st.pendingPax.Some? && st.pendingPax.value.linkpath.Some?)
    requires NormalizeArchivePath(codec, path) == Ok(ArchivePath(item.relative, item.root))
    requires st.root.None? || st.root == Some(item.root)
    requires EntryKind(header[156], item.size, st.extractedBytes) == Ok(item.kind)
    requires Admit(st, ArchivePath(item.relative, item.root), item.kind, item.size).Ok?
    requires item.usedPax == st.pendingPax && item.usedName == st.pendingPath
    ensures EntryBlock(codec, header, headerSize, st).Ok? && EntryBlock(codec, header, headerSize, st).value.1 == item
  {}

  lemma {:induction false} KindLet(flag: byte, st: Progress, item: Item)
    requires item.Entry? && Lets(st, item) && (if item.kind == Directory then flag == 53 else flag in {0, 48, 55})
    ensures EntryKind(flag, item.size, st.extractedBytes) == Ok(item.kind)
  {}

  lemma {:induction false} PlaceLet(st: Progress, item: Item)
    requires item.Entry? && Lets(st, item)
    ensures Admit(st, ArchivePath(item.relative, item.root), item.kind, item.size).Ok?
  {}

  /** The block is the item, whatever the variables are after it. */
  ghost predicate Yields(block: Block, item: Item) {
    block.Advance? && block.item == item
  }

  lemma {:induction false} PaxAdvances(codec: TextCodec, header: Header, size: nat, rest: seq<byte>, st: Progress,
      item: Item)
    requires item.size + TarPadding(item.size) <= |rest| && ParseTarOctal(codec, header[124..136]) == Ok(size)
    requires item.PaxHeader? && Lets(st, item) && Denotes(codec, header, rest[..item.size], item)
    ensures Yields(TypedBlock(codec, header, size, rest, st), item)
  {}

  lemma {:induction false} LongNameAdvances(codec: TextCodec, header: Header, size: nat, rest: seq<byte>, st: Progress,
      item: Item)
    requires item.size + TarPadding(item.size) <= |rest| && ParseTarOctal(codec, header[124..136]) == Ok(size)
    requires item.LongName? && Lets(st, item) && Denotes(codec, header, rest[..item.size], item)
    ensures Yields(TypedBlock(codec, header, size, rest, st), item)
  {}

  lemma {:induction false} EntryAdvances(codec: TextCodec, header: Header, size: nat, rest: seq<byte>, st: Progress,
      item: Item)
    requires item.Entry? && Lets(st, item) && HeaderSays(codec, header, item)
    requires item.size + TarPadding(item.size) <= |rest| && ParseTarOctal(codec, header[124..136]) == Ok(size)
    ensures Yields(TypedBlock(codec, header, size, rest, st), item)
  {
    EntryAdmitted(codec, header, size, st, item);
    assert Yields(PassContent(EntryBlock(codec, header, size, st), rest), item);
  }

  /** A header and content that denote an item are read as that item. */
  lemma {:induction false} HeaderAdvances(codec: TextCodec, header: Header, rest: seq<byte>, st: Progress, item: Item)
    requires item.size + TarPadding(item.size) <= |rest|
    requires Lets(st, item) && Denotes(codec, header, rest[..item.size], item)
    ensures Yields(HeaderBlock(codec, header, rest, st), item)
  {
    var size := ParseTarOctal(codec, header[124..136]).value;
    assert HeaderBlock(codec, header, rest, st) == TypedBlock(codec, header, size, rest, st);
    match item
    case PaxHeader(_, _, _) => PaxAdvances(codec, header, size, rest, st, item);
    case LongName(_, _) => LongNameAdvances(codec, header, size, rest, st, item);
    case Entry(_, _, _, _, _, _) => EntryAdvances(codec, header, size, rest, st, item);
  }

  lemma {:induction false} BlockAdvances(codec: TextCodec, read: BlockReader, denotes: HeaderLaw, bytes: seq<byte>,
      st: Progress, placed: Placed)
    requires Reads(read, codec) && Agrees(denotes, codec) && PlacedIn(denotes, bytes, placed) && Lets(st, placed.item)
    ensures Yields(read(bytes[placed.at..], st), placed.item)
  {
    var front, size := bytes[placed.at..], placed.item.size;
    assert front[..BLOCK] == bytes[placed.at..placed.at + BLOCK];
    assert front[BLOCK..][..size] == bytes[placed.at + BLOCK..placed.at + BLOCK + size];
    var header, rest := front[..BLOCK], front[BLOCK..];
    assert Denotes(codec, header, rest[..size], placed.item);
    HeaderAdvances(codec, header, rest, st, placed.item);
    assert ReadBlock(codec, front, st) == HeaderBlock(codec, header, rest, st);
    assert read(front, st) == ReadBlock(codec, front, st);
  }

  lemma {:induction false} CountsGrow(log: Log, k: nat)
    requires k <= |log|
    ensures NamedEntries(log[..k]) <= NamedEntries(log) && FileBytes(log[..k]) <= FileBytes(log)
  {
    if k < |log| {
      var front := log[..|log| - 1];
      CountsGrow(front, k);
      assert front[..k] == log[..k];
    } else {
      assert log[..k] == log;
    }
  }

  /** At least one entry, and all under one root. */
  ghost predicate SharedRoot(log: Log) {
    && (exists i :: 0 <= i < |log| && log[i].item.Entry?)
    && (forall i, j | 0 <= i < |log| && 0 <= j < |log| && log[i].item.Entry? && log[j].item.Entry? ::
       log[i].item.root == log[j].item.root)
  }

  /** Entries that make one tree within the limits. */
  ghost predicate Coherent(log: Log) {
    && DistinctPaths(log) && NoFileAbove(log) && SharedRoot(log) && SizesInBounds(log)
    && NamedEntries(log) <= 20_000 && FileBytes(log) <= 67_108_864
  }

  lemma {:induction false} PathNamed(paths: map<string, Kind>, log: Log, path: string) returns (i: nat)
    requires Records(paths, log) && path in paths
    ensures Named(log, i) && log[i].item.relative == path && log[i].item.kind == paths[path]
  {
    i :| Named(log, i) && log[i].item.relative == path;
  }

  lemma {:induction false} NextPath(st: Progress, log: Log, k: nat)
    requires k < |log| && DistinctPaths(log) && Records(st.paths, log[..k]) && Named(log, k)
    ensures log[k].item.relative !in st.paths
  {
    forall path | path in st.paths ensures path != log[k].item.relative {
      var i := PathNamed(st.paths, log[..k], path);
      assert Named(log, i) && log[i].item.relative == path;
    }
  }

  lemma {:induction false} NextPending(st: Progress, log: Log, k: nat)
    requires k < |log| && Paired(log, true) && Paired(log, false) && Headers(st, log[..k])
    ensures match log[k].item
            case PaxHeader(_, global, _) => global || st.pendingPax.None?
            case LongName(_, _) => st.pendingPath.None?
            case Entry(_, _, _, _, usedPax, usedName) => usedPax == st.pendingPax && usedName == st.pendingPath
  {
    assert Waiting(log[..k], true) == PendingOf(st, true);
    assert Waiting(log[..k], false) == PendingOf(st, false);
  }

  lemma {:induction false} NextCounts(st: Progress, log: Log, k: nat)
    requires k < |log| && Numbers(st, log[..k]) && NamedEntries(log) <= MAXIMUM_ENTRIES
             && FileBytes(log) <= MAXIMUM_EXTRACTED_BYTES
    ensures log[k].item.Entry? ==> st.extractedBytes + log[k].item.size <= MAXIMUM_EXTRACTED_BYTES
    ensures Named(log, k) ==> st.entryCount + 1 <= MAXIMUM_ENTRIES
  {
    CountsGrow(log, k + 1);
    OneMore(log[..k], log[k]);
    assert log[..k + 1] == log[..k] + [log[k]];
  }

  lemma {:induction false} NextRoot(st: Progress, log: Log, k: nat)
    requires k < |log| && SharedRoot(log) && OneRoot(st.root, log[..k]) && log[k].item.Entry?
    ensures st.root.None? || st.root == Some(log[k].item.root)
  {
    if st.root.Some? {
      var i :| 0 <= i < k && log[..k][i].item.Entry?;
      assert log[i].item.Entry? && st.root == Some(log[i].item.root);
    }
  }

  /** The next item of a coherent log is always let in. */
  lemma {:induction false} NextIsLet(st: Progress, log: Log, k: nat)
    requires k < |log| && Coherent(log) && Paired(log, true) && Paired(log, false) && Content(st, log[..k])
    ensures Lets(st, log[k].item)
  {
    NextPending(st, log, k);
    NextCounts(st, log, k);
    if log[k].item.Entry? {
      NextRoot(st, log, k);
      if log[k].item.relative != "" {
        NextPath(st, log, k);
      }
    }
  }

  lemma {:induction false} WaitingFrom(log: Log, pax: bool, h: nat, k: nat)
    requires h < k <= |log| && Opened(log[h].item, pax).Some?
    requires forall m | h < m < k :: !log[m].item.Entry? && Opened(log[m].item, pax).None?
    ensures Waiting(log[..k], pax) == Opened(log[h].item, pax)
    decreases k
  {
    if h < k - 1 {
      WaitingFrom(log, pax, h, k - 1);
      assert log[..k][..k - 1] == log[..k - 1];
    }
  }

  /** Matched one for one, a header that waits is used by an entry still to come. */
  lemma {:induction false} WaitingServed(log: Log, pax: bool, k: nat) returns (h: nat, j: nat)
    requires OneForOne(log, pax) && k <= |log| && Waiting(log[..k], pax).Some?
    ensures h < k <= j < |log| && Opened(log[h].item, pax).Some? && Serves(log, pax, h, j)
    ensures Consumed(log[j].item, pax) == Opened(log[h].item, pax) == Waiting(log[..k], pax)
  {
    h := WaitingSince(log[..k], pax);
    assert forall m | 0 <= m < k :: log[..k][m] == log[m];
    assert IsConsumed(log, pax, h);
    j :| h < j < |log| && Serves(log, pax, h, j) && Consumed(log[j].item, pax) == Opened(log[h].item, pax);
  }

  lemma {:induction false} NoneWaits(log: Log, pax: bool, k: nat)
    requires OneForOne(log, pax) && k <= |log| && (k < |log| ==> Opened(log[k].item, pax).Some?)
    ensures Waiting(log[..k], pax).None?
  {
    if Waiting(log[..k], pax).Some? {
      var h, j := WaitingServed(log, pax, k);
    }
  }

  lemma {:induction false} ConsumesWaiting(log: Log, pax: bool, k: nat)
    requires OneForOne(log, pax) && k < |log| && log[k].item.Entry?
    ensures Consumed(log[k].item, pax) == Waiting(log[..k], pax)
  {
    if Consumed(log[k].item, pax).Some? {
      assert IsSupplied(log, pax, k);
      var h :| 0 <= h < k && Serves(log, pax, h, k) && Consumed(log[k].item, pax) == Opened(log[h].item, pax);
      WaitingFrom(log, pax, h, k);
    } else if Waiting(log[..k], pax).Some? {
      var h, j := WaitingServed(log, pax, k);
    }
  }

  /** Matching one for one is what the inspector tracks with its pending header. */
  lemma {:induction false} OneForOnePaired(log: Log, pax: bool)
    requires OneForOne(log, pax)
    ensures Paired(log, pax) && Waiting(log, pax).None?
  {
    forall k | 0 <= k < |log|
      ensures log[k].item.Entry? ==> Consumed(log[k].item, pax) == Waiting(log[..k], pax)
      ensures Opened(log[k].item, pax).Some? ==> Waiting(log[..k], pax).None?
    {
      if log[k].item.Entry? {
        ConsumesWaiting(log, pax, k);
      }
      if Opened(log[k].item, pax).Some? {
        NoneWaits(log, pax, k);
      }
    }
    NoneWaits(log, pax, |log|);
    assert log[..|log|] == log;
  }

  /** Items one after the other from offset zero, each true to its header and its bytes, and then only zeros. */
  ghost predicate Layout(denotes: HeaderLaw, bytes: seq<byte>, log: Log) {
    Chained(log) && Terminated(bytes, log) && forall placed | placed in log :: PlacedIn(denotes, bytes, placed)
  }

  /** A log that can be scanned: its items make a coherent tree and its headers are paired. */
  ghost predicate Scannable(log: Log) {
    Coherent(log) && Paired(log, true) && Paired(log, false)
  }

  lemma {:induction false} ItemRead(
    codec: TextCodec, read: BlockReader, denotes: HeaderLaw, bytes: seq<byte>, placed: Placed, st: Progress)
        returns (next: Progress)
    requires Bounded(read) && Reads(read, codec) && Agrees(denotes, codec)
    requires PlacedIn(denotes, bytes, placed) && Lets(st, placed.item)
    ensures read(bytes[placed.at..], st) == Advance(Span(placed.item.size), next, placed.item)
            && Moves(st, next, placed.item)
  {
    BlockAdvances(codec, read, denotes, bytes, st, placed);
    BlockMoves(codec, read, denotes, bytes[placed.at..], st);
    next := read(bytes[placed.at..], st).next;
  }

  /** What holds of the inspector's variables after a number of items. */
  type Stage = (Progress, nat) -> bool

  ghost predicate Stands(stage: Stage, st: Progress, k: nat) {
    stage(st, k)
  }

  /** At each stage the block at the front is the next item, and leads to the next stage. */
  ghost predicate Replays(read: BlockReader, stage: Stage, bytes: seq<byte>, log: Log) {
    forall st, k: nat {:trigger Stands(stage, st, k)} | k < |log| && Stands(stage, st, k) ::
      && EndOf(log[..k]) + BLOCK <= EndOf(log[..k + 1]) <= |bytes| && log[k].at == EndOf(log[..k])
      && var block := read(bytes[EndOf(log[..k])..], st);
         Yields(block, log[k].item) && block.used == EndOf(log[..k + 1]) - EndOf(log[..k]) && stage(block.next, k + 1)
  }

  lemma {:induction false} ItemReplays(
    codec: TextCodec, read: BlockReader, denotes: HeaderLaw, bytes: seq<byte>, log: Log, k: nat, st: Progress)
        returns (next: Progress)
    requires Bounded(read) && Reads(read, codec) && Agrees(denotes, codec)
    requires k < |log| && Chained(log) && PlacedIn(denotes, bytes, log[k]) && Scannable(log) && Content(st, log[..k])
    ensures EndOf(log[..k + 1]) == EndOf(log[..k]) + Span(log[k].item.size) <= |bytes| && Content(next, log[..k + 1])
    ensures read(bytes[EndOf(log[..k])..], st) == Advance(Span(log[k].item.size), next, log[k].item)
  {
    NextIsLet(st, log, k);
    next := ItemRead(codec, read, denotes, bytes, log[k], st);
    assert log[..k + 1] == log[..k] + [log[k]];
    ContentStep(st, next, log[..k], log[k]);
    EndStep(log[..k], log[k]);
  }

  lemma {:induction false} LogReplays(codec: TextCodec, read: BlockReader, denotes: HeaderLaw, bytes: seq<byte>,
      log: Log, stage: Stage)
    requires Bounded(read) && Reads(read, codec) && Agrees(denotes, codec) && Layout(denotes, bytes, log)
             && Scannable(log)
    requires forall st, k: nat {:trigger stage(st, k)} | k <= |log| :: stage(st, k) == Content(st, log[..k])
    ensures Replays(read, stage, bytes, log)
  {
    forall st, k: nat | k < |log| && Stands(stage, st, k)
      ensures EndOf(log[..k]) + BLOCK <= EndOf(log[..k + 1]) <= |bytes| && log[k].at == EndOf(log[..k])
      ensures var block := read(bytes[EndOf(log[..k])..], st);
              Yields(block, log[k].item) && block.used == EndOf(log[..k + 1]) - EndOf(log[..k])
                  && stage(block.next, k + 1)
    {
      assert log[k] in log;
      var next := ItemReplays(codec, read, denotes, bytes, log, k, st);
    }
  }

  lemma {:induction false} EndScanned(codec: TextCodec, read: BlockReader, bytes: seq<byte>, st: Progress)
    requires Reads(read, codec) && 2 * BLOCK <= |bytes| && AllZero(bytes)
    ensures read(bytes, st).End?
  {
    assert bytes == bytes[..BLOCK] + bytes[BLOCK..];
    ZeroConcat(bytes[..BLOCK], bytes[BLOCK..]);
    assert read(bytes, st) == ReadBlock(codec, bytes, st);
  }

  /** A log that is replayed to the end is the log of the scan. */
  lemma {:induction false} LogScanned(read: BlockReader, stage: Stage, bytes: seq<byte>, log: Log, k: nat, st: Progress)
      returns (last: Progress)
    requires Bounded(read) && Replays(read, stage, bytes, log) && k <= |log| && stage(st, k)
    requires EndOf(log[..k]) <= |bytes| && EndOf(log) <= |bytes| && forall p {:trigger read(bytes[EndOf(log)..], p)} ::
             read(bytes[EndOf(log)..], p).End?
    ensures stage(last, |log|)
    ensures Scan(read, bytes[EndOf(log[..k])..], st, log[..k], EndOf(log[..k])) == Ok(Scanned(last, log))
    decreases |log| - k
  {
    var at := EndOf(log[..k]);
    if k < |log| {
      assert Stands(stage, st, k);
      var block := read(bytes[at..], st);
      last := LogScanned(read, stage, bytes, log, k + 1, block.next);
      assert bytes[at..][block.used..] == bytes[at + block.used..];
      assert log[..k + 1] == log[..k] + [Placed(at, log[k].item)];
    } else {
      assert log[..k] == log;
      last := st;
    }
  }

  lemma {:induction false} NoFileAsParent(paths: map<string, Kind>, log: Log)
    requires NoFileAbove(log) && Records(paths, log)
    ensures !FileAsParent(paths)
  {
    FileAsParentMeaning(paths);
    forall file, path | file in paths && path in paths && paths[file] == File
      ensures !Above(file, path)
    {
      var i := PathNamed(paths, log, file);
      var j := PathNamed(paths, log, path);
    }
  }

  lemma {:induction false} CoherentFinish(st: Progress, log: Log, expanded: nat)
    requires Coherent(log) && Content(st, log) && Waiting(log, true).None? && Waiting(log, false).None?
    ensures Finish(st, expanded).Ok?
  {
    assert Waiting(log, true) == PendingOf(st, true) && Waiting(log, false) == PendingOf(st, false);
    NoFileAsParent(st.paths, log);
    var i :| 0 <= i < |log| && log[i].item.Entry?;
    assert st.root == Some(log[i].item.root);
  }

  /**
   An archive by its bytes: items in place, one tree within the limits, and every extended header matched with one
   entry.
   */
  ghost predicate IsArchive(codec: TextCodec, bytes: seq<byte>, log: Log) {
    Layout(Denoting(codec), bytes, log) && Coherent(log) && OneForOne(log, true) && OneForOne(log, false)
  }

  lemma {:induction false} ArchiveScanned(codec: TextCodec, bytes: seq<byte>, log: Log) returns (last: Progress)
    requires Layout(Denoting(codec), bytes, log) && Scannable(log)
    ensures Scan(TarReading(codec), bytes, START, [], 0) == Ok(Scanned(last, log)) && Content(last, log)
  {
    var read, denotes := TarReading(codec), Denoting(codec);
    var stage: Stage := (st, k: nat) => k <= |log| && Content(st, log[..k]);
    LogReplays(codec, read, denotes, bytes, log, stage);
    forall st ensures read(bytes[EndOf(log)..], st).End? {
      EndScanned(codec, read, bytes[EndOf(log)..], st);
    }
    assert log[..0] == [] && bytes[0..] == bytes && log[..|log|] == log;
    assert stage(START, 0);
    last := LogScanned(read, stage, bytes, log, 0, START);
  }

  lemma {:induction false} ArchiveAccepted(codec: TextCodec, bytes: seq<byte>, log: Log)
    requires IsArchive(codec, bytes, log)
    ensures Inspect(codec, bytes).Ok? && log == LogOf(codec, bytes)
  {
    OneForOnePaired(log, true);
    OneForOnePaired(log, false);
    var last := ArchiveScanned(codec, bytes, log);
    CoherentFinish(last, log, |bytes|);
  }

  lemma {:induction false} AcceptedIsArchive(codec: TextCodec, bytes: seq<byte>)
    requires Inspect(codec, bytes).Ok?
    ensures IsArchive(codec, bytes, LogOf(codec, bytes))
  {
    AcceptedLayout(codec, bytes);
    AcceptedTree(codec, bytes);
    HeadersServeOneEntry(codec, bytes, true);
    HeadersServeOneEntry(codec, bytes, false);
  }

  /** The inspector accepts exactly the archives, and reads each in the one way it can be read. */
  lemma {:induction false} InspectExactly(codec: TextCodec, bytes: seq<byte>, log: Log)
    ensures IsArchive(codec, bytes, log) <==> Inspect(codec, bytes).Ok? && log == LogOf(codec, bytes)
  {
    if IsArchive(codec, bytes, log) {
      ArchiveAccepted(codec, bytes, log);
    }
    if Inspect(codec, bytes).Ok? {
      AcceptedIsArchive(codec, bytes);
    }
  }

  /** Acceptance, without naming the log. */
  lemma {:induction false} AcceptsArchives(codec: TextCodec, bytes: seq<byte>)
    ensures Inspect(codec, bytes).Ok? <==> exists log :: IsArchive(codec, bytes, log)
  {
    InspectExactly(codec, bytes, LogOf(codec, bytes));
    if log :| IsArchive(codec, bytes, log) {
      InspectExactly(codec, bytes, log);
    }
  }
}

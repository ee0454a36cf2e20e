/**
 The pax extended-header parser, and the self-counting records it accepts ("pax Extended Header"
 in the pax utility of IEEE Std 1003.1-2017).
 */
module TarPax {
  import opened Common
  import opened TarReader
  import opened TarPaths
  import opened TarHeaders

  /** An accepted length leaves room for its own digits, the space and the newline. */
  lemma {:induction false} RecordHasBody(bytes: seq<byte>)
    requires RecordLength(bytes).Some?
    ensures SpaceIndex(bytes) + 1 <= RecordLength(bytes).value - 1 < |bytes|
  {
    var length, digits := RecordLength(bytes).value, bytes[..SpaceIndex(bytes)];
    assert bytes[length - 1] == 10;
    assert forall j | 0 <= j < |digits| :: bytes[j] == digits[j] != 10;
  }

  lemma {:induction false} SpaceFound(bytes: seq<byte>, n: nat)
    requires n <= |bytes| && (forall j | 0 <= j < n :: bytes[j] != 32) && (n < |bytes| ==> bytes[n] == 32)
    ensures SpaceIndex(bytes) == n
  {}

  lemma {:induction false} SliceOfRest(payload: seq<byte>, offset: nat, from: nat, to: nat)
    requires from <= to && offset + to <= |payload|
    ensures Subarray(payload[offset..], from, to) == payload[offset + from..offset + to]
  {
    assert payload[offset..][from..to] == payload[offset + from..offset + to];
  }

  method FindSpace(payload: seq<byte>, offset: nat) returns (space: nat)
    requires offset < |payload|
    ensures offset <= space <= |payload| && space - offset == SpaceIndex(payload[offset..])
  {
    ghost var rest := payload[offset..];
    space := offset;
    while space < |payload| && payload[space] != 32
      invariant offset <= space <= |payload|
      invariant forall j | 0 <= j < space - offset :: rest[j] != 32
    {
      space := space + 1;
    }
    SpaceFound(rest, space - offset);
  }

  /** The length the record at `offset` claims, checked against the payload. */
  method ReadLength(payload: seq<byte>, offset: nat, space: nat) returns (length: Option<nat>)
    requires offset < |payload| && offset <= space <= |payload| && space - offset == SpaceIndex(payload[offset..])
    ensures length == RecordLength(payload[offset..])
  {
    var digits := payload[offset..space];
    assert digits == payload[offset..][..space - offset];
    if !Numeral(digits) {
      return None;
    }
    NumeralPositive(digits);
    var claimed := FromDecimal(digits);
    if claimed > MAXIMUM_SAFE_INTEGER || offset + claimed > |payload| || payload[offset + claimed - 1] != 10 {
      return None;
    }
    length := Some(claimed);
  }

  lemma {:induction false} FrontAt(codec: TextCodec, payload: seq<byte>, offset: nat, space: nat, length: nat)
    requires offset <= space <= |payload| && space - offset == SpaceIndex(payload[offset..])
    requires RecordLength(payload[offset..]) == Some(length)
    ensures space + 1 <= offset + length - 1 < |payload|
    ensures FrontRecord(codec, payload[offset..]) ==
            match codec.decode(payload[space + 1..offset + length - 1])
            case None => None
            case Some(text) => Some((length, text))
  {
    RecordHasBody(payload[offset..]);
    SliceOfRest(payload, offset, space - offset + 1, length - 1);
  }

  lemma {:induction false} NoFront(codec: TextCodec, bytes: seq<byte>)
    ensures RecordLength(bytes).None? ==> FrontRecord(codec, bytes).None?
  {}

  /** Reads one record of the payload at `offset`; every slice it takes is in range. */
  method ParseRecord(codec: TextCodec, payload: seq<byte>, offset: nat) returns (front: Option<(nat, string)>)
    requires offset < |payload|
    ensures front == FrontRecord(codec, payload[offset..])
  {
    var space := FindSpace(payload, offset);
    var length := ReadLength(payload, offset, space);
    if length.None? {
      NoFront(codec, payload[offset..]);
      return None;
    }
    FrontAt(codec, payload, offset, space, length.value);
    var record := codec.decode(payload[space + 1..offset + length.value - 1]);
    front := if record.None? then None else Some((length.value, record.value));
  }

  lemma {:induction false} PaxStep(codec: TextCodec, bytes: seq<byte>, fields: PaxFields, length: nat, text: string)
    requires bytes != [] && FrontRecord(codec, bytes) == Some((length, text))
    ensures PaxFrom(codec, bytes, fields) ==
            if SetField(fields, text).None? then Err(InvalidArchive)
              else PaxFrom(codec, bytes[length..], SetField(fields, text).value)
  {}

  lemma {:induction false} PaxStops(codec: TextCodec, bytes: seq<byte>, fields: PaxFields)
    requires bytes == [] || FrontRecord(codec, bytes).None?
    ensures PaxFrom(codec, bytes, fields) == if bytes == [] then Ok(fields) else Err(InvalidArchive)
  {}

  method ParsePax(codec: TextCodec, payload: seq<byte>) returns (fields: Result<PaxFields, ArchiveError>)
    ensures fields == PaxFrom(codec, payload, NO_FIELDS)
  {
    var result, offset := NO_FIELDS, 0;
    ghost var rest, goal := payload, PaxFrom(codec, payload, NO_FIELDS);
    while offset < |payload|
      invariant 0 <= offset <= |payload| && rest == payload[offset..]
      invariant goal == PaxFrom(codec, rest, result)
      decreases |payload| - offset
    {
      var front := ParseRecord(codec, payload, offset);
      if front.None? {
        PaxStops(codec, rest, result);
        return Err(InvalidArchive);
      }
      var (length, text) := front.value;
      PaxStep(codec, rest, result, length, text);
      var next := SetField(result, text);
      if next.None? {
        return Err(InvalidArchive);
      }
      rest := rest[length..];
      result, offset := next.value, offset + length;
    }
    PaxStops(codec, rest, result);
    fields := Ok(result);
  }

  // The records a payload is made of

  datatype PaxRecord = PaxRecord(digits: seq<byte>, body: seq<byte>, text: string)

  function Wire(r: PaxRecord): seq<byte> {
    r.digits + [32] + r.body + [10]
  }

  /** The digits count the whole record, themselves included. */
  ghost predicate SelfCounting(codec: TextCodec, r: PaxRecord) {
    && Numeral(r.digits)
    && FromDecimal(r.digits) == |Wire(r)| <= MAXIMUM_SAFE_INTEGER
    && codec.decode(r.body) == Some(r.text)
  }

  function WireAll(records: seq<PaxRecord>): seq<byte> {
    if records == [] then [] else Wire(records[0]) + WireAll(records[1..])
  }

  ghost predicate AllSelfCounting(codec: TextCodec, records: seq<PaxRecord>) {
    forall i | 0 <= i < |records| :: SelfCounting(codec, records[i])
  }

  /** The fields the records set one after the other, unless one is malformed or set twice. */
  function Collect(records: seq<PaxRecord>, fields: PaxFields): Option<PaxFields> {
    if records == [] then Some(fields) else
    match SetField(fields, records[0].text)
    case None => None
    case Some(next) => Collect(records[1..], next)
  }

  /** A self-counting record at the front of a payload is read back whole. */
  lemma {:induction false} ReadsRecord(codec: TextCodec, r: PaxRecord, rest: seq<byte>)
    requires SelfCounting(codec, r)
    ensures FrontRecord(codec, Wire(r) + rest) == Some((|Wire(r)|, r.text))
    ensures SpaceIndex(Wire(r) + rest) == |r.digits|
    ensures (Wire(r) + rest)[|Wire(r)|..] == rest
  {
    var bytes := Wire(r) + rest;
    assert bytes == r.digits + ([32] + r.body + [10] + rest);
    SpaceFound(bytes, |r.digits|);
    assert bytes[..|r.digits|] == r.digits;
    assert bytes[|Wire(r)| - 1] == 10;
    assert bytes[|r.digits| + 1..|Wire(r)| - 1] == r.body;
  }

  /** Conversely what the parser takes off the front is a self-counting record. */
  lemma {:induction false} RecordSlices(bytes: seq<byte>, space: nat, length: nat)
    requires space + 1 <= length - 1 < |bytes| && bytes[space] == 32 && bytes[length - 1] == 10
    ensures bytes[..length] == bytes[..space] + [32] + bytes[space + 1..length - 1] + [10]
  {
    assert bytes[..length] == bytes[..length - 1] + [10];
    assert bytes[..length - 1] == bytes[..space + 1] + bytes[space + 1..length - 1];
    assert bytes[..space + 1] == bytes[..space] + [32];
  }

  lemma {:induction false} TakesRecord(codec: TextCodec, bytes: seq<byte>) returns (r: PaxRecord)
    requires FrontRecord(codec, bytes).Some?
    ensures SelfCounting(codec, r) && FrontRecord(codec, bytes) == Some((|Wire(r)|, r.text))
    ensures bytes[..|Wire(r)|] == Wire(r)
  {
    RecordHasBody(bytes);
    var space, length := SpaceIndex(bytes), RecordLength(bytes).value;
    var body := bytes[space + 1..length - 1];
    r := PaxRecord(bytes[..space], body, codec.decode(body).value);
    RecordSlices(bytes, space, length);
  }

  /** Any sequence of self-counting records is accepted exactly when its fields can be collected. */
  lemma {:induction false} RecordsParse(codec: TextCodec, records: seq<PaxRecord>, fields: PaxFields)
    requires AllSelfCounting(codec, records)
    ensures PaxFrom(codec, WireAll(records), fields) ==
            match Collect(records, fields) case Some(f) => Ok(f) case None => Err(InvalidArchive)
  {
    if records != [] {
      var r, rest := records[0], WireAll(records[1..]);
      ReadsRecord(codec, r, rest);
      PaxStep(codec, Wire(r) + rest, fields, |Wire(r)|, r.text);
      if SetField(fields, r.text).Some? {
        RecordsParse(codec, records[1..], SetField(fields, r.text).value);
      }
    }
  }

  /** An accepted payload splits into self-counting records with those fields. */
  lemma {:induction false} ParsedRecords(codec: TextCodec, payload: seq<byte>, fields: PaxFields)
      returns (records: seq<PaxRecord>)
    requires PaxFrom(codec, payload, fields).Ok?
    ensures AllSelfCounting(codec, records) && WireAll(records) == payload
    ensures Collect(records, fields) == Some(PaxFrom(codec, payload, fields).value)
    decreases |payload|
  {
    if payload == [] {
      records := [];
    } else {
      var r := TakesRecord(codec, payload);
      PaxStep(codec, payload, fields, |Wire(r)|, r.text);
      var rest := ParsedRecords(codec, payload[|Wire(r)|..], SetField(fields, r.text).value);
      records := [r] + rest;
      assert records[1..] == rest;
    }
  }

  /** The parser accepts exactly the payloads that split into self-counting records with those fields. */
  lemma {:induction false} PaxExactly(codec: TextCodec, payload: seq<byte>, fields: PaxFields)
    ensures PaxFrom(codec, payload, NO_FIELDS) == Ok(fields) <==>
            exists records ::
                AllSelfCounting(codec, records) && WireAll(records) == payload
                && Collect(records, NO_FIELDS) == Some(fields)
  {
    if PaxFrom(codec, payload, NO_FIELDS) == Ok(fields) {
      var records := ParsedRecords(codec, payload, NO_FIELDS);
    }
    forall records | AllSelfCounting(codec, records) && WireAll(records) == payload
        && Collect(records, NO_FIELDS) == Some(fields)
      ensures PaxFrom(codec, payload, NO_FIELDS) == Ok(fields)
    {
      RecordsParse(codec, records, NO_FIELDS);
    }
  }

  lemma {:induction false} WireInjective(a: PaxRecord, b: PaxRecord)
    requires Wire(a) == Wire(b) && |a.digits| == |b.digits| && a.text == b.text
    ensures a == b
  {
    assert a.digits == Wire(a)[..|a.digits|] == b.digits;
    assert a.body == Wire(a)[|a.digits| + 1..|Wire(a)| - 1] == b.body;
  }

  /** Two payloads that are equal begin with the same record. */
  lemma {:induction false} SameFirstRecord(codec: TextCodec, a: PaxRecord, x: seq<byte>, b: PaxRecord, y: seq<byte>)
    requires SelfCounting(codec, a) && SelfCounting(codec, b) && Wire(a) + x == Wire(b) + y
    ensures a == b && x == y
  {
    ReadsRecord(codec, a, x);
    ReadsRecord(codec, b, y);
    ConcatCancel(Wire(a), x, Wire(b), y);
    WireInjective(a, b);
  }

  /** A payload splits into self-counting records in at most one way. */
  lemma {:induction false} SplitUnique(codec: TextCodec, a: seq<PaxRecord>, b: seq<PaxRecord>)
    requires AllSelfCounting(codec, a) && AllSelfCounting(codec, b) && WireAll(a) == WireAll(b)
    ensures a == b
  {
    if a != [] && b != [] {
      SameFirstRecord(codec, a[0], WireAll(a[1..]), b[0], WireAll(b[1..]));
      SplitUnique(codec, a[1..], b[1..]);
      assert a == [a[0]] + a[1..] && b == [b[0]] + b[1..];
    }
  }

  // What the fields are

  /** The text sets the keyword. */
  predicate Assigns(text: string, keyword: string) {
    keyword + "=" <= text
  }

  /** The value of a keyword: what the one record that sets it says, or nothing if none does. */
  ghost predicate FieldIs(records: seq<PaxRecord>, keyword: string, value: Option<string>) {
    match value
    case None => forall i | 0 <= i < |records| :: !Assigns(records[i].text, keyword)
    case Some(v) =>
      exists i :: 0 <= i < |records| && records[i].text == keyword + "=" + v && OnlyAt(records, keyword, i)
  }

  ghost predicate OnlyAt(records: seq<PaxRecord>, keyword: string, i: int) {
    forall j | 0 <= j < |records| && j != i :: !Assigns(records[j].text, keyword)
  }

  /** Every record has a keyword: an equals sign that is not its first character. */
  ghost predicate AllKeyed(records: seq<PaxRecord>) {
    forall i | 0 <= i < |records| :: '=' in records[i].text && records[i].text[0] != '='
  }

  /** A keyword that had a value before the records has to keep it. */
  ghost predicate Becomes(records: seq<PaxRecord>, keyword: string, before: Option<string>, after: Option<string>) {
    if before.Some? then after == before && FieldIs(records, keyword, None) else FieldIs(records, keyword, after)
  }

  function AfterFirst(text: string, keyword: string, before: Option<string>): Option<string> {
    if Assigns(text, keyword) then Some(text[|keyword| + 1..]) else before
  }

  lemma {:induction false} AssignsParts(text: string, keyword: string)
    ensures Assigns(text, keyword) ==> text == keyword + "=" + text[|keyword| + 1..]
    ensures forall v :: text == keyword + "=" + v ==> Assigns(text, keyword) && v == text[|keyword| + 1..]
  {
    if Assigns(text, keyword) {
      assert text == text[..|keyword| + 1] + text[|keyword| + 1..];
    }
  }

  lemma {:induction false} FieldCons(records: seq<PaxRecord>, keyword: string, value: Option<string>)
    requires records != []
    ensures FieldIs(records, keyword, value) <==>
            if Assigns(records[0].text, keyword)
            then value == Some(records[0].text[|keyword| + 1..]) && FieldIs(records[1..], keyword, None)
            else FieldIs(records[1..], keyword, value)
  {
    var first, rest := records[0].text, records[1..];
    AssignsParts(first, keyword);
    forall j | 0 <= j < |rest| ensures rest[j] == records[j + 1] {}
    if FieldIs(records, keyword, value) && value.Some? {
      var i :| 0 <= i < |records| && records[i].text == keyword + "=" + value.value && OnlyAt(records, keyword, i);
      AssignsParts(records[i].text, keyword);
      if i > 0 {
        assert OnlyAt(rest, keyword, i - 1) && rest[i - 1] == records[i];
      }
    }
    if Assigns(first, keyword) && value == Some(first[|keyword| + 1..]) && FieldIs(rest, keyword, None) {
      assert OnlyAt(records, keyword, 0);
    }
    if !Assigns(first, keyword) && FieldIs(rest, keyword, value) && value.Some? {
      var i :| 0 <= i < |rest| && rest[i].text == keyword + "=" + value.value && OnlyAt(rest, keyword, i);
      assert OnlyAt(records, keyword, i + 1) && records[i + 1] == rest[i];
    }
  }

  lemma {:induction false} BecomesCons(records: seq<PaxRecord>, keyword: string, before: Option<string>,
      after: Option<string>)
    requires records != []
    ensures Becomes(records, keyword, before, after) <==>
            && (Assigns(records[0].text, keyword) ==> before.None?)
            && Becomes(records[1..], keyword, AfterFirst(records[0].text, keyword, before), after)
  {
    FieldCons(records, keyword, None);
    FieldCons(records, keyword, after);
  }

  /** The keyword in front of the first equals sign is the one the text assigns. */
  lemma {:induction false} KeyAssigns(text: string, keyword: string)
    requires '=' !in keyword
    ensures var k := IndexOf(text, '='); k < |text| ==> (text[..k] == keyword <==> Assigns(text, keyword))
    ensures Assigns(text, keyword) ==> IndexOf(text, '=') == |keyword| < |text|
  {
    var k := IndexOf(text, '=');
    if Assigns(text, keyword) {
      assert text[..|keyword| + 1] == keyword + "=";
      assert text[|keyword|] == '=' && forall j | 0 <= j < |keyword| :: text[j] == keyword[j] && keyword[j] in keyword;
    }
    if k < |text| && text[..k] == keyword {
      assert text[..k + 1] == keyword + "=";
    }
  }

  lemma {:induction false} Keyed(text: string)
    ensures var k := IndexOf(text, '='); 1 <= k < |text| <==> '=' in text && text[0] != '='
  {
    var k := IndexOf(text, '=');
    if k == |text| {
      assert forall j | 0 <= j < |text| :: text[j] != '=';
    }
  }

  lemma {:induction false} SetFieldExactly(fields: PaxFields, text: string)
    ensures SetField(fields, text) ==
            if '=' !in text || text[0] == '=' || (Assigns(text, "path") && fields.path.Some?)
               || (Assigns(text, "linkpath") && fields.linkpath.Some?) || (Assigns(text, "size") && fields.size.Some?)
            then None
            else Some(PaxFields(AfterFirst(text, "path", fields.path), AfterFirst(text, "linkpath", fields.linkpath),
                                AfterFirst(text, "size", fields.size)))
  {
    Keyed(text);
    assert "path"[0] == 'p' && "linkpath"[0] == 'l' && "size"[0] == 's';
    KeyAssigns(text, "path");
    KeyAssigns(text, "linkpath");
    KeyAssigns(text, "size");
  }

  ghost predicate AllBecome(records: seq<PaxRecord>, before: PaxFields, after: PaxFields) {
    && Becomes(records, "path", before.path, after.path)
    && Becomes(records, "linkpath", before.linkpath, after.linkpath)
    && Becomes(records, "size", before.size, after.size)
  }

  lemma {:induction false} CollectBecomes(records: seq<PaxRecord>, before: PaxFields, after: PaxFields)
    ensures Collect(records, before) == Some(after) <==> AllKeyed(records) && AllBecome(records, before, after)
    decreases |records|
  {
    if records != [] {
      var text, rest := records[0].text, records[1..];
      SetFieldExactly(before, text);
      BecomesCons(records, "path", before.path, after.path);
      BecomesCons(records, "linkpath", before.linkpath, after.linkpath);
      BecomesCons(records, "size", before.size, after.size);
      KeyedCons(records);
      if SetField(before, text).Some? {
        CollectBecomes(rest, SetField(before, text).value, after);
      }
    }
  }

  lemma {:induction false} KeyedCons(records: seq<PaxRecord>)
    requires records != []
    ensures AllKeyed(records) <==> '=' in records[0].text && records[0].text[0] != '=' && AllKeyed(records[1..])
  {
    forall j | 0 <= j < |records[1..]| ensures records[1..][j] == records[j + 1] {}
  }

  /** The fields of a payload: self-counting records, each with a keyword, and no keyword of the three set twice. */
  ghost predicate PaxMeans(codec: TextCodec, payload: seq<byte>, fields: PaxFields) {
    exists records {:trigger WireAll(records)} ::
      && AllSelfCounting(codec, records) && WireAll(records) == payload && AllKeyed(records)
      && FieldIs(records, "path", fields.path) && FieldIs(records, "linkpath", fields.linkpath)
      && FieldIs(records, "size", fields.size)
  }

  /** The parser's answer, without the parser: how a payload is cut and what its keywords are set to. */
  lemma {:induction false} FieldsExactly(codec: TextCodec, payload: seq<byte>, fields: PaxFields)
    ensures PaxFrom(codec, payload, NO_FIELDS) == Ok(fields) <==> PaxMeans(codec, payload, fields)
  {
    PaxExactly(codec, payload, fields);
    forall records ensures Collect(records, NO_FIELDS) == Some(fields) <==>
        AllKeyed(records) && FieldIs(records, "path", fields.path) && FieldIs(records, "linkpath", fields.linkpath)
        && FieldIs(records, "size", fields.size)
    {
      CollectBecomes(records, NO_FIELDS, fields);
    }
  }
}

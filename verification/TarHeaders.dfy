/**
 Tar header fields and pax extended-header records, as they are read, and what each says without the way it is read:
 text up to a NUL, octal numbers among blanks and NULs, the checksum of the header, the path in its two fields, and
 names without the NULs behind them.
 */
module TarHeaders {
  import opened Common
  import opened Sorting
  import opened TarReader
  import opened TarPaths

  /** The largest integer a JavaScript number holds exactly. */
  const MAXIMUM_SAFE_INTEGER := 0x1F_FFFF_FFFF_FFFF

  const BLOCK := 512

  type Header = h: seq<byte> | |h| == 512 witness seq(512, _ => 0)

  /** What `trim` removes, by code point. */
  predicate White(c: char) {
    var n := c as int;
    || 9 <= n <= 13 || n == 32 || n == 0xa0 || n == 0x1680 || 0x2000 <= n <= 0x200a
    || n == 0x2028 || n == 0x2029 || n == 0x202f || n == 0x205f || n == 0x3000 || n == 0xfeff
  }

  function TrimStart(s: string): string {
    if s != [] && White(s[0]) then TrimStart(s[1..]) else s
  }

  function TrimEnd(s: string): string {
    if s != [] && White(s[|s| - 1]) then TrimEnd(s[..|s| - 1]) else s
  }

  function WithoutNuls(s: string): string {
    if s == [] then [] else (if s[0] == '\0' then [] else [s[0]]) + WithoutNuls(s[1..])
  }

  function WithoutTrailingNuls(s: string): string {
    if s != [] && s[|s| - 1] == '\0' then WithoutTrailingNuls(s[..|s| - 1]) else s
  }

  function OctalValue(digits: string): nat
    requires forall i | 0 <= i < |digits| :: '0' <= digits[i] <= '7'
  {
    if digits == [] then 0 else 8 * OctalValue(digits[..|digits| - 1]) + (digits[|digits| - 1] as int - '0' as int)
  }

  /** A numeric header field: octal text padded with spaces and NULs; empty is zero. */
  function ParseTarOctal(codec: TextCodec, bytes: seq<byte>): Result<nat, ArchiveError> {
    if bytes != [] && bytes[0] >= 0x80 then Err(InvalidArchive) else
    match codec.decode(bytes)
    case None => Err(InvalidArchive)
    case Some(decoded) =>
      var text := TrimEnd(TrimStart(WithoutNuls(decoded)));
      if text == [] then Ok(0)
      else if exists i | 0 <= i < |text| :: !('0' <= text[i] <= '7') then Err(InvalidArchive)
      else if OctalValue(text) > MAXIMUM_SAFE_INTEGER then Err(LimitsExceeded)
      else Ok(OctalValue(text))
  }

  function ZeroIndex(bytes: seq<byte>): (i: nat)
    ensures i <= |bytes|
  {
    if bytes == [] || bytes[0] == 0 then 0 else 1 + ZeroIndex(bytes[1..])
  }

  function DecodeNullTerminated(codec: TextCodec, bytes: seq<byte>): Option<string> {
    codec.decode(bytes[..ZeroIndex(bytes)])
  }

  /** The header sum from byte `from` on, with the checksum field itself read as spaces. */
  function HeaderSum(header: Header, from: nat): nat
    requires from <= 512
    decreases 512 - from
  {
    if from == 512 then 0 else (if 148 <= from < 156 then 32 else header[from]) + HeaderSum(header, from + 1)
  }

  function HeaderFault(codec: TextCodec, header: Header): Option<ArchiveError> {
    if DecodeNullTerminated(codec, header[257..263]) != Some("ustar") then Some(InvalidArchive) else
    match ParseTarOctal(codec, header[148..156])
    case Err(e) => Some(e)
    case Ok(expected) => if HeaderSum(header, 0) != expected then Some(InvalidArchive) else None
  }

  method ValidateTarHeader(codec: TextCodec, header: Header) returns (fault: Option<ArchiveError>)
    ensures fault == HeaderFault(codec, header)
  {
    if DecodeNullTerminated(codec, header[257..263]) != Some("ustar") {
      return Some(InvalidArchive);
    }
    var expected := ParseTarOctal(codec, header[148..156]);
    if expected.Err? {
      return Some(expected.error);
    }
    var actual := 0;
    for index := 0 to 512
      invariant actual + HeaderSum(header, index) == HeaderSum(header, 0)
    {
      actual := actual + if 148 <= index < 156 then 32 else header[index];
    }
    fault := if actual != expected.value then Some(InvalidArchive) else None;
  }

  /** The name field, under the prefix field when there is one. */
  function TarHeaderPath(codec: TextCodec, header: Header): Option<string> {
    match DecodeNullTerminated(codec, header[..100])
    case None => None
    case Some(name) =>
      match DecodeNullTerminated(codec, header[345..500])
      case None => None
      case Some(prefix) => Some(if prefix == "" then name else prefix + "/" + name)
  }

  // What the fields of a header say

  /** Text up to the first NUL. */
  ghost predicate NulText(codec: TextCodec, bytes: seq<byte>, text: string) {
    exists k :: 0 <= k <= |bytes| && 0 !in bytes[..k] && (k < |bytes| ==>
        bytes[k] == 0) && codec.decode(bytes[..k]) == Some(text)
  }

  lemma {:induction false} ZeroFound(bytes: seq<byte>, k: nat)
    requires k <= |bytes| && 0 !in bytes[..k] && (k < |bytes| ==> bytes[k] == 0)
    ensures ZeroIndex(bytes) == k
  {
    if k > 0 {
      assert bytes[0] == bytes[..k][0];
      assert bytes[1..][..k - 1] == bytes[..k][1..];
      ZeroFound(bytes[1..], k - 1);
    }
  }

  lemma {:induction false} ZeroCut(bytes: seq<byte>)
    ensures var k := ZeroIndex(bytes); 0 !in bytes[..k] && (k < |bytes| ==> bytes[k] == 0)
  {
    if bytes != [] && bytes[0] != 0 {
      ZeroCut(bytes[1..]);
      var k := ZeroIndex(bytes[1..]);
      assert bytes[..k + 1] == [bytes[0]] + bytes[1..][..k];
    }
  }

  lemma {:induction false} NulTextExactly(codec: TextCodec, bytes: seq<byte>, text: string)
    ensures NulText(codec, bytes, text) <==> DecodeNullTerminated(codec, bytes) == Some(text)
  {
    ZeroCut(bytes);
    forall k: nat | k <= |bytes| && 0 !in bytes[..k] && (k < |bytes| ==> bytes[k] == 0)
      ensures k == ZeroIndex(bytes)
    {
      ZeroFound(bytes, k);
    }
  }

  predicate Blank(s: string) {
    forall c | c in s :: White(c)
  }

  predicate OctalDigits(s: string) {
    forall c | c in s :: '0' <= c <= '7'
  }

  function Power8(n: nat): nat {
    if n == 0 then 1 else 8 * Power8(n - 1)
  }

  function OctalDigit(c: char): nat {
    if '0' <= c <= '7' then c as int - '0' as int else 0
  }

  /** The number octal digits write: each counts by its distance from the end. */
  function InBaseEight(digits: string): nat {
    if digits == "" then 0 else OctalDigit(digits[0]) * Power8(|digits| - 1) + InBaseEight(digits[1..])
  }

  /** A number in octal digits among blanks and NULs, that starts with no byte over 127; none at all is zero. */
  ghost predicate OctalField(codec: TextCodec, bytes: seq<byte>, n: nat) {
    && (bytes != [] ==> bytes[0] < 128)
    && codec.decode(bytes).Some?
    && exists left, digits, right {:trigger left + digits + right} ::
         && Filter(codec.decode(bytes).value, (c: char) => c != '\0') == left + digits + right
         && Blank(left) && OctalDigits(digits) && Blank(right)
         && n == InBaseEight(digits) && n <= 9_007_199_254_740_991
  }

  lemma {:induction false} BaseEightAppend(digits: string, last: char)
    ensures InBaseEight(digits + [last]) == 8 * InBaseEight(digits) + OctalDigit(last)
  {
    var more := digits + [last];
    if digits == "" {
      assert more == [last] && more[1..] == "" && Power8(0) == 1;
    } else {
      BaseEightAppend(digits[1..], last);
      assert more[1..] == digits[1..] + [last] && more[0] == digits[0];
      PlaceMoves(OctalDigit(digits[0]), Power8(|digits| - 1));
      assert Power8(|more| - 1) == 8 * Power8(|digits| - 1);
    }
  }

  lemma PlaceMoves(digit: nat, place: nat)
    ensures digit * (8 * place) == 8 * (digit * place)
  {}

  lemma {:induction false} BaseEight(digits: string)
    requires OctalDigits(digits)
    ensures (forall i | 0 <= i < |digits| :: '0' <= digits[i] <= '7') && OctalValue(digits) == InBaseEight(digits)
  {
    assert forall i | 0 <= i < |digits| :: digits[i] in digits;
    if digits != "" {
      var front := digits[..|digits| - 1];
      assert forall c | c in front :: c in digits;
      BaseEight(front);
      BaseEightAppend(front, digits[|digits| - 1]);
      assert digits == front + [digits[|digits| - 1]];
    }
  }

  lemma {:induction false} NulsFiltered(s: string)
    ensures WithoutNuls(s) == Filter(s, (c: char) => c != '\0')
  {
    if s != [] {
      NulsFiltered(s[1..]);
    }
  }

  lemma {:induction false} TrimParts(s: string) returns (left: string, right: string)
    ensures s == left + TrimEnd(TrimStart(s)) + right && Blank(left) && Blank(right)
  {
    left := StartTrimmed(s);
    right := EndTrimmed(TrimStart(s));
    Regroup(left, TrimEnd(TrimStart(s)), right);
  }

  lemma {:induction false} StartTrimmed(s: string) returns (left: string)
    ensures s == left + TrimStart(s) && Blank(left)
  {
    if s != [] && White(s[0]) {
      var rest := StartTrimmed(s[1..]);
      left := [s[0]] + rest;
      assert s == [s[0]] + s[1..];
      Regroup([s[0]], rest, TrimStart(s));
    } else {
      left := "";
    }
  }

  lemma {:induction false} EndTrimmed(s: string) returns (right: string)
    ensures s == TrimEnd(s) + right && Blank(right)
  {
    if s != [] && White(s[|s| - 1]) {
      right := EndTrimmed(s[..|s| - 1]);
      right := right + [s[|s| - 1]];
      assert s == s[..|s| - 1] + [s[|s| - 1]];
    } else {
      right := "";
    }
  }

  lemma {:induction false} TrimsStart(left: string, rest: string)
    requires Blank(left) && (rest != "" ==> !White(rest[0]))
    ensures TrimStart(left + rest) == rest
  {
    if left != "" {
      assert left[0] in left && forall c | c in left[1..] :: c in left;
      TrimsStart(left[1..], rest);
      assert (left + rest)[1..] == left[1..] + rest;
    } else {
      assert left + rest == rest;
    }
  }

  lemma {:induction false} TrimsEnd(rest: string, right: string)
    requires Blank(right) && (rest != "" ==> !White(rest[|rest| - 1]))
    ensures TrimEnd(rest + right) == rest
  {
    if right != "" {
      var front, last := right[..|right| - 1], right[|right| - 1];
      assert last in right && forall c | c in front :: c in right;
      TrimsEnd(rest, front);
      assert (rest + right)[..|rest + right| - 1] == rest + front;
    } else {
      assert rest + right == rest;
    }
  }

  lemma {:induction false} BlankStart(s: string)
    requires Blank(s)
    ensures TrimStart(s) == ""
  {
    if s != "" {
      assert s[0] in s && forall c | c in s[1..] :: c in s;
      BlankStart(s[1..]);
    }
  }

  /** Blanks around octal digits are what is trimmed. */
  lemma {:induction false} DigitsTrimmed(left: string, digits: string, right: string)
    requires Blank(left) && OctalDigits(digits) && Blank(right)
    ensures TrimEnd(TrimStart(left + digits + right)) == digits
  {
    Regroup(left, digits, right);
    if digits == "" {
      assert digits + right == right && forall c | c in left + right :: c in left || c in right;
      BlankStart(left + right);
    } else {
      assert digits[0] in digits && digits[|digits| - 1] in digits;
      TrimsStart(left, digits + right);
      TrimsEnd(digits, right);
    }
  }

  lemma {:induction false} OctalRead(codec: TextCodec, bytes: seq<byte>, n: nat)
    requires ParseTarOctal(codec, bytes) == Ok(n)
    ensures OctalField(codec, bytes, n)
  {
    var stripped := WithoutNuls(codec.decode(bytes).value);
    NulsFiltered(codec.decode(bytes).value);
    var digits := TrimEnd(TrimStart(stripped));
    var left, right := TrimParts(stripped);
    assert OctalDigits(digits);
    BaseEight(digits);
    assert stripped == left + digits + right;
  }

  lemma {:induction false} OctalWritten(codec: TextCodec, bytes: seq<byte>, left: string, digits: string, right: string)
    requires (bytes != [] ==> bytes[0] < 128) && codec.decode(bytes).Some?
    requires Filter(codec.decode(bytes).value, (c: char) => c != '\0') == left + digits + right
    requires Blank(left) && OctalDigits(digits) && Blank(right) && InBaseEight(digits) <= 9_007_199_254_740_991
    ensures ParseTarOctal(codec, bytes) == Ok(InBaseEight(digits))
  {
    NulsFiltered(codec.decode(bytes).value);
    DigitsTrimmed(left, digits, right);
    BaseEight(digits);
  }

  /** A numeric field is read as what it writes, and refused if it writes nothing. */
  lemma {:induction false} OctalExactly(codec: TextCodec, bytes: seq<byte>, n: nat)
    ensures ParseTarOctal(codec, bytes) == Ok(n) <==> OctalField(codec, bytes, n)
  {
    if ParseTarOctal(codec, bytes) == Ok(n) {
      OctalRead(codec, bytes, n);
    }
    if OctalField(codec, bytes, n) {
      var left, digits, right :| Filter(codec.decode(bytes).value, (c: char) => c != '\0') == left + digits + right
                                 && Blank(left) && OctalDigits(digits) && Blank(right) && n == InBaseEight(digits);
      OctalWritten(codec, bytes, left, digits, right);
    }
  }

  function SumOf(bytes: seq<byte>): nat {
    if bytes == [] then 0 else bytes[0] + SumOf(bytes[1..])
  }

  /** The header with blanks for its checksum. */
  function Blanked(header: Header): Header {
    header[..148] + seq(8, _ => 32) + header[156..]
  }

  lemma {:induction false} SumOfBlanked(header: Header, from: nat)
    requires from <= 512
    ensures HeaderSum(header, from) == SumOf(Blanked(header)[from..])
    decreases 512 - from
  {
    if from < 512 {
      SumOfBlanked(header, from + 1);
      assert Blanked(header)[from..][1..] == Blanked(header)[from + 1..];
    }
  }

  /** The magic is there, and the checksum is the sum of the bytes with blanks in its own place. */
  ghost predicate SoundHeader(codec: TextCodec, header: Header) {
    NulText(codec, header[257..263], "ustar") && OctalField(codec, header[148..156], SumOf(Blanked(header)))
  }

  lemma {:induction false} HeaderExactly(codec: TextCodec, header: Header)
    ensures HeaderFault(codec, header).None? <==> SoundHeader(codec, header)
  {
    NulTextExactly(codec, header[257..263], "ustar");
    SumOfBlanked(header, 0);
    assert Blanked(header)[0..] == Blanked(header);
    OctalExactly(codec, header[148..156], HeaderSum(header, 0));
  }

  /** The name, behind the prefix and a slash if there is a prefix. */
  ghost predicate HeaderNames(codec: TextCodec, header: Header, path: string) {
    exists name, prefix {:trigger NulText(codec, header[..100], name), NulText(codec, header[345..500], prefix)} ::
      && NulText(codec, header[..100], name) && NulText(codec, header[345..500], prefix)
      && path == (if prefix == "" then name else prefix + "/" + name)
  }

  lemma {:induction false} HeaderPathExactly(codec: TextCodec, header: Header, path: string)
    ensures TarHeaderPath(codec, header) == Some(path) <==> HeaderNames(codec, header, path)
  {
    forall text ensures NulText(codec, header[..100], text) <==>
        DecodeNullTerminated(codec, header[..100]) == Some(text) {
      NulTextExactly(codec, header[..100], text);
    }
    forall text
      ensures NulText(codec, header[345..500], text) <==> DecodeNullTerminated(codec, header[345..500]) == Some(text)
    {
      NulTextExactly(codec, header[345..500], text);
    }
  }

  /** A text without the NULs at its end. */
  ghost predicate TrailedByNuls(text: string, name: string) {
    && (name != "" ==> name[|name| - 1] != '\0')
    && exists nuls: string {:trigger name + nuls} :: text == name + nuls && forall c | c in nuls :: c == '\0'
  }

  lemma {:induction false} TrailingNuls(text: string) returns (nuls: string)
    ensures text == WithoutTrailingNuls(text) + nuls && forall c | c in nuls :: c == '\0'
    ensures WithoutTrailingNuls(text) != "" ==> WithoutTrailingNuls(text)[|WithoutTrailingNuls(text)| - 1] != '\0'
  {
    if text != [] && text[|text| - 1] == '\0' {
      nuls := TrailingNuls(text[..|text| - 1]);
      nuls := nuls + ['\0'];
      assert text == text[..|text| - 1] + ['\0'];
    } else {
      nuls := "";
    }
  }

  lemma {:induction false} NulsTrail(name: string, nuls: string)
    requires (name != "" ==> name[|name| - 1] != '\0') && forall c | c in nuls :: c == '\0'
    ensures WithoutTrailingNuls(name + nuls) == name
  {
    if nuls != "" {
      var front := nuls[..|nuls| - 1];
      assert nuls[|nuls| - 1] in nuls && forall c | c in front :: c in nuls;
      NulsTrail(name, front);
      assert (name + nuls)[..|name + nuls| - 1] == name + front;
    } else {
      assert name + nuls == name;
    }
  }

  lemma {:induction false} NulsExactly(text: string, name: string)
    ensures WithoutTrailingNuls(text) == name <==> TrailedByNuls(text, name)
  {
    var nuls := TrailingNuls(text);
    if TrailedByNuls(text, name) {
      var more :| text == name + more && forall c | c in more :: c == '\0';
      NulsTrail(name, more);
    }
  }

  // Pax records

  /** The keywords an archive may set; all others are ignored. */
  datatype PaxFields = PaxFields(path: Option<string>, linkpath: Option<string>, size: Option<string>)

  const NO_FIELDS := PaxFields(None, None, None)

  /** The index of the first space, or the length when there is none. */
  function SpaceIndex(bytes: seq<byte>): (i: nat)
    ensures i <= |bytes| && (forall j | 0 <= j < i :: bytes[j] != 32) && (i < |bytes| ==> bytes[i] == 32)
  {
    if bytes == [] || bytes[0] == 32 then 0 else 1 + SpaceIndex(bytes[1..])
  }

  /** Decimal digits with no leading zero. */
  predicate Numeral(digits: seq<byte>) {
    digits != [] && digits[0] != 48 && forall i | 0 <= i < |digits| :: 48 <= digits[i] < 58
  }

  lemma {:induction false} NumeralPositive(digits: seq<byte>)
    requires Numeral(digits)
    ensures FromDecimal(digits) >= 1
  {
    var front := digits[..|digits| - 1];
    if front == [] {
      assert FromDecimal(front) == 0;
    } else {
      NumeralPositive(front);
    }
  }

  /** Sets the keyword of one record; a second value for one keyword is refused. */
  function SetField(fields: PaxFields, text: string): Option<PaxFields> {
    var separator := IndexOf(text, '=');
    if separator == |text| || separator < 1 then None else
    var key, value := text[..separator], text[separator + 1..];
    if key == "path" then (if fields.path.Some? then None else Some(fields.(path := Some(value))))
    else if key == "linkpath" then (if fields.linkpath.Some? then None else Some(fields.(linkpath := Some(value))))
    else if key == "size" then (if fields.size.Some? then None else Some(fields.(size := Some(value))))
    else Some(fields)
  }

  /** The length the record at the front of `bytes` claims, if it is one that ends inside `bytes` with a newline. */
  function RecordLength(bytes: seq<byte>): (length: Option<nat>)
    ensures length.Some? ==> 1 <= length.value <= |bytes|
  {
    var digits := bytes[..SpaceIndex(bytes)];
    if !Numeral(digits) then None else
    NumeralPositive(digits);
    var length := FromDecimal(digits);
    if length > MAXIMUM_SAFE_INTEGER || length > |bytes| || bytes[length - 1] != 10 then None else Some(length)
  }

  /** `subarray`: bounds are clamped, and a range that ends before it starts is empty. */
  function Subarray(bytes: seq<byte>, from: nat, to: nat): seq<byte> {
    if from <= to <= |bytes| then bytes[from..to] else []
  }

  /** The record at the front of `bytes`: its length and its text. */
  function FrontRecord(codec: TextCodec, bytes: seq<byte>): (front: Option<(nat, string)>)
    ensures front.Some? ==> 1 <= front.value.0 <= |bytes|
  {
    match RecordLength(bytes)
    case None => None
    case Some(length) =>
      match codec.decode(Subarray(bytes, SpaceIndex(bytes) + 1, length - 1))
      case None => None
      case Some(text) => Some((length, text))
  }

  function PaxFrom(codec: TextCodec, bytes: seq<byte>, fields: PaxFields): Result<PaxFields, ArchiveError>
    decreases |bytes|
  {
    if bytes == [] then Ok(fields) else
    match FrontRecord(codec, bytes)
    case None => Err(InvalidArchive)
    case Some((length, text)) =>
      match SetField(fields, text)
      case None => Err(InvalidArchive)
      case Some(next) => PaxFrom(codec, bytes[length..], next)
  }
}

/** JSON values as a JavaScript program holds them, and how `JSON.stringify` quotes a string. */
module Json {
  import opened Common

  /** A UTF-16 code unit. */
  type Unit = u: int | 0 <= u < 0x1_0000

  type JsString = seq<Unit>

  function Units(s: string): JsString {
    seq(|s|, i requires 0 <= i < |s| => s[i] as int % 0x1_0000)
  }

  const QUOTE: Unit := 34
  const BACKSLASH: Unit := 92
  const COMMA: Unit := 44
  const COLON: Unit := 58

  /** What `Number.prototype.toString` writes for a finite number. */
  predicate IsToken(t: JsString) {
    t != [] && (t[0] == 45 || 48 <= t[0] < 58) && forall i | 0 <= i < |t| ::
        48 <= t[i] < 58 || t[i] in {43, 45, 46, 101}
  }

  type Token = t: JsString | IsToken(t) witness [48]

  /** Members are in property order; `Number` is known by its printed token, `NonFinite` is NaN or an infinity. */
  datatype Json =
    | Null
    | Bool(truth: bool)
    | NonFinite
    | Number(token: Token)
    | String(text: JsString)
    | Array(items: seq<Json>)
    | Object(members: seq<Member>)

  datatype Member = Member(key: JsString, value: Json)

  ghost predicate DistinctKeys(members: seq<Member>) {
    forall i, j | 0 <= i < j < |members| :: members[i].key != members[j].key
  }

  /** No object, at any depth, has a key twice. */
  ghost predicate WellFormed(v: Json) {
    match v
    case Array(items) => forall i | 0 <= i < |items| :: WellFormed(items[i])
    case Object(members) => DistinctKeys(members) && forall i | 0 <= i < |members| :: WellFormed(members[i].value)
    case _ => true
  }

  // Strings

  predicate Leading(u: Unit) { 0xD800 <= u < 0xDC00 }

  predicate Trailing(u: Unit) { 0xDC00 <= u < 0xE000 }

  function HexOf(n: nat): Unit
    requires n < 16
  {
    if n < 10 then 48 + n else 87 + n
  }

  function HexValue(u: Unit): (value: Option<nat>)
    ensures value.Some? ==> value.value < 16
  {
    if 48 <= u < 58 then Some(u - 48) else if 97 <= u < 103 then Some(u - 87) else None
  }

  function UnicodeEscape(u: Unit): JsString {
    [BACKSLASH, 117, HexOf(u / 4096), HexOf(u / 256 % 16), HexOf(u / 16 % 16), HexOf(u % 16)]
  }

  /** The letter of a two-unit escape. */
  function Short(u: Unit): Option<Unit> {
    if u == 8 then Some(98) else if u == 9 then Some(116) else if u == 10 then Some(110)
    else if u == 12 then Some(102) else if u == 13 then Some(114)
    else if u == QUOTE || u == BACKSLASH then Some(u) else None
  }

  function Escape(u: Unit): JsString {
    if Short(u).Some? then [BACKSLASH, Short(u).value]
    else if u < 32 || Leading(u) || Trailing(u) then UnicodeEscape(u)
    else [u]
  }

  /** Surrogate pairs stay as they are; lone surrogates are escaped. */
  function Escaped(s: JsString): JsString {
    if s == [] then []
    else if |s| > 1 && Leading(s[0]) && Trailing(s[1]) then [s[0]] + ([s[1]] + Escaped(s[2..]))
    else Escape(s[0]) + Escaped(s[1..])
  }

  function Quoted(s: JsString): JsString {
    [QUOTE] + (Escaped(s) + [QUOTE])
  }

  /**
   What a reader takes off the front of `text`: one unit of the string, and how long its escape was. Control
   characters have to be escaped (section 7 of RFC 8259).
   */
  function ReadUnit(text: JsString): (unit: Option<(Unit, nat)>)
    requires text != []
    ensures unit.Some? ==> 1 <= unit.value.1 <= |text|
  {
    if text[0] < 32 then None
    else if text[0] != BACKSLASH then Some((text[0], 1))
    else if |text| < 2 then None
    else if text[1] == 117 then
      (if |text| < 6 then None else
       match (HexValue(text[2]), HexValue(text[3]), HexValue(text[4]), HexValue(text[5]))
       case (Some(a), Some(b), Some(c), Some(d)) => Some((a * 4096 + b * 256 + c * 16 + d, 6))
       case _ => None)
    else
      match text[1]
      case 98 => Some((8, 2))
      case 116 => Some((9, 2))
      case 110 => Some((10, 2))
      case 102 => Some((12, 2))
      case 114 => Some((13, 2))
      case _ => if text[1] == QUOTE || text[1] == BACKSLASH then Some((text[1], 2)) else None
  }

  /** Reads up to the closing quote: the string, and what follows it. */
  function ReadString(text: JsString): Option<(JsString, JsString)>
    decreases |text|
  {
    if text == [] then None
    else if text[0] == QUOTE then Some(([], text[1..]))
    else
      match ReadUnit(text)
      case None => None
      case Some((u, n)) =>
        match ReadString(text[n..])
        case None => None
        case Some((s, rest)) => Some(([u] + s, rest))
  }

  lemma {:induction false} HexDigits(u: Unit)
    ensures u / 4096 < 16 && u == u / 4096 * 4096 + u / 256 % 16 * 256 + u / 16 % 16 * 16 + u % 16
    ensures forall n: nat | n < 16 :: HexValue(HexOf(n)) == Some(n)
  {
    var a, b, c := u / 16, u / 256, u / 4096;
    assert u == 16 * a + u % 16;
    assert a == 16 * b + a % 16;
    assert b == 16 * c + b % 16 && c % 16 == c;
  }

  lemma {:induction false} ReadsUnicode(u: Unit, rest: JsString)
    ensures ReadUnit(UnicodeEscape(u) + rest) == Some((u, 6))
  {
    HexDigits(u);
    var text := UnicodeEscape(u) + rest;
    assert text[0] == BACKSLASH && text[1] == 117;
    assert text[2] == HexOf(u / 4096) && text[3] == HexOf(u / 256 % 16) && text[4] == HexOf(u / 16 % 16)
        && text[5] == HexOf(u % 16);
  }

  lemma {:induction false} ReadsShort(u: Unit, rest: JsString)
    requires Short(u).Some?
    ensures ReadUnit([BACKSLASH, Short(u).value] + rest) == Some((u, 2))
  {}

  /** One unit read off the front leaves the rest to be read. */
  lemma {:induction false} ReadNext(u: Unit, front: JsString, rest: JsString)
    requires front != [] && front[0] != QUOTE && ReadUnit(front + rest) == Some((u, |front|))
    ensures ReadString(front + rest) == match ReadString(rest) case None => None case Some((s, after)) =>
            Some(([u] + s, after))
  {
    assert (front + rest)[|front|..] == rest;
  }

  lemma {:induction false} ReadEscape(u: Unit, rest: JsString)
    ensures ReadString(Escape(u) + rest) == match ReadString(rest) case None => None case Some((s, after)) =>
            Some(([u] + s, after))
  {
    if Short(u).Some? {
      ReadsShort(u, rest);
    } else if u < 32 || Leading(u) || Trailing(u) {
      ReadsUnicode(u, rest);
    }
    ReadNext(u, Escape(u), rest);
  }

  /** Reading undoes quoting, and stops where the quoted string does. */
  lemma {:induction false} QuoteRoundTrip(s: JsString, rest: JsString)
    ensures ReadString(Escaped(s) + ([QUOTE] + rest)) == Some((s, rest))
    decreases |s|
  {
    var end := [QUOTE] + rest;
    if s == [] {
      assert Escaped(s) + end == end;
      assert end[1..] == rest;
    } else if |s| > 1 && Leading(s[0]) && Trailing(s[1]) {
      var tail := Escaped(s[2..]) + end;
      Regroup([s[1]], Escaped(s[2..]), end);
      Regroup([s[0]], [s[1]] + Escaped(s[2..]), end);
      QuoteRoundTrip(s[2..], rest);
      ReadNext(s[1], [s[1]], tail);
      ReadNext(s[0], [s[0]], [s[1]] + tail);
      assert s == [s[0]] + ([s[1]] + s[2..]);
    } else {
      Regroup(Escape(s[0]), Escaped(s[1..]), end);
      QuoteRoundTrip(s[1..], rest);
      ReadEscape(s[0], Escaped(s[1..]) + end);
      assert s == [s[0]] + s[1..];
    }
  }

  /** A quoted string ends where it ends, whatever follows it. */
  lemma {:induction false} QuotedCancel(s: JsString, x: JsString, t: JsString, y: JsString)
    requires Quoted(s) + x == Quoted(t) + y
    ensures s == t && x == y
  {
    QuoteRoundTrip(s, x);
    QuoteRoundTrip(t, y);
    QuotedSplit(s, x);
    QuotedSplit(t, y);
  }

  lemma {:induction false} QuotedSplit(s: JsString, x: JsString)
    ensures (Quoted(s) + x)[1..] == Escaped(s) + ([QUOTE] + x)
  {}
}

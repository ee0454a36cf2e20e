/**
 Canonical text as any JSON reader sees it (RFC 8259, without white space): it is one value, that of the program with
 the members of each object in the order of the comparison. The reader here is a strict one, which refuses raw control
 characters.
 */
module CanonicalReader {
  import opened Common
  import opened Sorting
  import opened Json
  import opened CanonicalJson

  predicate NumberUnit(u: Unit) {
    48 <= u < 58 || u == 43 || u == 45 || u == 46 || u == 101
  }

  function NumberEnd(text: JsString): (n: nat)
    ensures n <= |text|
  {
    if text == [] || !NumberUnit(text[0]) then 0 else 1 + NumberEnd(text[1..])
  }

  predicate StartsWith(text: JsString, word: string) {
    |word| <= |text| && text[..|word|] == Units(word)
  }

  /** The value at the front of a text, and what follows it. */
  function ReadValue(text: JsString): Option<(Json, JsString)>
    decreases |text|, 0
  {
    if StartsWith(text, "null") then Some((Null, text[4..]))
    else if StartsWith(text, "true") then Some((Bool(true), text[4..]))
    else if StartsWith(text, "false") then Some((Bool(false), text[5..]))
    else if text == [] then None
    else if text[0] == QUOTE then
      match ReadString(text[1..])
      case Some((s, rest)) => Some((String(s), rest))
      case None => None
    else if text[0] == 91 then
      if |text| > 1 && text[1] == 93 then Some((Array([]), text[2..])) else
      match ReadItems(text[1..])
      case Some((items, rest)) => Some((Array(items), rest))
      case None => None
    else if text[0] == 123 then
      if |text| > 1 && text[1] == 125 then Some((Object([]), text[2..])) else
      match ReadMembers(text[1..])
      case Some((members, rest)) => Some((Object(members), rest))
      case None => None
    else
      var n := NumberEnd(text);
      if IsToken(text[..n]) then Some((Number(text[..n]), text[n..])) else None
  }

  /** Values between commas, up to the closing bracket. */
  function ReadItems(text: JsString): Option<(seq<Json>, JsString)>
    decreases |text|, 1
  {
    match ReadValue(text)
    case None => None
    case Some((item, rest)) =>
      if rest == [] || |rest| >= |text| then None
      else if rest[0] == 93 then Some(([item], rest[1..]))
      else if rest[0] != COMMA then None
      else
        match ReadItems(rest[1..])
        case None => None
        case Some((items, after)) => Some(([item] + items, after))
  }

  /** Quoted keys with their values between commas, up to the closing brace. */
  function ReadMembers(text: JsString): Option<(seq<Member>, JsString)>
    decreases |text|, 1
  {
    if text == [] || text[0] != QUOTE then None else
    match ReadString(text[1..])
    case None => None
    case Some((key, tail)) =>
      if tail == [] || tail[0] != COLON || |tail| > |text| then None else
      match ReadValue(tail[1..])
      case None => None
      case Some((value, rest)) =>
        if rest == [] || |rest| >= |text| then None
        else if rest[0] == 125 then Some(([Member(key, value)], rest[1..]))
        else if rest[0] != COMMA then None
        else
          match ReadMembers(rest[1..])
          case None => None
          case Some((members, after)) => Some(([Member(key, value)] + members, after))
  }

  // Reading what was printed

  lemma {:induction false} NumberEnds(token: JsString, rest: JsString)
    requires (forall u | u in token :: NumberUnit(u)) && Closed(rest)
    ensures NumberEnd(token + rest) == |token|
  {
    if token != [] {
      assert token[0] in token && forall u | u in token[1..] :: u in token;
      NumberEnds(token[1..], rest);
      assert (token + rest)[1..] == token[1..] + rest;
    } else {
      assert token + rest == rest;
    }
  }

  lemma {:induction false} WordsApart(text: JsString)
    requires text != [] && text[0] != 110 && text[0] != 116 && text[0] != 102
    ensures !StartsWith(text, "null") && !StartsWith(text, "true") && !StartsWith(text, "false")
  {
    assert Units("null")[0] == 110 && Units("true")[0] == 116 && Units("false")[0] == 102;
    assert |text| >= 4 ==> text[..4][0] == text[0];
    assert |text| >= 5 ==> text[..5][0] == text[0];
  }

  lemma {:induction false} WordReads(word: string, rest: JsString)
    ensures StartsWith(Units(word) + rest, word) && (Units(word) + rest)[|word|..] == rest
  {
    assert (Units(word) + rest)[..|word|] == Units(word);
  }

  lemma {:induction false} NumberReads(token: Token, rest: JsString)
    requires Closed(rest)
    ensures ReadValue(token + rest) == Some((Number(token), rest))
  {
    var text := token + rest;
    forall u | u in token ensures NumberUnit(u) {}
    NumberEnds(token, rest);
    assert text[0] == token[0];
    WordsApart(text);
    assert text[..|token|] == token && text[|token|..] == rest;
  }

  lemma {:induction false} StringReads(s: JsString, rest: JsString)
    ensures ReadValue(Quoted(s) + rest) == Some((String(s), rest))
  {
    QuoteRoundTrip(s, rest);
    QuotedSplit(s, rest);
    WordsApart(Quoted(s) + rest);
  }

  lemma {:induction false} WordValue(v: Json, rest: JsString)
    requires v.Null? || v.Bool?
    ensures ReadValue(CanonicalJson.Text(v) + rest) == Some((v, rest))
  {
    var text := CanonicalJson.Text(v) + rest;
    match v
    case Null => WordReads("null", rest);
    case Bool(truth) =>
      if truth {
        WordReads("true", rest);
        assert text[..4][0] == 116 && Units("null")[0] == 110;
      } else {
        WordReads("false", rest);
        assert text[..4][0] == 102 && Units("null")[0] == 110 && Units("true")[0] == 116;
      }
  }

  /** A printed value is read back whole, whatever follows it. */
  lemma {:induction false} ValueReads(v: Json, rest: JsString)
    requires Plain(v) && Closed(rest)
    ensures ReadValue(CanonicalJson.Text(v) + rest) == Some((v, rest))
    decreases v, 0
  {
    match v
    case Number(token) => NumberReads(token, rest);
    case String(s) => StringReads(s, rest);
    case Array(items) => ArrayReads(items, rest);
    case Object(members) => ObjectReads(members, rest);
    case _ => WordValue(v, rest);
  }

  /** A text that opens an array is read as its items are. */
  lemma {:induction false} ArrayOpens(inner: JsString)
    requires inner != []
    ensures ReadValue([91] + inner) ==
            if inner[0] == 93 then Some((Array([]), inner[1..])) else
            match ReadItems(inner)
            case Some((items, rest)) => Some((Array(items), rest))
            case None => None
  {
    var text := [91] + inner;
    WordsApart(text);
    assert text[1..] == inner && text[2..] == inner[1..];
  }

  lemma {:induction false} ArrayOf(inner: JsString, items: seq<Json>, rest: JsString)
    requires inner != [] && if items == [] then inner == [93]
                            else inner[0] != 93 && ReadItems(inner + rest) == Some((items, rest))
    ensures ReadValue([91] + inner + rest) == Some((Array(items), rest))
  {
    Regroup([91], inner, rest);
    ArrayOpens(inner + rest);
    assert inner == [93] ==> (inner + rest)[1..] == rest;
  }

  lemma {:induction false} ArrayReads(items: seq<Json>, rest: JsString)
    requires (forall i | 0 <= i < |items| :: Plain(items[i])) && Closed(rest)
    ensures ReadValue(CanonicalJson.Text(Array(items)) + rest) == Some((Array(items), rest))
    decreases Array(items), -1
  {
    ItemsStart(items, true);
    if items != [] {
      ItemsRead(items, rest);
    }
    ArrayOf(TextItems(items, true), items, rest);
  }

  lemma {:induction false} LastItem(front: JsString, item: Json, rest: JsString)
    requires front != [] && ReadValue(front + ([93] + rest)) == Some((item, [93] + rest))
    ensures ReadItems(front + ([93] + rest)) == Some(([item], rest))
  {
    assert ([93] + rest)[1..] == rest;
  }

  lemma {:induction false} OneMoreItem(front: JsString, item: Json, next: JsString, items: seq<Json>, rest: JsString)
    requires front != [] && ReadValue(front + ([COMMA] + next)) == Some((item, [COMMA] + next))
    requires ReadItems(next) == Some((items, rest))
    ensures ReadItems(front + ([COMMA] + next)) == Some(([item] + items, rest))
  {
    assert ([COMMA] + next)[1..] == next;
  }

  lemma {:induction false} FirstItemText(items: seq<Json>)
    requires items != []
    ensures TextItems(items, true) == CanonicalJson.Text(items[0]) + TextItems(items[1..], false)
  {
    NothingBefore(CanonicalJson.Text(items[0]) + TextItems(items[1..], false));
  }

  lemma {:induction false} NothingBefore(x: JsString)
    ensures Lead(true) + x == x
  {}

  lemma {:induction false} OtherItemsText(items: seq<Json>, rest: JsString)
    ensures TextItems(items, false) + rest ==
            if items == [] then [93] + rest else [COMMA] + (TextItems(items, true) + rest)
  {
    if items != [] {
      assert TextItems(items, false) == [COMMA] + TextItems(items, true);
      Regroup([COMMA], TextItems(items, true), rest);
    }
  }

  /** Printed items, one followed by the others. */
  lemma {:induction false} ItemsText(items: seq<Json>, rest: JsString)
    requires items != []
    ensures TextItems(items, true) + rest ==
            CanonicalJson.Text(items[0])
            + (if items[1..] == [] then [93] + rest else [COMMA] + (TextItems(items[1..], true) + rest))
  {
    FirstItemText(items);
    Regroup(CanonicalJson.Text(items[0]), TextItems(items[1..], false), rest);
    OtherItemsText(items[1..], rest);
  }

  lemma {:induction false} ItemsRead(items: seq<Json>, rest: JsString)
    requires items != [] && (forall i | 0 <= i < |items| :: Plain(items[i])) && Closed(rest)
    ensures ReadItems(TextItems(items, true) + rest) == Some((items, rest))
    decreases items
  {
    var front, later := CanonicalJson.Text(items[0]), items[1..];
    FirstUnit(items[0]);
    ItemsText(items, rest);
    if later == [] {
      ValueReads(items[0], [93] + rest);
      LastItem(front, items[0], rest);
      assert items == [items[0]];
    } else {
      var next := TextItems(later, true) + rest;
      ValueReads(items[0], [COMMA] + next);
      ItemsRead(later, rest);
      OneMoreItem(front, items[0], next, later, rest);
      assert items == [items[0]] + later;
    }
  }

  /** A text that opens an object is read as its members are. */
  lemma {:induction false} ObjectOpens(inner: JsString)
    requires inner != []
    ensures ReadValue([123] + inner) ==
            if inner[0] == 125 then Some((Object([]), inner[1..])) else
            match ReadMembers(inner)
            case Some((members, rest)) => Some((Object(members), rest))
            case None => None
  {
    var text := [123] + inner;
    WordsApart(text);
    assert text[1..] == inner && text[2..] == inner[1..];
  }

  lemma {:induction false} ObjectOf(inner: JsString, members: seq<Member>, rest: JsString)
    requires inner != [] && if members == [] then inner == [125]
                            else inner[0] != 125 && ReadMembers(inner + rest) == Some((members, rest))
    ensures ReadValue([123] + inner + rest) == Some((Object(members), rest))
  {
    Regroup([123], inner, rest);
    ObjectOpens(inner + rest);
    assert inner == [125] ==> (inner + rest)[1..] == rest;
  }

  lemma {:induction false} EmptyObjectReads(rest: JsString)
    ensures ReadValue(CanonicalJson.Text(Object([])) + rest) == Some((Object([]), rest))
  {
    ObjectOf([125], [], rest);
  }

  lemma {:induction false} ObjectReads(members: seq<Member>, rest: JsString)
    requires (forall i | 0 <= i < |members| :: Plain(members[i].value)) && Closed(rest)
    ensures ReadValue(CanonicalJson.Text(Object(members)) + rest) == Some((Object(members), rest))
    decreases Object(members), -1
  {
    if members == [] {
      EmptyObjectReads(rest);
    } else {
      MembersStart(members, true);
      MembersRead(members, rest);
      ObjectOf(TextMembers(members, true), members, rest);
    }
  }

  lemma {:induction false} KeyRead(key: JsString, tail: JsString)
    ensures (Quoted(key) + tail)[0] == QUOTE && ReadString((Quoted(key) + tail)[1..]) == Some((key, tail))
    ensures |tail| < |Quoted(key) + tail|
  {
    QuoteRoundTrip(key, tail);
    QuotedSplit(key, tail);
  }

  lemma {:induction false} LastMember(m: Member, front: JsString, rest: JsString)
    requires front != [] && ReadValue(front + ([125] + rest)) == Some((m.value, [125] + rest))
    ensures ReadMembers(Quoted(m.key) + ([COLON] + (front + ([125] + rest)))) == Some(([m], rest))
  {
    var tail := [COLON] + (front + ([125] + rest));
    KeyRead(m.key, tail);
    assert tail[1..] == front + ([125] + rest) && ([125] + rest)[1..] == rest;
  }

  lemma {:induction false} OneMoreMember(m: Member, front: JsString, next: JsString, members: seq<Member>,
      rest: JsString)
    requires front != [] && ReadValue(front + ([COMMA] + next)) == Some((m.value, [COMMA] + next))
    requires ReadMembers(next) == Some((members, rest))
    ensures ReadMembers(Quoted(m.key) + ([COLON] + (front + ([COMMA] + next)))) == Some(([m] + members, rest))
  {
    var tail := [COLON] + (front + ([COMMA] + next));
    KeyRead(m.key, tail);
    assert tail[1..] == front + ([COMMA] + next) && ([COMMA] + next)[1..] == next;
  }

  lemma {:induction false} Nested(key: JsString, value: JsString, more: JsString, rest: JsString)
    ensures key + ([COLON] + (value + more)) + rest == key + ([COLON] + (value + (more + rest)))
  {
    Regroup(value, more, rest);
    Regroup([COLON], value + more, rest);
    Regroup(key, [COLON] + (value + more), rest);
  }

  lemma {:induction false} OtherMembersText(members: seq<Member>, rest: JsString)
    ensures TextMembers(members, false) + rest ==
            if members == [] then [125] + rest else [COMMA] + (TextMembers(members, true) + rest)
  {
    if members != [] {
      assert TextMembers(members, false) == [COMMA] + TextMembers(members, true);
      Regroup([COMMA], TextMembers(members, true), rest);
    }
  }

  lemma {:induction false} FirstMemberText(members: seq<Member>)
    requires members != []
    ensures TextMembers(members, true) ==
            Quoted(members[0].key)
                + ([COLON] + (CanonicalJson.Text(members[0].value) + TextMembers(members[1..], false)))
  {
    NothingBefore(Quoted(members[0].key)
                  + ([COLON] + (CanonicalJson.Text(members[0].value) + TextMembers(members[1..], false))));
  }

  /** Printed members, one followed by the others. */
  lemma {:induction false} MembersText(m: Member, text: JsString, more: JsString, rest: JsString)
    requires text == Quoted(m.key) + ([COLON] + (CanonicalJson.Text(m.value) + more))
    ensures text + rest == Quoted(m.key) + ([COLON] + (CanonicalJson.Text(m.value) + (more + rest)))
  {
    Nested(Quoted(m.key), CanonicalJson.Text(m.value), more, rest);
  }

  lemma {:induction false} OnlyMember(m: Member, rest: JsString)
    requires Plain(m.value) && Closed(rest)
    ensures ReadMembers(Quoted(m.key) + ([COLON] + (CanonicalJson.Text(m.value) + ([125] + rest)))) == Some(([m], rest))
    decreases m.value, 1
  {
    FirstUnit(m.value);
    ValueReads(m.value, [125] + rest);
    LastMember(m, CanonicalJson.Text(m.value), rest);
  }

  lemma {:induction false} MemberBefore(m: Member, next: JsString, members: seq<Member>, rest: JsString)
    requires Plain(m.value) && Closed(rest) && ReadMembers(next) == Some((members, rest))
    ensures ReadMembers(Quoted(m.key) + ([COLON] + (CanonicalJson.Text(m.value) + ([COMMA] + next)))) ==
            Some(([m] + members, rest))
    decreases m.value, 1
  {
    FirstUnit(m.value);
    ValueReads(m.value, [COMMA] + next);
    OneMoreMember(m, CanonicalJson.Text(m.value), next, members, rest);
  }

  lemma {:induction false} MembersTextOf(members: seq<Member>, rest: JsString)
    requires members != []
    ensures TextMembers(members, true) + rest ==
            Quoted(members[0].key) + ([COLON] + (CanonicalJson.Text(members[0].value) +
                if members[1..] == [] then [125] + rest else [COMMA] + (TextMembers(members[1..], true) + rest)))
  {
    FirstMemberText(members);
    MembersText(members[0], TextMembers(members, true), TextMembers(members[1..], false), rest);
    OtherMembersText(members[1..], rest);
  }

  lemma {:induction false} MembersRead(members: seq<Member>, rest: JsString)
    requires members != [] && (forall i | 0 <= i < |members| :: Plain(members[i].value)) && Closed(rest)
    ensures ReadMembers(TextMembers(members, true) + rest) == Some((members, rest))
    decreases members
  {
    var later := members[1..];
    MembersTextOf(members, rest);
    if later == [] {
      OnlyMember(members[0], rest);
      assert members == [members[0]];
    } else {
      MembersRead(later, rest);
      MemberBefore(members[0], TextMembers(later, true) + rest, later, rest);
      assert members == [members[0]] + later;
    }
  }

  // What is read back

  /** The keys of every object are in the order of the comparison. */
  ghost predicate Ordered(order: KeyOrder, v: Json) {
    match v
    case Array(items) => forall i | 0 <= i < |items| :: Ordered(order, items[i])
    case Object(members) =>
      (forall i, j | 0 <= i < j < |members| :: order(members[i].key, members[j].key))
      && forall i | 0 <= i < |members| :: Ordered(order, members[i].value)
    case _ => true
  }

  lemma {:induction false} NormalMeans(order: KeyOrder, v: Json)
    requires TotalPreorder(order)
    ensures Same(v, Normal(order, v)) && Ordered(order, Normal(order, v))
    decreases v
  {
    match v
    case Array(items) =>
      NormalItemsAt(order, items);
      forall i | 0 <= i < |items|
        ensures Same(items[i], Normal(order, items[i])) && Ordered(order, Normal(order, items[i]))
      {
        NormalMeans(order, items[i]);
      }
    case Object(members) => NormalObjectMeans(order, members);
    case _ =>
  }

  lemma {:induction false} NormalObjectMeans(order: KeyOrder, members: seq<Member>)
    requires TotalPreorder(order)
    ensures Same(Object(members), Normal(order, Object(members))) && Ordered(order, Normal(order, Object(members)))
    decreases Object(members), -1
  {
    var sorted := NormalMembersOf(order, members);
    var after := Normal(order, Object(members)).members;
    ByKeyPreorder(order);
    SortSorts(members, ByKey(order));
    forall i | 0 <= i < |sorted|
      ensures Same(sorted[i].value, after[i].value) && Ordered(order, after[i].value) && sorted[i].key == after[i].key
    {
      assert sorted[i] in members;
      NormalMeans(order, sorted[i].value);
    }
    forall i, j | 0 <= i < j < |after| ensures order(after[i].key, after[j].key) {
      assert ByKey(order)(sorted[i], sorted[j]);
    }
    forall m | m in members ensures Matched(m, after) {
      assert m in sorted;
      var i :| 0 <= i < |sorted| && sorted[i] == m;
    }
    forall k | k in KeysOf(after) ensures k in KeysOf(members) {
      var i :| 0 <= i < |after| && KeysOf(after)[i] == k;
      assert sorted[i] in members;
      var j :| 0 <= j < |members| && members[j] == sorted[i];
      assert KeysOf(members)[j] == k;
    }
  }

  /**
   Canonical text is JSON: reading it gives a value equal to the printed one, each object's keys in order, and no more.
   */
  lemma {:induction false} PrintReadsBack(order: KeyOrder, v: Json) returns (w: Json)
    requires TotalPreorder(order)
    ensures ReadValue(Print(order, v)) == Some((w, [])) && Same(v, w) && Ordered(order, w)
  {
    w := Normal(order, v);
    PrintIsText(order, v);
    NormalIsPlain(order, v);
    ValueReads(w, []);
    assert CanonicalJson.Text(w) + [] == CanonicalJson.Text(w);
    NormalMeans(order, v);
  }
}

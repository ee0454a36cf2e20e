/**
 Canonical printing: values that print alike are equal, and a value prints like all it equals exactly when no two names
 in one of its objects tie.
 */
module CanonicalJson {
  import opened Common
  import opened Sorting
  import opened Json

  /** Whether `left.localeCompare(right)` is not positive. */
  type KeyOrder = (JsString, JsString) -> bool

  function ByKey(order: KeyOrder): (Member, Member) -> bool {
    (left: Member, right: Member) => order(left.key, right.key)
  }

  // Property order

  /** The number an array-index key stands for. */
  function ArrayIndex(key: JsString): Option<nat> {
    if key == [] || (exists i | 0 <= i < |key| :: !(48 <= key[i] < 58)) || (key[0] == 48 && |key| > 1) then None
    else if IndexValue(key) >= U32_MAX then None
    else Some(IndexValue(key))
  }

  function IndexValue(key: JsString): nat
    requires forall i | 0 <= i < |key| :: 48 <= key[i] < 58
  {
    if key == [] then 0 else 10 * IndexValue(key[..|key| - 1]) + (key[|key| - 1] - 48)
  }

  /** Property order: array indices first, ascending; all other keys as they were added. */
  function Enumeration(): KeyOrder {
    (k: JsString, l: JsString) =>
      match (ArrayIndex(k), ArrayIndex(l))
      case (Some(i), Some(j)) => i <= j
      case (Some(_), None) => true
      case (None, Some(_)) => false
      case (None, None) => true
  }

  function Enumerated(members: seq<Member>): seq<Member> {
    Sort(members, ByKey(Enumeration()))
  }

  /** A key that is no array index, so that its place among the others is where it was added. */
  predicate IsName(key: JsString) {
    ArrayIndex(key).None?
  }

  /** Members as an object has them: keys distinct, array indices first and ascending. */
  ghost predicate InPropertyOrder(members: seq<Member>) {
    DistinctKeys(members) && Sorted(members, ByKey(Enumeration()))
  }

  /** A value a program can hold: its objects are in property order, at every depth. */
  ghost predicate Parsed(v: Json) {
    match v
    case Array(items) => forall i | 0 <= i < |items| :: Parsed(items[i])
    case Object(members) => InPropertyOrder(members) && forall i | 0 <= i < |members| :: Parsed(members[i].value)
    case _ => true
  }

  lemma {:induction false} ParsedIsWellFormed(v: Json)
    requires Parsed(v)
    ensures WellFormed(v)
    decreases v
  {
    match v
    case Array(items) =>
      forall i | 0 <= i < |items| ensures WellFormed(items[i]) {
        ParsedIsWellFormed(items[i]);
      }
    case Object(members) =>
      forall i | 0 <= i < |members| ensures WellFormed(members[i].value) {
        ParsedIsWellFormed(members[i].value);
      }
    case _ =>
  }

  lemma {:induction false} ByKeyPreorder(order: KeyOrder)
    requires TotalPreorder(order)
    ensures TotalPreorder(ByKey(order))
  {
    forall x: Member, y: Member ensures ByKey(order)(x, y) || ByKey(order)(y, x) {
      assert order(x.key, y.key) || order(y.key, x.key);
    }
    forall x: Member, y: Member, z: Member | ByKey(order)(x, y) && ByKey(order)(y, z) ensures ByKey(order)(x, z) {
      assert order(x.key, y.key) && order(y.key, z.key);
    }
  }

  lemma {:induction false} EnumerationPreorder()
    ensures TotalPreorder(Enumeration())
  {}

  lemma {:induction false} IndexValueBounds(key: JsString)
    requires key != [] && forall i | 0 <= i < |key| :: 48 <= key[i] < 58
    ensures |key| > 1 && key[0] != 48 ==> IndexValue(key) >= 10
    ensures |key| == 1 ==> IndexValue(key) == key[0] - 48
    ensures key[0] != 48 ==> IndexValue(key) > 0
  {
    if |key| > 1 {
      IndexValueBounds(key[..|key| - 1]);
    } else {
      assert key[..0] == [] && IndexValue(key[..0]) == 0;
    }
  }

  /** Digits without a leading zero are determined by their number. */
  lemma {:induction false} IndexValueInjective(k: JsString, l: JsString)
    requires k != [] && forall i | 0 <= i < |k| :: 48 <= k[i] < 58
    requires l != [] && forall i | 0 <= i < |l| :: 48 <= l[i] < 58
    requires (k[0] == 48 ==> |k| == 1) && (l[0] == 48 ==> |l| == 1) && IndexValue(k) == IndexValue(l)
    ensures k == l
  {
    IndexValueBounds(k);
    IndexValueBounds(l);
    if |k| > 1 && |l| > 1 {
      IndexValueInjective(k[..|k| - 1], l[..|l| - 1]);
      assert k == k[..|k| - 1] + [k[|k| - 1]] && l == l[..|l| - 1] + [l[|l| - 1]];
    }
  }

  /** A number in decimal digits, as `String` writes it. */
  function IndexText(n: nat): JsString {
    if n < 10 then [48 + n] else IndexText(n / 10) + [48 + n % 10]
  }

  lemma {:induction false} IndexTextValue(n: nat)
    ensures IndexText(n) != [] && forall i | 0 <= i < |IndexText(n)| :: 48 <= IndexText(n)[i] < 58
    ensures IndexValue(IndexText(n)) == n && (n > 0 ==> IndexText(n)[0] != 48) && (n < 10 ==> |IndexText(n)| == 1)
  {
    if n >= 10 {
      IndexTextValue(n / 10);
      assert IndexText(n)[..|IndexText(n)| - 1] == IndexText(n / 10);
    } else {
      assert IndexText(n)[..0] == [] && IndexValue([]) == 0;
    }
  }

  /** An array index is a key that is the decimal text of its number, below the largest 32-bit one. */
  lemma {:induction false} IndexExactly(key: JsString, n: nat)
    ensures ArrayIndex(key) == Some(n) <==> key == IndexText(n) && n < 0xFFFF_FFFF
  {
    IndexTextValue(n);
    if ArrayIndex(key) == Some(n) {
      IndexValueBounds(key);
      IndexValueInjective(key, IndexText(n));
    }
  }

  /** Of two different keys that property order does not tell apart, neither is an array index. */
  lemma {:induction false} SamePlace(k: JsString, l: JsString)
    requires Tied(k, l, Enumeration()) && k != l
    ensures IsName(k) && IsName(l)
  {
    if ArrayIndex(k).Some? {
      IndexValueInjective(k, l);
    }
  }

  // Printing

  function Join(parts: seq<JsString>): JsString {
    if parts == [] then []
    else if |parts| == 1 then parts[0]
    else parts[0] + ([COMMA] + Join(parts[1..]))
  }

  function Print(order: KeyOrder, v: Json): JsString
    decreases v, 0
  {
    match v
    case Null => Units("null")
    case NonFinite => Units("null")
    case Bool(truth) => if truth then Units("true") else Units("false")
    case Number(token) => token
    case String(text) => Quoted(text)
    case Array(items) => [91] + (Join(PrintItems(order, items)) + [93])
    case Object(members) =>
      var sorted := Sort(members, ByKey(order));
      SortMembers(members, ByKey(order));
      [123] + (Join(PrintMembers(order, sorted, v)) + [125])
  }

  function PrintItems(order: KeyOrder, items: seq<Json>): seq<JsString> {
    if items == [] then [] else [Print(order, items[0])] + PrintItems(order, items[1..])
  }

  function PrintMembers(order: KeyOrder, members: seq<Member>, ghost of: Json): (parts: seq<JsString>)
    requires of.Object? && forall m | m in members :: m in of.members
    decreases of, 0, |members|
  {
    if members == [] then [] else
      assert members[0] in of.members;
      [Quoted(members[0].key) + ([COLON] + Print(order, members[0].value))] + PrintMembers(order, members[1..], of)
  }

  // The normal form: members sorted at every depth, and numbers JSON cannot write replaced by null

  function Normal(order: KeyOrder, v: Json): Json
    decreases v, 0
  {
    match v
    case NonFinite => Null
    case Array(items) => Array(NormalItems(order, items))
    case Object(members) =>
      SortMembers(members, ByKey(order));
      Object(NormalMembers(order, Sort(members, ByKey(order)), v))
    case _ => v
  }

  function NormalItems(order: KeyOrder, items: seq<Json>): seq<Json> {
    if items == [] then [] else [Normal(order, items[0])] + NormalItems(order, items[1..])
  }

  function NormalMembers(order: KeyOrder, members: seq<Member>, ghost of: Json): seq<Member>
    requires of.Object? && forall m | m in members :: m in of.members
    decreases of, 0, |members|
  {
    if members == [] then [] else
      assert members[0] in of.members;
      [Member(members[0].key, Normal(order, members[0].value))] + NormalMembers(order, members[1..], of)
  }

  lemma {:induction false} NormalItemsAt(order: KeyOrder, items: seq<Json>)
    ensures |NormalItems(order, items)| == |items|
    ensures forall i | 0 <= i < |items| :: NormalItems(order, items)[i] == Normal(order, items[i])
  {
    if items != [] {
      NormalItemsAt(order, items[1..]);
    }
  }

  lemma {:induction false} NormalMembersAt(order: KeyOrder, members: seq<Member>, of: Json)
    requires of.Object? && forall m | m in members :: m in of.members
    ensures |NormalMembers(order, members, of)| == |members|
    ensures forall i | 0 <= i < |members| ::
              NormalMembers(order, members, of)[i] == Member(members[i].key, Normal(order, members[i].value))
  {
    if members != [] {
      NormalMembersAt(order, members[1..], of);
    }
  }

  // A printer for values already in normal form; it neither sorts nor joins

  function Text(v: Json): JsString {
    match v
    case Null => Units("null")
    case NonFinite => Units("null")
    case Bool(truth) => if truth then Units("true") else Units("false")
    case Number(token) => token
    case String(text) => Quoted(text)
    case Array(items) => [91] + TextItems(items, true)
    case Object(members) => [123] + TextMembers(members, true)
  }

  function Lead(first: bool): JsString {
    if first then [] else [COMMA]
  }

  function TextItems(items: seq<Json>, first: bool): JsString {
    if items == [] then [93] else Lead(first) + (Text(items[0]) + TextItems(items[1..], false))
  }

  function TextMembers(members: seq<Member>, first: bool): JsString {
    if members == [] then [125]
    else
      Lead(first)
      + (Quoted(members[0].key) + ([COLON] + (Text(members[0].value) + TextMembers(members[1..], false))))
  }

  lemma {:induction false} JoinLead(part: JsString, parts: seq<JsString>, end: JsString)
    ensures Join([part] + parts) + end == part + (if parts == [] then end else [COMMA] + (Join(parts) + end))
  {
    assert ([part] + parts)[1..] == parts;
    if parts == [] {
    } else {
      Regroup(part, [COMMA] + Join(parts), end);
      Regroup([COMMA], Join(parts), end);
    }
  }

  lemma {:induction false} PrintsItems(order: KeyOrder, items: seq<Json>)
    ensures Join(PrintItems(order, items)) + [93] == TextItems(NormalItems(order, items), true)
    ensures items != [] ==>
            [COMMA] + (Join(PrintItems(order, items)) + [93]) == TextItems(NormalItems(order, items), false)
    decreases items
  {
    if items != [] {
      PrintIsText(order, items[0]);
      PrintsItems(order, items[1..]);
      JoinLead(Print(order, items[0]), PrintItems(order, items[1..]), [93]);
      assert NormalItems(order, items)[1..] == NormalItems(order, items[1..]);
    }
  }

  lemma {:induction false} PrintsMembers(order: KeyOrder, members: seq<Member>, of: Json)
    requires of.Object? && forall m | m in members :: m in of.members
    ensures Join(PrintMembers(order, members, of)) + [125] == TextMembers(NormalMembers(order, members, of), true)
    ensures members != [] ==>
            [COMMA] + (Join(PrintMembers(order, members, of)) + [125]) ==
            TextMembers(NormalMembers(order, members, of), false)
    decreases of, 0, |members|
  {
    if members != [] {
      assert members[0] in of.members;
      var key, value, rest := Quoted(members[0].key), Print(order, members[0].value),
          PrintMembers(order, members[1..], of);
      PrintIsText(order, members[0].value);
      PrintsMembers(order, members[1..], of);
      JoinLead(key + ([COLON] + value), rest, [125]);
      var after := if rest == [] then [125] else [COMMA] + (Join(rest) + [125]);
      Regroup(key, [COLON] + value, after);
      Regroup([COLON], value, after);
      assert NormalMembers(order, members, of)[1..] == NormalMembers(order, members[1..], of);
    }
  }

  /** Printing is writing out the normal form. */
  lemma {:induction false} PrintIsText(order: KeyOrder, v: Json)
    ensures Print(order, v) == Text(Normal(order, v))
    decreases v, 0
  {
    match v
    case Array(items) => PrintsItems(order, items);
    case Object(members) =>
      SortMembers(members, ByKey(order));
      PrintsMembers(order, Sort(members, ByKey(order)), v);
    case _ =>
  }

  // Injectivity

  /** Nothing, or a unit that can only follow a complete value. */
  predicate Closed(x: JsString) {
    x != [] ==> x[0] == COMMA || x[0] == 93 || x[0] == 125
  }

  ghost predicate Plain(v: Json) {
    match v
    case NonFinite => false
    case Array(items) => forall i | 0 <= i < |items| :: Plain(items[i])
    case Object(members) => forall i | 0 <= i < |members| :: Plain(members[i].value)
    case _ => true
  }

  /** The first unit of a printed value tells its kind. */
  lemma {:induction false} FirstUnit(v: Json)
    ensures Text(v) != []
    ensures var u := Text(v)[0];
            match v
            case Null => u == 110
            case NonFinite => u == 110
            case Bool(truth) => u == if truth then 116 else 102
            case Number(_) => u == 45 || 48 <= u < 58
            case String(_) => u == QUOTE
            case Array(_) => u == 91
            case Object(_) => u == 123
  {}

  lemma {:induction false} TokenCancel(s: Token, x: JsString, t: Token, y: JsString)
    requires s + x == t + y && Closed(x) && Closed(y)
    ensures s == t && x == y
  {
    assert x != [] ==> (s + x)[|s|] == x[0];
    assert y != [] ==> (t + y)[|t|] == y[0];
    assert forall i | 0 <= i < |t| :: (s + x)[i] == t[i];
    assert forall i | 0 <= i < |s| :: (t + y)[i] == s[i];
    ConcatCancel(s, x, t, y);
  }

  lemma HeadCancel(a: JsString, b: JsString, c: JsString, d: JsString, e: JsString, f: JsString)
    requires a + b + c == d + e + f && |a| == |d|
    ensures a == d && b + c == e + f
  {
    Regroup(a, b, c);
    Regroup(d, e, f);
    ConcatCancel(a, b + c, d, e + f);
  }

  /** A printed value can be told from what follows it. */
  lemma {:induction false} TextCancel(v: Json, x: JsString, w: Json, y: JsString)
    requires Plain(v) && Plain(w) && Closed(x) && Closed(y)
    requires Text(v) + x == Text(w) + y
    ensures v == w && x == y
    decreases v, 0
  {
    FirstUnit(v);
    FirstUnit(w);
    assert Text(v)[0] == (Text(v) + x)[0] == Text(w)[0];
    match v
    case Number(s) => TokenCancel(s, x, w.token, y);
    case String(s) => QuotedCancel(s, x, w.text, y);
    case Array(items) =>
      HeadCancel([91], TextItems(items, true), x, [91], TextItems(w.items, true), y);
      ItemsCancel(items, x, w.items, y, true);
    case Object(members) =>
      HeadCancel([123], TextMembers(members, true), x, [123], TextMembers(w.members, true), y);
      MembersCancel(members, x, w.members, y, true);
    case _ => ConcatCancel(Text(v), x, Text(w), y);
  }

  lemma {:induction false} ItemsStart(items: seq<Json>, first: bool)
    ensures TextItems(items, first) != []
    ensures TextItems(items, first)[0] == 93 <==> items == []
    ensures !first ==> Closed(TextItems(items, first))
  {
    if items != [] {
      FirstUnit(items[0]);
    }
  }

  lemma {:induction false} ItemsCancel(vs: seq<Json>, x: JsString, ws: seq<Json>, y: JsString, first: bool)
    requires (forall i | 0 <= i < |vs| :: Plain(vs[i])) && (forall i | 0 <= i < |ws| :: Plain(ws[i]))
    requires TextItems(vs, first) + x == TextItems(ws, first) + y
    ensures vs == ws && x == y
    decreases vs
  {
    ItemsStart(vs, first);
    ItemsStart(ws, first);
    assert TextItems(vs, first)[0] == (TextItems(vs, first) + x)[0] == TextItems(ws, first)[0];
    if vs == [] {
      ConcatCancel([93], x, [93], y);
    } else {
      var v, w, vt, wt := Text(vs[0]), Text(ws[0]), TextItems(vs[1..], false), TextItems(ws[1..], false);
      HeadCancel(Lead(first), v + vt, x, Lead(first), w + wt, y);
      Regroup(v, vt, x);
      Regroup(w, wt, y);
      ItemsStart(vs[1..], false);
      ItemsStart(ws[1..], false);
      TextCancel(vs[0], vt + x, ws[0], wt + y);
      ItemsCancel(vs[1..], x, ws[1..], y, false);
      assert vs == [vs[0]] + vs[1..] && ws == [ws[0]] + ws[1..];
    }
  }

  lemma {:induction false} MembersStart(members: seq<Member>, first: bool)
    ensures TextMembers(members, first) != []
    ensures TextMembers(members, first)[0] == 125 <==> members == []
    ensures !first ==> Closed(TextMembers(members, first))
  {}

  lemma {:induction false} MembersCancel(vs: seq<Member>, x: JsString, ws: seq<Member>, y: JsString, first: bool)
    requires (forall i | 0 <= i < |vs| :: Plain(vs[i].value)) && (forall i | 0 <= i < |ws| :: Plain(ws[i].value))
    requires TextMembers(vs, first) + x == TextMembers(ws, first) + y
    ensures vs == ws && x == y
    decreases vs
  {
    MembersStart(vs, first);
    MembersStart(ws, first);
    assert TextMembers(vs, first)[0] == (TextMembers(vs, first) + x)[0] == TextMembers(ws, first)[0];
    if vs == [] {
      ConcatCancel([125], x, [125], y);
    } else {
      MembersStart(vs[1..], false);
      MembersStart(ws[1..], false);
      var v, w, vt, wt := Text(vs[0].value), Text(ws[0].value), TextMembers(vs[1..], false),
          TextMembers(ws[1..], false);
      var vk, wk := Quoted(vs[0].key), Quoted(ws[0].key);
      HeadCancel(Lead(first), vk + ([COLON] + (v + vt)), x, Lead(first), wk + ([COLON] + (w + wt)), y);
      Regroup(vk, [COLON] + (v + vt), x);
      Regroup(wk, [COLON] + (w + wt), y);
      QuotedCancel(vs[0].key, [COLON] + (v + vt) + x, ws[0].key, [COLON] + (w + wt) + y);
      HeadCancel([COLON], v + vt, x, [COLON], w + wt, y);
      Regroup(v, vt, x);
      Regroup(w, wt, y);
      TextCancel(vs[0].value, vt + x, ws[0].value, wt + y);
      MembersCancel(vs[1..], x, ws[1..], y, false);
      assert vs == [vs[0]] + vs[1..] && ws == [ws[0]] + ws[1..];
    }
  }

  lemma {:induction false} NormalIsPlain(order: KeyOrder, v: Json)
    ensures Plain(Normal(order, v))
    decreases v
  {
    match v
    case Array(items) =>
      NormalItemsAt(order, items);
      forall i | 0 <= i < |items| ensures Plain(Normal(order, items[i])) {
        NormalIsPlain(order, items[i]);
      }
    case Object(members) =>
      SortMembers(members, ByKey(order));
      var sorted := Sort(members, ByKey(order));
      NormalMembersAt(order, sorted, v);
      forall i | 0 <= i < |sorted| ensures Plain(Normal(order, sorted[i].value)) {
        assert sorted[i] in members;
        NormalIsPlain(order, sorted[i].value);
      }
    case _ =>
  }

  /** Two values print alike exactly when their normal forms are one; no law on the comparison is needed. */
  lemma {:induction false} PrintInjective(order: KeyOrder, v: Json, w: Json)
    ensures Print(order, v) == Print(order, w) <==> Normal(order, v) == Normal(order, w)
  {
    PrintIsText(order, v);
    PrintIsText(order, w);
    if Print(order, v) == Print(order, w) {
      NormalIsPlain(order, v);
      NormalIsPlain(order, w);
      TextCancel(Normal(order, v), [], Normal(order, w), []);
    }
  }

  // Members in parallel

  /** The same keys in the same places, with related values. */
  ghost predicate Parallel(vs: seq<Member>, ws: seq<Member>, related: (Json, Json) -> bool) {
    |vs| == |ws| && forall i | 0 <= i < |vs| :: vs[i].key == ws[i].key && related(vs[i].value, ws[i].value)
  }

  lemma {:induction false} ParallelTail(vs: seq<Member>, ws: seq<Member>, related: (Json, Json) -> bool)
    requires vs != [] && ws != []
    ensures Parallel(vs, ws, related) <==>
            vs[0].key == ws[0].key && related(vs[0].value, ws[0].value) && Parallel(vs[1..], ws[1..], related)
  {
    if vs[0].key == ws[0].key && related(vs[0].value, ws[0].value) && Parallel(vs[1..], ws[1..], related) {
      forall i | 0 <= i < |vs|
        ensures vs[i].key == ws[i].key && related(vs[i].value, ws[i].value)
      {
        assert i > 0 ==> vs[i] == vs[1..][i - 1] && ws[i] == ws[1..][i - 1];
      }
    }
  }

  lemma {:induction false} ParallelInsert(order: KeyOrder, v: Member, vs: seq<Member>, w: Member, ws: seq<Member>,
      related: (Json, Json) -> bool)
    requires v.key == w.key && related(v.value, w.value) && Parallel(vs, ws, related)
    ensures Parallel(Insert(v, vs, ByKey(order)), Insert(w, ws, ByKey(order)), related)
  {
    var l, r := Insert(v, vs, ByKey(order)), Insert(w, ws, ByKey(order));
    if vs == [] || order(v.key, vs[0].key) {
      assert l[1..] == vs && r[1..] == ws;
    } else {
      ParallelTail(vs, ws, related);
      ParallelInsert(order, v, vs[1..], w, ws[1..], related);
      assert l[1..] == Insert(v, vs[1..], ByKey(order)) && r[1..] == Insert(w, ws[1..], ByKey(order));
    }
    ParallelTail(l, r, related);
  }

  /** Sorting by key reads only the keys. */
  lemma {:induction false} ParallelSort(order: KeyOrder, vs: seq<Member>, ws: seq<Member>,
      related: (Json, Json) -> bool)
    requires Parallel(vs, ws, related)
    ensures Parallel(Sort(vs, ByKey(order)), Sort(ws, ByKey(order)), related)
  {
    if vs != [] {
      ParallelTail(vs, ws, related);
      ParallelSort(order, vs[1..], ws[1..], related);
      ParallelInsert(order, vs[0], Sort(vs[1..], ByKey(order)), ws[0], Sort(ws[1..], ByKey(order)), related);
    }
  }

  ghost function SameNormalForm(order: KeyOrder): (Json, Json) -> bool {
    (v: Json, w: Json) => Normal(order, v) == Normal(order, w)
  }

  /** Objects whose members are sorted alike have one normal form if their values do. */
  lemma {:induction false} ParallelNormal(order: KeyOrder, vs: seq<Member>, ws: seq<Member>)
    requires Parallel(Sort(vs, ByKey(order)), Sort(ws, ByKey(order)), SameNormalForm(order))
    ensures Normal(order, Object(vs)) == Normal(order, Object(ws))
  {
    SortMembers(vs, ByKey(order));
    SortMembers(ws, ByKey(order));
    NormalMembersAt(order, Sort(vs, ByKey(order)), Object(vs));
    NormalMembersAt(order, Sort(ws, ByKey(order)), Object(ws));
  }

  // Equality as values

  /** Equal as values: key order does not matter, and numbers JSON cannot write count as null. */
  ghost predicate Same(v: Json, w: Json)
    decreases v
  {
    match (v, w)
    case (Array(vs), Array(ws)) => |vs| == |ws| && forall i | 0 <= i < |vs| :: Same(vs[i], ws[i])
    case (Object(vs), Object(ws)) =>
      (forall m | m in vs :: Matched(m, ws)) && (forall k | k in KeysOf(ws) :: k in KeysOf(vs))
    case (Null, _) => w.Null? || w.NonFinite?
    case (NonFinite, _) => w.Null? || w.NonFinite?
    case _ => v == w
  }

  /** Some member of `ws` has the key of `m` and the same value. */
  ghost predicate Matched(m: Member, ws: seq<Member>)
    decreases m
  {
    exists j :: 0 <= j < |ws| && m.key == ws[j].key && Same(m.value, ws[j].value)
  }

  function KeysOf(members: seq<Member>): (keys: seq<JsString>)
    ensures |keys| == |members| && forall i | 0 <= i < |keys| :: keys[i] == members[i].key
  {
    seq(|members|, i requires 0 <= i < |members| => members[i].key)
  }

  lemma {:induction false} KeysInsert(m: Member, sorted: seq<Member>, order: KeyOrder)
    ensures KeysOf(Insert(m, sorted, ByKey(order))) == Insert(m.key, KeysOf(sorted), order)
  {
    assert KeysOf([m] + sorted) == [m.key] + KeysOf(sorted);
    if sorted != [] && !order(m.key, sorted[0].key) {
      KeysInsert(m, sorted[1..], order);
      assert KeysOf(sorted)[1..] == KeysOf(sorted[1..]);
      assert KeysOf([sorted[0]] + Insert(m, sorted[1..], ByKey(order))) == [sorted[0].key]
          + KeysOf(Insert(m, sorted[1..], ByKey(order)));
    }
  }

  lemma {:induction false} KeysSort(members: seq<Member>, order: KeyOrder)
    ensures KeysOf(Sort(members, ByKey(order))) == Sort(KeysOf(members), order)
  {
    if members != [] {
      KeysSort(members[1..], order);
      KeysInsert(members[0], Sort(members[1..], ByKey(order)), order);
      assert KeysOf(members)[1..] == KeysOf(members[1..]);
    }
  }

  /** No two different names among the keys tie; what array indices tie with is settled by property order. */
  ghost predicate NamesApart(order: KeyOrder, keys: seq<JsString>) {
    forall k, l | k in keys && l in keys && IsName(k) && IsName(l) && Tied(k, l, order) :: k == l
  }

  /** No two names in one object tie, at any depth. */
  ghost predicate Untied(order: KeyOrder, v: Json) {
    match v
    case Array(items) => forall i | 0 <= i < |items| :: Untied(order, items[i])
    case Object(members) => NamesApart(order, KeysOf(members)) && forall i | 0 <= i < |members| ::
        Untied(order, members[i].value)
    case _ => true
  }

  lemma {:induction false} KeysInOrder(members: seq<Member>)
    requires InPropertyOrder(members)
    ensures Distinct(KeysOf(members)) && Sorted(KeysOf(members), Enumeration())
  {
    forall i, j | 0 <= i < j < |members| ensures Enumeration()(KeysOf(members)[i], KeysOf(members)[j]) {
      assert ByKey(Enumeration())(members[i], members[j]);
    }
  }

  /** Objects with the same keys, of which no two names tie, are sorted into the same order of keys. */
  lemma {:induction false} SameKeysSortAlike(order: KeyOrder, vs: seq<Member>, ws: seq<Member>)
    requires TotalPreorder(order) && InPropertyOrder(vs) && InPropertyOrder(ws) && NamesApart(order, KeysOf(vs))
    requires forall k :: k in KeysOf(vs) <==> k in KeysOf(ws)
    ensures KeysOf(Sort(vs, ByKey(order))) == KeysOf(Sort(ws, ByKey(order)))
  {
    KeysInOrder(vs);
    KeysInOrder(ws);
    EnumerationPreorder();
    forall k, l | k in KeysOf(vs) && l in KeysOf(vs) && Tied(k, l, order) && Tied(k, l, Enumeration())
      ensures k == l
    {
      if k != l {
        SamePlace(k, l);
      }
    }
    PlacedSortAlike(KeysOf(vs), KeysOf(ws), order, Enumeration());
    KeysSort(vs, order);
    KeysSort(ws, order);
  }

  lemma {:induction false} NormalMembersOf(order: KeyOrder, members: seq<Member>) returns (sorted: seq<Member>)
    ensures sorted == Sort(members, ByKey(order)) && |sorted| == |members|
    ensures forall m :: m in sorted <==> m in members
    ensures Normal(order, Object(members)).Object? && |Normal(order, Object(members)).members| == |members|
    ensures forall i | 0 <= i < |members| ::
              Normal(order, Object(members)).members[i] == Member(sorted[i].key, Normal(order, sorted[i].value))
  {
    sorted := Sort(members, ByKey(order));
    SortMembers(members, ByKey(order));
    NormalMembersAt(order, sorted, Object(members));
  }

  /** One direction: a normal form fixes every value under every key. */
  lemma {:induction false} NormalSame(order: KeyOrder, v: Json, w: Json)
    requires Normal(order, v) == Normal(order, w)
    ensures Same(v, w)
    decreases v
  {
    match (v, w)
    case (Array(vs), Array(ws)) =>
      NormalItemsAt(order, vs);
      NormalItemsAt(order, ws);
      forall i | 0 <= i < |vs| ensures Same(vs[i], ws[i]) {
        assert NormalItems(order, vs)[i] == NormalItems(order, ws)[i];
        NormalSame(order, vs[i], ws[i]);
      }
    case (Object(vs), Object(ws)) => NormalSameObjects(order, vs, ws);
    case _ =>
  }

  lemma {:induction false} NormalSameObjects(order: KeyOrder, vs: seq<Member>, ws: seq<Member>)
    requires Normal(order, Object(vs)) == Normal(order, Object(ws))
    ensures (forall m | m in vs :: Matched(m, ws)) && forall k | k in KeysOf(ws) :: k in KeysOf(vs)
    decreases Object(vs), 0
  {
    forall m | m in vs ensures Matched(m, ws) {
      var j := NormalCounterpart(order, vs, ws, m);
      NormalSame(order, m.value, ws[j].value);
    }
    forall k | k in KeysOf(ws) ensures k in KeysOf(vs) {
      var i :| 0 <= i < |ws| && KeysOf(ws)[i] == k;
      var j := NormalCounterpart(order, ws, vs, ws[i]);
      assert KeysOf(vs)[j] == k;
    }
  }

  lemma {:induction false} NormalCounterpart(order: KeyOrder, vs: seq<Member>, ws: seq<Member>, m: Member)
      returns (j: nat)
    requires Normal(order, Object(vs)) == Normal(order, Object(ws)) && m in vs
    ensures j < |ws| && m.key == ws[j].key && Normal(order, m.value) == Normal(order, ws[j].value)
  {
    var s := NormalMembersOf(order, vs);
    var t := NormalMembersOf(order, ws);
    assert m in s;
    var p :| 0 <= p < |s| && s[p] == m;
    assert Normal(order, Object(vs)).members[p] == Normal(order, Object(ws)).members[p];
    assert t[p] in ws;
    j :| 0 <= j < |ws| && ws[j] == t[p];
  }

  /** The other: values without ties have the normal form of every value they equal. */
  lemma {:induction false} SameNormal(order: KeyOrder, v: Json, w: Json)
    requires TotalPreorder(order) && Parsed(v) && Parsed(w) && Untied(order, v) && Same(v, w)
    ensures Normal(order, v) == Normal(order, w)
    decreases v
  {
    match (v, w)
    case (Array(vs), Array(ws)) =>
      NormalItemsAt(order, vs);
      NormalItemsAt(order, ws);
      forall i | 0 <= i < |vs| ensures NormalItems(order, vs)[i] == NormalItems(order, ws)[i] {
        SameNormal(order, vs[i], ws[i]);
      }
    case (Object(vs), Object(ws)) => SameNormalObjects(order, vs, ws);
    case _ =>
  }

  lemma {:induction false} SameKeys(vs: seq<Member>, ws: seq<Member>, k: JsString)
    requires (forall m | m in vs :: Matched(m, ws)) && forall k | k in KeysOf(ws) :: k in KeysOf(vs)
    ensures k in KeysOf(vs) <==> k in KeysOf(ws)
  {
    if k in KeysOf(vs) {
      var i :| 0 <= i < |vs| && KeysOf(vs)[i] == k;
      assert Matched(vs[i], ws);
      var j :| 0 <= j < |ws| && vs[i].key == ws[j].key;
      assert KeysOf(ws)[j] == k;
    }
  }

  /** With distinct keys, the counterpart of a member is the one member with its key. */
  lemma {:induction false} TheCounterpart(m: Member, n: Member, ws: seq<Member>)
    requires DistinctKeys(ws) && Matched(m, ws) && n in ws && n.key == m.key
    ensures Same(m.value, n.value)
  {
    var j :| 0 <= j < |ws| && m.key == ws[j].key && Same(m.value, ws[j].value);
    var q :| 0 <= q < |ws| && ws[q] == n;
    assert q == j;
  }

  lemma {:induction false} SameNormalObjects(order: KeyOrder, vs: seq<Member>, ws: seq<Member>)
    requires TotalPreorder(order) && Parsed(Object(vs)) && Parsed(Object(ws)) && Untied(order, Object(vs))
    requires (forall m | m in vs :: Matched(m, ws)) && forall k | k in KeysOf(ws) :: k in KeysOf(vs)
    ensures Normal(order, Object(vs)) == Normal(order, Object(ws))
    decreases Object(vs), 0
  {
    forall k ensures k in KeysOf(vs) <==> k in KeysOf(ws) {
      SameKeys(vs, ws, k);
    }
    SameKeysSortAlike(order, vs, ws);
    var s := NormalMembersOf(order, vs);
    var t := NormalMembersOf(order, ws);
    assert |KeysOf(s)| == |KeysOf(t)|;
    forall p | 0 <= p < |s|
      ensures Normal(order, Object(vs)).members[p] == Normal(order, Object(ws)).members[p]
    {
      assert s[p] in vs && t[p] in ws && KeysOf(s)[p] == KeysOf(t)[p];
      TheCounterpart(s[p], t[p], ws);
      SameNormal(order, s[p].value, t[p].value);
    }
  }

  /** Values that print alike are equal, for any comparison at all. */
  lemma {:induction false} PrintTellsApart(order: KeyOrder, v: Json, w: Json)
    requires Print(order, v) == Print(order, w)
    ensures Same(v, w)
  {
    PrintInjective(order, v, w);
    NormalSame(order, v, w);
  }

  /** Of a value without ties canonical text is equality of values: injective and free of key order. */
  lemma {:induction false} PrintEqualsSame(order: KeyOrder, v: Json, w: Json)
    requires TotalPreorder(order) && Parsed(v) && Parsed(w) && Untied(order, v)
    ensures Print(order, v) == Print(order, w) <==> Same(v, w)
  {
    PrintInjective(order, v, w);
    if Same(v, w) {
      SameNormal(order, v, w);
    }
    if Normal(order, v) == Normal(order, w) {
      NormalSame(order, v, w);
    }
  }

  // Values with ties

  lemma {:induction false} SameItself(v: Json)
    ensures Same(v, v)
    decreases v
  {
    match v
    case Array(items) =>
      forall i | 0 <= i < |items| ensures Same(items[i], items[i]) {
        SameItself(items[i]);
      }
    case Object(members) =>
      forall m | m in members ensures Matched(m, members) {
        var i :| 0 <= i < |members| && members[i] == m;
        SameItself(m.value);
      }
    case _ =>
  }

  /** An array with one item replaced by an equal one that has another normal form. */
  lemma {:induction false} ItemReplaced(order: KeyOrder, items: seq<Json>, i: nat, w: Json)
    requires i < |items| && Parsed(Array(items)) && Parsed(w) && Same(items[i], w)
             && Normal(order, items[i]) != Normal(order, w)
    ensures Parsed(Array(items[i := w])) && Same(Array(items), Array(items[i := w]))
    ensures Normal(order, Array(items)) != Normal(order, Array(items[i := w]))
  {
    forall k | 0 <= k < |items| ensures Same(items[k], items[i := w][k]) {
      SameItself(items[k]);
    }
    NormalItemsAt(order, items);
    NormalItemsAt(order, items[i := w]);
    assert NormalItems(order, items)[i] != NormalItems(order, items[i := w])[i];
  }

  /** The same for a member of an object. */
  lemma {:induction false} MemberReplaced(order: KeyOrder, members: seq<Member>, i: nat, w: Json)
    requires i < |members| && Parsed(Object(members)) && Parsed(w)
    requires Same(members[i].value, w) && Normal(order, members[i].value) != Normal(order, w)
    ensures var ws := members[i := Member(members[i].key, w)];
            && Parsed(Object(ws)) && Same(Object(members), Object(ws))
               && Normal(order, Object(members)) != Normal(order, Object(ws))
  {
    var ws := members[i := Member(members[i].key, w)];
    assert KeysOf(ws) == KeysOf(members);
    forall m | m in members ensures Matched(m, ws) {
      var k :| 0 <= k < |members| && members[k] == m;
      SameItself(m.value);
      assert m.key == ws[k].key && Same(m.value, ws[k].value);
    }
    if Normal(order, Object(members)) == Normal(order, Object(ws)) {
      var j := NormalCounterpart(order, members, ws, members[i]);
    }
  }

  lemma {:induction false} KeysOfSwap(members: seq<Member>, i: nat, j: nat)
    requires i < j < |members|
    ensures KeysOf(Swap(members, i, j)) == Swap(KeysOf(members), i, j)
  {}

  /** An object with two tied members exchanged. */
  lemma {:induction false} MembersSwapped(order: KeyOrder, members: seq<Member>, i: nat, j: nat)
    requires TotalPreorder(order) && Parsed(Object(members)) && i < j < |members|
    requires IsName(members[i].key) && Tied(members[i].key, members[j].key, order)
    ensures var ws := Swap(members, i, j);
            && Parsed(Object(ws)) && Same(Object(members), Object(ws))
               && Normal(order, Object(members)) != Normal(order, Object(ws))
  {
    var ws := Swap(members, i, j);
    SwappedIsSame(members, i, j);
    KeysInOrder(members);
    KeysOfSwap(members, i, j);
    SwapSortsApart(KeysOf(members), order, i, j);
    KeysSort(members, order);
    KeysSort(ws, order);
    SortedKeysApart(order, members, ws);
  }

  lemma {:induction false} SwappedIsSame(members: seq<Member>, i: nat, j: nat)
    requires Parsed(Object(members)) && i < j < |members| && IsName(members[i].key)
    ensures Parsed(Object(Swap(members, i, j))) && Same(Object(members), Object(Swap(members, i, j)))
  {
    var ws := Swap(members, i, j);
    forall m | m in members ensures Matched(m, ws) {
      var k :| 0 <= k < |members| && members[k] == m;
      var l := if k == i then j else if k == j then i else k;
      SameItself(m.value);
      assert m.key == ws[l].key && Same(m.value, ws[l].value);
    }
    forall k | k in KeysOf(ws) ensures k in KeysOf(members) {
      var n :| 0 <= n < |ws| && KeysOf(ws)[n] == k;
      assert KeysOf(members)[if n == i then j else if n == j then i else n] == k;
    }
  }

  lemma {:induction false} SortedKeysApart(order: KeyOrder, vs: seq<Member>, ws: seq<Member>)
    requires KeysOf(Sort(vs, ByKey(order))) != KeysOf(Sort(ws, ByKey(order)))
    ensures Normal(order, Object(vs)) != Normal(order, Object(ws))
  {
    var s := NormalMembersOf(order, vs);
    var t := NormalMembersOf(order, ws);
    if |s| == |t| {
      var k :| 0 <= k < |s| && KeysOf(s)[k] != KeysOf(t)[k];
      assert Normal(order, Object(vs)).members[k] != Normal(order, Object(ws)).members[k];
    }
  }

  /** A value with a tie equals some value that prints differently: the same one with two tied members exchanged. */
  lemma {:induction false} TiedPrintsApart(order: KeyOrder, v: Json) returns (w: Json)
    requires TotalPreorder(order) && Parsed(v) && !Untied(order, v)
    ensures Parsed(w) && Same(v, w) && Normal(order, v) != Normal(order, w)
    decreases v
  {
    match v
    case Array(items) =>
      var i :| 0 <= i < |items| && !Untied(order, items[i]);
      var item := TiedPrintsApart(order, items[i]);
      ItemReplaced(order, items, i, item);
      w := Array(items[i := item]);
    case Object(members) =>
      if NamesApart(order, KeysOf(members)) {
        var i :| 0 <= i < |members| && !Untied(order, members[i].value);
        var value := TiedPrintsApart(order, members[i].value);
        MemberReplaced(order, members, i, value);
        w := Object(members[i := Member(members[i].key, value)]);
      } else {
        var i, j := TiedMembers(order, members);
        MembersSwapped(order, members, i, j);
        w := Object(Swap(members, i, j));
      }
  }

  lemma {:induction false} TiedMembers(order: KeyOrder, members: seq<Member>) returns (i: nat, j: nat)
    requires !NamesApart(order, KeysOf(members))
    ensures i < j < |members| && IsName(members[i].key) && IsName(members[j].key)
            && Tied(members[i].key, members[j].key, order)
  {
    var k, l :| k in KeysOf(members) && l in KeysOf(members) && IsName(k) && IsName(l) && Tied(k, l, order) && k != l;
    var m :| 0 <= m < |members| && KeysOf(members)[m] == k;
    var n :| 0 <= n < |members| && KeysOf(members)[n] == l;
    i, j := if m < n then m else n, if m < n then n else m;
  }

  /** A value prints like everything it equals if and only if no two names in one of its objects tie. */
  lemma {:induction false} UntiedExactly(order: KeyOrder, v: Json)
    requires TotalPreorder(order) && Parsed(v)
    ensures (forall w | Parsed(w) :: Print(order, v) == Print(order, w) <==> Same(v, w)) <==> Untied(order, v)
  {
    if Untied(order, v) {
      forall w | Parsed(w) ensures Print(order, v) == Print(order, w) <==> Same(v, w) {
        PrintEqualsSame(order, v, w);
      }
    } else {
      var w := TiedPrintsApart(order, v);
      PrintInjective(order, v, w);
    }
  }

  /** Different names never tie. */
  ghost predicate TellsNamesApart(order: KeyOrder) {
    forall k, l | IsName(k) && IsName(l) && Tied(k, l, order) :: k == l
  }

  lemma {:induction false} StrictIsUntied(order: KeyOrder, v: Json)
    requires TellsNamesApart(order)
    ensures Untied(order, v)
    decreases v
  {
    match v
    case Array(items) =>
      forall i | 0 <= i < |items| ensures Untied(order, items[i]) {
        StrictIsUntied(order, items[i]);
      }
    case Object(members) =>
      forall i | 0 <= i < |members| ensures Untied(order, members[i].value) {
        StrictIsUntied(order, members[i].value);
      }
    case _ =>
  }

  /** Two names the comparison does not tell apart make two equal objects that print differently. */
  lemma TiedKeysBreakIt(order: KeyOrder, k: JsString, l: JsString) returns (v: Json, w: Json)
    requires k != l && IsName(k) && IsName(l) && order(k, l) && order(l, k)
    ensures Parsed(v) && Parsed(w) && Same(v, w) && Print(order, v) != Print(order, w)
  {
    var a, b := Member(k, Null), Member(l, Null);
    v, w := Object([a, b]), Object([b, a]);
    TiedPair(order, a, b);
    TiedPair(order, b, a);
    assert Matched(a, [b, a]) by { assert [b, a][1] == a; }
    assert Matched(b, [b, a]) by { assert [b, a][0] == b; }
    assert KeysOf([a, b]) == [k, l] && KeysOf([b, a]) == [l, k];
    PrintInjective(order, v, w);
  }

  lemma {:induction false} TiedPair(order: KeyOrder, a: Member, b: Member)
    requires order(a.key, b.key)
    ensures Normal(order, Object([a, b])).Object? && |Normal(order, Object([a, b])).members| == 2
    ensures Normal(order, Object([a, b])).members[0].key == a.key
  {
    assert [a, b][1..] == [b] && [b][1..] == [];
    assert Sort([b], ByKey(order)) == [b];
    assert Sort([a, b], ByKey(order)) == [a, b];
    var s := NormalMembersOf(order, [a, b]);
  }

  ghost predicate OrderFree(order: KeyOrder) {
    forall v, w | Parsed(v) && Parsed(w) :: Print(order, v) == Print(order, w) <==> Same(v, w)
  }

  /** Canonical text identifies all equal values exactly when the comparison tells any two names apart. */
  lemma {:induction false} OrderFreeExactly(order: KeyOrder)
    requires TotalPreorder(order)
    ensures OrderFree(order) <==> TellsNamesApart(order)
  {
    if TellsNamesApart(order) {
      forall v, w | Parsed(v) && Parsed(w)
        ensures Print(order, v) == Print(order, w) <==> Same(v, w)
      {
        StrictIsUntied(order, v);
        PrintEqualsSame(order, v, w);
      }
    } else {
      var k, l :| IsName(k) && IsName(l) && Tied(k, l, order) && k != l;
      var v, w := TiedKeysBreakIt(order, k, l);
    }
  }
}

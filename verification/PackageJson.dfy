/** Changing one dependency of a package.json, and checking that it alone changed. */
module PackageJson {
  import opened Common
  import opened Sorting
  import opened Json
  import opened CanonicalJson

  type Document = v: Json | v.Object? witness Object([])

  datatype Operation =
    | Set(section: JsString, packageName: JsString, version: JsString)
    | Remove(section: JsString, packageName: JsString)

  // Properties

  /** What reading a property of a plain object gives; objects also answer for what every object inherits. */
  datatype Property = Undefined | Inherited | Own(value: Json)

  function InheritedNames(): seq<JsString> {
    [Units("constructor"), Units("hasOwnProperty"), Units("isPrototypeOf"), Units("propertyIsEnumerable"),
     Units("toLocaleString"), Units("toString"), Units("valueOf"), Units("__proto__"),
     Units("__defineGetter__"), Units("__defineSetter__"), Units("__lookupGetter__"), Units("__lookupSetter__")]
  }

  function Lookup(members: seq<Member>, key: JsString): Option<Json> {
    if members == [] then None
    else if members[0].key == key then Some(members[0].value)
    else Lookup(members[1..], key)
  }

  function Read(members: seq<Member>, name: JsString): Property {
    match Lookup(members, name)
    case Some(value) => Own(value)
    case None => if name in InheritedNames() then Inherited else Undefined
  }

  /** Assignment: in place when the key is there, else at the end. */
  function Put(members: seq<Member>, key: JsString, value: Json): seq<Member> {
    if members == [] then [Member(key, value)]
    else if members[0].key == key then [Member(key, value)] + members[1..]
    else [members[0]] + Put(members[1..], key, value)
  }

  function Other(key: JsString): Member -> bool {
    (m: Member) => m.key != key
  }

  function Delete(members: seq<Member>, key: JsString): seq<Member> {
    Filter(members, Other(key))
  }

  /** `JSON.parse(JSON.stringify(v))`: numbers JSON cannot write become null. */
  function Clone(v: Json): Json {
    match v
    case NonFinite => Null
    case Array(items) => Array(seq(|items|, i requires 0 <= i < |items| => Clone(items[i])))
    case Object(members) =>
        Object(seq(|members|, i requires 0 <= i < |members| => Member(members[i].key, Clone(members[i].value))))
    case _ => v
  }

  // Names and validated documents

  predicate NameStart(u: Unit) {
    97 <= u < 123 || 48 <= u < 58
  }

  predicate PlainName(s: JsString) {
    s != [] && NameStart(s[0]) && forall i | 0 <= i < |s| :: NameStart(s[i]) || s[i] in {45, 46, 95}
  }

  /** An npm name, with or without a scope. */
  predicate PackageName(s: JsString) {
    || PlainName(s)
    || (s != [] && s[0] == 64 && exists i | 1 <= i < |s| :: s[i] == 47 && PlainName(s[1..i]) && PlainName(s[i + 1..]))
  }

  function Sections(): seq<JsString> {
    [Units("dependencies"), Units("devDependencies"), Units("optionalDependencies")]
  }

  /** The two patterns on versions, as predicates. */
  datatype Patterns = Patterns(version: JsString -> bool, packageManager: JsString -> bool)

  predicate ValidSection(patterns: Patterns, section: Option<Json>) {
    section.Some? ==>
      && section.value.Object?
      && forall m | m in section.value.members ::
         PackageName(m.key) && m.value.String? && patterns.version(m.value.text)
  }

  predicate Validated(patterns: Patterns, document: Document) {
    var members := document.members;
    && Lookup(members, Units("workspaces")).None? && Lookup(members, Units("overrides")).None?
    && Lookup(members, Units("bundleDependencies")).None? && Lookup(members, Units("bundledDependencies")).None?
    && (var manager := Lookup(members, Units("packageManager"));
        manager.Some? ==> manager.value.String? && patterns.packageManager(manager.value.text))
    && forall name | name in Sections() + [Units("peerDependencies")] :: ValidSection(patterns, Lookup(members, name))
  }

  /** The part of the input check that is about the operation. */
  predicate ValidOperation(patterns: Patterns, operation: Operation) {
    && operation.section in Sections() && PackageName(operation.packageName)
    && (operation.Set? ==> patterns.version(operation.version) && operation.version != [])
  }

  // The check

  function Target(document: Document, operation: Operation): Property {
    match Lookup(document.members, operation.section)
    case Some(Object(members)) => Read(members, operation.packageName)
    case _ => Undefined
  }

  predicate TargetAsAsked(document: Document, operation: Operation) {
    match operation
    case Set(_, _, version) => Target(document, operation) == Own(String(version))
    case Remove(_, _) => Target(document, operation) == Undefined
  }

  /** Deletes the named dependency, and then its section if that leaves it empty. */
  function Stripped(document: Document, operation: Operation): Document {
    match Lookup(document.members, operation.section)
    case Some(Object(members)) =>
      var rest := Delete(members, operation.packageName);
      if rest == [] then Object(Delete(document.members, operation.section))
      else Object(Put(document.members, operation.section, Object(rest)))
    case _ => document
  }

  function WithoutTarget(document: Document, operation: Operation): Document {
    Stripped(Clone(document), operation)
  }

  predicate Accepts(order: KeyOrder, original: Document, materialized: Document, operation: Operation) {
    && TargetAsAsked(materialized, operation)
    && Print(order, WithoutTarget(original, operation)) == Print(order, WithoutTarget(materialized, operation))
  }

  // The change

  /** The section with the dependency set, its names in the order of the comparison. */
  function SectionWith(order: KeyOrder, section: seq<Member>, name: JsString, version: JsString): seq<Member> {
    Enumerated(Sort(Enumerated(Put(section, name, String(version))), ByKey(order)))
  }

  function Mutated(order: KeyOrder, document: Document, operation: Operation): Option<Document> {
    var section := Lookup(document.members, operation.section);
    if operation.section !in Sections() || !PackageName(operation.packageName) then None
    else if section.Some? && !section.value.Object? then None
    else
      match operation
      case Set(key, name, version) =>
        if version == [] then None else
        var current := if section.Some? then section.value.members else [];
        Some(Object(Put(document.members, key, Object(SectionWith(order, current, name, version)))))
      case Remove(key, name) =>
        if section.None? then Some(document) else
        var rest := Delete(section.value.members, name);
        Some(if rest == [] then Object(Delete(document.members, key))
            else Object(Put(document.members, key, Object(rest))))
  }

  /** The change as the program makes it, one assignment at a time. */
  method Mutate(order: KeyOrder, document: Document, operation: Operation) returns (result: Option<Document>)
    ensures result == Mutated(order, document, operation)
  {
    var key, name := operation.section, operation.packageName;
    if key !in Sections() || !PackageName(name) {
      return None;
    }
    var members := document.members;
    var current := Lookup(members, key);
    match operation
    case Set(_, _, version) =>
      if version == [] || (current.Some? && !current.value.Object?) {
        return None;
      }
      var section := Enumerated(Put(if current.Some? then current.value.members else [], name, String(version)));
      members := Put(members, key, Object(section));
      PutTwice(document.members, key, Object(section), Object(Enumerated(Sort(section, ByKey(order)))));
      members := Put(members, key, Object(Enumerated(Sort(section, ByKey(order)))));
      result := Some(Object(members));
    case Remove(_, _) =>
      if current.Some? {
        if !current.value.Object? {
          return None;
        }
        var section := Delete(current.value.members, name);
        members := if section == [] then Delete(members, key) else Put(members, key, Object(section));
      }
      result := Some(Object(members));
  }

  lemma {:induction false} PutTwice(members: seq<Member>, key: JsString, first: Json, second: Json)
    ensures Put(Put(members, key, first), key, second) == Put(members, key, second)
  {
    if members != [] && members[0].key != key {
      PutTwice(members[1..], key, first, second);
      assert Put(members, key, first)[1..] == Put(members[1..], key, first);
    }
  }

  // What the edits do to lookups

  lemma {:induction false} LookupCons(m: Member, members: seq<Member>, key: JsString)
    ensures Lookup([m] + members, key) == if m.key == key then Some(m.value) else Lookup(members, key)
  {
    assert ([m] + members)[1..] == members;
  }

  lemma {:induction false} PutLookup(members: seq<Member>, key: JsString, value: Json, at: JsString)
    ensures Lookup(Put(members, key, value), at) == if at == key then Some(value) else Lookup(members, at)
  {
    if members == [] {
      LookupCons(Member(key, value), [], at);
    } else if members[0].key == key {
      LookupCons(Member(key, value), members[1..], at);
    } else {
      PutLookup(members[1..], key, value, at);
      LookupCons(members[0], Put(members[1..], key, value), at);
    }
  }

  lemma {:induction false} DeleteLookup(members: seq<Member>, key: JsString, at: JsString)
    ensures Lookup(Delete(members, key), at) == if at == key then None else Lookup(members, at)
  {
    if members != [] {
      DeleteLookup(members[1..], key, at);
      LookupCons(members[0], Delete(members[1..], key), at);
      assert members == [members[0]] + members[1..];
      FilterCons(members[0], members[1..], Other(key));
    }
  }

  /** The section without the dependency, or nothing if it had no other. */
  function Residue(document: Document, operation: Operation): Option<Json> {
    match Lookup(document.members, operation.section)
    case Some(Object(members)) =>
      var rest := Delete(members, operation.packageName);
      if rest == [] then None else Some(Object(rest))
    case other => other
  }

  lemma {:induction false} StrippedLookup(document: Document, operation: Operation, at: JsString)
    ensures Lookup(Stripped(document, operation).members, at) ==
            if at == operation.section then Residue(document, operation) else Lookup(document.members, at)
  {
    match Lookup(document.members, operation.section)
    case Some(Object(members)) =>
      DeleteLookup(document.members, operation.section, at);
      PutLookup(document.members, operation.section, Object(Delete(members, operation.packageName)), at);
    case _ =>
  }

  lemma {:induction false} LookupMember(members: seq<Member>, i: nat)
    requires i < |members| && DistinctKeys(members)
    ensures Lookup(members, members[i].key) == Some(members[i].value)
  {
    if i > 0 {
      LookupMember(members[1..], i - 1);
    }
  }

  lemma {:induction false} LookupFinds(members: seq<Member>, key: JsString) returns (i: nat)
    requires Lookup(members, key).Some?
    ensures i < |members| && members[i] == Member(key, Lookup(members, key).value)
  {
    if members[0].key == key {
      i := 0;
    } else {
      i := LookupFinds(members[1..], key);
      i := i + 1;
    }
  }

  lemma {:induction false} DeleteKeepsDistinct(members: seq<Member>, key: JsString)
    requires DistinctKeys(members)
    ensures DistinctKeys(Delete(members, key)) && forall m | m in Delete(members, key) :: m in members && m.key != key
  {
    if members != [] {
      DeleteKeepsDistinct(members[1..], key);
      var rest := Delete(members[1..], key);
      assert forall m | m in rest :: m in members[1..];
      assert forall j | 0 <= j < |rest| :: rest[j] in rest;
      assert forall m | m in members[1..] :: m.key != members[0].key;
    }
  }

  lemma {:induction false} PutMembers(members: seq<Member>, key: JsString, value: Json)
    requires DistinctKeys(members)
    ensures DistinctKeys(Put(members, key, value))
    ensures forall m | m in Put(members, key, value) :: m == Member(key, value) || (m in members && m.key != key)
  {
    if members != [] {
      assert forall m | m in members[1..] :: m.key != members[0].key;
      if members[0].key != key {
        PutMembers(members[1..], key, value);
        var rest := Put(members[1..], key, value);
        assert forall j | 0 <= j < |rest| :: rest[j] in rest;
      }
    }
  }

  // Cloning

  function CloneMembers(members: seq<Member>): seq<Member> {
    seq(|members|, i requires 0 <= i < |members| => Member(members[i].key, Clone(members[i].value)))
  }

  function CloneOption(v: Option<Json>): Option<Json> {
    match v
    case None => None
    case Some(value) => Some(Clone(value))
  }

  lemma {:induction false} CloneObject(members: seq<Member>)
    ensures Clone(Object(members)) == Object(CloneMembers(members))
  {}

  lemma {:induction false} CloneCons(m: Member, members: seq<Member>)
    ensures CloneMembers([m] + members) == [Member(m.key, Clone(m.value))] + CloneMembers(members)
  {}

  lemma {:induction false} CloneLookup(members: seq<Member>, key: JsString)
    ensures Lookup(CloneMembers(members), key) == CloneOption(Lookup(members, key))
  {
    if members != [] {
      CloneLookup(members[1..], key);
      assert CloneMembers(members)[1..] == CloneMembers(members[1..]);
    }
  }

  lemma {:induction false} ClonePut(members: seq<Member>, key: JsString, value: Json)
    ensures Put(CloneMembers(members), key, Clone(value)) == CloneMembers(Put(members, key, value))
  {
    if members != [] {
      ClonePut(members[1..], key, value);
      assert CloneMembers(members)[1..] == CloneMembers(members[1..]);
      CloneCons(members[0], Put(members[1..], key, value));
    }
  }

  lemma {:induction false} CloneDelete(members: seq<Member>, key: JsString)
    ensures Delete(CloneMembers(members), key) == CloneMembers(Delete(members, key))
  {
    if members != [] {
      CloneDelete(members[1..], key);
      assert CloneMembers(members)[1..] == CloneMembers(members[1..]);
      CloneCons(members[0], Delete(members[1..], key));
    }
  }

  lemma {:induction false} CloneStripped(document: Document, operation: Operation)
    ensures WithoutTarget(document, operation) == Clone(Stripped(document, operation))
  {
    var members, key := document.members, operation.section;
    CloneObject(members);
    CloneLookup(members, key);
    match Lookup(members, key)
    case Some(Object(section)) =>
      CloneObject(section);
      CloneDelete(section, operation.packageName);
      CloneDelete(members, key);
      var rest := Delete(section, operation.packageName);
      CloneObject(rest);
      ClonePut(members, key, Object(rest));
      CloneObject(Put(members, key, Object(rest)));
      CloneObject(Delete(members, key));
    case _ =>
  }

  /** Cloning changes nothing canonical text can see. */
  lemma {:induction false} CloneNormal(order: KeyOrder, v: Json)
    ensures Normal(order, Clone(v)) == Normal(order, v)
    decreases v
  {
    match v
    case Array(items) =>
      var cloned := seq(|items|, i requires 0 <= i < |items| => Clone(items[i]));
      NormalItemsAt(order, items);
      NormalItemsAt(order, cloned);
      forall i | 0 <= i < |items| ensures NormalItems(order, cloned)[i] == NormalItems(order, items)[i] {
        CloneNormal(order, items[i]);
      }
    case Object(members) =>
      CloneObject(members);
      forall i | 0 <= i < |members| ensures Normal(order, Clone(members[i].value)) == Normal(order, members[i].value) {
        CloneNormal(order, members[i].value);
      }
      assert Parallel(CloneMembers(members), members, SameNormalForm(order));
      ParallelSort(order, CloneMembers(members), members, SameNormalForm(order));
      ParallelNormal(order, CloneMembers(members), members);
    case _ =>
  }

  /** The check compares normal forms of the two documents without the target. */
  lemma {:induction false} AcceptsNormal(order: KeyOrder, original: Document, materialized: Document,
      operation: Operation)
    ensures Accepts(order, original, materialized, operation) <==>
            TargetAsAsked(materialized, operation) && Normal(order, Stripped(original, operation)) ==
                Normal(order, Stripped(materialized, operation))
  {
    PrintInjective(order, WithoutTarget(original, operation), WithoutTarget(materialized, operation));
    CloneStripped(original, operation);
    CloneStripped(materialized, operation);
    CloneNormal(order, Stripped(original, operation));
    CloneNormal(order, Stripped(materialized, operation));
  }
}

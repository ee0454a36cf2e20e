/** What the check of a changed package.json accepts, and that the change passes it. */
module PackageChange {
  import opened Common
  import opened Sorting
  import opened Json
  import opened CanonicalJson
  import opened PackageJson

  // What the check accepts

  ghost predicate SameOption(v: Option<Json>, w: Option<Json>) {
    match (v, w)
    case (None, None) => true
    case (Some(a), Some(b)) => Same(a, b)
    case _ => false
  }

  lemma {:induction false} MatchedLookup(m: Member, ws: seq<Member>)
    requires DistinctKeys(ws)
    ensures Matched(m, ws) <==> SameOption(Some(m.value), Lookup(ws, m.key))
  {
    if Matched(m, ws) {
      var j :| 0 <= j < |ws| && m.key == ws[j].key && Same(m.value, ws[j].value);
      LookupMember(ws, j);
    }
    if Lookup(ws, m.key).Some? {
      var j := LookupFinds(ws, m.key);
    }
  }

  lemma {:induction false} KeyLookup(members: seq<Member>, key: JsString)
    ensures key in KeysOf(members) <==> Lookup(members, key).Some?
  {
    if members != [] {
      KeyLookup(members[1..], key);
      assert KeysOf(members) == [members[0].key] + KeysOf(members[1..]);
    }
  }

  ghost predicate SameLookups(vs: seq<Member>, ws: seq<Member>) {
    forall key :: SameOption(Lookup(vs, key), Lookup(ws, key))
  }

  lemma {:induction false} SameLooksUp(vs: seq<Member>, ws: seq<Member>, key: JsString)
    requires DistinctKeys(vs) && DistinctKeys(ws) && Same(Object(vs), Object(ws))
    ensures SameOption(Lookup(vs, key), Lookup(ws, key))
  {
    KeyLookup(vs, key);
    KeyLookup(ws, key);
    if Lookup(vs, key).Some? {
      var i := LookupFinds(vs, key);
      MatchedLookup(vs[i], ws);
    }
  }

  lemma {:induction false} LookupsMatch(vs: seq<Member>, ws: seq<Member>)
    requires DistinctKeys(vs) && DistinctKeys(ws) && SameLookups(vs, ws)
    ensures Same(Object(vs), Object(ws))
  {
    forall m | m in vs ensures Matched(m, ws) {
      var i :| 0 <= i < |vs| && vs[i] == m;
      LookupMember(vs, i);
      MatchedLookup(m, ws);
      assert SameOption(Lookup(vs, m.key), Lookup(ws, m.key));
    }
    forall k | k in KeysOf(ws) ensures k in KeysOf(vs) {
      KeyLookup(vs, k);
      KeyLookup(ws, k);
      assert SameOption(Lookup(vs, k), Lookup(ws, k));
    }
  }

  /** Objects are equal as values exactly when they answer every lookup alike. */
  lemma {:induction false} SameByLookup(vs: seq<Member>, ws: seq<Member>)
    requires DistinctKeys(vs) && DistinctKeys(ws)
    ensures Same(Object(vs), Object(ws)) <==> SameLookups(vs, ws)
  {
    if Same(Object(vs), Object(ws)) {
      forall key ensures SameOption(Lookup(vs, key), Lookup(ws, key)) {
        SameLooksUp(vs, ws, key);
      }
    }
    if SameLookups(vs, ws) {
      LookupsMatch(vs, ws);
    }
  }

  /** Nothing but the target differs: every other property of the document, and the rest of the section. */
  ghost predicate OnlyTargetDiffers(original: Document, materialized: Document, operation: Operation) {
    SameOption(Residue(original, operation), Residue(materialized, operation))
        && SameElsewhere(original, materialized, operation.section)
  }

  ghost predicate SameElsewhere(original: Document, materialized: Document, section: JsString) {
    forall key | key != section :: SameOption(Lookup(original.members, key), Lookup(materialized.members, key))
  }

  lemma {:induction false} DeleteWellFormed(members: seq<Member>, key: JsString)
    requires WellFormed(Object(members))
    ensures WellFormed(Object(Delete(members, key)))
  {
    var rest := Delete(members, key);
    DeleteKeepsDistinct(members, key);
    forall j | 0 <= j < |rest| ensures WellFormed(rest[j].value) {
      assert rest[j] in rest;
      var i :| 0 <= i < |members| && members[i] == rest[j];
    }
  }

  lemma {:induction false} PutWellFormed(members: seq<Member>, key: JsString, value: Json)
    requires WellFormed(Object(members)) && WellFormed(value)
    ensures WellFormed(Object(Put(members, key, value)))
  {
    var put := Put(members, key, value);
    PutMembers(members, key, value);
    forall j | 0 <= j < |put| ensures WellFormed(put[j].value) {
      assert put[j] in put;
      if put[j] in members {
        var i :| 0 <= i < |members| && members[i] == put[j];
      }
    }
  }

  lemma {:induction false} StrippedWellFormed(document: Document, operation: Operation)
    requires WellFormed(document)
    ensures WellFormed(Stripped(document, operation))
  {
    var members, key := document.members, operation.section;
    match Lookup(members, key)
    case Some(Object(section)) =>
      var i := LookupFinds(members, key);
      assert WellFormed(members[i].value);
      DeleteWellFormed(section, operation.packageName);
      DeleteWellFormed(members, key);
      PutWellFormed(members, key, Object(Delete(section, operation.packageName)));
    case _ =>
  }

  /** Property order is a matter of keys. */
  lemma {:induction false} SameKeysInOrder(vs: seq<Member>, ws: seq<Member>)
    requires InPropertyOrder(vs) && KeysOf(vs) == KeysOf(ws)
    ensures InPropertyOrder(ws)
  {
    forall i | 0 <= i < |ws| ensures vs[i].key == ws[i].key {
      assert KeysOf(vs)[i] == KeysOf(ws)[i];
    }
    forall i, j | 0 <= i < j < |ws| ensures ByKey(Enumeration())(ws[i], ws[j]) {
      assert ByKey(Enumeration())(vs[i], vs[j]);
    }
  }

  lemma {:induction false} PutInPlace(members: seq<Member>, key: JsString, value: Json)
    requires Lookup(members, key).Some?
    ensures KeysOf(Put(members, key, value)) == KeysOf(members)
  {
    if members[0].key != key {
      PutInPlace(members[1..], key, value);
      assert KeysOf(members) == [members[0].key] + KeysOf(members[1..]);
      assert KeysOf(Put(members, key, value)) == [members[0].key] + KeysOf(Put(members[1..], key, value));
    }
  }

  lemma {:induction false} DeleteInOrder(members: seq<Member>, key: JsString)
    requires InPropertyOrder(members)
    ensures InPropertyOrder(Delete(members, key))
  {
    DeleteKeepsDistinct(members, key);
    EnumerationPreorder();
    ByKeyPreorder(Enumeration());
    SortKeepsSorted(members, ByKey(Enumeration()));
    FilterSort(members, ByKey(Enumeration()), Other(key));
    SortSorts(Delete(members, key), ByKey(Enumeration()));
  }

  lemma {:induction false} DeleteParsed(members: seq<Member>, key: JsString)
    requires Parsed(Object(members))
    ensures Parsed(Object(Delete(members, key)))
  {
    DeleteInOrder(members, key);
    DeleteKeepsDistinct(members, key);
    var rest := Delete(members, key);
    assert forall j | 0 <= j < |rest| :: rest[j] in rest;
  }

  lemma {:induction false} StrippedParsed(document: Document, operation: Operation)
    requires Parsed(document)
    ensures Parsed(Stripped(document, operation))
  {
    var members, key := document.members, operation.section;
    match Lookup(members, key)
    case Some(Object(section)) =>
      SectionOf(document, key);
      DeleteParsed(section, operation.packageName);
      DeleteParsed(members, key);
      var rest := Object(Delete(section, operation.packageName));
      PutInPlace(members, key, rest);
      SameKeysInOrder(members, Put(members, key, rest));
      PutMembers(members, key, rest);
      assert forall j | 0 <= j < |Put(members, key, rest)| :: Put(members, key, rest)[j] in Put(members, key, rest);
    case _ =>
  }

  lemma {:induction false} SectionOf(document: Document, section: JsString)
    requires Parsed(document) && Lookup(document.members, section).Some?
    ensures Parsed(Lookup(document.members, section).value)
  {
    var i := LookupFinds(document.members, section);
  }

  lemma {:induction false} StrippedLookups(original: Document, materialized: Document, operation: Operation)
    ensures SameLookups(Stripped(original, operation).members, Stripped(materialized, operation).members) <==>
            OnlyTargetDiffers(original, materialized, operation)
  {
    var vs, ws := Stripped(original, operation).members, Stripped(materialized, operation).members;
    forall key
      ensures SameOption(Lookup(vs, key), Lookup(ws, key)) <==>
              if key == operation.section then
                SameOption(Residue(original, operation), Residue(materialized, operation))
              else SameOption(Lookup(original.members, key), Lookup(materialized.members, key))
    {
      StrippedLookup(original, operation, key);
      StrippedLookup(materialized, operation, key);
    }
    if SameLookups(vs, ws) {
      assert SameOption(Lookup(vs, operation.section), Lookup(ws, operation.section));
      forall key | key != operation.section
        ensures SameOption(Lookup(original.members, key), Lookup(materialized.members, key))
      {
        assert SameOption(Lookup(vs, key), Lookup(ws, key));
      }
    }
  }

  /** The target is as asked and nothing else differs. */
  ghost predicate OnlyTheChange(original: Document, materialized: Document, operation: Operation) {
    TargetAsAsked(materialized, operation) && OnlyTargetDiffers(original, materialized, operation)
  }

  lemma {:induction false} StrippedSame(original: Document, materialized: Document, operation: Operation)
    requires WellFormed(original) && WellFormed(materialized)
    ensures Same(Stripped(original, operation), Stripped(materialized, operation)) <==>
            OnlyTargetDiffers(original, materialized, operation)
  {
    StrippedWellFormed(original, operation);
    StrippedWellFormed(materialized, operation);
    SameByLookup(Stripped(original, operation).members, Stripped(materialized, operation).members);
    StrippedLookups(original, materialized, operation);
  }

  /** The member is the section, an object with these members. */
  ghost predicate HasSection(document: Document, section: JsString, members: seq<Member>) {
    Member(section, Object(members)) in document.members
  }

  /**
   A set dependency has the version asked for; a removed one is gone, and every object's own members do not stand in
   for it.
   */
  ghost predicate AsAsked(document: Document, operation: Operation) {
    match operation
    case Set(section, name, version) =>
      exists members {:trigger HasSection(document, section, members)} ::
        HasSection(document, section, members) && Member(name, String(version)) in members
    case Remove(section, name) =>
      forall members {:trigger HasSection(document, section, members)} | HasSection(document, section, members) ::
        name !in KeysOf(members) && name !in InheritedNames()
  }

  lemma {:induction false} LookupExactly(members: seq<Member>, key: JsString, value: Json)
    requires DistinctKeys(members)
    ensures Lookup(members, key) == Some(value) <==> Member(key, value) in members
  {
    if Lookup(members, key).Some? {
      var i := LookupFinds(members, key);
    }
    if Member(key, value) in members {
      var i :| 0 <= i < |members| && members[i] == Member(key, value);
      LookupMember(members, i);
    }
  }

  lemma {:induction false} SectionFound(document: Document, section: JsString, members: seq<Member>)
    requires WellFormed(document)
    ensures HasSection(document, section, members) <==> Lookup(document.members, section) == Some(Object(members))
    ensures HasSection(document, section, members) ==> DistinctKeys(members)
  {
    LookupExactly(document.members, section, Object(members));
    if HasSection(document, section, members) {
      var i :| 0 <= i < |document.members| && document.members[i] == Member(section, Object(members));
      assert WellFormed(document.members[i].value);
    }
  }

  /** The check of the target, without the way it is read. */
  lemma {:induction false} AskedExactly(document: Document, operation: Operation)
    requires WellFormed(document)
    ensures TargetAsAsked(document, operation) <==> AsAsked(document, operation)
  {
    var section, name := operation.section, operation.packageName;
    forall members
      ensures HasSection(document, section, members) <==> Lookup(document.members, section) == Some(Object(members))
    {
      SectionFound(document, section, members);
    }
    match Lookup(document.members, section)
    case Some(Object(members)) =>
      SectionFound(document, section, members);
      KeyLookup(members, name);
      if operation.Set? {
        LookupExactly(members, name, String(operation.version));
      }
    case _ =>
  }

  /**
   Whatever the comparison of keys, the check accepts only documents with the target as asked and everything
   else as it was. If no two names in one object tie in what is left of the original, it accepts all of them.
   */
  lemma {:induction false} AcceptsExactly(order: KeyOrder, original: Document, materialized: Document,
      operation: Operation)
    requires WellFormed(original) && WellFormed(materialized)
    ensures Accepts(order, original, materialized, operation) ==> OnlyTheChange(original, materialized, operation)
    ensures TotalPreorder(order) && Parsed(original) && Parsed(materialized)
            && Untied(order, Stripped(original, operation)) ==>
              (Accepts(order, original, materialized, operation) <==> OnlyTheChange(original, materialized, operation))
  {
    var left, right := Stripped(original, operation), Stripped(materialized, operation);
    AcceptsNormal(order, original, materialized, operation);
    StrippedSame(original, materialized, operation);
    if Normal(order, left) == Normal(order, right) {
      NormalSame(order, left, right);
    }
    if TotalPreorder(order) && Parsed(original) && Parsed(materialized) && Untied(order, left) && Same(left, right) {
      StrippedParsed(original, operation);
      StrippedParsed(materialized, operation);
      SameNormal(order, left, right);
    }
  }

  /** The value of one dependency, if its section is there and names it. */
  function Dependency(document: Document, section: JsString, name: JsString): Option<Json> {
    match Lookup(document.members, section)
    case Some(Object(members)) => Lookup(members, name)
    case _ => None
  }

  function Rest(document: Document, operation: Operation): seq<Member> {
    match Lookup(document.members, operation.section)
    case Some(Object(members)) => Delete(members, operation.packageName)
    case _ => []
  }

  lemma {:induction false} RestLookup(document: Document, operation: Operation, name: JsString)
    ensures Lookup(Rest(document, operation), name) ==
            if name == operation.packageName then None else Dependency(document, operation.section, name)
  {
    match Lookup(document.members, operation.section)
    case Some(Object(members)) => DeleteLookup(members, operation.packageName, name);
    case _ =>
  }

  /** A section is absent or a plain object, as in every validated document. */
  predicate PlainSection(document: Document, section: JsString) {
    var found := Lookup(document.members, section);
    found.Some? ==> found.value.Object?
  }

  ghost predicate SameDependencies(original: Document, materialized: Document, operation: Operation) {
    forall name | name != operation.packageName ::
      SameOption(Dependency(original, operation.section, name), Dependency(materialized, operation.section, name))
  }

  lemma {:induction false} SameResidue(original: Document, materialized: Document, operation: Operation)
    requires WellFormed(original) && WellFormed(materialized)
    requires PlainSection(original, operation.section) && PlainSection(materialized, operation.section)
    ensures SameOption(Residue(original, operation), Residue(materialized, operation)) <==>
            SameDependencies(original, materialized, operation)
  {
    var left, right := Rest(original, operation), Rest(materialized, operation);
    RestDistinct(original, operation);
    RestDistinct(materialized, operation);
    SameByLookup(left, right);
    assert SameLookups(left, right) && left == [] ==> right == [] by { EmptyIfSame(left, right); }
    assert SameLookups(left, right) && right == [] ==> left == [] by { EmptyIfSame(right, left); }
    forall name
      ensures SameOption(Lookup(left, name), Lookup(right, name)) <==>
              name == operation.packageName
                  || SameOption(Dependency(original, operation.section, name),
                  Dependency(materialized, operation.section, name))
    {
      RestLookup(original, operation, name);
      RestLookup(materialized, operation, name);
    }
    assert SameLookups(left, right) <==> SameDependencies(original, materialized, operation);
  }

  lemma {:induction false} EmptyIfSame(vs: seq<Member>, ws: seq<Member>)
    ensures vs == [] && (SameLookups(vs, ws) || SameLookups(ws, vs)) ==> ws == []
  {
    if ws != [] {
      var key := ws[0].key;
      assert SameOption(Lookup(vs, key), Lookup(ws, key)) ==> vs != [];
      assert SameOption(Lookup(ws, key), Lookup(vs, key)) ==> vs != [];
    }
  }

  lemma {:induction false} RestDistinct(document: Document, operation: Operation)
    requires WellFormed(document)
    ensures DistinctKeys(Rest(document, operation))
  {
    match Lookup(document.members, operation.section)
    case Some(Object(members)) =>
      var i := LookupFinds(document.members, operation.section);
      assert WellFormed(document.members[i].value);
      DeleteKeepsDistinct(members, operation.packageName);
    case _ =>
  }

  /** For validated documents: the target is as asked, and every other dependency and property is as it was. */
  lemma {:induction false} AcceptsDependencies(order: KeyOrder, original: Document, materialized: Document,
      operation: Operation)
    requires WellFormed(original) && WellFormed(materialized)
    requires PlainSection(original, operation.section) && PlainSection(materialized, operation.section)
    ensures OnlyTheChange(original, materialized, operation) <==>
            && TargetAsAsked(materialized, operation)
            && SameDependencies(original, materialized, operation)
            && SameElsewhere(original, materialized, operation.section)
    ensures Accepts(order, original, materialized, operation) ==> OnlyTheChange(original, materialized, operation)
    ensures TotalPreorder(order) && Parsed(original) && Parsed(materialized)
            && Untied(order, Stripped(original, operation)) ==>
              (Accepts(order, original, materialized, operation) <==> OnlyTheChange(original, materialized, operation))
  {
    AcceptsExactly(order, original, materialized, operation);
    SameResidue(original, materialized, operation);
  }

  // The change passes the check. One package name is special: every object inherits a member called
  // `constructor`, so once a section holds anything else, a removal of that package cannot be confirmed.

  lemma {:induction false} DeletePut(members: seq<Member>, key: JsString, value: Json)
    ensures Delete(Put(members, key, value), key) == Delete(members, key)
  {
    if members == [] {
      FilterCons(Member(key, value), [], Other(key));
      assert [Member(key, value)] + [] == [Member(key, value)];
    } else {
      assert members == [members[0]] + members[1..];
      FilterCons(members[0], members[1..], Other(key));
      FilterCons(Member(key, value), members[1..], Other(key));
      if members[0].key != key {
        DeletePut(members[1..], key, value);
        FilterCons(members[0], Put(members[1..], key, value), Other(key));
      }
    }
  }

  lemma {:induction false} DeleteAbsent(members: seq<Member>, key: JsString)
    requires Lookup(members, key).None?
    ensures Delete(members, key) == members
  {
    if members != [] {
      DeleteAbsent(members[1..], key);
    }
  }

  /** Setting a dependency sorts the others by name and enumerates them. */
  lemma {:induction false} OthersResorted(order: KeyOrder, section: seq<Member>, name: JsString, version: JsString)
    requires TotalPreorder(order) && Sorted(section, ByKey(Enumeration()))
    ensures var rest := Delete(section, name);
            && Delete(SectionWith(order, section, name, version), name) ==
               Resorted(rest, ByKey(order), ByKey(Enumeration()))
            && Sorted(rest, ByKey(Enumeration()))
  {
    var put := Put(section, name, String(version));
    ByKeyPreorder(order);
    EnumerationPreorder();
    ByKeyPreorder(Enumeration());
    DeletePut(section, name, String(version));
    FilterSort(put, ByKey(Enumeration()), Other(name));
    FilterSort(Enumerated(put), ByKey(order), Other(name));
    FilterSort(Sort(Enumerated(put), ByKey(order)), ByKey(Enumeration()), Other(name));
    SortKeepsSorted(section, ByKey(Enumeration()));
    FilterSort(section, ByKey(Enumeration()), Other(name));
    SortSorts(Delete(section, name), ByKey(Enumeration()));
  }

  /** Names of the section that tie under `q` are in the order `p` puts them in. */
  ghost predicate TiesInOrderOf(p: KeyOrder, q: KeyOrder, section: seq<Member>) {
    forall i, j | 0 <= i < j < |section| && IsName(section[i].key) && IsName(section[j].key)
        && Tied(section[i].key, section[j].key, q) ::
      p(section[i].key, section[j].key)
  }

  lemma {:induction false} TiesOfNames(p: KeyOrder, q: KeyOrder, section: seq<Member>)
    requires DistinctKeys(section)
    ensures LeavesTies(section, ByKey(p), ByKey(Enumeration()), ByKey(q)) <==> TiesInOrderOf(p, q, section)
  {
    forall i, j | 0 <= i < j < |section|
      ensures Tied(section[i], section[j], ByKey(Enumeration())) <==> IsName(section[i].key) && IsName(section[j].key)
    {
      if Tied(section[i], section[j], ByKey(Enumeration())) {
        assert Tied(section[i].key, section[j].key, Enumeration());
        SamePlace(section[i].key, section[j].key);
      }
    }
    forall i, j | 0 <= i < j < |section|
      ensures Tied(section[i], section[j], ByKey(q)) <==> Tied(section[i].key, section[j].key, q)
      ensures ByKey(p)(section[i], section[j]) <==> p(section[i].key, section[j].key)
    {}
  }

  lemma {:induction false} ResortedMembers(members: seq<Member>, p: KeyOrder, q: KeyOrder)
    ensures |Resorted(members, ByKey(p), ByKey(q))| == |members|
    ensures forall m | m in Resorted(members, ByKey(p), ByKey(q)) :: m in members
  {
    SortMembers(members, ByKey(p));
    SortMembers(Sort(members, ByKey(p)), ByKey(q));
  }

  lemma {:induction false} ResortedNormal(p: KeyOrder, q: KeyOrder, members: seq<Member>)
    requires TotalPreorder(p) && TotalPreorder(q) && DistinctKeys(members) && Sorted(members, ByKey(Enumeration()))
    ensures Normal(q, Object(Resorted(members, ByKey(p), ByKey(Enumeration())))) == Normal(q, Object(members)) <==>
            TiesInOrderOf(p, q, members)
  {
    ByKeyPreorder(p);
    ByKeyPreorder(q);
    EnumerationPreorder();
    ByKeyPreorder(Enumeration());
    ResortedSortsAlike(members, ByKey(p), ByKey(Enumeration()), ByKey(q));
    TiesOfNames(p, q, members);
    ResortedMembers(members, p, Enumeration());
    NormalSorted(q, Resorted(members, ByKey(p), ByKey(Enumeration())), members);
  }

  /** Setting a dependency under `p` leaves the others where canonical text under `q` puts them, or not. */
  lemma {:induction false} OthersUnmoved(p: KeyOrder, q: KeyOrder, section: seq<Member>, name: JsString,
      version: JsString)
    requires TotalPreorder(p) && TotalPreorder(q) && InPropertyOrder(section)
    ensures var before, after := Delete(section, name), Delete(SectionWith(p, section, name, version), name);
            && (Normal(q, Object(after)) == Normal(q, Object(before)) <==> TiesInOrderOf(p, q, before))
            && |after| == |before|
  {
    OthersResorted(p, section, name, version);
    DeleteKeepsDistinct(section, name);
    ResortedMembers(Delete(section, name), p, Enumeration());
    ResortedNormal(p, q, Delete(section, name));
  }

  /** Arrangements of one object have one normal form exactly when they are sorted alike. */
  lemma {:induction false} NormalSorted(order: KeyOrder, vs: seq<Member>, ws: seq<Member>)
    requires DistinctKeys(ws) && |vs| == |ws| && forall m | m in vs :: m in ws
    ensures Normal(order, Object(vs)) == Normal(order, Object(ws)) <==> Sort(vs, ByKey(order)) == Sort(ws, ByKey(order))
  {
    if Sort(vs, ByKey(order)) == Sort(ws, ByKey(order)) {
      SortedAlikeNormal(order, vs, ws);
    }
    if Normal(order, Object(vs)) == Normal(order, Object(ws)) {
      var s := NormalMembersOf(order, vs);
      var t := NormalMembersOf(order, ws);
      forall k | 0 <= k < |s| ensures s[k] == t[k] {
        assert Normal(order, Object(vs)).members[k] == Normal(order, Object(ws)).members[k];
        assert s[k] in vs && t[k] in ws;
        var i :| 0 <= i < |ws| && ws[i] == s[k];
        var j :| 0 <= j < |ws| && ws[j] == t[k];
      }
    }
  }

  lemma {:induction false} SortedAlikeNormal(order: KeyOrder, vs: seq<Member>, ws: seq<Member>)
    requires Sort(vs, ByKey(order)) == Sort(ws, ByKey(order))
    ensures Normal(order, Object(vs)) == Normal(order, Object(ws)) && |vs| == |ws|
  {
    assert Parallel(Sort(vs, ByKey(order)), Sort(ws, ByKey(order)), SameNormalForm(order));
    ParallelNormal(order, vs, ws);
  }

  lemma {:induction false} PutParallel(order: KeyOrder, members: seq<Member>, key: JsString, v: Json, w: Json)
    requires Normal(order, v) == Normal(order, w)
    ensures Parallel(Put(members, key, v), Put(members, key, w), SameNormalForm(order))
  {
    if members != [] && members[0].key != key {
      PutParallel(order, members[1..], key, v, w);
      var l, r := Put(members, key, v), Put(members, key, w);
      assert l[1..] == Put(members[1..], key, v) && r[1..] == Put(members[1..], key, w);
      ParallelTail(l, r, SameNormalForm(order));
    }
  }

  lemma {:induction false} PutNormal(order: KeyOrder, members: seq<Member>, key: JsString, v: Json, w: Json)
    requires Normal(order, v) == Normal(order, w)
    ensures Normal(order, Object(Put(members, key, v))) == Normal(order, Object(Put(members, key, w)))
  {
    PutParallel(order, members, key, v, w);
    ParallelSort(order, Put(members, key, v), Put(members, key, w), SameNormalForm(order));
    ParallelNormal(order, Put(members, key, v), Put(members, key, w));
  }

  /** What stripping makes of a document whose section was just written. */
  lemma {:induction false} StrippedPut(members: seq<Member>, section: seq<Member>, operation: Operation)
    ensures var rest := Delete(section, operation.packageName);
            Stripped(Object(Put(members, operation.section, Object(section))), operation) ==
            if rest == [] then Object(Delete(members, operation.section))
              else Object(Put(members, operation.section, Object(rest)))
  {
    var key, rest := operation.section, Delete(section, operation.packageName);
    PutLookup(members, key, Object(section), key);
    DeletePut(members, key, Object(section));
    PutTwice(members, key, Object(section), Object(rest));
  }

  /** Documents that differ in one section have one normal form exactly when the two sections have. */
  lemma {:induction false} PutNormalExactly(order: KeyOrder, members: seq<Member>, key: JsString, v: Json, w: Json)
    requires DistinctKeys(members)
    ensures Normal(order, Object(Put(members, key, v))) == Normal(order, Object(Put(members, key, w))) <==>
            Normal(order, v) == Normal(order, w)
  {
    var vs, ws := Put(members, key, v), Put(members, key, w);
    if Normal(order, v) == Normal(order, w) {
      PutNormal(order, members, key, v, w);
    }
    if Normal(order, Object(vs)) == Normal(order, Object(ws)) {
      PutLookup(members, key, v, key);
      var i := LookupFinds(vs, key);
      var j := NormalCounterpart(order, vs, ws, vs[i]);
      PutMembers(members, key, w);
      assert ws[j] in ws;
    }
  }

  lemma {:induction false} SetStripped(p: KeyOrder, q: KeyOrder, document: Document, operation: Operation)
    requires TotalPreorder(p) && TotalPreorder(q) && Parsed(document) && operation.Set?
             && Mutated(p, document, operation).Some?
    ensures Normal(q, Stripped(Mutated(p, document, operation).value, operation)) ==
            Normal(q, Stripped(document, operation)) <==>
            TiesInOrderOf(p, q, Rest(document, operation))
  {
    var members, key, name := document.members, operation.section, operation.packageName;
    var found := Lookup(members, key);
    var current := if found.Some? then found.value.members else [];
    if found.Some? {
      SectionOf(document, key);
    }
    var section := SectionWith(p, current, name, operation.version);
    OthersUnmoved(p, q, current, name, operation.version);
    StrippedPut(members, section, operation);
    if found.None? {
      DeleteAbsent(members, key);
    } else {
      PutNormalExactly(q, members, key, Object(Delete(section, name)), Object(Delete(current, name)));
    }
  }

  lemma {:induction false} RemoveStripped(order: KeyOrder, document: Document, operation: Operation)
    requires operation.Remove? && Mutated(order, document, operation).Some?
    ensures Mutated(order, document, operation).value == Stripped(document, operation)
    ensures Stripped(Stripped(document, operation), operation) == Stripped(document, operation)
  {
    var members, key, name := document.members, operation.section, operation.packageName;
    match Lookup(members, key)
    case Some(Object(section)) =>
      var rest := Delete(section, name);
      DeleteLookup(section, name, name);
      DeleteAbsent(rest, name);
      DeleteLookup(members, key, key);
      PutLookup(members, key, Object(rest), key);
      PutTwice(members, key, Object(rest), Object(rest));
    case _ =>
  }

  lemma {:induction false} LookupOnly(members: seq<Member>, key: JsString, value: Json)
    requires Member(key, value) in members && forall m | m in members && m.key == key :: m.value == value
    ensures Lookup(members, key) == Some(value)
  {
    if members[0].key != key {
      LookupOnly(members[1..], key, value);
    } else {
      assert members[0] in members;
    }
  }

  lemma {:induction false} SectionWithMembers(order: KeyOrder, section: seq<Member>, name: JsString, version: JsString)
    requires DistinctKeys(section)
    ensures forall m | m in SectionWith(order, section, name, version) ::
            m == Member(name, String(version)) || (m in section && m.key != name)
    ensures Lookup(SectionWith(order, section, name, version), name) == Some(String(version))
  {
    var put := Put(section, name, String(version));
    PutMembers(section, name, String(version));
    PutLookup(section, name, String(version), name);
    var i := LookupFinds(put, name);
    SortMembers(put, ByKey(Enumeration()));
    SortMembers(Enumerated(put), ByKey(order));
    SortMembers(Sort(Enumerated(put), ByKey(order)), ByKey(Enumeration()));
    LookupOnly(SectionWith(order, section, name, version), name, String(version));
  }

  /** Only one name npm allows is also a member every object inherits. */
  lemma {:induction false} InheritedPackageName(name: JsString)
    requires PackageName(name)
    ensures name in InheritedNames() <==> name == Units("constructor")
  {
    assert InheritedNames()[0] == Units("constructor");
    assert Units("hasOwnProperty")[3] == 79 && Units("isPrototypeOf")[2] == 80
        && Units("propertyIsEnumerable")[8] == 73;
    assert Units("toLocaleString")[2] == 76 && Units("toString")[2] == 83 && Units("valueOf")[5] == 79;
    assert Units("__proto__")[0] == 95 && Units("__defineGetter__")[0] == 95 && Units("__defineSetter__")[0] == 95;
    assert Units("__lookupGetter__")[0] == 95 && Units("__lookupSetter__")[0] == 95;
  }

  /** Some other dependency stays in the section. */
  predicate Leftover(document: Document, operation: Operation) {
    Rest(document, operation) != []
  }

  /** The one removal that cannot be confirmed. */
  predicate Unconfirmable(document: Document, operation: Operation) {
    operation.Remove? && operation.packageName == Units("constructor") && Leftover(document, operation)
  }

  /** A value set in a document is still found in its clone. */
  lemma {:induction false} CloneTarget(members: seq<Member>, section: seq<Member>, operation: Operation)
    requires operation.Set? && Lookup(members, operation.section) == Some(Object(section))
    requires Lookup(section, operation.packageName) == Some(String(operation.version))
    ensures TargetAsAsked(Clone(Object(members)), operation)
  {
    CloneObject(members);
    CloneLookup(members, operation.section);
    CloneObject(section);
    CloneLookup(section, operation.packageName);
  }

  lemma {:induction false} SetTarget(order: KeyOrder, document: Document, operation: Operation)
    requires Parsed(document) && operation.Set? && Mutated(order, document, operation).Some?
    ensures TargetAsAsked(Clone(Mutated(order, document, operation).value), operation)
  {
    var members, key, name := document.members, operation.section, operation.packageName;
    var found := Lookup(members, key);
    var current := if found.Some? then found.value.members else [];
    if found.Some? {
      SectionOf(document, key);
    }
    var section := SectionWith(order, current, name, operation.version);
    SectionWithMembers(order, current, name, operation.version);
    PutLookup(members, key, Object(section), key);
    CloneTarget(Put(members, key, Object(section)), section, operation);
  }

  lemma {:induction false} RemoveTarget(order: KeyOrder, document: Document, operation: Operation)
    requires operation.Remove? && Mutated(order, document, operation).Some?
    ensures TargetAsAsked(Clone(Mutated(order, document, operation).value), operation) <==>
            !Unconfirmable(document, operation)
  {
    var members, key, name := document.members, operation.section, operation.packageName;
    var after := Mutated(order, document, operation).value;
    RemoveStripped(order, document, operation);
    StrippedLookup(document, operation, key);
    CloneObject(after.members);
    CloneLookup(after.members, key);
    InheritedPackageName(name);
    var rest := Rest(document, operation);
    RestLookup(document, operation, name);
    CloneObject(rest);
    CloneLookup(rest, name);
  }

  /**
   What the program writes in the sandbox, where names are compared by `p`, passes the check of the worker, which
   compares them by `q`: if and only if the removal is not the one that cannot be confirmed and, for a dependency
   that is set, `p` leaves the other names in the order they had where `q` does not tell them apart.
   */
  lemma {:induction false} ChangeAccepted(p: KeyOrder, q: KeyOrder, document: Document, operation: Operation)
    requires TotalPreorder(p) && TotalPreorder(q) && Parsed(document) && Mutated(p, document, operation).Some?
    ensures Accepts(q, document, Clone(Mutated(p, document, operation).value), operation) <==>
            !Unconfirmable(document, operation) && (operation.Set? ==> TiesInOrderOf(p, q, Rest(document, operation)))
  {
    var after := Mutated(p, document, operation).value;
    AcceptsNormal(q, document, Clone(after), operation);
    CloneStripped(after, operation);
    CloneNormal(q, Stripped(after, operation));
    if operation.Set? {
      SetStripped(p, q, document, operation);
      SetTarget(p, document, operation);
    } else {
      RemoveStripped(p, document, operation);
      RemoveTarget(p, document, operation);
    }
  }

  /**
   With one comparison for both, ties or not, and with a worker whose comparison tells the names apart, only that
   removal fails.
   */
  lemma {:induction false} ChangeAcceptedAlike(p: KeyOrder, q: KeyOrder, document: Document, operation: Operation)
    requires TotalPreorder(p) && TotalPreorder(q) && Parsed(document) && Mutated(p, document, operation).Some?
    requires p == q || NamesApart(q, KeysOf(Rest(document, operation)))
    ensures Accepts(q, document, Clone(Mutated(p, document, operation).value), operation) <==>
            !Unconfirmable(document, operation)
  {
    ChangeAccepted(p, q, document, operation);
    var rest := Rest(document, operation);
    ParsedIsWellFormed(document);
    RestDistinct(document, operation);
    forall i, j | 0 <= i < j < |rest| && IsName(rest[i].key) && IsName(rest[j].key) && Tied(rest[i].key, rest[j].key, q)
      ensures p(rest[i].key, rest[j].key)
    {
      assert KeysOf(rest)[i] == rest[i].key && KeysOf(rest)[j] == rest[j].key;
    }
  }

  lemma {:induction false} SortedKeysDistinct(members: seq<Member>, order: KeyOrder)
    requires DistinctKeys(members)
    ensures DistinctKeys(Sort(members, ByKey(order)))
  {
    KeysSort(members, order);
    SortDistinct(KeysOf(members), order);
    var keys := KeysOf(Sort(members, ByKey(order)));
    forall i, j | 0 <= i < j < |members| ensures Sort(members, ByKey(order))[i].key !=
        Sort(members, ByKey(order))[j].key {
      assert keys[i] != keys[j];
    }
  }

  lemma {:induction false} SectionWithWellFormed(order: KeyOrder, section: seq<Member>, name: JsString,
      version: JsString)
    requires WellFormed(Object(section))
    ensures WellFormed(Object(SectionWith(order, section, name, version)))
  {
    var put := Put(section, name, String(version));
    PutMembers(section, name, String(version));
    SortedKeysDistinct(put, Enumeration());
    SortedKeysDistinct(Enumerated(put), order);
    SortedKeysDistinct(Sort(Enumerated(put), ByKey(order)), Enumeration());
    SectionWithMembers(order, section, name, version);
    var after := SectionWith(order, section, name, version);
    assert forall i | 0 <= i < |after| :: after[i] in after;
  }

  lemma {:induction false} MutatedWellFormed(order: KeyOrder, document: Document, operation: Operation)
    requires WellFormed(document) && Mutated(order, document, operation).Some?
    ensures WellFormed(Mutated(order, document, operation).value)
  {
    match operation
    case Set(key, name, version) =>
      var found := Lookup(document.members, key);
      if found.Some? {
        var i := LookupFinds(document.members, key);
        assert WellFormed(document.members[i].value);
      }
      var current := if found.Some? then found.value.members else [];
      SectionWithWellFormed(order, current, name, version);
      PutWellFormed(document.members, key, Object(SectionWith(order, current, name, version)));
    case Remove(_, _) =>
      RemoveStripped(order, document, operation);
      StrippedWellFormed(document, operation);
  }

  lemma {:induction false} CloneWellFormed(v: Json)
    requires WellFormed(v)
    ensures WellFormed(Clone(v))
    decreases v
  {
    match v
    case Array(items) =>
      forall i | 0 <= i < |items| ensures WellFormed(Clone(items[i])) {
        CloneWellFormed(items[i]);
      }
    case Object(members) =>
      forall i | 0 <= i < |members| ensures WellFormed(Clone(members[i].value)) {
        CloneWellFormed(members[i].value);
      }
    case _ =>
  }

  /** The document the program writes has the target as asked and everything else as it was, save for that removal. */
  lemma {:induction false} ChangeIsAsAsked(order: KeyOrder, document: Document, operation: Operation)
    requires TotalPreorder(order) && Parsed(document) && Mutated(order, document, operation).Some?
    ensures OnlyTheChange(document, Clone(Mutated(order, document, operation).value), operation) <==>
            !Unconfirmable(document, operation)
  {
    var after := Mutated(order, document, operation).value;
    ParsedIsWellFormed(document);
    MutatedWellFormed(order, document, operation);
    CloneWellFormed(after);
    ChangeAcceptedAlike(order, order, document, operation);
    AcceptsExactly(order, document, Clone(after), operation);
    if Unconfirmable(document, operation) {
      RemoveTarget(order, document, operation);
    }
  }

  /** Two names the worker ties and the sandbox puts the other way round make a correct change refused. */
  lemma {:induction false} ReorderedTieRefused(
    p: KeyOrder, q: KeyOrder, k: JsString, l: JsString, name: JsString, version: JsString)
        returns (document: Document, operation: Operation)
    requires TotalPreorder(p) && TotalPreorder(q) && IsName(k) && IsName(l) && Tied(k, l, q) && !p(k, l)
    requires name != k && name != l && PackageName(name) && version != []
    ensures Parsed(document) && Mutated(p, document, operation).Some?
    ensures OnlyTheChange(document, Clone(Mutated(p, document, operation).value), operation)
    ensures !Accepts(q, document, Clone(Mutated(p, document, operation).value), operation)
  {
    var section := [Member(k, String(version)), Member(l, String(version))];
    document := Object([Member(Units("dependencies"), Object(section))]);
    operation := Set(Units("dependencies"), name, version);
    assert p(k, k);
    assert Units("dependencies") == Sections()[0];
    assert Parsed(Object(section));
    assert section == [Member(k, String(version))] + [Member(l, String(version))];
    LookupCons(Member(k, String(version)), [Member(l, String(version))], name);
    LookupCons(Member(l, String(version)), [], name);
    DeleteAbsent(section, name);
    var rest := Rest(document, operation);
    assert rest == section && rest[0].key == k && rest[1].key == l;
    ChangeAccepted(p, q, document, operation);
    ChangeIsAsAsked(p, document, operation);
  }

  /** A validated document and a validated operation are always changed, and the result is validated again. */
  lemma {:induction false} ChangeKeepsValid(order: KeyOrder, patterns: Patterns, document: Document,
      operation: Operation)
    requires Parsed(document) && Validated(patterns, document) && ValidOperation(patterns, operation)
    ensures Mutated(order, document, operation).Some?
    ensures Validated(patterns, Clone(Mutated(order, document, operation).value))
  {
    var after := Mutated(order, document, operation).value;
    CloneObject(after.members);
    SectionNames(operation.section);
    forall name ensures Lookup(Clone(after).members, name) == CloneOption(if name == operation.section then
        Lookup(after.members, name) else Lookup(document.members, name)) {
      CloneLookup(after.members, name);
      ChangedElsewhere(order, document, operation, name);
    }
    forall name | name in Sections() + [Units("peerDependencies")]
      ensures ValidSection(patterns, Lookup(Clone(after).members, name))
    {
      assert ValidSection(patterns, Lookup(document.members, name));
      if name == operation.section {
        ChangedSectionValid(order, patterns, document, operation);
      }
      CloneValid(patterns, if name == operation.section then Lookup(after.members, name)
          else Lookup(document.members, name));
    }
  }

  lemma {:induction false} SectionNames(section: JsString)
    requires section in Sections()
    ensures section != Units("workspaces") && section != Units("overrides") && section != Units("bundleDependencies")
    ensures section != Units("bundledDependencies") && section != Units("packageManager")
  {
    assert |Units("workspaces")| == 10 && |Units("overrides")| == 9 && |Units("packageManager")| == 14;
    assert |Units("bundleDependencies")| == 18 && |Units("bundledDependencies")| == 19;
    assert |Units("dependencies")| == 12 && |Units("devDependencies")| == 15 && |Units("optionalDependencies")| == 20;
  }

  lemma {:induction false} ChangedElsewhere(order: KeyOrder, document: Document, operation: Operation, name: JsString)
    requires Mutated(order, document, operation).Some?
    ensures name != operation.section ==>
            Lookup(Mutated(order, document, operation).value.members, name) == Lookup(document.members, name)
  {
    match operation
    case Set(key, packageName, version) =>
      var found := Lookup(document.members, key);
      var current := if found.Some? then found.value.members else [];
      PutLookup(document.members, key, Object(SectionWith(order, current, packageName, version)), name);
    case Remove(_, _) =>
      RemoveStripped(order, document, operation);
      StrippedLookup(document, operation, name);
  }

  lemma {:induction false} ChangedSectionValid(order: KeyOrder, patterns: Patterns, document: Document,
      operation: Operation)
    requires Parsed(document) && ValidOperation(patterns, operation) && Mutated(order, document, operation).Some?
    requires ValidSection(patterns, Lookup(document.members, operation.section))
    ensures ValidSection(patterns, Lookup(Mutated(order, document, operation).value.members, operation.section))
  {
    var members, key, name := document.members, operation.section, operation.packageName;
    var found := Lookup(members, key);
    var current := if found.Some? then found.value.members else [];
    if found.Some? {
      SectionOf(document, key);
    }
    if operation.Set? {
      SectionWithMembers(order, current, name, operation.version);
      PutLookup(members, key, Object(SectionWith(order, current, name, operation.version)), key);
    } else {
      RemoveStripped(order, document, operation);
      StrippedLookup(document, operation, key);
      DeleteKeepsDistinct(current, name);
    }
  }

  lemma {:induction false} CloneValid(patterns: Patterns, section: Option<Json>)
    requires ValidSection(patterns, section)
    ensures ValidSection(patterns, CloneOption(section))
  {
    if section.Some? {
      var members := section.value.members;
      CloneObject(members);
      forall m | m in CloneMembers(members) ensures PackageName(m.key) && m.value.String?
          && patterns.version(m.value.text) {
        var i :| 0 <= i < |members| && CloneMembers(members)[i] == m;
        assert members[i] in members;
      }
    }
  }

  // Ties in the original

  lemma {:induction false} PutSame(members: seq<Member>, key: JsString, value: Json)
    requires Lookup(members, key) == Some(value)
    ensures Put(members, key, value) == members
  {
    if members[0].key != key {
      PutSame(members[1..], key, value);
      assert members == [members[0]] + members[1..];
    } else {
      assert members == [members[0]] + members[1..] && members[0] == Member(key, value);
    }
  }

  /** A document whose section has other dependencies and not the target, or is not there. */
  ghost predicate HasOnlyRest(document: Document, operation: Operation) {
    match Lookup(document.members, operation.section)
    case None => true
    case Some(section) =>
      section.Object? && section.members != [] && Lookup(section.members, operation.packageName).None?
  }

  /** Such a document is what is left when the target is set in it, or removed. */
  function WithTarget(document: Document, operation: Operation): Document {
    match operation
    case Remove(_, _) => document
    case Set(key, name, version) =>
      var found := Lookup(document.members, key);
      var section := if found.Some? && found.value.Object? then found.value.members else [];
      Object(Enumerated(Put(document.members, key, Object(Enumerated(Put(section, name, String(version)))))))
  }

  lemma {:induction false} EnumeratedDelete(members: seq<Member>, key: JsString)
    ensures Delete(Enumerated(members), key) == Enumerated(Delete(members, key))
  {
    EnumerationPreorder();
    ByKeyPreorder(Enumeration());
    FilterSort(members, ByKey(Enumeration()), Other(key));
  }

  lemma {:induction false} EnumeratedLookup(members: seq<Member>, key: JsString)
    requires DistinctKeys(members)
    ensures Lookup(Enumerated(members), key) == Lookup(members, key)
  {
    var after := Enumerated(members);
    SortMembers(members, ByKey(Enumeration()));
    SortedKeysDistinct(members, Enumeration());
    if Lookup(members, key).Some? {
      var i := LookupFinds(members, key);
      assert members[i] in after;
      var j :| 0 <= j < |after| && after[j] == members[i];
      LookupMember(after, j);
    } else if Lookup(after, key).Some? {
      var j := LookupFinds(after, key);
      assert after[j] in members;
      var i :| 0 <= i < |members| && members[i] == after[j];
      LookupMember(members, i);
    }
  }

  lemma {:induction false} PutParsed(members: seq<Member>, key: JsString, value: Json)
    requires Parsed(Object(members)) && Parsed(value)
    ensures Parsed(Object(Enumerated(Put(members, key, value))))
  {
    var put := Put(members, key, value);
    PutMembers(members, key, value);
    SortedKeysDistinct(put, Enumeration());
    EnumerationPreorder();
    ByKeyPreorder(Enumeration());
    SortSorts(put, ByKey(Enumeration()));
    SortMembers(put, ByKey(Enumeration()));
    assert forall i | 0 <= i < |Enumerated(put)| :: Enumerated(put)[i] in Enumerated(put);
  }

  lemma {:induction false} PutDeleted(members: seq<Member>, key: JsString, value: Json)
    requires InPropertyOrder(members)
    ensures Delete(Enumerated(Put(members, key, value)), key) == Delete(members, key)
  {
    EnumeratedDelete(Put(members, key, value), key);
    DeletePut(members, key, value);
    DeleteInOrder(members, key);
    SortKeepsSorted(Delete(members, key), ByKey(Enumeration()));
  }

  lemma {:induction false} PutFound(members: seq<Member>, key: JsString, value: Json)
    requires InPropertyOrder(members)
    ensures Lookup(Enumerated(Put(members, key, value)), key) == Some(value)
    ensures Lookup(members, key).Some? ==> Enumerated(Put(members, key, value)) == Put(members, key, value)
  {
    PutMembers(members, key, value);
    PutLookup(members, key, value, key);
    EnumeratedLookup(Put(members, key, value), key);
    if Lookup(members, key).Some? {
      PutInPlace(members, key, value);
      SameKeysInOrder(members, Put(members, key, value));
      SortKeepsSorted(Put(members, key, value), ByKey(Enumeration()));
    }
  }

  /** A dependency put in place is found there, and taken out again it leaves the section as it was. */
  lemma {:induction false} PutInOrder(members: seq<Member>, key: JsString, value: Json)
    requires Parsed(Object(members)) && Parsed(value)
    ensures Parsed(Object(Enumerated(Put(members, key, value))))
    ensures Lookup(Enumerated(Put(members, key, value)), key) == Some(value)
    ensures Delete(Enumerated(Put(members, key, value)), key) == Delete(members, key)
    ensures Lookup(members, key).Some? ==> Enumerated(Put(members, key, value)) == Put(members, key, value)
  {
    PutParsed(members, key, value);
    PutDeleted(members, key, value);
    PutFound(members, key, value);
  }

  lemma {:induction false} StrippedWithTarget(document: Document, operation: Operation)
    requires Parsed(document) && HasOnlyRest(document, operation)
    ensures Stripped(WithTarget(document, operation), operation) == document
  {
    var members, key, name := document.members, operation.section, operation.packageName;
    match Lookup(members, key)
    case None =>
      if operation.Set? {
        var section := Object(Enumerated(Put([], name, String(operation.version))));
        PutInOrder([], name, String(operation.version));
        PutInOrder(members, key, section);
        DeleteAbsent(members, key);
      }
    case Some(section) =>
      DeleteAbsent(section.members, name);
      PutSame(members, key, section);
      if operation.Set? {
        var after := Enumerated(Put(section.members, name, String(operation.version)));
        SectionOf(document, key);
        PutInOrder(section.members, name, String(operation.version));
        PutInOrder(members, key, Object(after));
        StrippedPut(members, after, operation);
      }
  }

  lemma {:induction false} WithTargetAsAsked(document: Document, operation: Operation)
    requires Parsed(document) && HasOnlyRest(document, operation)
    requires operation.Remove? && Lookup(document.members, operation.section).Some? ==>
             operation.packageName !in InheritedNames()
    ensures Parsed(WithTarget(document, operation)) && TargetAsAsked(WithTarget(document, operation), operation)
  {
    if operation.Set? {
      var found := Lookup(document.members, operation.section);
      var section := if found.Some? && found.value.Object? then found.value.members else [];
      if found.Some? {
        SectionOf(document, operation.section);
      }
      PutInOrder(section, operation.packageName, String(operation.version));
      PutInOrder(document.members, operation.section,
          Object(Enumerated(Put(section, operation.packageName, String(operation.version)))));
    }
  }

  /** What equals a stripped document has only the rest of its section too. */
  lemma {:induction false} RestCarriesOver(original: Document, operation: Operation, rest: Document)
    requires Parsed(original) && PlainSection(original, operation.section) && Parsed(rest)
    requires Same(Stripped(original, operation), rest)
    ensures HasOnlyRest(rest, operation)
    ensures Lookup(rest.members, operation.section).Some? ==> Rest(original, operation) != []
  {
    var key, name := operation.section, operation.packageName;
    ParsedIsWellFormed(original);
    ParsedIsWellFormed(rest);
    StrippedWellFormed(original, operation);
    SameLooksUp(Stripped(original, operation).members, rest.members, key);
    StrippedLookup(original, operation, key);
    var found := Lookup(rest.members, key);
    if found.Some? {
      var i := LookupFinds(rest.members, key);
      assert WellFormed(found.value);
      RestDistinct(original, operation);
      SameLooksUp(Rest(original, operation), found.value.members, name);
      RestLookup(original, operation, name);
      var first := Rest(original, operation)[0].key;
      SameLooksUp(Rest(original, operation), found.value.members, first);
    }
  }

  /**
   For an original whose section is plain, and save for the removal that can never be confirmed, the check
   accepts every document with only the change if and only if no two names tie in what is left of the original.
   */
  lemma {:induction false} AcceptsAllExactly(order: KeyOrder, original: Document, operation: Operation)
    requires TotalPreorder(order) && Parsed(original) && PlainSection(original, operation.section)
    requires operation.Remove? && Rest(original, operation) != [] ==> operation.packageName !in InheritedNames()
    ensures (forall materialized: Document | Parsed(materialized) ::
               OnlyTheChange(original, materialized, operation) ==> Accepts(order, original, materialized, operation))
            <==> Untied(order, Stripped(original, operation))
  {
    var left := Stripped(original, operation);
    StrippedParsed(original, operation);
    if Untied(order, left) {
      forall materialized: Document | Parsed(materialized) && OnlyTheChange(original, materialized, operation)
        ensures Accepts(order, original, materialized, operation)
      {
        ParsedIsWellFormed(original);
        ParsedIsWellFormed(materialized);
        AcceptsExactly(order, original, materialized, operation);
      }
    } else {
      var materialized := TiedRefused(order, original, operation);
    }
  }

  lemma {:induction false} TiedRefused(order: KeyOrder, original: Document, operation: Operation)
      returns (materialized: Document)
    requires TotalPreorder(order) && Parsed(original) && PlainSection(original, operation.section)
    requires operation.Remove? && Rest(original, operation) != [] ==> operation.packageName !in InheritedNames()
    requires !Untied(order, Stripped(original, operation))
    ensures Parsed(materialized) && OnlyTheChange(original, materialized, operation)
            && !Accepts(order, original, materialized, operation)
  {
    StrippedParsed(original, operation);
    var rest := TiedPrintsApart(order, Stripped(original, operation));
    RestCarriesOver(original, operation, rest);
    materialized := WithTarget(rest, operation);
    StrippedWithTarget(rest, operation);
    WithTargetAsAsked(rest, operation);
    ParsedIsWellFormed(original);
    ParsedIsWellFormed(materialized);
    StrippedSame(original, materialized, operation);
    AcceptsNormal(order, original, materialized, operation);
  }
}

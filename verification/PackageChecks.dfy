/** What the check of a package.json and of an operation on it accepts, apart from the way it is read. */
module PackageChecks {
  import opened Common
  import opened Json
  import opened CanonicalJson
  import opened PackageJson
  import opened PackageChange

  predicate Letter(u: Unit) {
    'a' as int <= u <= 'z' as int || '0' as int <= u <= '9' as int
  }

  /** Letters, digits, dots, dashes and underscores, with a letter or digit in front. */
  predicate IsPlain(s: JsString) {
    && s != [] && Letter(s[0])
    && forall u | u in s :: Letter(u) || u == '.' as int || u == '-' as int || u == '_' as int
  }

  /** A plain name, or two of them behind an at sign and with a slash between them. */
  ghost predicate IsNpmName(s: JsString) {
    || IsPlain(s)
    || exists owner, name {:trigger IsPlain(owner), IsPlain(name)} ::
         IsPlain(owner) && IsPlain(name) && s == Scoped(owner, name)
  }

  lemma {:induction false} PlainExactly(s: JsString)
    ensures PlainName(s) <==> IsPlain(s)
  {
    if IsPlain(s) {
      assert forall i | 0 <= i < |s| :: s[i] in s;
    }
  }

  /** An owner and a name, put together. */
  function Scoped(owner: JsString, name: JsString): JsString {
    ['@' as int] + owner + ['/' as int] + name
  }

  lemma {:induction false} ScopedParts(owner: JsString, name: JsString)
    ensures var s, i := Scoped(owner, name), 1 + |owner|;
            i < |s| && s[0] == 64 && s[i] == 47 && s[1..i] == owner && s[i + 1..] == name
  {}

  lemma {:induction false} ScopedCut(s: JsString, i: nat)
    requires 1 <= i < |s| && s[0] == 64 && s[i] == 47
    ensures s == Scoped(s[1..i], s[i + 1..])
  {}

  lemma {:induction false} ScopeRead(s: JsString, i: nat)
    requires 1 <= i < |s| && s[0] == 64 && s[i] == 47 && PlainName(s[1..i]) && PlainName(s[i + 1..])
    ensures IsNpmName(s)
  {
    ScopedCut(s, i);
    var owner, name := s[1..i], s[i + 1..];
    PlainExactly(owner);
    PlainExactly(name);
    assert IsPlain(owner) && IsPlain(name);
  }

  lemma {:induction false} NameRead(s: JsString)
    requires PackageName(s)
    ensures IsNpmName(s)
  {
    if PlainName(s) {
      PlainExactly(s);
    } else {
      var i :| 1 <= i < |s| && s[i] == 47 && PlainName(s[1..i]) && PlainName(s[i + 1..]);
      ScopeRead(s, i);
    }
  }

  lemma {:induction false} NameWritten(s: JsString)
    requires IsNpmName(s)
    ensures PackageName(s)
  {
    PlainExactly(s);
    if !IsPlain(s) {
      var owner, name :| IsPlain(owner) && IsPlain(name) && s == Scoped(owner, name);
      ScopedParts(owner, name);
      PlainExactly(owner);
      PlainExactly(name);
    }
  }

  lemma {:induction false} NameExactly(s: JsString)
    ensures PackageName(s) <==> IsNpmName(s)
  {
    if PackageName(s) {
      NameRead(s);
    }
    if IsNpmName(s) {
      NameWritten(s);
    }
  }

  /** Dependencies by name, each with a version. */
  ghost predicate IsSection(patterns: Patterns, section: Json) {
    && section.Object?
    && forall m | m in section.members :: IsNpmName(m.key) && m.value.String? && patterns.version(m.value.text)
  }

  /** A package.json the service works on: no member it cannot keep consistent, and sections of dependencies. */
  ghost predicate IsSupported(patterns: Patterns, document: Document) {
    && (forall m | m in document.members ::
         m.key !in [Units("workspaces"), Units("overrides"), Units("bundleDependencies"), Units("bundledDependencies")])
    && (forall m | m in document.members && m.key == Units("packageManager") ::
         m.value.String? && patterns.packageManager(m.value.text))
    && (forall m | m in document.members
         && m.key in [Units("dependencies"), Units("devDependencies"), Units("optionalDependencies"),
                      Units("peerDependencies")] ::
         IsSection(patterns, m.value))
  }

  lemma {:induction false} SectionExactly(patterns: Patterns, members: seq<Member>, key: JsString)
    requires DistinctKeys(members)
    ensures ValidSection(patterns, Lookup(members, key)) <==>
            forall m | m in members && m.key == key :: IsSection(patterns, m.value)
  {
    forall v ensures Lookup(members, key) == Some(v) <==> Member(key, v) in members {
      LookupExactly(members, key, v);
    }
    forall name ensures PackageName(name) <==> IsNpmName(name) {
      NameExactly(name);
    }
    if Lookup(members, key).Some? {
      assert Member(key, Lookup(members, key).value) in members;
    }
    forall m | m in members && m.key == key ensures Lookup(members, key) == Some(m.value) {
      assert m == Member(key, m.value);
    }
  }

  lemma {:induction false} AbsentExactly(members: seq<Member>, key: JsString)
    ensures Lookup(members, key).None? <==> forall m | m in members :: m.key != key
  {
    if members != [] {
      AbsentExactly(members[1..], key);
      assert members == [members[0]] + members[1..];
    }
  }

  /** The check of a document before it is changed, without the way it is read. */
  lemma {:induction false} ValidatedExactly(patterns: Patterns, document: Document)
    requires WellFormed(document)
    ensures Validated(patterns, document) <==> IsSupported(patterns, document)
  {
    var members := document.members;
    AbsentExactly(members, Units("workspaces"));
    AbsentExactly(members, Units("overrides"));
    AbsentExactly(members, Units("bundleDependencies"));
    AbsentExactly(members, Units("bundledDependencies"));
    ManagerExactly(patterns, members);
    SectionExactly(patterns, members, Units("dependencies"));
    SectionExactly(patterns, members, Units("devDependencies"));
    SectionExactly(patterns, members, Units("optionalDependencies"));
    SectionExactly(patterns, members, Units("peerDependencies"));
  }

  lemma {:induction false} ManagerExactly(patterns: Patterns, members: seq<Member>)
    requires DistinctKeys(members)
    ensures var manager := Lookup(members, Units("packageManager"));
            (manager.Some? ==> manager.value.String? && patterns.packageManager(manager.value.text)) <==>
            forall m | m in members && m.key == Units("packageManager") ::
              m.value.String? && patterns.packageManager(m.value.text)
  {
    var key := Units("packageManager");
    if Lookup(members, key).Some? {
      LookupExactly(members, key, Lookup(members, key).value);
    }
    forall m | m in members && m.key == key ensures Lookup(members, key) == Some(m.value) {
      LookupExactly(members, key, m.value);
      assert m == Member(key, m.value);
    }
  }

  /**
   When the program throws: for another section, a name npm does not allow, a section that is no object, or no version.
   */
  lemma {:induction false} ThrowsExactly(order: KeyOrder, document: Document, operation: Operation)
    requires WellFormed(document)
    ensures Mutated(order, document, operation).None? <==>
            || operation.section !in
               [Units("dependencies"), Units("devDependencies"), Units("optionalDependencies")]
            || !IsNpmName(operation.packageName)
            || (exists v :: Member(operation.section, v) in document.members && !v.Object?)
            || (operation.Set? && operation.version == [])
  {
    NameExactly(operation.packageName);
    forall v ensures Lookup(document.members, operation.section) == Some(v) <==>
        Member(operation.section, v) in document.members {
      LookupExactly(document.members, operation.section, v);
    }
  }
}

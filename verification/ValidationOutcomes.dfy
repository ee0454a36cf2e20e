/**
 The classifier of validation runs, the only place a run is called verified, and exactly when it does so: required ids
 and attested ids have to sort alike.
 */
module ValidationOutcomes {
  import opened Common
  import opened Sorting
  import opened Json
  import CanonicalJson

  datatype Cleanup = Deleted | CleanupFailed

  datatype Outcome =
    | Passed | ProjectOrCandidateFailed | UnsupportedTargetOrCapability | TimedOut | SecurityBlocked
    | InfrastructureFailed | ResourceBudgetFailed | Inconclusive

  datatype TargetResult = TargetResult(cleanup: Cleanup, outcome: Outcome, targetDigest: JsString, targetId: JsString)

  datatype Target = Target(targetDigest: JsString, targetId: JsString)

  datatype Attestation = Attestation(
    attestationDigest: JsString, behaviorContractDigest: JsString, candidatePatchDigest: JsString, isFresh: bool,
    policyDigest: JsString, sourceInputDigest: JsString, targets: seq<Target>)

  datatype Facts = Facts(
    acceptedBehaviorContract: bool, attestation: Option<Attestation>, behaviorContractDigest: JsString,
    candidatePatchDigest: JsString, policyDigest: JsString, requiredTargetIds: seq<JsString>,
    sourceDigest: JsString, sourceFresh: bool, targetResults: seq<TargetResult>)

  datatype Status =
    | StatusProjectOrCandidateFailed | StatusUnsupported | StatusTimedOut | StatusSecurityBlocked
    | StatusInfrastructureFailed | StatusResourceBudgetFailed | StatusInconclusive | StatusCleanupFailed

  datatype Reason =
    | AttestationBindingMismatch | AttestationMissing | AttestationStale | BehaviorContractMissing | CleanupNotConfirmed
    | NoRequiredTargets | RequiredTargetMissing | SourceStale | TargetFailed(outcome: Outcome)

  datatype Verdict =
    | NotVerified(status: Status, reason: Reason, affectedTargetIds: seq<JsString>)
    | Verified(attestationDigest: JsString, verifiedTargetIds: seq<JsString>)

  datatype FactsError = InvalidDigest | InvalidTargetIdentity | UnknownTargetResult

  // Orders

  /** The default order of `sort`: code unit by code unit, a prefix first. */
  predicate CodeUnitLeq(a: JsString, b: JsString) {
    a == [] || (b != [] && (a[0] < b[0] || (a[0] == b[0] && CodeUnitLeq(a[1..], b[1..]))))
  }

  function CodeUnits(): CanonicalJson.KeyOrder {
    (a: JsString, b: JsString) => CodeUnitLeq(a, b)
  }

  lemma {:induction false} CodeUnitTotal(a: JsString, b: JsString)
    ensures CodeUnitLeq(a, b) || CodeUnitLeq(b, a)
  {
    if a != [] && b != [] {
      CodeUnitTotal(a[1..], b[1..]);
    }
  }

  lemma {:induction false} CodeUnitTransitive(a: JsString, b: JsString, c: JsString)
    requires CodeUnitLeq(a, b) && CodeUnitLeq(b, c)
    ensures CodeUnitLeq(a, c)
  {
    if a != [] && a[0] == b[0] == c[0] {
      CodeUnitTransitive(a[1..], b[1..], c[1..]);
    }
  }

  lemma {:induction false} CodeUnitAntisymmetric(a: JsString, b: JsString)
    requires CodeUnitLeq(a, b) && CodeUnitLeq(b, a)
    ensures a == b
  {
    if a != [] {
      CodeUnitAntisymmetric(a[1..], b[1..]);
      assert a == [a[0]] + a[1..] && b == [b[0]] + b[1..];
    }
  }

  lemma {:induction false} CodeUnitsTotalOrder()
    ensures TotalOrder(CodeUnits())
  {
    forall a: JsString, b: JsString ensures CodeUnits()(a, b) || CodeUnits()(b, a) {
      CodeUnitTotal(a, b);
    }
    forall a: JsString, b: JsString, c: JsString | CodeUnits()(a, b) && CodeUnits()(b, c) ensures CodeUnits()(a, c) {
      CodeUnitTransitive(a, b, c);
    }
    forall a: JsString, b: JsString | CodeUnits()(a, b) && CodeUnits()(b, a) ensures a == b {
      CodeUnitAntisymmetric(a, b);
    }
  }

  // Facts

  predicate IsDigest(value: JsString) {
    && |value| == 71 && value[..7] == Units("sha256:")
    && forall i | 7 <= i < 71 :: 48 <= value[i] < 58 || 97 <= value[i] < 103
  }

  predicate Space(u: Unit) {
    9 <= u <= 13 || u in {32, 0xA0, 0x1680, 0x2028, 0x2029, 0x202F, 0x205F, 0x3000, 0xFEFF} || 0x2000 <= u <= 0x200A
  }

  /** `trim` leaves nothing. */
  predicate Blank(value: JsString) {
    forall u | u in value :: Space(u)
  }

  function IdsOf(targets: seq<Target>): (ids: seq<JsString>)
    ensures |ids| == |targets|
  {
    seq(|targets|, i requires 0 <= i < |targets| => targets[i].targetId)
  }

  function ResultIds(results: seq<TargetResult>): (ids: seq<JsString>)
    ensures |ids| == |results|
  {
    seq(|results|, i requires 0 <= i < |results| => results[i].targetId)
  }

  function AttestedTargets(facts: Facts): seq<Target> {
    if facts.attestation.Some? then facts.attestation.value.targets else []
  }

  /** `new Set(ids).size === ids.length`. */
  predicate NoRepeats(ids: seq<JsString>) {
    |set id | id in ids| == |ids|
  }

  predicate AttestationDigestsValid(a: Attestation) {
    && IsDigest(a.attestationDigest) && IsDigest(a.sourceInputDigest) && IsDigest(a.candidatePatchDigest)
    && IsDigest(a.behaviorContractDigest) && IsDigest(a.policyDigest)
    && forall t | t in a.targets :: IsDigest(t.targetDigest)
  }

  predicate DigestsValid(facts: Facts) {
    && IsDigest(facts.sourceDigest) && IsDigest(facts.candidatePatchDigest)
    && IsDigest(facts.behaviorContractDigest) && IsDigest(facts.policyDigest)
    && (forall r | r in facts.targetResults :: IsDigest(r.targetDigest))
    && (facts.attestation.Some? ==> AttestationDigestsValid(facts.attestation.value))
  }

  predicate IdentitiesValid(facts: Facts) {
    && (forall id | id in facts.requiredTargetIds :: !Blank(id))
    && (forall id | id in ResultIds(facts.targetResults) :: !Blank(id))
    && (forall id | id in IdsOf(AttestedTargets(facts)) :: !Blank(id))
    && NoRepeats(facts.requiredTargetIds) && NoRepeats(ResultIds(facts.targetResults))
       && NoRepeats(IdsOf(AttestedTargets(facts)))
  }

  function FactsFault(facts: Facts): Option<FactsError> {
    if !DigestsValid(facts) then Some(InvalidDigest)
    else if !IdentitiesValid(facts) then Some(InvalidTargetIdentity)
    else if exists id | id in ResultIds(facts.targetResults) :: id !in facts.requiredTargetIds then
      Some(UnknownTargetResult)
    else None
  }

  // The classifier

  function ResultsByTarget(results: seq<TargetResult>): map<JsString, TargetResult> {
    if results == [] then map[] else
    var last := results[|results| - 1];
    ResultsByTarget(results[..|results| - 1])[last.targetId := last]
  }

  /** Which failure is reported when targets fail in different ways. */
  function Priority(): seq<Outcome> {
    [SecurityBlocked, UnsupportedTargetOrCapability, ResourceBudgetFailed, TimedOut, InfrastructureFailed,
        ProjectOrCandidateFailed, Inconclusive]
  }

  function WithOutcome(ids: seq<JsString>, results: map<JsString, TargetResult>, outcome: Outcome): seq<JsString> {
    Filter(ids, (id: JsString) => id in results && results[id].outcome == outcome)
  }

  function FirstFailure(ids: seq<JsString>, results: map<JsString, TargetResult>,
      outcomes: seq<Outcome>): Option<(Outcome, seq<JsString>)> {
    if outcomes == [] then None
    else if WithOutcome(ids, results, outcomes[0]) != [] then
      Some((outcomes[0], WithOutcome(ids, results, outcomes[0])))
    else FirstFailure(ids, results, outcomes[1..])
  }

  function StatusOf(outcome: Outcome): Status {
    match outcome
    case SecurityBlocked => StatusSecurityBlocked
    case UnsupportedTargetOrCapability => StatusUnsupported
    case ResourceBudgetFailed => StatusResourceBudgetFailed
    case TimedOut => StatusTimedOut
    case InfrastructureFailed => StatusInfrastructureFailed
    case ProjectOrCandidateFailed => StatusProjectOrCandidateFailed
    case _ => StatusInconclusive
  }

  function Refused(status: Status, reason: Reason, ids: seq<JsString>): Verdict {
    NotVerified(status, reason, Sort(ids, CodeUnits()))
  }

  function ById(locale: CanonicalJson.KeyOrder): (Target, Target) -> bool {
    (left: Target, right: Target) => locale(left.targetId, right.targetId)
  }

  predicate BindingsMatch(facts: Facts, a: Attestation) {
    && a.sourceInputDigest == facts.sourceDigest && a.candidatePatchDigest == facts.candidatePatchDigest
    && a.behaviorContractDigest == facts.behaviorContractDigest && a.policyDigest == facts.policyDigest
  }

  predicate AttestationMatches(locale: CanonicalJson.KeyOrder, facts: Facts, a: Attestation,
      requiredIds: seq<JsString>) {
    && BindingsMatch(facts, a)
    && var attested := Sort(a.targets, ById(locale));
       var results := ResultsByTarget(facts.targetResults);
       && |attested| == |requiredIds|
       && (forall i | 0 <= i < |attested| :: attested[i].targetId == requiredIds[i])
       && forall t | t in attested :: t.targetId in results && results[t.targetId].targetDigest == t.targetDigest
  }

  /** The verdict of the checks that come before the attestation, if one of them refuses the run. */
  function BeforeAttestation(facts: Facts, ids: seq<JsString>, results: map<JsString, TargetResult>): Option<Verdict> {
    if ids == [] then Some(Refused(StatusInconclusive, NoRequiredTargets, [])) else
    var missing := Filter(ids, (id: JsString) => id !in results);
    if missing != [] then Some(Refused(StatusInconclusive, RequiredTargetMissing, missing)) else
    var uncleaned := Filter(ids, (id: JsString) => id !in results || results[id].cleanup != Deleted);
    if uncleaned != [] then Some(Refused(StatusCleanupFailed, CleanupNotConfirmed, uncleaned))
    else if !facts.acceptedBehaviorContract then Some(Refused(StatusInconclusive, BehaviorContractMissing, ids))
    else if !facts.sourceFresh then Some(Refused(StatusInconclusive, SourceStale, ids))
    else
      match FirstFailure(ids, results, Priority())
      case Some((outcome, affected)) => Some(Refused(StatusOf(outcome), TargetFailed(outcome), affected))
      case None => None
  }

  function ByAttestation(locale: CanonicalJson.KeyOrder, facts: Facts, ids: seq<JsString>): Verdict {
    if facts.attestation.None? then Refused(StatusInconclusive, AttestationMissing, ids)
    else if !facts.attestation.value.isFresh then Refused(StatusInconclusive, AttestationStale, ids)
    else if !AttestationMatches(locale, facts, facts.attestation.value, ids) then
      Refused(StatusInconclusive, AttestationBindingMismatch, ids)
    else Verified(facts.attestation.value.attestationDigest, ids)
  }

  function Classify(locale: CanonicalJson.KeyOrder, facts: Facts): Result<Verdict, FactsError> {
    if FactsFault(facts).Some? then Err(FactsFault(facts).value) else
    var ids := Sort(facts.requiredTargetIds, CodeUnits());
    match BeforeAttestation(facts, ids, ResultsByTarget(facts.targetResults))
    case Some(verdict) => Ok(verdict)
    case None => Ok(ByAttestation(locale, facts, ids))
  }

  // What verified means

  /** Every required target has a result that says its environment is gone and it passed. */
  ghost predicate AllPassed(facts: Facts) {
    forall id | id in facts.requiredTargetIds ::
      exists r :: r in facts.targetResults && r.targetId == id && r.cleanup == Deleted && r.outcome == Passed
  }

  /**
   The attestation was made for these inputs and names exactly the required targets, each under the digest of its
   result.
   */
  ghost predicate Attests(facts: Facts, a: Attestation) {
    && a.sourceInputDigest == facts.sourceDigest && a.candidatePatchDigest == facts.candidatePatchDigest
    && a.behaviorContractDigest == facts.behaviorContractDigest && a.policyDigest == facts.policyDigest
    && (forall id :: id in IdsOf(a.targets) <==> id in facts.requiredTargetIds)
    && forall t | t in a.targets :: exists r ::
       r in facts.targetResults && r.targetId == t.targetId && r.targetDigest == t.targetDigest
  }

  /** All the facts a verified run is supposed to have; no list order comes into it. */
  ghost predicate Complete(facts: Facts) {
    && FactsFault(facts).None? && facts.requiredTargetIds != [] && facts.acceptedBehaviorContract && facts.sourceFresh
    && AllPassed(facts)
    && facts.attestation.Some? && facts.attestation.value.isFresh && Attests(facts, facts.attestation.value)
  }

  /** The two ways of sorting put the ids in one order. */
  predicate SortsIdsAlike(locale: CanonicalJson.KeyOrder, facts: Facts) {
    Sort(IdsOf(AttestedTargets(facts)), locale) == Sort(facts.requiredTargetIds, CodeUnits())
  }

  lemma {:induction false} SetOneMore(x: JsString, rest: seq<JsString>)
    ensures (set id | id in [x] + rest) == {x} + set id | id in rest
  {}

  lemma {:induction false} SetAtMost(ids: seq<JsString>)
    ensures |set id | id in ids| <= |ids|
  {
    if ids != [] {
      assert ids == [ids[0]] + ids[1..];
      SetAtMost(ids[1..]);
      SetOneMore(ids[0], ids[1..]);
    }
  }

  lemma {:induction false} NoRepeatsStep(x: JsString, rest: seq<JsString>)
    ensures NoRepeats([x] + rest) <==> x !in rest && NoRepeats(rest)
  {
    var later := set id | id in rest;
    SetOneMore(x, rest);
    SetAtMost(rest);
    if x in rest {
      assert {x} + later == later;
    } else {
      assert |{x} + later| == 1 + |later|;
    }
  }

  lemma {:induction false} DistinctStep(x: JsString, rest: seq<JsString>)
    ensures Distinct([x] + rest) <==> x !in rest && Distinct(rest)
  {
    var ids := [x] + rest;
    assert forall j | 0 <= j < |rest| :: ids[j + 1] == rest[j];
    if x !in rest && Distinct(rest) {
      forall i, j | 0 <= i < j < |ids| ensures ids[i] != ids[j] {
        assert ids[j] == rest[j - 1];
      }
    }
    if Distinct(ids) {
      forall j | 0 <= j < |rest| ensures rest[j] != x {
        assert ids[0] != ids[j + 1];
      }
      forall i, j | 0 <= i < j < |rest| ensures rest[i] != rest[j] {
        assert ids[i + 1] != ids[j + 1];
      }
    }
  }

  /** A set as large as the list means that no id occurs twice. */
  lemma {:induction false} NoRepeatsMeaning(ids: seq<JsString>)
    ensures NoRepeats(ids) <==> Distinct(ids)
  {
    if ids != [] {
      assert ids == [ids[0]] + ids[1..];
      NoRepeatsStep(ids[0], ids[1..]);
      DistinctStep(ids[0], ids[1..]);
      NoRepeatsMeaning(ids[1..]);
    }
  }

  lemma {:induction false} DistinctFront(results: seq<TargetResult>)
    requires results != [] && NoRepeats(ResultIds(results))
    ensures NoRepeats(ResultIds(results[..|results| - 1]))
            && results[|results| - 1].targetId !in ResultIds(results[..|results| - 1])
  {
    var front := results[..|results| - 1];
    NoRepeatsMeaning(ResultIds(results));
    NoRepeatsMeaning(ResultIds(front));
    assert forall i | 0 <= i < |front| :: ResultIds(front)[i] == ResultIds(results)[i];
    assert ResultIds(results)[|front|] == results[|front|].targetId;
  }

  /** With distinct ids the map holds each result under its id. */
  lemma {:induction false} ResultsMeaning(results: seq<TargetResult>, id: JsString, r: TargetResult)
    requires NoRepeats(ResultIds(results))
    ensures id in ResultsByTarget(results) && ResultsByTarget(results)[id] == r <==> r in results && r.targetId == id
  {
    if results != [] {
      var front, last := results[..|results| - 1], results[|results| - 1];
      DistinctFront(results);
      ResultsMeaning(front, id, r);
      assert results == front + [last];
      assert forall i | 0 <= i < |front| ::
          ResultIds(front)[i] == front[i].targetId && ResultIds(front)[i] in ResultIds(front);
    }
  }

  lemma {:induction false} FilterEmpty(ids: seq<JsString>, keep: JsString -> bool)
    ensures Filter(ids, keep) == [] <==> forall id | id in ids :: !keep(id)
  {
    forall id ensures id in Filter(ids, keep) <==> id in ids && keep(id) {
      FilterMember(ids, keep, id);
    }
    if Filter(ids, keep) != [] {
      assert Filter(ids, keep)[0] in Filter(ids, keep);
    }
  }

  lemma {:induction false} WithOutcomeEmpty(ids: seq<JsString>, results: map<JsString, TargetResult>, outcome: Outcome)
    ensures WithOutcome(ids, results, outcome) == [] <==> forall id | id in ids ::
            !(id in results && results[id].outcome == outcome)
  {
    FilterEmpty(ids, (id: JsString) => id in results && results[id].outcome == outcome);
  }

  lemma {:induction false} NoFailure(ids: seq<JsString>, results: map<JsString, TargetResult>, outcomes: seq<Outcome>)
    ensures FirstFailure(ids, results, outcomes).None? <==> forall o | o in outcomes ::
            WithOutcome(ids, results, o) == []
  {
    if outcomes != [] {
      assert outcomes == [outcomes[0]] + outcomes[1..];
      NoFailure(ids, results, outcomes[1..]);
    }
  }

  lemma EveryFailureListed(outcome: Outcome)
    ensures outcome in Priority() <==> outcome != Passed
  {
    assert Priority()[0] == SecurityBlocked && Priority()[1] == UnsupportedTargetOrCapability
        && Priority()[2] == ResourceBudgetFailed;
    assert Priority()[3] == TimedOut && Priority()[4] == InfrastructureFailed
        && Priority()[5] == ProjectOrCandidateFailed;
    assert Priority()[6] == Inconclusive;
  }

  lemma {:induction false} IdsInsert(t: Target, sorted: seq<Target>, locale: CanonicalJson.KeyOrder)
    ensures IdsOf(Insert(t, sorted, ById(locale))) == Insert(t.targetId, IdsOf(sorted), locale)
  {
    assert IdsOf([t] + sorted) == [t.targetId] + IdsOf(sorted);
    if sorted != [] && !locale(t.targetId, sorted[0].targetId) {
      IdsInsert(t, sorted[1..], locale);
      assert IdsOf(sorted)[1..] == IdsOf(sorted[1..]);
      assert IdsOf([sorted[0]] + Insert(t, sorted[1..], ById(locale))) == [sorted[0].targetId]
          + IdsOf(Insert(t, sorted[1..], ById(locale)));
    }
  }

  lemma {:induction false} IdsSort(targets: seq<Target>, locale: CanonicalJson.KeyOrder)
    ensures IdsOf(Sort(targets, ById(locale))) == Sort(IdsOf(targets), locale)
  {
    if targets != [] {
      IdsSort(targets[1..], locale);
      IdsInsert(targets[0], Sort(targets[1..], ById(locale)), locale);
      assert IdsOf(targets)[1..] == IdsOf(targets[1..]);
    }
  }

  /** An attestation matches when its ids sort to the required ones and each digest is that of the result. */
  lemma {:induction false} MatchesMeaning(locale: CanonicalJson.KeyOrder, facts: Facts, a: Attestation,
      ids: seq<JsString>)
    requires NoRepeats(ResultIds(facts.targetResults))
    ensures AttestationMatches(locale, facts, a, ids) <==>
            && a.sourceInputDigest == facts.sourceDigest && a.candidatePatchDigest == facts.candidatePatchDigest
            && a.behaviorContractDigest == facts.behaviorContractDigest && a.policyDigest == facts.policyDigest
            && Sort(IdsOf(a.targets), locale) == ids
            && forall t | t in a.targets :: exists r ::
               r in facts.targetResults && r.targetId == t.targetId && r.targetDigest == t.targetDigest
  {
    var attested, results := Sort(a.targets, ById(locale)), ResultsByTarget(facts.targetResults);
    IdsSort(a.targets, locale);
    SortMembers(a.targets, ById(locale));
    assert IdsOf(attested) == ids <==> |attested| == |ids| && forall i | 0 <= i < |attested| ::
        attested[i].targetId == ids[i] by {
      assert forall i | 0 <= i < |attested| :: IdsOf(attested)[i] == attested[i].targetId;
    }
    forall t: Target
      ensures t.targetId in results && results[t.targetId].targetDigest == t.targetDigest <==>
              exists r :: r in facts.targetResults && r.targetId == t.targetId && r.targetDigest == t.targetDigest
    {
      ResultFound(facts.targetResults, t);
    }
  }

  lemma {:induction false} ResultFound(list: seq<TargetResult>, t: Target)
    requires NoRepeats(ResultIds(list))
    ensures t.targetId in ResultsByTarget(list) && ResultsByTarget(list)[t.targetId].targetDigest == t.targetDigest <==>
            exists r :: r in list && r.targetId == t.targetId && r.targetDigest == t.targetDigest
  {
    var results := ResultsByTarget(list);
    if t.targetId in results {
      ResultsMeaning(list, t.targetId, results[t.targetId]);
    }
    if r :| r in list && r.targetId == t.targetId && r.targetDigest == t.targetDigest {
      ResultsMeaning(list, t.targetId, r);
    }
  }

  /** The run of checks before the attestation passes exactly when every required target has passed. */
  ghost predicate TargetsClear(ids: seq<JsString>, results: map<JsString, TargetResult>) {
    forall id | id in ids :: id in results && results[id].cleanup == Deleted && results[id].outcome == Passed
  }

  lemma {:induction false} ClearMeaning(facts: Facts)
    requires NoRepeats(ResultIds(facts.targetResults))
    ensures TargetsClear(Sort(facts.requiredTargetIds, CodeUnits()), ResultsByTarget(facts.targetResults)) <==>
            AllPassed(facts)
  {
    var ids, results := Sort(facts.requiredTargetIds, CodeUnits()), ResultsByTarget(facts.targetResults);
    SortMembers(facts.requiredTargetIds, CodeUnits());
    forall id
      ensures (id in results && results[id].cleanup == Deleted && results[id].outcome == Passed) <==>
              exists r :: r in facts.targetResults && r.targetId == id && r.cleanup == Deleted && r.outcome == Passed
    {
      if id in results {
        ResultsMeaning(facts.targetResults, id, results[id]);
      }
      if r :| r in facts.targetResults && r.targetId == id && r.cleanup == Deleted && r.outcome == Passed {
        ResultsMeaning(facts.targetResults, id, r);
      }
    }
  }

  lemma {:induction false} ChecksPass(ids: seq<JsString>, results: map<JsString, TargetResult>)
    ensures TargetsClear(ids, results) <==>
            && Filter(ids, (id: JsString) => id !in results) == []
            && Filter(ids, (id: JsString) => id !in results || results[id].cleanup != Deleted) == []
            && FirstFailure(ids, results, Priority()).None?
  {
    FilterEmpty(ids, (id: JsString) => id !in results);
    FilterEmpty(ids, (id: JsString) => id !in results || results[id].cleanup != Deleted);
    NoFailure(ids, results, Priority());
    forall o ensures o in Priority() <==> o != Passed {
      EveryFailureListed(o);
    }
    forall o ensures WithOutcome(ids, results, o) == [] <==> forall id | id in ids ::
        !(id in results && results[id].outcome == o) {
      WithOutcomeEmpty(ids, results, o);
    }
    forall id | id in ids && id in results ensures WithOutcome(ids, results, results[id].outcome) != [] {
      WithOutcomeEmpty(ids, results, results[id].outcome);
    }
  }

  lemma {:induction false} BeforeMeaning(facts: Facts, ids: seq<JsString>, results: map<JsString, TargetResult>)
    ensures BeforeAttestation(facts, ids, results).None? <==>
            ids != [] && TargetsClear(ids, results) && facts.acceptedBehaviorContract && facts.sourceFresh
    ensures BeforeAttestation(facts, ids, results).Some? ==> BeforeAttestation(facts, ids, results).value.NotVerified?
  {
    ChecksPass(ids, results);
  }

  lemma {:induction false} ClassifyVerifies(locale: CanonicalJson.KeyOrder, facts: Facts)
    ensures var verdict := Classify(locale, facts);
            var ids := Sort(facts.requiredTargetIds, CodeUnits());
            && (verdict.Ok? && verdict.value.Verified? <==>
                  && FactsFault(facts).None? && ids != [] && TargetsClear(ids, ResultsByTarget(facts.targetResults))
                  && facts.acceptedBehaviorContract && facts.sourceFresh
                  && facts.attestation.Some? && facts.attestation.value.isFresh
                     && AttestationMatches(locale, facts, facts.attestation.value, ids))
            && (verdict.Ok? && verdict.value.Verified? ==>
                  verdict.value == Verified(facts.attestation.value.attestationDigest, ids))
  {
    BeforeMeaning(facts, Sort(facts.requiredTargetIds, CodeUnits()), ResultsByTarget(facts.targetResults));
  }

  lemma {:induction false} SameIdsWhenSorted(locale: CanonicalJson.KeyOrder, attested: seq<JsString>,
      required: seq<JsString>)
    requires Sort(attested, locale) == Sort(required, CodeUnits())
    ensures forall id :: id in attested <==> id in required
  {
    SortMembers(required, CodeUnits());
    SortMembers(attested, locale);
    forall id ensures id in attested <==> id in required {
      assert id in Sort(attested, locale) <==> id in Sort(required, CodeUnits());
    }
  }

  lemma {:induction false} AttestsWhenSorted(locale: CanonicalJson.KeyOrder, facts: Facts, a: Attestation)
    requires FactsFault(facts).None? && facts.attestation == Some(a)
    ensures AttestationMatches(locale, facts, a, Sort(facts.requiredTargetIds, CodeUnits())) <==>
            Attests(facts, a) && SortsIdsAlike(locale, facts)
  {
    MatchesMeaning(locale, facts, a, Sort(facts.requiredTargetIds, CodeUnits()));
    if SortsIdsAlike(locale, facts) {
      SameIdsWhenSorted(locale, IdsOf(a.targets), facts.requiredTargetIds);
    }
  }

  /**
   A run is called verified exactly when all its facts are complete and the default order and the locale
   sort its target ids alike. The second half is not a fact about the run.
   */
  lemma {:induction false} VerifiedExactly(locale: CanonicalJson.KeyOrder, facts: Facts)
    ensures var verdict := Classify(locale, facts);
            && (verdict.Ok? && verdict.value.Verified? <==> Complete(facts) && SortsIdsAlike(locale, facts))
            && (verdict.Ok? && verdict.value.Verified? ==>
                  verdict.value ==
                      Verified(facts.attestation.value.attestationDigest, Sort(facts.requiredTargetIds, CodeUnits())))
  {
    ClassifyVerifies(locale, facts);
    assert Sort(facts.requiredTargetIds, CodeUnits()) == [] <==> facts.requiredTargetIds == [];
    if FactsFault(facts).None? {
      ClearMeaning(facts);
      if facts.attestation.Some? {
        AttestsWhenSorted(locale, facts, facts.attestation.value);
      }
    }
  }

  // When the two orders agree

  /** Whatever code units put first, the locale does not put last. */
  predicate RespectsCodeUnits(locale: CanonicalJson.KeyOrder, ids: seq<JsString>) {
    forall a, b | a in ids && b in ids :: CodeUnitLeq(a, b) ==> locale(a, b)
  }

  /** Ids the locale ties are in the order of code units. */
  predicate TiesInOrder(locale: CanonicalJson.KeyOrder, ids: seq<JsString>) {
    forall i, j | 0 <= i < j < |ids| :: Tied(ids[i], ids[j], locale) ==> CodeUnitLeq(ids[i], ids[j])
  }

  lemma {:induction false} CodeUnitsSortAlike(xs: seq<JsString>, ys: seq<JsString>)
    requires Distinct(xs) && Distinct(ys) && forall id :: id in xs <==> id in ys
    ensures Sort(xs, CodeUnits()) == Sort(ys, CodeUnits())
  {
    CodeUnitsTotalOrder();
    UntiedSortAlike(xs, ys, CodeUnits());
  }

  lemma {:induction false} SortedRespects(locale: CanonicalJson.KeyOrder, ids: seq<JsString>)
    requires TotalPreorder(locale)
    ensures Sorted(Sort(ids, CodeUnits()), locale) <==> RespectsCodeUnits(locale, ids)
  {
    var sorted := Sort(ids, CodeUnits());
    CodeUnitsTotalOrder();
    SortSorts(ids, CodeUnits());
    SortMembers(ids, CodeUnits());
    if Sorted(sorted, locale) {
      forall a, b | a in ids && b in ids && CodeUnitLeq(a, b) ensures locale(a, b) {
        assert a in sorted && b in sorted;
        var i :| 0 <= i < |sorted| && sorted[i] == a;
        var j :| 0 <= j < |sorted| && sorted[j] == b;
        if j < i {
          assert CodeUnits()(b, a);
          CodeUnitAntisymmetric(a, b);
        }
        assert locale(a, a);
      }
    }
    if RespectsCodeUnits(locale, ids) {
      forall i, j | 0 <= i < j < |sorted| ensures locale(sorted[i], sorted[j]) {
        assert sorted[i] in ids && sorted[j] in ids && CodeUnits()(sorted[i], sorted[j]);
      }
    }
  }

  /** Tied ids of `ids` come as code units sort them, one tie at a time. */
  lemma {:induction false} TiesSorted(locale: CanonicalJson.KeyOrder, ids: seq<JsString>, x: JsString)
    requires TotalPreorder(locale) && TiesInOrder(locale, ids)
    ensures Ties(ids, x, locale) == Ties(Sort(ids, CodeUnits()), x, locale)
  {
    var keep := y => Tied(x, y, locale);
    var kept := Filter(ids, keep);
    CodeUnitsTotalOrder();
    FilterSort(ids, CodeUnits(), keep);
    FilterTiesInOrder(locale, ids, x);
    SortKeepsSorted(kept, CodeUnits());
  }

  lemma {:induction false} FilterTiesInOrder(locale: CanonicalJson.KeyOrder, ids: seq<JsString>, x: JsString)
    requires TotalPreorder(locale) && TiesInOrder(locale, ids)
    ensures Sorted(Filter(ids, y => Tied(x, y, locale)), CodeUnits())
  {
    var keep := y => Tied(x, y, locale);
    if ids != [] {
      var first, rest := ids[0], ids[1..];
      assert forall i | 0 <= i < |rest| :: rest[i] == ids[i + 1];
      FilterTiesInOrder(locale, rest, x);
      if keep(first) {
        var kept := Filter(rest, keep);
        forall k | 0 <= k < |kept| ensures CodeUnitLeq(first, kept[k]) {
          FilterMember(rest, keep, kept[k]);
          assert kept[k] in kept;
          var j :| 0 <= j < |rest| && rest[j] == kept[k];
          assert locale(first, x) && locale(x, kept[k]) && locale(kept[k], x) && locale(x, first);
          assert Tied(ids[0], ids[j + 1], locale);
        }
      }
    }
  }

  /** If tied ids come as code units sort them, they are in that order. */
  lemma {:induction false} TiesWereInOrder(locale: CanonicalJson.KeyOrder, ids: seq<JsString>, i: nat, j: nat)
    requires TotalPreorder(locale) && i < j < |ids| && Tied(ids[i], ids[j], locale)
    requires Ties(ids, ids[i], locale) == Ties(Sort(ids, CodeUnits()), ids[i], locale)
    ensures CodeUnitLeq(ids[i], ids[j])
  {
    var x := ids[i];
    var keep := y => Tied(x, y, locale);
    assert locale(x, x);
    var p, q := FilterOrder(ids, keep, i, j);
    CodeUnitsTotalOrder();
    FilterSort(ids, CodeUnits(), keep);
    SortSorts(Filter(ids, keep), CodeUnits());
    assert Sorted(Filter(ids, keep), CodeUnits());
    assert CodeUnits()(Filter(ids, keep)[p], Filter(ids, keep)[q]);
  }

  /**
   The locale sorts ids as code units do exactly when it respects code units and the ids it ties are in their order.
   */
  lemma {:induction false} SortsAlikeExactly(locale: CanonicalJson.KeyOrder, ids: seq<JsString>)
    requires TotalPreorder(locale)
    ensures Sort(ids, locale) == Sort(ids, CodeUnits()) <==> RespectsCodeUnits(locale, ids) && TiesInOrder(locale, ids)
  {
    var sorted := Sort(ids, CodeUnits());
    SortedRespects(locale, ids);
    if Sort(ids, locale) == sorted {
      SortSorts(ids, locale);
      forall i, j | 0 <= i < j < |ids| && Tied(ids[i], ids[j], locale) ensures CodeUnitLeq(ids[i], ids[j]) {
        SortKeepsTies(ids, locale, ids[i]);
        TiesWereInOrder(locale, ids, i, j);
      }
    }
    if RespectsCodeUnits(locale, ids) && TiesInOrder(locale, ids) {
      SortKeepsSorted(sorted, locale);
      forall x ensures Ties(ids, x, locale) == Ties(sorted, x, locale) {
        TiesSorted(locale, ids, x);
      }
      SortsAlike(ids, sorted, locale);
    }
  }

  lemma {:induction false} CompleteIds(facts: Facts)
    requires Complete(facts)
    ensures var attested := IdsOf(AttestedTargets(facts));
            && Distinct(attested) && Distinct(facts.requiredTargetIds)
            && (forall id :: id in attested <==> id in facts.requiredTargetIds)
            && Sort(attested, CodeUnits()) == Sort(facts.requiredTargetIds, CodeUnits())
  {
    NoRepeatsMeaning(IdsOf(AttestedTargets(facts)));
    NoRepeatsMeaning(facts.requiredTargetIds);
    CodeUnitsSortAlike(IdsOf(AttestedTargets(facts)), facts.requiredTargetIds);
  }

  predicate IsVerified(verdict: Result<Verdict, FactsError>) {
    verdict.Ok? && verdict.value.Verified?
  }

  /**
   A run is verified if and only if its facts are complete, the locale respects code units on its required ids,
   and the ids the locale ties, if any, are attested in the order of code units.
   */
  lemma {:induction false} VerifiedByPairs(locale: CanonicalJson.KeyOrder, facts: Facts)
    requires TotalPreorder(locale)
    ensures IsVerified(Classify(locale, facts)) <==>
            && Complete(facts) && RespectsCodeUnits(locale, facts.requiredTargetIds)
            && TiesInOrder(locale, IdsOf(AttestedTargets(facts)))
  {
    VerifiedExactly(locale, facts);
    if Complete(facts) {
      CompleteIds(facts);
      SortsAlikeExactly(locale, IdsOf(AttestedTargets(facts)));
    }
  }

  /** When the locale orders the required ids as code units do, complete facts are enough. */
  lemma {:induction false} AgreeingOrdersSuffice(locale: CanonicalJson.KeyOrder, facts: Facts)
    requires TotalPreorder(locale)
    requires forall a, b | a in facts.requiredTargetIds && b in facts.requiredTargetIds :: locale(a, b) <==>
             CodeUnitLeq(a, b)
    ensures IsVerified(Classify(locale, facts)) <==> Complete(facts)
  {
    VerifiedByPairs(locale, facts);
    if Complete(facts) {
      CompleteIds(facts);
      var attested := IdsOf(AttestedTargets(facts));
      forall i, j | 0 <= i < j < |attested|
          && Tied(attested[i], attested[j], locale) ensures CodeUnitLeq(attested[i], attested[j]) {
        assert attested[i] in attested && attested[j] in attested;
      }
    }
  }

  // Which failure is reported

  /** How serious an outcome is: the smaller, the sooner it is reported. */
  function Rank(outcome: Outcome): nat {
    match outcome
    case SecurityBlocked => 0
    case UnsupportedTargetOrCapability => 1
    case ResourceBudgetFailed => 2
    case TimedOut => 3
    case InfrastructureFailed => 4
    case ProjectOrCandidateFailed => 5
    case Inconclusive => 6
    case Passed => 7
  }

  lemma {:induction false} FirstFailureIs(ids: seq<JsString>, results: map<JsString, TargetResult>,
      outcomes: seq<Outcome>) returns (k: nat)
    requires FirstFailure(ids, results, outcomes).Some?
    ensures k < |outcomes| && FirstFailure(ids, results, outcomes).value ==
            (outcomes[k], WithOutcome(ids, results, outcomes[k]))
    ensures WithOutcome(ids, results, outcomes[k]) != [] && forall j | 0 <= j < k ::
            WithOutcome(ids, results, outcomes[j]) == []
  {
    k := 0;
    if WithOutcome(ids, results, outcomes[0]) == [] {
      k := FirstFailureIs(ids, results, outcomes[1..]);
      k := k + 1;
    }
  }

  lemma PriorityByRank(outcome: Outcome)
    requires outcome != Passed
    ensures Rank(outcome) < |Priority()| && Priority()[Rank(outcome)] == outcome
  {}

  lemma RankOf(k: nat)
    requires k < |Priority()|
    ensures Rank(Priority()[k]) == k
  {}

  /** The failure reported is the most serious there is, with exactly the targets it happened to. */
  lemma {:induction false} WorstFailureReported(ids: seq<JsString>, results: map<JsString, TargetResult>)
    requires FirstFailure(ids, results, Priority()).Some?
    ensures var (outcome, affected) := FirstFailure(ids, results, Priority()).value;
            && (forall id :: id in affected <==> id in ids && id in results && results[id].outcome == outcome)
            && affected != [] && outcome != Passed
            && forall id | id in ids && id in results :: Rank(outcome) <= Rank(results[id].outcome)
  {
    var k := FirstFailureIs(ids, results, Priority());
    var outcome := Priority()[k];
    RankOf(k);
    EveryFailureListed(outcome);
    forall id ensures id in WithOutcome(ids, results, outcome) <==>
        id in ids && id in results && results[id].outcome == outcome {
      FilterMember(ids, (x: JsString) => x in results && results[x].outcome == outcome, id);
    }
    forall id | id in ids && id in results ensures k <= Rank(results[id].outcome) {
      var other := results[id].outcome;
      WithOutcomeEmpty(ids, results, other);
      if other != Passed {
        PriorityByRank(other);
      }
    }
  }

  // List order

  /** The same facts with their lists in any order. */
  ghost predicate Rearranged(facts: Facts, other: Facts) {
    && other.(requiredTargetIds := facts.requiredTargetIds, targetResults := facts.targetResults, attestation :=
       facts.attestation) == facts
    && multiset(other.requiredTargetIds) == multiset(facts.requiredTargetIds)
    && multiset(other.targetResults) == multiset(facts.targetResults)
    && (facts.attestation.None? <==> other.attestation.None?)
    && (facts.attestation.Some? ==>
          && other.attestation.value.(targets := facts.attestation.value.targets) == facts.attestation.value
          && multiset(other.attestation.value.targets) == multiset(facts.attestation.value.targets))
  }

  lemma {:induction false} SameMembers<T>(xs: seq<T>, ys: seq<T>)
    requires multiset(xs) == multiset(ys)
    ensures |xs| == |ys| && forall x :: x in xs <==> x in ys
  {
    assert |xs| == |multiset(xs)| == |multiset(ys)| == |ys|;
    forall x ensures x in xs <==> x in ys {
      assert x in multiset(xs) <==> x in multiset(ys);
    }
  }

  lemma {:induction false} RepeatsRearranged(xs: seq<JsString>, ys: seq<JsString>)
    requires |xs| == |ys| && forall x :: x in xs <==> x in ys
    ensures NoRepeats(xs) <==> NoRepeats(ys)
  {
    assert (set id | id in xs) == set id | id in ys;
  }

  lemma {:induction false} IdsRearranged(xs: seq<Target>, ys: seq<Target>)
    requires multiset(xs) == multiset(ys)
    ensures forall id :: id in IdsOf(xs) <==> id in IdsOf(ys)
  {
    SameMembers(xs, ys);
    forall id ensures id in IdsOf(xs) <==> id in IdsOf(ys) {
      if id in IdsOf(xs) {
        var i :| 0 <= i < |xs| && IdsOf(xs)[i] == id;
        assert xs[i] in ys;
        var j :| 0 <= j < |ys| && ys[j] == xs[i];
        assert IdsOf(ys)[j] == id;
      }
      if id in IdsOf(ys) {
        var i :| 0 <= i < |ys| && IdsOf(ys)[i] == id;
        assert ys[i] in xs;
        var j :| 0 <= j < |xs| && xs[j] == ys[i];
        assert IdsOf(xs)[j] == id;
      }
    }
  }

  lemma {:induction false} ResultIdsRearranged(xs: seq<TargetResult>, ys: seq<TargetResult>)
    requires multiset(xs) == multiset(ys)
    ensures forall id :: id in ResultIds(xs) <==> id in ResultIds(ys)
  {
    SameMembers(xs, ys);
    forall id ensures id in ResultIds(xs) <==> id in ResultIds(ys) {
      if id in ResultIds(xs) {
        var i :| 0 <= i < |xs| && ResultIds(xs)[i] == id;
        assert xs[i] in ys;
        var j :| 0 <= j < |ys| && ys[j] == xs[i];
        assert ResultIds(ys)[j] == id;
      }
      if id in ResultIds(ys) {
        var i :| 0 <= i < |ys| && ResultIds(ys)[i] == id;
        assert ys[i] in xs;
        var j :| 0 <= j < |xs| && xs[j] == ys[i];
        assert ResultIds(xs)[j] == id;
      }
    }
  }

  lemma {:induction false} FaultRearranged(facts: Facts, other: Facts)
    requires Rearranged(facts, other)
    ensures FactsFault(facts) == FactsFault(other)
  {
    SameMembers(facts.requiredTargetIds, other.requiredTargetIds);
    SameMembers(facts.targetResults, other.targetResults);
    ResultIdsRearranged(facts.targetResults, other.targetResults);
    RepeatsRearranged(facts.requiredTargetIds, other.requiredTargetIds);
    RepeatsRearranged(ResultIds(facts.targetResults), ResultIds(other.targetResults));
    var left, right := AttestedTargets(facts), AttestedTargets(other);
    SameMembers(left, right);
    IdsRearranged(left, right);
    RepeatsRearranged(IdsOf(left), IdsOf(right));
  }

  lemma {:induction false} MapRearranged(xs: seq<TargetResult>, ys: seq<TargetResult>)
    requires multiset(xs) == multiset(ys) && NoRepeats(ResultIds(xs)) && NoRepeats(ResultIds(ys))
    ensures ResultsByTarget(xs) == ResultsByTarget(ys)
  {
    SameMembers(xs, ys);
    var p, q := ResultsByTarget(xs), ResultsByTarget(ys);
    forall id ensures (id in p <==> id in q) && (id in p ==> p[id] == q[id]) {
      if id in p {
        ResultsMeaning(xs, id, p[id]);
        ResultsMeaning(ys, id, p[id]);
      }
      if id in q {
        ResultsMeaning(ys, id, q[id]);
        ResultsMeaning(xs, id, q[id]);
      }
    }
    assert p.Keys == q.Keys;
  }

  lemma {:induction false} BindingsRearranged(facts: Facts, other: Facts)
    requires Rearranged(facts, other) && facts.attestation.Some? && Attests(facts, facts.attestation.value)
    ensures Attests(other, other.attestation.value)
  {
    IdsRearranged(facts.attestation.value.targets, other.attestation.value.targets);
    SameMembers(facts.attestation.value.targets, other.attestation.value.targets);
    SameMembers(facts.requiredTargetIds, other.requiredTargetIds);
    SameMembers(facts.targetResults, other.targetResults);
  }

  lemma {:induction false} CompleteRearranged(facts: Facts, other: Facts)
    requires Rearranged(facts, other) && Complete(facts)
    ensures Complete(other)
  {
    FaultRearranged(facts, other);
    SameMembers(facts.requiredTargetIds, other.requiredTargetIds);
    SameMembers(facts.targetResults, other.targetResults);
    BindingsRearranged(facts, other);
  }

  lemma {:induction false} BeforeRearranged(facts: Facts, other: Facts, ids: seq<JsString>,
      results: map<JsString, TargetResult>)
    requires facts.acceptedBehaviorContract == other.acceptedBehaviorContract && facts.sourceFresh == other.sourceFresh
    ensures BeforeAttestation(facts, ids, results) == BeforeAttestation(other, ids, results)
  {}

  lemma {:induction false} AttestationRearranged(locale: CanonicalJson.KeyOrder, facts: Facts, other: Facts,
      ids: seq<JsString>)
    requires facts.attestation.None? <==> other.attestation.None?
    requires facts.attestation.Some? ==>
               && facts.attestation.value.isFresh == other.attestation.value.isFresh
               && facts.attestation.value.attestationDigest == other.attestation.value.attestationDigest
    requires ByAttestation(locale, facts, ids).Verified? <==> ByAttestation(locale, other, ids).Verified?
    ensures ByAttestation(locale, facts, ids) == ByAttestation(locale, other, ids)
  {}

  lemma {:induction false} RearrangedFields(facts: Facts, other: Facts)
    requires Rearranged(facts, other)
    ensures facts.acceptedBehaviorContract == other.acceptedBehaviorContract && facts.sourceFresh == other.sourceFresh
    ensures facts.attestation.None? <==> other.attestation.None?
    ensures facts.attestation.Some? ==>
              && facts.attestation.value.isFresh == other.attestation.value.isFresh
              && facts.attestation.value.attestationDigest == other.attestation.value.attestationDigest
  {}

  lemma {:induction false} RearrangedInputs(facts: Facts, other: Facts)
    requires Rearranged(facts, other)
    ensures FactsFault(facts) == FactsFault(other)
    ensures FactsFault(facts).None? ==>
              && Sort(facts.requiredTargetIds, CodeUnits()) == Sort(other.requiredTargetIds, CodeUnits())
              && ResultsByTarget(facts.targetResults) == ResultsByTarget(other.targetResults)
  {
    FaultRearranged(facts, other);
    CodeUnitsTotalOrder();
    SortIgnoresOrder(facts.requiredTargetIds, other.requiredTargetIds, CodeUnits());
    if FactsFault(facts).None? {
      MapRearranged(facts.targetResults, other.targetResults);
    }
  }

  lemma {:induction false} ClassifyBy(locale: CanonicalJson.KeyOrder, facts: Facts)
    requires FactsFault(facts).None?
    ensures var ids := Sort(facts.requiredTargetIds, CodeUnits());
            var before := BeforeAttestation(facts, ids, ResultsByTarget(facts.targetResults));
            && (before.Some? ==> before.value.NotVerified?)
            && Classify(locale, facts) == Ok(if before.Some? then before.value else ByAttestation(locale, facts, ids))
  {
    BeforeMeaning(facts, Sort(facts.requiredTargetIds, CodeUnits()), ResultsByTarget(facts.targetResults));
  }

  /** Rearranging changes a verdict only from verified to not verified or back. */
  lemma {:induction false} RearrangedVerdict(locale: CanonicalJson.KeyOrder, facts: Facts, other: Facts)
    requires Rearranged(facts, other) && (IsVerified(Classify(locale, facts)) <==> IsVerified(Classify(locale, other)))
    ensures Classify(locale, facts) == Classify(locale, other)
  {
    RearrangedFields(facts, other);
    RearrangedInputs(facts, other);
    if FactsFault(facts).None? {
      var ids, results := Sort(facts.requiredTargetIds, CodeUnits()), ResultsByTarget(facts.targetResults);
      ClassifyBy(locale, facts);
      ClassifyBy(locale, other);
      BeforeRearranged(facts, other, ids, results);
      if BeforeAttestation(facts, ids, results).None? {
        AttestationRearranged(locale, facts, other, ids);
      }
    }
  }

  lemma {:induction false} RearrangedBack(facts: Facts, other: Facts)
    requires Rearranged(facts, other)
    ensures Rearranged(other, facts)
  {}

  /**
   A complete run that is verified only for some orders of its attestation: the locale respects code units but ties two
   of its ids.
   */
  ghost predicate OrderMatters(locale: CanonicalJson.KeyOrder, facts: Facts) {
    && Complete(facts) && RespectsCodeUnits(locale, facts.requiredTargetIds)
    && !NoTies(facts.requiredTargetIds, locale)
  }

  lemma {:induction false} VerifiedAnyOrder(locale: CanonicalJson.KeyOrder, facts: Facts, other: Facts)
    requires TotalPreorder(locale) && Rearranged(facts, other) && !OrderMatters(locale, facts)
             && IsVerified(Classify(locale, facts))
    ensures IsVerified(Classify(locale, other))
  {
    VerifiedByPairs(locale, facts);
    VerifiedByPairs(locale, other);
    CompleteRearranged(facts, other);
    CompleteIds(other);
    SameMembers(facts.requiredTargetIds, other.requiredTargetIds);
    SameIdsRespect(locale, facts.requiredTargetIds, other.requiredTargetIds);
    SameIdsRespect(locale, other.requiredTargetIds, IdsOf(AttestedTargets(other)));
    NoTiesInOrder(locale, IdsOf(AttestedTargets(other)));
  }

  lemma {:induction false} NoTiesInOrder(locale: CanonicalJson.KeyOrder, ids: seq<JsString>)
    requires NoTies(ids, locale)
    ensures TiesInOrder(locale, ids)
  {
    forall i, j | 0 <= i < j < |ids| && Tied(ids[i], ids[j], locale) ensures CodeUnitLeq(ids[i], ids[j]) {
      assert ids[i] in ids && ids[j] in ids;
      CodeUnitTotal(ids[i], ids[i]);
    }
  }

  lemma {:induction false} OrderMattersRearranged(locale: CanonicalJson.KeyOrder, facts: Facts, other: Facts)
    requires Rearranged(facts, other) && OrderMatters(locale, other)
    ensures OrderMatters(locale, facts)
  {
    RearrangedBack(facts, other);
    CompleteRearranged(other, facts);
    SameMembers(facts.requiredTargetIds, other.requiredTargetIds);
    SameIdsRespect(locale, other.requiredTargetIds, facts.requiredTargetIds);
  }

  lemma {:induction false} SameIdsRespect(locale: CanonicalJson.KeyOrder, xs: seq<JsString>, ys: seq<JsString>)
    requires forall id :: id in xs <==> id in ys
    ensures RespectsCodeUnits(locale, xs) <==> RespectsCodeUnits(locale, ys)
    ensures NoTies(xs, locale) <==> NoTies(ys, locale)
  {}

  /**
   Unless order matters for a run, its verdict, error and affected targets included, is that of every rearrangement.
   */
  lemma {:induction false} SteadyVerdict(locale: CanonicalJson.KeyOrder, facts: Facts, other: Facts)
    requires TotalPreorder(locale) && Rearranged(facts, other) && !OrderMatters(locale, facts)
    ensures Classify(locale, facts) == Classify(locale, other)
  {
    if IsVerified(Classify(locale, facts)) {
      VerifiedAnyOrder(locale, facts, other);
    }
    if IsVerified(Classify(locale, other)) {
      RearrangedBack(facts, other);
      if OrderMatters(locale, other) {
        OrderMattersRearranged(locale, facts, other);
      }
      VerifiedAnyOrder(locale, other, facts);
    }
    RearrangedVerdict(locale, facts, other);
  }

  /** If no attested ids tie, the verdict does not depend on the order of any list. */
  lemma {:induction false} VerdictIgnoresListOrder(locale: CanonicalJson.KeyOrder, facts: Facts, other: Facts)
    requires TotalPreorder(locale) && NoTies(IdsOf(AttestedTargets(facts)), locale) && Rearranged(facts, other)
    ensures Classify(locale, facts) == Classify(locale, other)
  {
    if Complete(facts) {
      CompleteIds(facts);
    }
    SteadyVerdict(locale, facts, other);
  }

  // Runs for which order matters

  function WithTargets(facts: Facts, targets: seq<Target>): Facts
    requires facts.attestation.Some?
  {
    facts.(attestation := Some(facts.attestation.value.(targets := targets)))
  }

  lemma {:induction false} SwapPermutes<T>(xs: seq<T>, i: nat, j: nat)
    requires i < j < |xs|
    ensures multiset(Swap(xs, i, j)) == multiset(xs)
  {}

  lemma {:induction false} IdsOfSwap(targets: seq<Target>, i: nat, j: nat)
    requires i < j < |targets|
    ensures IdsOf(Swap(targets, i, j)) == Swap(IdsOf(targets), i, j)
  {}

  lemma {:induction false} RearrangedTargets(facts: Facts, targets: seq<Target>)
    requires facts.attestation.Some? && multiset(targets) == multiset(facts.attestation.value.targets)
    ensures Rearranged(facts, WithTargets(facts, targets)) && AttestedTargets(WithTargets(facts, targets)) == targets
  {}

  lemma {:induction false} SortedTiesInOrder(locale: CanonicalJson.KeyOrder, ids: seq<JsString>)
    requires Sorted(ids, CodeUnits())
    ensures TiesInOrder(locale, ids)
  {
    forall i, j | 0 <= i < j < |ids| ensures CodeUnitLeq(ids[i], ids[j]) {
      assert CodeUnits()(ids[i], ids[j]);
    }
  }

  /** Two tied ids exchanged are no longer in the order of code units. */
  lemma {:induction false} SwappedTie(locale: CanonicalJson.KeyOrder, ids: seq<JsString>, i: nat, j: nat)
    requires Sorted(ids, CodeUnits()) && i < j < |ids| && ids[i] != ids[j] && Tied(ids[i], ids[j], locale)
    ensures !TiesInOrder(locale, Swap(ids, i, j))
  {
    var other := Swap(ids, i, j);
    assert other[i] == ids[j] && other[j] == ids[i] && CodeUnits()(ids[i], ids[j]);
    if CodeUnitLeq(other[i], other[j]) {
      CodeUnitAntisymmetric(ids[i], ids[j]);
    }
  }

  /** The attested targets in the order of code units. */
  lemma {:induction false} SortedTargets(targets: seq<Target>) returns (sorted: seq<Target>)
    ensures multiset(sorted) == multiset(targets) && Sorted(IdsOf(sorted), CodeUnits())
    ensures forall id :: id in IdsOf(sorted) <==> id in IdsOf(targets)
  {
    sorted := Sort(targets, ById(CodeUnits()));
    IdsSort(targets, CodeUnits());
    SortPermutes(targets, ById(CodeUnits()));
    CodeUnitsTotalOrder();
    SortSorts(IdsOf(targets), CodeUnits());
    SortMembers(IdsOf(targets), CodeUnits());
  }

  /** Attested in the order of code units, and so with two tied ids exchanged. */
  lemma {:induction false} TwoArrangements(locale: CanonicalJson.KeyOrder, facts: Facts)
      returns (inOrder: Facts, swapped: Facts)
    requires OrderMatters(locale, facts)
    ensures Rearranged(facts, inOrder) && Rearranged(facts, swapped)
    ensures TiesInOrder(locale, IdsOf(AttestedTargets(inOrder)))
            && !TiesInOrder(locale, IdsOf(AttestedTargets(swapped)))
  {
    var targets := SortedTargets(facts.attestation.value.targets);
    CompleteIds(facts);
    assert !NoTies(IdsOf(targets), locale);
    var i, j := TiedIds(locale, IdsOf(targets));
    SortedTiesInOrder(locale, IdsOf(targets));
    SwappedTie(locale, IdsOf(targets), i, j);
    SwapPermutes(targets, i, j);
    IdsOfSwap(targets, i, j);
    RearrangedTargets(facts, targets);
    RearrangedTargets(facts, Swap(targets, i, j));
    inOrder, swapped := WithTargets(facts, targets), WithTargets(facts, Swap(targets, i, j));
  }

  lemma {:induction false} TiedIds(locale: CanonicalJson.KeyOrder, ids: seq<JsString>) returns (i: nat, j: nat)
    requires !NoTies(ids, locale)
    ensures i < j < |ids| && ids[i] != ids[j] && Tied(ids[i], ids[j], locale)
  {
    var k, l :| k in ids && l in ids && Tied(k, l, locale) && k != l;
    var m :| 0 <= m < |ids| && ids[m] == k;
    var n :| 0 <= n < |ids| && ids[n] == l;
    i, j := if m < n then m else n, if m < n then n else m;
  }

  /** The verdict of a run is that of all its rearrangements if and only if order does not matter for it. */
  lemma {:induction false} OrderIrrelevantExactly(locale: CanonicalJson.KeyOrder, facts: Facts)
    requires TotalPreorder(locale)
    ensures (forall other | Rearranged(facts, other) :: Classify(locale, facts) == Classify(locale, other)) <==>
            !OrderMatters(locale, facts)
  {
    if OrderMatters(locale, facts) {
      var inOrder, swapped := TwoArrangements(locale, facts);
      CompleteRearranged(facts, inOrder);
      SameMembers(facts.requiredTargetIds, inOrder.requiredTargetIds);
      VerifiedByPairs(locale, inOrder);
      VerifiedByPairs(locale, swapped);
    } else {
      forall other | Rearranged(facts, other) ensures Classify(locale, facts) == Classify(locale, other) {
        SteadyVerdict(locale, facts, other);
      }
    }
  }

  // Where the orders differ

  function Digest(): JsString {
    Units("sha256:") + seq(64, _ => 48)
  }

  function PassedResult(id: JsString): TargetResult {
    TargetResult(Deleted, Passed, Digest(), id)
  }

  /** A run of two targets with nothing wrong, attested in the order given. */
  function TwoTargets(k: JsString, l: JsString): Facts {
    var d := Digest();
    Facts(true, Some(Attestation(d, d, d, true, d, d, [Target(d, k), Target(d, l)])), d, d, d, [k, l], d, true,
        [PassedResult(k), PassedResult(l)])
  }

  lemma {:induction false} TwoTargetsComplete(k: JsString, l: JsString)
    requires k != l && !Blank(k) && !Blank(l)
    ensures Complete(TwoTargets(k, l)) && IdsOf(AttestedTargets(TwoTargets(k, l))) == [k, l]
  {
    var facts := TwoTargets(k, l);
    assert IsDigest(Digest());
    assert facts.targetResults[0] == PassedResult(k) && facts.targetResults[1] == PassedResult(l);
    assert facts.attestation.value.targets[0] == Target(Digest(), k)
        && facts.attestation.value.targets[1] == Target(Digest(), l);
    assert facts.requiredTargetIds[0] == k && facts.requiredTargetIds[1] == l;
    assert ResultIds(facts.targetResults) == [k, l] && IdsOf(AttestedTargets(facts)) == [k, l];
    NoRepeatsMeaning([k, l]);
    assert FactsFault(facts).None?;
    assert PassedResult(k) in facts.targetResults && PassedResult(l) in facts.targetResults;
  }

  lemma {:induction false} SortTwo(k: JsString, l: JsString, leq: (JsString, JsString) -> bool)
    ensures Sort([k, l], leq) == if leq(k, l) then [k, l] else [l, k]
  {
    assert [k, l][1..] == [l] && [l][1..] == [];
    assert Sort([l], leq) == [l];
    assert Insert(k, [], leq) == [k] && [l] + [k] == [l, k] && [k] + [l] == [k, l];
  }

  /** A run that passes every check before its attestation is judged by the attestation. */
  lemma {:induction false} JudgedByAttestation(locale: CanonicalJson.KeyOrder, facts: Facts, ids: seq<JsString>)
    requires ids == Sort(facts.requiredTargetIds, CodeUnits()) && FactsFault(facts).None? && ids != []
    requires TargetsClear(ids, ResultsByTarget(facts.targetResults)) && facts.acceptedBehaviorContract
             && facts.sourceFresh
    requires facts.attestation.Some? && facts.attestation.value.isFresh
             && !AttestationMatches(locale, facts, facts.attestation.value, ids)
    ensures Classify(locale, facts) == Ok(Refused(StatusInconclusive, AttestationBindingMismatch, ids))
  {
    BeforeMeaning(facts, ids, ResultsByTarget(facts.targetResults));
  }

  /** A complete run the orders disagree on is refused as if its attestation did not match. */
  lemma {:induction false} CompleteButRefused(locale: CanonicalJson.KeyOrder, facts: Facts)
    requires Complete(facts) && !SortsIdsAlike(locale, facts)
    ensures Classify(locale, facts) ==
            Ok(Refused(StatusInconclusive, AttestationBindingMismatch, Sort(facts.requiredTargetIds, CodeUnits())))
  {
    ClearMeaning(facts);
    AttestsWhenSorted(locale, facts, facts.attestation.value);
    JudgedByAttestation(locale, facts, Sort(facts.requiredTargetIds, CodeUnits()));
  }

  lemma {:induction false} OneInput(locale: CanonicalJson.KeyOrder, k: JsString, l: JsString)
    requires k != l && !Blank(k) && !Blank(l) && CodeUnitLeq(k, l) && locale(l, k) && !locale(k, l)
    ensures Complete(TwoTargets(k, l)) && !SortsIdsAlike(locale, TwoTargets(k, l))
    ensures Sort(TwoTargets(k, l).requiredTargetIds, CodeUnits()) == [k, l]
  {
    TwoTargetsComplete(k, l);
    SortTwo(k, l, CodeUnits());
    SortTwo(k, l, locale);
    assert [k, l][0] != [l, k][0];
  }

  /** "B" comes before "a" by code units and after it in most locales: a complete run of the two is not verified. */
  lemma {:induction false} UpperCaseBeforeLower(locale: CanonicalJson.KeyOrder)
    requires locale(Units("a"), Units("B")) && !locale(Units("B"), Units("a"))
    ensures Complete(TwoTargets(Units("B"), Units("a")))
    ensures Classify(locale, TwoTargets(Units("B"), Units("a"))) ==
            Ok(NotVerified(StatusInconclusive, AttestationBindingMismatch, [Units("B"), Units("a")]))
  {
    var k, l := Units("B"), Units("a");
    assert k[0] == 66 && l[0] == 97;
    assert k[0] in k && l[0] in l;
    OneInput(locale, k, l);
    CompleteButRefused(locale, TwoTargets(k, l));
    SortTwo(k, l, CodeUnits());
  }

  /** Two ids that tie make one run verified or not by the order of its attestation. */
  lemma {:induction false} TiesMakeOrderMatter(locale: CanonicalJson.KeyOrder, k: JsString, l: JsString)
      returns (facts: Facts, other: Facts)
    requires k != l && !Blank(k) && !Blank(l) && Tied(k, l, locale)
    ensures Rearranged(facts, other) && Classify(locale, facts) != Classify(locale, other)
  {
    facts, other := TwoTargets(k, l), TwoTargets(l, k);
    TwoRearranged(k, l);
    TwoVerified(locale, k, l);
    TwoVerified(locale, l, k);
    CodeUnitTotal(k, l);
    if CodeUnitLeq(k, l) && CodeUnitLeq(l, k) {
      CodeUnitAntisymmetric(k, l);
    }
  }

  lemma {:induction false} TwoRearranged(k: JsString, l: JsString)
    ensures Rearranged(TwoTargets(k, l), TwoTargets(l, k))
  {
    assert [k, l] == [k] + [l] && [l, k] == [l] + [k];
    assert [PassedResult(k), PassedResult(l)] == [PassedResult(k)] + [PassedResult(l)];
    assert [PassedResult(l), PassedResult(k)] == [PassedResult(l)] + [PassedResult(k)];
    assert [Target(Digest(), k), Target(Digest(), l)] == [Target(Digest(), k)] + [Target(Digest(), l)];
    assert [Target(Digest(), l), Target(Digest(), k)] == [Target(Digest(), l)] + [Target(Digest(), k)];
  }

  /** With a tie, two targets are verified exactly when they are attested in code unit order. */
  lemma {:induction false} TwoVerified(locale: CanonicalJson.KeyOrder, k: JsString, l: JsString)
    requires k != l && !Blank(k) && !Blank(l) && Tied(k, l, locale)
    ensures var verdict := Classify(locale, TwoTargets(k, l)); verdict.Ok? && verdict.value.Verified? <==>
            CodeUnitLeq(k, l)
  {
    TwoTargetsComplete(k, l);
    SortTwo(k, l, locale);
    SortTwo(k, l, CodeUnits());
    assert [k, l][0] != [l, k][0];
    VerifiedExactly(locale, TwoTargets(k, l));
  }

  /** The locale tells apart any two different ids that may be used. */
  ghost predicate Separates(locale: CanonicalJson.KeyOrder) {
    forall k, l | !Blank(k) && !Blank(l) && Tied(k, l, locale) :: k == l
  }

  ghost predicate IgnoresListOrder(locale: CanonicalJson.KeyOrder) {
    forall facts, other | Rearranged(facts, other) :: Classify(locale, facts) == Classify(locale, other)
  }

  /** The verdicts of all runs ignore list order exactly when the locale tells all usable ids apart. */
  lemma {:induction false} OrderIrrelevantForAll(locale: CanonicalJson.KeyOrder)
    requires TotalPreorder(locale)
    ensures IgnoresListOrder(locale) <==> Separates(locale)
  {
    if Separates(locale) {
      forall facts, other | Rearranged(facts, other) ensures Classify(locale, facts) == Classify(locale, other) {
        SteadyVerdict(locale, facts, other);
      }
    } else {
      var k, l :| !Blank(k) && !Blank(l) && Tied(k, l, locale) && k != l;
      var facts, other := TiesMakeOrderMatter(locale, k, l);
    }
  }
}

/**
 The verdict on a run, read off the facts: which facts are refused, what each reason means, which targets it names, and
 what it takes to be verified.
 */
module ValidationVerdict {
  import opened Common
  import opened Sorting
  import opened Json
  import CanonicalJson
  import opened ValidationOutcomes

  // Facts that are refused

  /** A SHA-256 digest as text. */
  ghost predicate IsHash(value: JsString) {
    exists hex: JsString {:trigger Units("sha256:") + hex} ::
      value == Units("sha256:") + hex && |hex| == 64 && forall u | u in hex :: 48 <= u <= 57 || 97 <= u <= 102
  }

  /** All the digests among the facts. */
  ghost predicate IsDigestOf(facts: Facts, value: JsString) {
    || value == facts.sourceDigest || value == facts.candidatePatchDigest
    || value == facts.behaviorContractDigest || value == facts.policyDigest
    || (exists r :: r in facts.targetResults && value == r.targetDigest)
    || (facts.attestation.Some? &&
        var a := facts.attestation.value;
        || value == a.attestationDigest || value == a.sourceInputDigest || value == a.candidatePatchDigest
        || value == a.behaviorContractDigest || value == a.policyDigest
        || exists t :: t in a.targets && value == t.targetDigest)
  }

  ghost predicate AllHashes(facts: Facts) {
    forall value | IsDigestOf(facts, value) :: IsHash(value)
  }

  /** Ids that are all different and none of which is empty or only spaces. */
  ghost predicate Usable(ids: seq<JsString>) {
    && (forall i, j | 0 <= i < j < |ids| :: ids[i] != ids[j])
    && forall id | id in ids :: exists u :: u in id && !Space(u)
  }

  ghost predicate AllUsable(facts: Facts) {
    Usable(facts.requiredTargetIds) && Usable(ResultIds(facts.targetResults)) && Usable(IdsOf(AttestedTargets(facts)))
  }

  /** Every result is of a required target. */
  ghost predicate AllKnown(facts: Facts) {
    forall r | r in facts.targetResults :: r.targetId in facts.requiredTargetIds
  }

  lemma {:induction false} HashExactly(value: JsString)
    ensures IsHash(value) <==> IsDigest(value)
  {
    assert |Units("sha256:")| == 7;
    if IsDigest(value) {
      assert value == Units("sha256:") + value[7..];
      forall u | u in value[7..] ensures 48 <= u <= 57 || 97 <= u <= 102 {
        var i :| 0 <= i < 64 && value[7..][i] == u;
        assert u == value[7 + i];
      }
    }
    if IsHash(value) {
      var hex: JsString :| value == Units("sha256:") + hex && |hex| == 64
        && forall u | u in hex :: 48 <= u <= 57 || 97 <= u <= 102;
      forall i | 7 <= i < 71 ensures 48 <= value[i] < 58 || 97 <= value[i] < 103 {
        assert value[i] == hex[i - 7] && hex[i - 7] in hex;
      }
    }
  }

  lemma {:induction false} HashesExactly(facts: Facts)
    ensures AllHashes(facts) <==> DigestsValid(facts)
  {
    forall value ensures IsHash(value) <==> IsDigest(value) {
      HashExactly(value);
    }
    if AllHashes(facts) {
      assert IsDigestOf(facts, facts.sourceDigest) && IsDigestOf(facts, facts.candidatePatchDigest);
      assert IsDigestOf(facts, facts.behaviorContractDigest) && IsDigestOf(facts, facts.policyDigest);
      forall r | r in facts.targetResults ensures IsDigest(r.targetDigest) {
        assert IsDigestOf(facts, r.targetDigest);
      }
      if facts.attestation.Some? {
        var a := facts.attestation.value;
        assert IsDigestOf(facts, a.attestationDigest) && IsDigestOf(facts, a.sourceInputDigest);
        assert IsDigestOf(facts, a.candidatePatchDigest) && IsDigestOf(facts, a.behaviorContractDigest);
        assert IsDigestOf(facts, a.policyDigest);
        forall t | t in a.targets ensures IsDigest(t.targetDigest) {
          assert IsDigestOf(facts, t.targetDigest);
        }
      }
    }
  }

  lemma {:induction false} UsableExactly(ids: seq<JsString>)
    ensures Usable(ids) <==> NoRepeats(ids) && forall id | id in ids :: !Blank(id)
  {
    NoRepeatsMeaning(ids);
    forall id ensures !Blank(id) <==> exists u :: u in id && !Space(u) {}
  }

  lemma {:induction false} KnownExactly(facts: Facts)
    ensures AllKnown(facts) <==> !exists id | id in ResultIds(facts.targetResults) :: id !in facts.requiredTargetIds
  {
    var ids := ResultIds(facts.targetResults);
    if AllKnown(facts) {
      forall id | id in ids ensures id in facts.requiredTargetIds {
        var i :| 0 <= i < |ids| && ids[i] == id;
        assert facts.targetResults[i] in facts.targetResults;
      }
    } else {
      var r :| r in facts.targetResults && r.targetId !in facts.requiredTargetIds;
      var i :| 0 <= i < |facts.targetResults| && facts.targetResults[i] == r;
      assert ids[i] in ids;
    }
  }

  /**
   Facts are refused for a digest that is none, then for an id that cannot be used, then for a result nobody asked for.
   */
  lemma {:induction false} RefusedExactly(locale: CanonicalJson.KeyOrder, facts: Facts)
    ensures Classify(locale, facts) == Err(InvalidDigest) <==> !AllHashes(facts)
    ensures Classify(locale, facts) == Err(InvalidTargetIdentity) <==> AllHashes(facts) && !AllUsable(facts)
    ensures Classify(locale, facts) == Err(UnknownTargetResult) <==>
            AllHashes(facts) && AllUsable(facts) && !AllKnown(facts)
    ensures Classify(locale, facts).Ok? <==> AllHashes(facts) && AllUsable(facts) && AllKnown(facts)
  {
    HashesExactly(facts);
    UsableExactly(facts.requiredTargetIds);
    UsableExactly(ResultIds(facts.targetResults));
    UsableExactly(IdsOf(AttestedTargets(facts)));
    KnownExactly(facts);
  }

  // The verdict

  /** Target `id` is required, and the run has this result for it. */
  ghost predicate HasResult(facts: Facts, id: JsString, r: TargetResult) {
    id in facts.requiredTargetIds && r in facts.targetResults && r.targetId == id
  }

  ghost predicate Reported(facts: Facts, id: JsString) {
    exists r :: HasResult(facts, id, r)
  }

  ghost predicate Removed(facts: Facts, id: JsString) {
    exists r :: HasResult(facts, id, r) && r.cleanup == Deleted
  }

  ghost predicate Ended(facts: Facts, id: JsString, outcome: Outcome) {
    exists r :: HasResult(facts, id, r) && r.outcome == outcome
  }

  /** The ids are exactly those of the required targets of that kind, in strict order of code units. */
  ghost predicate Lists(facts: Facts, ids: seq<JsString>, kind: JsString -> bool) {
    && (forall id :: id in ids <==> id in facts.requiredTargetIds && kind(id))
    && forall i, j | 0 <= i < j < |ids| :: CodeUnitLeq(ids[i], ids[j]) && ids[i] != ids[j]
  }

  /** Every required target has a result and its environment is gone. */
  ghost predicate AllRemoved(facts: Facts) {
    facts.requiredTargetIds != [] && forall id | id in facts.requiredTargetIds :: Removed(facts, id)
  }

  /** And the contract was accepted and the source is fresh. */
  ghost predicate Judged(facts: Facts) {
    AllRemoved(facts) && facts.acceptedBehaviorContract && facts.sourceFresh
  }

  ghost predicate AllEndedPassed(facts: Facts) {
    Judged(facts) && forall id | id in facts.requiredTargetIds :: Ended(facts, id, Passed)
  }

  /** No required target ended worse. */
  ghost predicate IsWorst(facts: Facts, outcome: Outcome) {
    && outcome != Passed && (exists id :: Ended(facts, id, outcome))
    && forall id, other | Ended(facts, id, other) :: Rank(outcome) <= Rank(other)
  }

  /** The attestation was made for this source, this patch, this contract and this policy. */
  predicate MadeFor(facts: Facts, a: Attestation) {
    && a.sourceInputDigest == facts.sourceDigest
    && a.candidatePatchDigest == facts.candidatePatchDigest
    && a.behaviorContractDigest == facts.behaviorContractDigest
    && a.policyDigest == facts.policyDigest
  }

  /** Its targets are the required ones, in the order the two sorts agree on, each with the digest of its result. */
  ghost predicate Covers(locale: CanonicalJson.KeyOrder, facts: Facts, a: Attestation) {
    && Sort(IdsOf(a.targets), locale) == Sort(facts.requiredTargetIds, CodeUnits())
    && forall t | t in a.targets :: exists r ::
       r in facts.targetResults && r.targetId == t.targetId && r.targetDigest == t.targetDigest
  }

  function StatusName(outcome: Outcome): Status {
    match outcome
    case SecurityBlocked => StatusSecurityBlocked
    case UnsupportedTargetOrCapability => StatusUnsupported
    case ResourceBudgetFailed => StatusResourceBudgetFailed
    case TimedOut => StatusTimedOut
    case InfrastructureFailed => StatusInfrastructureFailed
    case ProjectOrCandidateFailed => StatusProjectOrCandidateFailed
    case Inconclusive => StatusInconclusive
    case Passed => StatusInconclusive
  }

  /** What each reason says of the facts, and of which targets. */
  ghost predicate Explains(locale: CanonicalJson.KeyOrder, facts: Facts, status: Status, reason: Reason,
      affected: seq<JsString>) {
    match reason
    case NoRequiredTargets => status == StatusInconclusive && facts.requiredTargetIds == [] && affected == []
    case RequiredTargetMissing =>
      status == StatusInconclusive && affected != [] && Lists(facts, affected, id => !Reported(facts, id))
    case CleanupNotConfirmed =>
      && status == StatusCleanupFailed && affected != [] && Lists(facts, affected, id => !Removed(facts, id))
      && forall id | id in facts.requiredTargetIds :: Reported(facts, id)
    case BehaviorContractMissing =>
      && status == StatusInconclusive && Lists(facts, affected, id => true)
      && AllRemoved(facts) && !facts.acceptedBehaviorContract
    case SourceStale =>
      && status == StatusInconclusive && Lists(facts, affected, id => true)
      && AllRemoved(facts) && facts.acceptedBehaviorContract && !facts.sourceFresh
    case TargetFailed(outcome) =>
      && status == StatusName(outcome) && Lists(facts, affected, id => Ended(facts, id, outcome))
      && Judged(facts) && IsWorst(facts, outcome)
    case AttestationMissing =>
      && status == StatusInconclusive && Lists(facts, affected, id => true)
      && AllEndedPassed(facts) && facts.attestation.None?
    case AttestationStale =>
      && status == StatusInconclusive && Lists(facts, affected, id => true)
      && AllEndedPassed(facts) && facts.attestation.Some? && !facts.attestation.value.isFresh
    case AttestationBindingMismatch =>
      && status == StatusInconclusive && Lists(facts, affected, id => true)
      && AllEndedPassed(facts) && facts.attestation.Some? && facts.attestation.value.isFresh
      && !(MadeFor(facts, facts.attestation.value) && Covers(locale, facts, facts.attestation.value))
  }

  ghost predicate Deserved(locale: CanonicalJson.KeyOrder, facts: Facts, verdict: Verdict) {
    match verdict
    case NotVerified(status, reason, affected) => Explains(locale, facts, status, reason, affected)
    case Verified(digest, ids) =>
      && AllEndedPassed(facts) && Lists(facts, ids, id => true)
      && facts.attestation.Some? && facts.attestation.value.isFresh
         && digest == facts.attestation.value.attestationDigest
      && MadeFor(facts, facts.attestation.value) && Covers(locale, facts, facts.attestation.value)
  }

  // The classifier gives it

  /** The map of results answers for a required target what the list says. */
  lemma {:induction false} MapSays(facts: Facts, id: JsString)
    requires NoRepeats(ResultIds(facts.targetResults)) && id in facts.requiredTargetIds
    ensures var results := ResultsByTarget(facts.targetResults);
            && (Reported(facts, id) <==> id in results)
            && (Removed(facts, id) <==> id in results && results[id].cleanup == Deleted)
            && (forall outcome :: Ended(facts, id, outcome) <==> id in results && results[id].outcome == outcome)
  {
    var results := ResultsByTarget(facts.targetResults);
    forall r ensures HasResult(facts, id, r) <==> id in results && results[id] == r {
      ResultsMeaning(facts.targetResults, id, r);
    }
    if id in results {
      assert HasResult(facts, id, results[id]);
    }
  }

  lemma {:induction false} ListsSorted(facts: Facts, ids: seq<JsString>, kind: JsString -> bool)
    requires Distinct(ids) && forall id :: id in ids <==> id in facts.requiredTargetIds && kind(id)
    ensures Lists(facts, Sort(ids, CodeUnits()), kind)
  {
    var sorted := Sort(ids, CodeUnits());
    CodeUnitsTotalOrder();
    SortSorts(ids, CodeUnits());
    SortMembers(ids, CodeUnits());
    SortDistinct(ids, CodeUnits());
    forall i, j | 0 <= i < j < |sorted| ensures CodeUnitLeq(sorted[i], sorted[j]) {
      assert CodeUnits()(sorted[i], sorted[j]);
    }
  }

  /** The ids that pass a filter, sorted, are those of the kind. */
  lemma {:induction false} ListsFiltered(facts: Facts, keep: JsString -> bool, kind: JsString -> bool)
    requires Usable(facts.requiredTargetIds) && forall id | id in facts.requiredTargetIds :: keep(id) == kind(id)
    ensures var ids := Filter(Sort(facts.requiredTargetIds, CodeUnits()), keep);
            && Lists(facts, Sort(ids, CodeUnits()), kind)
            && (ids == [] <==> forall id | id in facts.requiredTargetIds :: !kind(id))
            && |Sort(ids, CodeUnits())| == |ids|
  {
    var sorted := Sort(facts.requiredTargetIds, CodeUnits());
    SortDistinct(facts.requiredTargetIds, CodeUnits());
    SortMembers(facts.requiredTargetIds, CodeUnits());
    FilterDistinct(sorted, keep);
    forall id ensures id in Filter(sorted, keep) <==> id in facts.requiredTargetIds && kind(id) {
      FilterMember(sorted, keep, id);
    }
    ListsSorted(facts, Filter(sorted, keep), kind);
    FilterEmpty(sorted, keep);
  }

  /** All ids, sorted once or twice. */
  lemma {:induction false} ListsAll(facts: Facts)
    requires Usable(facts.requiredTargetIds)
    ensures var ids := Sort(facts.requiredTargetIds, CodeUnits());
            && Lists(facts, ids, id => true) && Sort(ids, CodeUnits()) == ids
               && (ids == [] <==> facts.requiredTargetIds == [])
  {
    ListsSorted(facts, facts.requiredTargetIds, id => true);
    CodeUnitsTotalOrder();
    SortSorts(facts.requiredTargetIds, CodeUnits());
    SortKeepsSorted(Sort(facts.requiredTargetIds, CodeUnits()), CodeUnits());
  }

  /** What the map says of every required target. */
  ghost predicate MapAgrees(facts: Facts, results: map<JsString, TargetResult>) {
    forall id | id in facts.requiredTargetIds ::
      && (Reported(facts, id) <==> id in results)
      && (Removed(facts, id) <==> id in results && results[id].cleanup == Deleted)
      && forall outcome :: Ended(facts, id, outcome) <==> id in results && results[id].outcome == outcome
  }

  lemma {:induction false} FailureExplained(locale: CanonicalJson.KeyOrder, facts: Facts,
      results: map<JsString, TargetResult>)
    requires Usable(facts.requiredTargetIds) && MapAgrees(facts, results) && Judged(facts)
    ensures var ids := Sort(facts.requiredTargetIds, CodeUnits());
            match FirstFailure(ids, results, Priority())
            case Some((outcome, affected)) =>
              Explains(locale, facts, StatusOf(outcome), TargetFailed(outcome), Sort(affected, CodeUnits()))
            case None => AllEndedPassed(facts)
  {
    var ids := Sort(facts.requiredTargetIds, CodeUnits());
    SortMembers(facts.requiredTargetIds, CodeUnits());
    match FirstFailure(ids, results, Priority())
    case Some((outcome, affected)) =>
      WorstFailureReported(ids, results);
      var k := FirstFailureIs(ids, results, Priority());
      ListsFiltered(facts, (id: JsString) => id in results && results[id].outcome == outcome, id =>
          Ended(facts, id, outcome));
      WorstExplained(facts, results, outcome, affected);
    case None =>
      NoneFailed(ids, results);
      forall id | id in facts.requiredTargetIds ensures Ended(facts, id, Passed) {
        assert Removed(facts, id);
      }
  }

  lemma {:induction false} WorstExplained(facts: Facts, results: map<JsString, TargetResult>, outcome: Outcome,
      affected: seq<JsString>)
    requires MapAgrees(facts, results) && outcome != Passed && affected != []
    requires forall id :: id in affected <==>
             id in facts.requiredTargetIds && id in results && results[id].outcome == outcome
    requires forall id | id in facts.requiredTargetIds && id in results :: Rank(outcome) <= Rank(results[id].outcome)
    ensures IsWorst(facts, outcome)
  {
    assert affected[0] in affected;
    assert Ended(facts, affected[0], outcome);
    forall id, other | Ended(facts, id, other) ensures Rank(outcome) <= Rank(other) {
      assert id in facts.requiredTargetIds;
    }
  }

  lemma {:induction false} NoneFailed(ids: seq<JsString>, results: map<JsString, TargetResult>)
    requires FirstFailure(ids, results, Priority()).None?
    ensures forall id | id in ids && id in results :: results[id].outcome == Passed
  {
    NoFailure(ids, results, Priority());
    forall id | id in ids && id in results ensures results[id].outcome == Passed {
      EveryFailureListed(results[id].outcome);
      WithOutcomeEmpty(ids, results, results[id].outcome);
    }
  }

  lemma {:induction false} EarlyExplained(locale: CanonicalJson.KeyOrder, facts: Facts,
      results: map<JsString, TargetResult>)
    requires Usable(facts.requiredTargetIds) && MapAgrees(facts, results)
    ensures match BeforeAttestation(facts, Sort(facts.requiredTargetIds, CodeUnits()), results)
            case Some(verdict) => Deserved(locale, facts, verdict)
            case None => AllEndedPassed(facts)
  {
    ListsAll(facts);
    ListsFiltered(facts, (id: JsString) => id !in results, id => !Reported(facts, id));
    ListsFiltered(facts, (id: JsString) => id !in results || results[id].cleanup != Deleted, id => !Removed(facts, id));
    if Judged(facts) {
      FailureExplained(locale, facts, results);
    }
  }

  lemma {:induction false} LateExplained(locale: CanonicalJson.KeyOrder, facts: Facts)
    requires AllUsable(facts) && AllEndedPassed(facts)
    ensures Deserved(locale, facts, ByAttestation(locale, facts, Sort(facts.requiredTargetIds, CodeUnits())))
  {
    ListsAll(facts);
    UsableExactly(ResultIds(facts.targetResults));
    if facts.attestation.Some? {
      MatchesMeaning(locale, facts, facts.attestation.value, Sort(facts.requiredTargetIds, CodeUnits()));
    }
  }

  /** Facts that are not refused get the verdict they deserve; no two verdicts are deserved for different reasons. */
  lemma {:induction false} VerdictExactly(locale: CanonicalJson.KeyOrder, facts: Facts)
    requires AllHashes(facts) && AllUsable(facts) && AllKnown(facts)
    ensures Classify(locale, facts).Ok? && Deserved(locale, facts, Classify(locale, facts).value)
  {
    RefusedExactly(locale, facts);
    UsableExactly(ResultIds(facts.targetResults));
    var results := ResultsByTarget(facts.targetResults);
    forall id | id in facts.requiredTargetIds
      ensures Reported(facts, id) <==> id in results
      ensures Removed(facts, id) <==> id in results && results[id].cleanup == Deleted
      ensures forall outcome :: Ended(facts, id, outcome) <==> id in results && results[id].outcome == outcome
    {
      MapSays(facts, id);
    }
    EarlyExplained(locale, facts, results);
    if BeforeAttestation(facts, Sort(facts.requiredTargetIds, CodeUnits()), results).None? {
      LateExplained(locale, facts);
    }
  }

  /** An attestation made for anything else is a mismatch on all targets, if nothing else is wrong with the run. */
  lemma {:induction false} OtherBindingRefused(locale: CanonicalJson.KeyOrder, facts: Facts)
    requires AllHashes(facts) && AllUsable(facts) && AllKnown(facts) && AllEndedPassed(facts)
    requires facts.attestation.Some? && facts.attestation.value.isFresh
    requires var a := facts.attestation.value;
             || a.sourceInputDigest != facts.sourceDigest || a.candidatePatchDigest != facts.candidatePatchDigest
             || a.behaviorContractDigest != facts.behaviorContractDigest || a.policyDigest != facts.policyDigest
    ensures Classify(locale, facts).Ok? && Classify(locale, facts).value.NotVerified?
    ensures Classify(locale, facts).value.reason == AttestationBindingMismatch
            && Lists(facts, Classify(locale, facts).value.affectedTargetIds, id => true)
  {
    VerdictExactly(locale, facts);
    OneReason(locale, facts, Classify(locale, facts).value);
  }

  lemma {:induction false} OneResult(facts: Facts, id: JsString, r: TargetResult, other: TargetResult)
    requires NoRepeats(ResultIds(facts.targetResults)) && HasResult(facts, id, r) && HasResult(facts, id, other)
    ensures r == other
  {
    ResultsMeaning(facts.targetResults, id, r);
    ResultsMeaning(facts.targetResults, id, other);
  }

  /** If every target passed, none ended in another way. */
  lemma {:induction false} NothingWorse(facts: Facts, outcome: Outcome)
    requires NoRepeats(ResultIds(facts.targetResults)) && AllEndedPassed(facts)
    ensures !IsWorst(facts, outcome)
  {
    forall id, r | HasResult(facts, id, r) ensures r.outcome == Passed {
      assert Ended(facts, id, Passed);
      var passed :| HasResult(facts, id, passed) && passed.outcome == Passed;
      OneResult(facts, id, r, passed);
    }
  }

  lemma {:induction false} OneReason(locale: CanonicalJson.KeyOrder, facts: Facts, verdict: Verdict)
    requires Deserved(locale, facts, verdict) && AllEndedPassed(facts)
    requires facts.attestation.Some? && facts.attestation.value.isFresh && !MadeFor(facts, facts.attestation.value)
    requires NoRepeats(ResultIds(facts.targetResults))
    ensures verdict.NotVerified? && verdict.reason == AttestationBindingMismatch
  {
    forall outcome ensures !IsWorst(facts, outcome) {
      NothingWorse(facts, outcome);
    }
    assert verdict.NotVerified? && verdict.affectedTargetIds != [] ==>
      verdict.affectedTargetIds[0] in verdict.affectedTargetIds;
    assert forall id | id in facts.requiredTargetIds :: Removed(facts, id) && Reported(facts, id);
  }
}

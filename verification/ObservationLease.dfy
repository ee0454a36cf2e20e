/**
 The observation lease: one session's process lineage, and a close that waits for its descendants
 behind a quiet barrier and a hard deadline.
 */
module ObservationLease {
  import opened Common

  // Policies

  datatype Policy = Policy(quietPeriod: nat, hardTimeout: nat)

  datatype PolicyError = ZeroHardTimeout | QuietPeriodExceedsHardTimeout | DurationOverflow

  /** Durations are in nanoseconds and may be longer than the clock can tell. */
  function NewPolicy(quietPeriod: nat, hardTimeout: nat): (policy: Result<Policy, PolicyError>)
    ensures policy.Ok? <==> quietPeriod <= hardTimeout && 0 < hardTimeout <= U64_MAX
    ensures policy.Ok? ==> policy.value == Policy(quietPeriod, hardTimeout)
    ensures policy == Err(DurationOverflow) <==> quietPeriod > U64_MAX || hardTimeout > U64_MAX
    ensures policy == Err(ZeroHardTimeout) <==> quietPeriod <= U64_MAX && hardTimeout == 0
  {
    if quietPeriod > U64_MAX || hardTimeout > U64_MAX then Err(DurationOverflow)
    else if hardTimeout == 0 then Err(ZeroHardTimeout)
    else if quietPeriod > hardTimeout then Err(QuietPeriodExceedsHardTimeout)
    else Ok(Policy(quietPeriod, hardTimeout))
  }

  // The lease

  datatype ProcessIdentity = ProcessIdentity(bootId: Text, processId: nat, startedAt: nat)

  datatype Health = Healthy | Lost

  datatype Phase = Observing | Draining | Checkpointing | Ended | PartialCapture

  datatype Gap = DescendantDrainTimeout | ObserverLoss

  datatype Lease = Lease(
    root: ProcessIdentity, policy: Policy, phase: Phase, deadline: Option<nat>, quietSince: Option<nat>,
    known: set<ProcessIdentity>, live: set<ProcessIdentity>, gaps: set<Gap>)

  function Open(root: ProcessIdentity, policy: Policy): Lease {
    Lease(root, policy, Observing, None, None, {root}, {}, {})
  }

  function SaturatingAdd(a: nat, b: nat): nat {
    Min(a + b, U64_MAX)
  }

  function SaturatingSub(a: nat, b: nat): nat {
    if a < b then 0 else a - b
  }

  function Advance(l: Lease, at: nat, health: Health): Lease {
    if l.phase != Draining then l
    else if health == Lost || l.deadline.None? then l.(gaps := l.gaps + {ObserverLoss}, phase := PartialCapture)
    else if at >= l.deadline.value then
      if l.live == {} then l.(phase := Checkpointing)
        else l.(gaps := l.gaps + {DescendantDrainTimeout}, phase := PartialCapture)
    else if l.live == {} && l.quietSince.Some? && SaturatingSub(at, l.quietSince.value) >= l.policy.quietPeriod then
      l.(phase := Checkpointing)
    else l
  }

  predicate Admits(l: Lease, process: ProcessIdentity, parent: ProcessIdentity) {
    (l.phase == Observing || l.phase == Draining) && process.bootId == l.root.bootId && parent in l.known
  }

  function RecordStart(l: Lease, process: ProcessIdentity, parent: ProcessIdentity, at: nat): Lease {
    if !Admits(l, process, parent) then l else
    var joined := l.(known := l.known + {process}, live := l.live + {process});
    if l.phase == Draining then Advance(joined.(quietSince := None), at, Healthy) else joined
  }

  function RecordExit(l: Lease, process: ProcessIdentity, at: nat): Lease {
    var left := l.(live := l.live - {process});
    Advance(if process in l.live && l.phase == Draining && left.live == {} then left.(quietSince := Some(at))
        else left, at, Healthy)
  }

  function RequestEnd(l: Lease, at: nat): Lease {
    if l.phase != Observing then l
    else Advance(l.(phase := Draining, deadline := Some(SaturatingAdd(at, l.policy.hardTimeout)),
                    quietSince := if l.live == {} then Some(at) else None), at, Healthy)
  }

  function CheckpointCompleted(l: Lease): Lease {
    if l.phase != Checkpointing then l else l.(phase := Ended)
  }

  class ObservationLease {
    const root: ProcessIdentity
    const policy: Policy
    var state: Phase
    var deadline: Option<nat>
    var quietSince: Option<nat>
    var knownLineage: set<ProcessIdentity>
    var liveDescendants: set<ProcessIdentity>
    var gaps: set<Gap>

    function Snapshot(): Lease
      reads this
    {
      Lease(root, policy, state, deadline, quietSince, knownLineage, liveDescendants, gaps)
    }

    constructor (root: ProcessIdentity, policy: Policy)
      ensures Snapshot() == Open(root, policy)
    {
      this.root, this.policy := root, policy;
      state, deadline, quietSince := Observing, None, None;
      knownLineage, liveDescendants, gaps := {root}, {}, {};
    }

    method RecordProcessStart(process: ProcessIdentity, parent: ProcessIdentity, at: nat) returns (accepted: bool)
      modifies this
      ensures Snapshot() == RecordStart(old(Snapshot()), process, parent, at)
      ensures accepted <==> process !in old(knownLineage) && process in knownLineage
    {
      if (state != Observing && state != Draining) || process.bootId != root.bootId || parent !in knownLineage {
        return false;
      }
      accepted := process !in knownLineage;
      knownLineage := knownLineage + {process};
      liveDescendants := liveDescendants + {process};
      if state == Draining {
        quietSince := None;
        AdvanceTo(at, Healthy);
      }
    }

    method RecordProcessExit(process: ProcessIdentity, at: nat) returns (removed: bool)
      modifies this
      ensures Snapshot() == RecordExit(old(Snapshot()), process, at)
      ensures removed <==> process in old(liveDescendants)
    {
      removed := process in liveDescendants;
      liveDescendants := liveDescendants - {process};
      if removed && state == Draining && liveDescendants == {} {
        quietSince := Some(at);
      }
      AdvanceTo(at, Healthy);
    }

    method RequestSessionEnd(at: nat)
      modifies this
      ensures Snapshot() == RequestEnd(old(Snapshot()), at)
    {
      if state != Observing {
        return;
      }
      state := Draining;
      deadline := Some(SaturatingAdd(at, policy.hardTimeout));
      quietSince := if liveDescendants == {} then Some(at) else None;
      AdvanceTo(at, Healthy);
    }

    method AdvanceTo(at: nat, health: Health)
      modifies this`state, this`gaps
      ensures Snapshot() == Advance(old(Snapshot()), at, health)
    {
      if state != Draining {
        return;
      }
      if health == Lost {
        gaps := gaps + {ObserverLoss};
        state := PartialCapture;
        return;
      }
      if deadline.None? {
        gaps := gaps + {ObserverLoss};
        state := PartialCapture;
        return;
      }
      if at >= deadline.value {
        if liveDescendants == {} {
          state := Checkpointing;
        } else {
          gaps := gaps + {DescendantDrainTimeout};
          state := PartialCapture;
        }
        return;
      }
      if liveDescendants == {} && quietSince.Some? && SaturatingSub(at, quietSince.value) >= policy.quietPeriod {
        state := Checkpointing;
      }
    }

    method CompleteCheckpoint() returns (done: bool)
      modifies this`state
      ensures Snapshot() == CheckpointCompleted(old(Snapshot()))
      ensures done <==> old(state) == Checkpointing
    {
      if state != Checkpointing {
        return false;
      }
      state := Ended;
      done := true;
    }
  }

  // Runs

  datatype Event =
    | Start(process: ProcessIdentity, parent: ProcessIdentity, at: nat)
    | Exit(process: ProcessIdentity, at: nat)
    | End(at: nat)
    | Tick(at: nat, health: Health)
    | Completed

  function Step(l: Lease, e: Event): Lease {
    match e
    case Start(process, parent, at) => RecordStart(l, process, parent, at)
    case Exit(process, at) => RecordExit(l, process, at)
    case End(at) => RequestEnd(l, at)
    case Tick(at, health) => Advance(l, at, health)
    case Completed => CheckpointCompleted(l)
  }

  function Run(l: Lease, events: seq<Event>): Lease {
    if events == [] then l else Step(Run(l, events[..|events| - 1]), events[|events| - 1])
  }

  /** What holds in every reachable state. */
  ghost predicate Invariant(l: Lease) {
    && (l.phase == Observing ==> l.deadline.None?)
    && (l.phase == Draining ==> l.deadline.Some? && (l.quietSince.Some? <==> l.live == {}))
    && (l.phase == Checkpointing || l.phase == Ended ==> l.live == {})
    && (l.gaps != {} <==> l.phase == PartialCapture)
    && l.root in l.known && l.live <= l.known
    && forall p | p in l.known :: p.bootId == l.root.bootId
  }

  lemma {:induction false} AdvanceKeepsInvariant(l: Lease, at: nat, health: Health)
    requires Invariant(l)
    ensures Invariant(Advance(l, at, health)) && Advance(l, at, health).root == l.root
            && Advance(l, at, health).policy == l.policy
  {}

  lemma {:induction false} StepKeepsInvariant(l: Lease, e: Event)
    requires Invariant(l)
    ensures Invariant(Step(l, e)) && Step(l, e).root == l.root && Step(l, e).policy == l.policy
  {
    match e
    case Start(process, parent, at) =>
      if Admits(l, process, parent) {
        var joined := l.(known := l.known + {process}, live := l.live + {process});
        assert process in joined.live && joined.gaps == {};
        if l.phase == Draining {
          AdvanceKeepsInvariant(joined.(quietSince := None), at, Healthy);
        }
      }
    case Exit(process, at) =>
      var left := l.(live := l.live - {process});
      AdvanceKeepsInvariant(if process in l.live && l.phase == Draining && left.live == {} then
          left.(quietSince := Some(at)) else left, at, Healthy);
    case End(at) =>
      if l.phase == Observing {
        AdvanceKeepsInvariant(l.(phase := Draining, deadline := Some(SaturatingAdd(at, l.policy.hardTimeout)),
                                 quietSince := if l.live == {} then Some(at) else None), at, Healthy);
      }
    case Tick(at, health) => AdvanceKeepsInvariant(l, at, health);
    case Completed =>
  }

  lemma {:induction false} InvariantInEveryRun(root: ProcessIdentity, policy: Policy, events: seq<Event>)
    ensures Invariant(Run(Open(root, policy), events))
    ensures Run(Open(root, policy), events).root == root && Run(Open(root, policy), events).policy == policy
  {
    if events != [] {
      var front := events[..|events| - 1];
      InvariantInEveryRun(root, policy, front);
      StepKeepsInvariant(Run(Open(root, policy), front), events[|events| - 1]);
    }
  }

  // Lineage

  /** Which process joined the lineage, and through which parent. */
  datatype Admission = Admission(process: ProcessIdentity, parent: ProcessIdentity)

  function Joined(l: Lease, e: Event): seq<Admission> {
    if e.Start? && Admits(l, e.process, e.parent) && e.process !in l.known then [Admission(e.process, e.parent)] else []
  }

  function Admissions(l: Lease, events: seq<Event>): seq<Admission> {
    if events == [] then [] else
    Admissions(l, events[..|events| - 1]) + Joined(Run(l, events[..|events| - 1]), events[|events| - 1])
  }

  ghost predicate KnownBy(root: ProcessIdentity, admissions: seq<Admission>, p: ProcessIdentity) {
    p == root || exists i :: 0 <= i < |admissions| && admissions[i].process == p
  }

  /** The lineage is the root and the admitted processes, each through a parent known before it. */
  ghost predicate Lineage(l: Lease, admissions: seq<Admission>) {
    && (forall p :: p in l.known <==> KnownBy(l.root, admissions, p))
    && (forall i | 0 <= i < |admissions| :: KnownBy(l.root, admissions[..i], admissions[i].parent))
    && (forall i | 0 <= i < |admissions| :: !KnownBy(l.root, admissions[..i], admissions[i].process))
  }

  lemma {:induction false} LineageGrows(l: Lease, admissions: seq<Admission>, process: ProcessIdentity,
      parent: ProcessIdentity)
    requires Lineage(l, admissions) && parent in l.known && process !in l.known
    ensures Lineage(l.(known := l.known + {process}), admissions + [Admission(process, parent)])
  {
    var more := admissions + [Admission(process, parent)];
    assert more[..|admissions|] == admissions && more[|admissions|].process == process;
    assert forall i | 0 <= i < |admissions| :: more[..i] == admissions[..i] && more[i] == admissions[i];
    forall p ensures p in l.known + {process} <==> KnownBy(l.root, more, p) {
      assert KnownBy(l.root, admissions, p) ==> KnownBy(l.root, more, p) by {
        if p != l.root && KnownBy(l.root, admissions, p) {
          var i :| 0 <= i < |admissions| && admissions[i].process == p;
          assert more[i].process == p;
        }
      }
    }
  }

  lemma {:induction false} KnownAfter(l: Lease, e: Event)
    ensures Step(l, e).root == l.root
    ensures Step(l, e).known == if Joined(l, e) != [] then l.known + {e.process} else l.known
  {}

  lemma {:induction false} LineageSame(l: Lease, later: Lease, admissions: seq<Admission>)
    requires Lineage(l, admissions) && later.root == l.root && later.known == l.known
    ensures Lineage(later, admissions)
  {}

  lemma {:induction false} LineageInEveryRun(root: ProcessIdentity, policy: Policy, events: seq<Event>)
    ensures Lineage(Run(Open(root, policy), events), Admissions(Open(root, policy), events))
  {
    var start := Open(root, policy);
    if events != [] {
      var front, e := events[..|events| - 1], events[|events| - 1];
      LineageInEveryRun(root, policy, front);
      var before, admissions := Run(start, front), Admissions(start, front);
      KnownAfter(before, e);
      if Joined(before, e) == [] {
        assert admissions + [] == admissions;
        LineageSame(before, Step(before, e), admissions);
      } else {
        LineageGrows(before, admissions, e.process, e.parent);
        LineageSame(before.(known := before.known + {e.process}), Step(before, e), admissions + Joined(before, e));
      }
    }
  }

  /** From the root to `p`, each process the admitted child of the one before it. */
  ghost predicate Descent(root: ProcessIdentity, admissions: seq<Admission>, p: ProcessIdentity,
      chain: seq<ProcessIdentity>) {
    && chain != [] && chain[0] == root && chain[|chain| - 1] == p
    && forall i | 0 <= i < |chain| - 1 :: Admission(chain[i + 1], chain[i]) in admissions
  }

  ghost predicate Descends(root: ProcessIdentity, admissions: seq<Admission>, p: ProcessIdentity) {
    exists chain :: Descent(root, admissions, p, chain)
  }

  lemma {:induction false} DescentTo(l: Lease, admissions: seq<Admission>, n: nat, p: ProcessIdentity)
      returns (chain: seq<ProcessIdentity>)
    requires Lineage(l, admissions) && n <= |admissions| && KnownBy(l.root, admissions[..n], p)
    ensures Descent(l.root, admissions, p, chain)
    decreases n
  {
    if p == l.root {
      chain := [p];
    } else {
      var i :| 0 <= i < n && admissions[..n][i].process == p;
      var above := DescentTo(l, admissions, i, admissions[i].parent);
      chain := above + [p];
      assert admissions[i] == Admission(p, admissions[i].parent);
    }
  }

  lemma {:induction false} DescendantIsKnown(l: Lease, admissions: seq<Admission>, p: ProcessIdentity,
      chain: seq<ProcessIdentity>)
    requires Lineage(l, admissions) && Descent(l.root, admissions, p, chain)
    ensures p in l.known
  {
    assert KnownBy(l.root, admissions, l.root);
    if |chain| > 1 {
      assert Admission(chain[|chain| - 2 + 1], chain[|chain| - 2]) in admissions;
      var i :| 0 <= i < |admissions| && admissions[i] == Admission(p, chain[|chain| - 2]);
      assert KnownBy(l.root, admissions, p);
    }
  }

  /** The known processes are exactly those that descend from the root through admitted parents. */
  lemma {:induction false} KnownDescends(root: ProcessIdentity, policy: Policy, events: seq<Event>, p: ProcessIdentity)
    ensures p in Run(Open(root, policy), events).known <==> Descends(root, Admissions(Open(root, policy), events), p)
  {
    var l, admissions := Run(Open(root, policy), events), Admissions(Open(root, policy), events);
    LineageInEveryRun(root, policy, events);
    InvariantInEveryRun(root, policy, events);
    if p in l.known {
      assert admissions[..|admissions|] == admissions;
      var chain := DescentTo(l, admissions, |admissions|, p);
      assert Descent(root, admissions, p, chain);
    } else {
      forall chain ensures !Descent(root, admissions, p, chain) {
        if Descent(root, admissions, p, chain) {
          DescendantIsKnown(l, admissions, p, chain);
        }
      }
    }
  }

  // Timing

  /** The deadline is set once, by the request that ends observing, and never moves. */
  lemma {:induction false} DeadlineIsFixed(l: Lease, events: seq<Event>)
    requires Invariant(l) && l.deadline.Some?
    ensures Run(l, events).deadline == l.deadline && Invariant(Run(l, events))
  {
    if events != [] {
      DeadlineIsFixed(l, events[..|events| - 1]);
      StepKeepsInvariant(Run(l, events[..|events| - 1]), events[|events| - 1]);
    }
  }

  lemma {:induction false} DeadlineSetBy(l: Lease, e: Event)
    requires Invariant(l) && l.deadline.None? && Step(l, e).deadline.Some?
    ensures e.End? && l.phase == Observing && Step(l, e).deadline.value == Min(e.at + l.policy.hardTimeout, U64_MAX)
  {}

  /** From the deadline on, a clock reading or an exit ends the drain. */
  lemma {:induction false} DeadlineEndsDrain(l: Lease, events: seq<Event>, e: Event)
    requires Invariant(l) && l.deadline.Some? && (e.Tick? || e.Exit?) && e.at >= l.deadline.value
    ensures var after := Run(l, events + [e]);
            && after.phase != Draining
            && (Run(l, events).phase == Draining ==> after.phase == Checkpointing || after.phase == PartialCapture)
  {
    DeadlineIsFixed(l, events);
    assert (events + [e])[..|events|] == events;
  }

  function TimeOf(e: Event): Option<nat> {
    if e.Completed? then None else Some(e.at)
  }

  ghost predicate InTimeOrder(events: seq<Event>) {
    forall i, j | 0 <= i < j < |events| && TimeOf(events[i]).Some? && TimeOf(events[j]).Some? ::
      TimeOf(events[i]).value <= TimeOf(events[j]).value
  }

  /** Since event `k`, at time `since`, no descendant has been live. */
  ghost predicate QuietFrom(l: Lease, events: seq<Event>, k: nat, since: nat) {
    && k < |events| && TimeOf(events[k]) == Some(since)
    && forall i | k < i <= |events| :: Run(l, events[..i]).live == {}
  }

  lemma {:induction false} QuietExtends(l: Lease, events: seq<Event>, e: Event, k: nat, since: nat)
    requires QuietFrom(l, events, k, since) && Run(l, events + [e]).live == {}
    ensures QuietFrom(l, events + [e], k, since)
  {
    var more := events + [e];
    assert more[..|more|] == more;
    assert forall i | 0 <= i <= |events| :: more[..i] == events[..i];
  }

  lemma {:induction false} QuietNow(l: Lease, events: seq<Event>, e: Event)
    requires TimeOf(e).Some? && Run(l, events + [e]).live == {}
    ensures QuietFrom(l, events + [e], |events|, TimeOf(e).value)
  {
    assert (events + [e])[..|events| + 1] == events + [e];
  }

  /** A quiet mark is kept, or set by the event itself, and either way nothing is live. */
  lemma {:induction false} MarkAfter(l: Lease, e: Event)
    requires Invariant(l) && (l.phase == Observing || l.phase == Draining)
    ensures var after := Step(l, e);
            after.quietSince.Some? && (after.phase == Draining || after.phase == Checkpointing) ==>
              && after.live == {}
              && ((l.phase == Draining && after.quietSince == l.quietSince) || (TimeOf(e) == after.quietSince))
  {}

  /** While draining, the quiet mark is the time of an event since which nothing has been live. */
  lemma {:induction false} MarkIsQuiet(root: ProcessIdentity, policy: Policy, events: seq<Event>) returns (k: nat)
    requires var l := Run(Open(root, policy), events); l.phase == Draining && l.quietSince.Some?
    ensures QuietFrom(Open(root, policy), events, k, Run(Open(root, policy), events).quietSince.value)
  {
    var start, front, e := Open(root, policy), events[..|events| - 1], events[|events| - 1];
    var before := Run(start, front);
    InvariantInEveryRun(root, policy, front);
    assert front + [e] == events;
    PhasesAhead(before, e);
    MarkAfter(before, e);
    if before.phase == Draining && Run(start, events).quietSince == before.quietSince {
      k := MarkIsQuiet(root, policy, front);
      QuietExtends(start, front, e, k, before.quietSince.value);
    } else {
      k := |front|;
      QuietNow(start, front, e);
    }
  }

  /** The order of the phases. */
  lemma {:induction false} PhasesAhead(l: Lease, e: Event)
    ensures var after := Step(l, e).phase;
            match l.phase
            case Observing => after != Ended && (after != Observing ==> e.End?)
            case Draining => after != Observing && after != Ended
            case Checkpointing => after == if e.Completed? then Ended else Checkpointing
            case Ended => after == Ended
            case PartialCapture => after == PartialCapture
  {}

  /** What it takes to be checkpointing before the deadline. */
  lemma {:induction false} EarlyMeaning(l: Lease, e: Event)
    requires Invariant(l) && l.phase != Checkpointing && Step(l, e).phase == Checkpointing
    requires TimeOf(e).Some? && TimeOf(e).value < Step(l, e).deadline.value
    requires l.quietSince.Some? && l.phase == Draining ==> l.quietSince.value <= TimeOf(e).value
    ensures Step(l, e).quietSince.Some? && Step(l, e).quietSince.value + l.policy.quietPeriod <= TimeOf(e).value
  {}

  lemma {:induction false} EntersAtATime(l: Lease, e: Event)
    requires Invariant(l) && l.phase != Checkpointing && Step(l, e).phase == Checkpointing
    ensures TimeOf(e).Some? && Step(l, e).deadline.Some?
  {}

  /**
   With times that never go back, checkpointing begins before the deadline only when no descendant has
   been live for the whole quiet period: since some event at least that long ago, none was.
   */
  lemma {:induction false} EarlyOnlyAfterQuiet(root: ProcessIdentity, policy: Policy, events: seq<Event>, e: Event)
      returns (k: nat)
    requires InTimeOrder(events + [e])
    requires Run(Open(root, policy), events).phase != Checkpointing
    requires var after := Run(Open(root, policy), events + [e]);
             after.phase == Checkpointing && TimeOf(e).Some? && after.deadline.Some?
                 && TimeOf(e).value < after.deadline.value
    ensures k <= |events| && TimeOf((events + [e])[k]).Some?
    ensures TimeOf((events + [e])[k]).value + policy.quietPeriod <= TimeOf(e).value
    ensures QuietFrom(Open(root, policy), events + [e], k, TimeOf((events + [e])[k]).value)
  {
    var start, more := Open(root, policy), events + [e];
    var before := Run(start, events);
    assert more[..|events|] == events && more[|events|] == e;
    InvariantInEveryRun(root, policy, events);
    PhasesAhead(before, e);
    if before.phase == Draining && before.quietSince.Some? {
      k := MarkIsQuiet(root, policy, events);
      assert more[k] == events[k];
      MarkAfter(before, e);
      EarlyMeaning(before, e);
      if Step(before, e).quietSince == before.quietSince {
        QuietExtends(start, events, e, k, before.quietSince.value);
      } else {
        k := |events|;
        QuietNow(start, events, e);
      }
    } else {
      k := |events|;
      MarkAfter(before, e);
      EarlyMeaning(before, e);
      QuietNow(start, events, e);
    }
  }

  /** Some event at least a quiet period before `time` since which no descendant has been live. */
  ghost predicate QuietLongEnough(l: Lease, events: seq<Event>, quietPeriod: nat, time: nat) {
    exists k: nat, since: nat :: QuietFrom(l, events, k, since) && since + quietPeriod <= time
  }

  /** Checkpointing begins at or past the deadline, or after a quiet period; in no other way. */
  lemma {:induction false} CheckpointingBegins(root: ProcessIdentity, policy: Policy, events: seq<Event>, e: Event)
    requires InTimeOrder(events + [e])
    requires Run(Open(root, policy), events).phase != Checkpointing && Run(Open(root, policy), events + [e]).phase ==
             Checkpointing
    ensures var after := Run(Open(root, policy), events + [e]);
            && TimeOf(e).Some? && after.deadline.Some?
            && (TimeOf(e).value >= after.deadline.value
               || QuietLongEnough(Open(root, policy), events + [e], policy.quietPeriod, TimeOf(e).value))
  {
    var start, more := Open(root, policy), events + [e];
    assert more[..|events|] == events && more[|events|] == e;
    InvariantInEveryRun(root, policy, events);
    EntersAtATime(Run(start, events), e);
    if TimeOf(e).value < Run(start, more).deadline.value {
      var k := EarlyOnlyAfterQuiet(root, policy, events, e);
      assert QuietFrom(start, more, k, TimeOf(more[k]).value);
    }
  }

  // One event of a drain

  /** Who is live after an event: an admitted start adds its process, and an exit takes its own away. */
  ghost predicate LiveAfter(l: Lease, e: Event, p: ProcessIdentity) {
    match e
    case Start(process, parent, _) =>
      p in l.live || (p == process && (l.phase == Observing || l.phase == Draining)
                      && process.bootId == l.root.bootId && parent in l.known)
    case Exit(process, _) => p in l.live && p != process
    case _ => p in l.live
  }

  ghost predicate NothingLive(l: Lease, e: Event) {
    forall p :: !LiveAfter(l, e, p)
  }

  /** Since when it has been quiet after an event: since the exit of the last process, or since before. */
  ghost predicate QuietSince(l: Lease, e: Event, since: nat) {
    NothingLive(l, e) && if e.Exit? && e.process in l.live then since == e.at else l.quietSince == Some(since)
  }

  /** A whole quiet period has gone by. */
  ghost predicate QuietLong(l: Lease, e: Event, at: nat) {
    exists since: nat :: QuietSince(l, e, since) && (since + l.policy.quietPeriod <= at || l.policy.quietPeriod == 0)
  }

  lemma {:induction false} LiveExactly(l: Lease, e: Event)
    ensures forall p :: p in Step(l, e).live <==> LiveAfter(l, e, p)
    ensures Step(l, e).live == {} <==> NothingLive(l, e)
  {
    forall p ensures p in Step(l, e).live <==> LiveAfter(l, e, p) {}
    if NothingLive(l, e) {
      assert forall p :: p !in Step(l, e).live;
    }
  }

  /**
   What an event does to a drain. A lost observer makes it partial with that gap; the deadline ends it, partial with
   the other gap if anything is live; a whole quiet period ends it; and nothing else does.
   */
  lemma {:induction false} DrainExactly(l: Lease, e: Event)
    requires Invariant(l) && l.phase == Draining && TimeOf(e).Some?
    ensures var after, at, deadline, lost := Step(l, e), TimeOf(e).value, l.deadline.value, e.Tick? && e.health == Lost;
            var moves := !e.End? && (e.Start? ==> Admits(l, e.process, e.parent));
            && (after.phase == PartialCapture && after.gaps == {ObserverLoss} <==> lost)
            && (after.phase == PartialCapture && after.gaps == {DescendantDrainTimeout} <==>
                  moves && !lost && at >= deadline && !NothingLive(l, e))
            && (after.phase == Checkpointing <==>
                  moves && !lost && NothingLive(l, e) && (at >= deadline || QuietLong(l, e, at)))
            && (after.phase == Draining <==> after.phase != PartialCapture && after.phase != Checkpointing)
            && after.deadline == l.deadline && (after.phase != PartialCapture ==> after.gaps == {})
  {
    LiveExactly(l, e);
    var after, at := Step(l, e), TimeOf(e).value;
    if NothingLive(l, e) {
      DrainQuiet(l, e);
    }
    assert ObserverLoss in {ObserverLoss} && ObserverLoss !in {DescendantDrainTimeout};
  }

  lemma {:induction false} DrainQuiet(l: Lease, e: Event)
    requires Invariant(l) && l.phase == Draining && TimeOf(e).Some? && NothingLive(l, e)
    ensures !e.Start? || !Admits(l, e.process, e.parent)
    ensures var since := if (e.Exit? && e.process in l.live) || l.quietSince.None? then TimeOf(e).value
            else l.quietSince.value;
            && (!(e.Exit? && e.process in l.live) ==> l.quietSince.Some?)
            && (QuietLong(l, e, TimeOf(e).value) <==>
                  since + l.policy.quietPeriod <= TimeOf(e).value || l.policy.quietPeriod == 0)
  {
    assert forall p :: !LiveAfter(l, e, p);
    assert e.Start? ==> !LiveAfter(l, e, e.process);
    if !(e.Exit? && e.process in l.live) {
      forall p ensures p !in l.live {
        assert !LiveAfter(l, e, p);
      }
      assert l.live == {};
      assert QuietSince(l, e, l.quietSince.value);
    } else {
      assert QuietSince(l, e, e.at);
    }
  }

  /**
   A request to end starts the drain: quiet from then on if nothing is live, and over at once if no quiet is asked for.
   */
  lemma {:induction false} EndExactly(l: Lease, at: nat)
    requires Invariant(l)
    ensures var after := Step(l, End(at));
            if l.phase != Observing then after == l
            else
              && after.deadline == Some(Min(at + l.policy.hardTimeout, U64_MAX))
              && after.quietSince == (if l.live == {} then Some(at) else None)
              && after.live == l.live && after.known == l.known
              && (after.phase == Checkpointing <==>
                    l.live == {} && (l.policy.quietPeriod == 0 || at >= after.deadline.value))
              && (after.phase == PartialCapture <==> l.live != {} && at >= after.deadline.value)
              && after.phase in {Draining, Checkpointing, PartialCapture}
              && after.gaps == (if after.phase == PartialCapture then {DescendantDrainTimeout} else {})
  {}

  /** Once over, a lease stays as it is, but for the checkpoint that completes it; only who is live is still tracked. */
  lemma {:induction false} OverStays(l: Lease, e: Event)
    requires l.phase == PartialCapture || l.phase == Checkpointing || l.phase == Ended
    ensures var after := Step(l, e);
            && after.gaps == l.gaps && after.known == l.known && after.deadline == l.deadline && after.live <= l.live
            && after.phase == if l.phase == Checkpointing && e.Completed? then Ended else l.phase
  {}
}

/** What the denominator check means, read off the entries of the versions and the events of the
    log alone. */
module DenominatorMeaning {
  import opened Denominator

  // ----- entries and events -----

  ghost predicate Holds(c: Cohort, id: string) { exists e :: e in c.entries && e.identity == id }

  ghost predicate HoldsBlind(c: Cohort, id: string) {
    exists e :: e in c.entries && e.identity == id && e.role == Blind
  }

  ghost predicate HoldsGuided(c: Cohort, id: string) {
    exists e :: e in c.entries && e.identity == id && e.role == Blind && e.guidedFix
  }

  /** Some entry of the identity goes, whatever its role, or the last blind one does. */
  ghost predicate Leaves(prev: Cohort, curr: Cohort, id: string) {
    (Holds(prev, id) && !Holds(curr, id)) || (HoldsBlind(prev, id) && !HoldsBlind(curr, id))
  }

  /** The last blind entry goes, and the identity stays under another role. */
  ghost predicate Softens(prev: Cohort, curr: Cohort, id: string) {
    HoldsBlind(prev, id) && !HoldsBlind(curr, id) && Holds(curr, id)
  }

  /** The steps of a history at which a transition takes place. */
  ghost function LeavingAt(history: seq<Cohort>, t: Transition): set<nat> {
    set n: nat | 1 <= n < |history| && StepOf(history, n, t) && Leaves(history[n - 1], history[n], t.identity)
  }

  predicate StepOf(history: seq<Cohort>, n: nat, t: Transition)
    requires 1 <= n < |history|
  {
    history[n - 1].version == t.from && history[n].version == t.to
  }

  const CORRECTING: set<ExclusionReason> := {
    PathDrift, CweReclass, AliasDupe, SeedSwap, DropReasonChange, TargetPathsNarrowing, SinkProbeEdit,
    TriageDedupSuppression, RoleDowngrade
  }

  const INFRASTRUCTURE: set<ExclusionReason> := {
    Crash, Timeout, MalformedSarif, BudgetTruncation, FetchFailure, RepoGone, UnverifiedPatchedDeletion, NoArtifact
  }

  /** The four classes of a reason: corrections, infrastructure, an analysis that cannot run, and a
      refusal. */
  lemma ReasonMeaning(reason: ExclusionReason)
    ensures Classification(reason).CohortCorrection? <==> reason in CORRECTING
    ensures Classification(reason).Infrastructure? <==> reason in INFRASTRUCTURE
    ensures Classification(reason).AnalysisLimitation? <==> reason == UnsupportedLanguage
    ensures Classification(reason).RefusedByPolicy? <==> reason == PolicyRefusal
  {
  }

  /** The logged corrections that name a transition. */
  function NamedBy(events: seq<ExclusionEvent>, t: Transition): set<nat> {
    set i: nat | i < |events| && events[i].reason in CORRECTING && events[i].transition == t && t.identity != ""
  }

  lemma CorrectionCount(events: seq<ExclusionEvent>, t: Transition)
    ensures Corrections(events)[t] == |NamedBy(events, t)|
  {
    CorrectionsMeaning(events, t);
    assert AuthorizedBy(events, t) == NamedBy(events, t);
  }

  // ----- what has to be authorized -----

  lemma DepartedMeaning(prev: Cohort, curr: Cohort, id: string)
    ensures id in Departed(prev, curr) <==> Leaves(prev, curr, id)
    ensures id in UnguidedDowngrades(prev, curr) <==> Softens(prev, curr, id) && !HoldsGuided(prev, id)
  {
  }

  lemma KeyMeaning(ids: set<string>, prev: Cohort, curr: Cohort, t: Transition)
    ensures t in KeySet(ids, prev, curr) <==>
      t.identity in ids && prev.version == t.from && curr.version == t.to
    ensures Keys(ids, prev, curr)[t] == if t in KeySet(ids, prev, curr) then 1 else 0
  {
  }

  /** A transition has to be authorized once for every step at which an entry of any role goes or
      the last blind one does. */
  lemma {:induction false} DemandMeaning(history: seq<Cohort>, t: Transition)
    ensures Demand(history)[t] == |LeavingAt(history, t)|
  {
    var n := |history| - 1;
    if n >= 1 {
      var prev, curr, front := history[n - 1], history[n], history[..n];
      DemandMeaning(front, t);
      DepartedMeaning(prev, curr, t.identity);
      KeyMeaning(Departed(prev, curr), prev, curr, t);
      LeavingGrows(history, t);
    } else {
      assert LeavingAt(history, t) == {};
    }
  }

  lemma LeavingGrows(history: seq<Cohort>, t: Transition)
    requires |history| >= 2
    ensures var n := |history| - 1;
      LeavingAt(history, t) == LeavingAt(history[..n], t)
        + if StepOf(history, n, t) && Leaves(history[n - 1], history[n], t.identity) then {n} else {}
  {
  }

  /** The steps before the last one are those of the shorter history. */
  ghost function Earlier(history: seq<Cohort>, t: Transition, n: nat): set<nat> {
    set m: nat | m < n && m in LeavingAt(history, t)
  }

  /** A step at which a transition is reported as an unguided downgrade: the corrections that name
      it outnumber the earlier steps they pay for, and the blind entry never guided a fix. */
  ghost predicate UnguidedAt(history: seq<Cohort>, corrections: multiset<Transition>, t: Transition, n: nat) {
    && 1 <= n < |history| && StepOf(history, n, t)
    && Softens(history[n - 1], history[n], t.identity) && !HoldsGuided(history[n - 1], t.identity)
    && |Earlier(history, t, n)| < corrections[t]
  }

  /** The reported downgrades are exactly those, clean report or not. */
  lemma {:induction false} DowngradesMeaning(history: seq<Cohort>, corrections: multiset<Transition>, t: Transition)
    ensures t in PaidDowngradesOf(history, corrections) <==> exists n :: UnguidedAt(history, corrections, t, n)
  {
    var n := |history| - 1;
    if n >= 1 {
      var prev, curr, front := history[n - 1], history[n], history[..n];
      DowngradesMeaning(front, corrections, t);
      LastDowngrade(history, corrections, t);
      forall m: nat | m < n ensures UnguidedAt(front, corrections, t, m) <==> UnguidedAt(history, corrections, t, m) {
        if 1 <= m { assert Earlier(front, t, m) == Earlier(history, t, m); }
      }
      assert forall m: nat :: UnguidedAt(history, corrections, t, m) ==> m <= n;
    }
  }

  lemma LastDowngrade(history: seq<Cohort>, corrections: multiset<Transition>, t: Transition)
    requires |history| >= 2
    ensures var n := |history| - 1;
      t in PaidDowngrades(history[n - 1], history[n], corrections - Demand(history[..n]))
      <==> UnguidedAt(history, corrections, t, n)
  {
    var n := |history| - 1;
    DepartedMeaning(history[n - 1], history[n], t.identity);
    KeyMeaning(UnguidedDowngrades(history[n - 1], history[n]), history[n - 1], history[n], t);
    DemandMeaning(history[..n], t);
    assert Earlier(history, t, n) == LeavingAt(history[..n], t);
  }

  // ----- what the whole check accepts -----

  /** Every transition is named by as many corrections as it takes place. */
  ghost predicate Authorized(history: seq<Cohort>, events: seq<ExclusionEvent>) {
    forall t :: |LeavingAt(history, t)| <= |NamedBy(events, t)|
  }

  ghost predicate SofteningGuided(history: seq<Cohort>) {
    forall m, n, id :: 0 <= m && n == m + 1 && n < |history| && Softens(history[m], history[n], id) ==>
      HoldsGuided(history[m], id)
  }

  /** An identity in the head that was blind once, is not any more, and never guided a fix while
      blind. */
  ghost predicate HeadUnguided(history: seq<Cohort>, id: string)
    requires history != []
  {
    var head := history[|history| - 1];
    && Holds(head, id) && !HoldsBlind(head, id)
    && (exists c :: c in history && HoldsBlind(c, id)) && !(exists c :: c in history && HoldsGuided(c, id))
  }

  ghost predicate HeadGuided(history: seq<Cohort>) { history == [] || forall id :: !HeadUnguided(history, id) }

  /** The check accepts a history exactly when all three hold. */
  lemma PreservedExactly(history: seq<Cohort>, events: seq<ExclusionEvent>)
    ensures Preserved(history, events) <==>
      Authorized(history, events) && SofteningGuided(history) && HeadGuided(history)
  {
    AuthorizedExactly(history, events);
    GuidedExactly(history);
    HeadExactly(history);
  }

  lemma AuthorizedExactly(history: seq<Cohort>, events: seq<ExclusionEvent>)
    ensures Demand(history) <= Corrections(events) <==> Authorized(history, events)
  {
    forall t ensures Demand(history)[t] <= Corrections(events)[t] <==> |LeavingAt(history, t)| <= |NamedBy(events, t)| {
      DemandMeaning(history, t);
      CorrectionCount(events, t);
    }
  }

  lemma GuidedExactly(history: seq<Cohort>)
    ensures DowngradesGuided(history) <==> SofteningGuided(history)
  {
    if DowngradesGuided(history) {
      forall m, n, id | 0 <= m && n == m + 1 && n < |history| && Softens(history[m], history[n], id)
        ensures HoldsGuided(history[m], id)
      {
        DepartedMeaning(history[m], history[n], id);
        assert UnguidedDowngrades(history[m], history[n]) == {};
      }
    }
    if SofteningGuided(history) {
      forall m, n | 0 <= m && n == m + 1 && n < |history| ensures UnguidedDowngrades(history[m], history[n]) == {} {
        forall id ensures id !in UnguidedDowngrades(history[m], history[n]) {
          DepartedMeaning(history[m], history[n], id);
        }
      }
    }
  }

  lemma HeadExactly(history: seq<Cohort>)
    ensures Survivors(history) == {} <==> HeadGuided(history)
  {
    if history != [] {
      forall id ensures id in Survivors(history) <==> HeadUnguided(history, id) { SurvivorsMeaning(history, id); }
    }
  }

  /** What the head guard reports. */
  lemma SurvivorsMeaning(history: seq<Cohort>, id: string)
    requires history != []
    ensures id in Survivors(history) <==> HeadUnguided(history, id)
  {
    assert forall c: Cohort :: id in c.Identities() <==> Holds(c, id);
    assert forall c: Cohort :: id in c.BlindIds() <==> HoldsBlind(c, id);
    assert forall c: Cohort :: id in c.GuidedBlindIds() <==> HoldsGuided(c, id);
  }

  lemma SomeMember(some: set<nat>, all: set<nat>)
    requires some != {} && |some| <= |all|
    ensures all != {}
  {
  }

  /** Under a clean report an identity of any role that is in one version and not in the next has a
      correction that names that very step. */
  lemma RemovalIsCorrected(history: seq<Cohort>, events: seq<ExclusionEvent>, n: nat, id: string) returns (i: nat)
    requires Preserved(history, events) && 1 <= n < |history|
    requires Holds(history[n - 1], id) && !Holds(history[n], id)
    ensures i < |events| && events[i].reason in CORRECTING
    ensures events[i].transition == Transition(id, history[n - 1].version, history[n].version)
  {
    var t := Transition(id, history[n - 1].version, history[n].version);
    assert Leaves(history[n - 1], history[n], id) && n in LeavingAt(history, t);
    EnoughNamed(history, events, t);
    SomeMember(LeavingAt(history, t), NamedBy(events, t));
    i :| i in NamedBy(events, t);
  }

  lemma EnoughNamed(history: seq<Cohort>, events: seq<ExclusionEvent>, t: Transition)
    requires Preserved(history, events)
    ensures |LeavingAt(history, t)| <= |NamedBy(events, t)|
  {
    AuthorizedExactly(history, events);
  }
}

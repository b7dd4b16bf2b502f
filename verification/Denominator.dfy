/** Denominator preservation over a cohort history: an identity may leave the blind set, or
    the cohort, only when a cohort-correction event names that exact transition, and every
    event pays for one departure. */
module Denominator {

  datatype Role = Calibration | Regression | Blind

  /** Identity is the content hash of the pinned target; role and guidedFix are outside it. */
  datatype Entry = Entry(identity: string, role: Role, guidedFix: bool)

  datatype Cohort = Cohort(version: string, entries: seq<Entry>) {
    function Identities(): set<string> { set e | e in entries :: e.identity }
    function BlindIds(): set<string> { set e | e in entries && e.role.Blind? :: e.identity }
    function GuidedBlindIds(): set<string> { set e | e in entries && e.role.Blind? && e.guidedFix :: e.identity }
  }

  datatype ExclusionReason =
    | UnsupportedLanguage | Crash | Timeout | MalformedSarif | BudgetTruncation | FetchFailure | RepoGone
    | PathDrift | UnverifiedPatchedDeletion | CweReclass | AliasDupe | SeedSwap | DropReasonChange
    | TargetPathsNarrowing | SinkProbeEdit | TriageDedupSuppression | RoleDowngrade | PolicyRefusal | NoArtifact

  datatype ExclusionClass = Infrastructure | AnalysisLimitation | CohortCorrection | RefusedByPolicy

  function Classification(reason: ExclusionReason): ExclusionClass {
    match reason
    case Crash | Timeout | MalformedSarif | BudgetTruncation | FetchFailure | RepoGone
       | UnverifiedPatchedDeletion | NoArtifact => Infrastructure
    case UnsupportedLanguage => AnalysisLimitation
    case PathDrift | CweReclass | AliasDupe | SeedSwap | DropReasonChange | TargetPathsNarrowing
       | SinkProbeEdit | TriageDedupSuppression | RoleDowngrade => CohortCorrection
    case PolicyRefusal => RefusedByPolicy
  }

  datatype Transition = Transition(identity: string, from: string, to: string)

  datatype ExclusionEvent = ExclusionEvent(reason: ExclusionReason, transition: Transition)

  predicate Authorizes(e: ExclusionEvent) {
    e.transition.identity != "" && Classification(e.reason).CohortCorrection?
  }

  /** `correction_transitions`: how often each transition is authorized. */
  function Corrections(events: seq<ExclusionEvent>): (r: multiset<Transition>)
    ensures |r| <= |events|
  {
    if events == [] then multiset{}
    else
      var e := events[|events| - 1];
      var rest := Corrections(events[..|events| - 1]);
      if Authorizes(e) then rest + multiset{e.transition} else rest
  }

  /** The logged events that authorize one transition. */
  function AuthorizedBy(events: seq<ExclusionEvent>, t: Transition): set<nat> {
    set i: nat | i < |events| && Authorizes(events[i]) && events[i].transition == t
  }

  /** A transition is authorized exactly as often as cohort-correction events name it. */
  lemma {:induction false} CorrectionsMeaning(events: seq<ExclusionEvent>, t: Transition)
    ensures Corrections(events)[t] == |AuthorizedBy(events, t)|
  {
    if events != [] {
      var n := |events| - 1;
      CorrectionsMeaning(events[..n], t);
      var before := AuthorizedBy(events[..n], t);
      if Authorizes(events[n]) && events[n].transition == t {
        assert AuthorizedBy(events, t) == before + {n};
      } else {
        assert AuthorizedBy(events, t) == before;
      }
    }
  }

  /** What must be authorized between two successive versions. */
  function Departed(prev: Cohort, curr: Cohort): set<string> {
    (prev.Identities() - curr.Identities()) + (prev.BlindIds() - curr.BlindIds())
  }

  /** Kept in the cohort, no longer blind, and never marked as having guided a fix. */
  function UnguidedDowngrades(prev: Cohort, curr: Cohort): set<string> {
    (prev.BlindIds() - curr.BlindIds()) * curr.Identities() - prev.GuidedBlindIds()
  }

  function KeySet(ids: set<string>, prev: Cohort, curr: Cohort): set<Transition> {
    set id | id in ids :: Transition(id, prev.version, curr.version)
  }

  function Keys(ids: set<string>, prev: Cohort, curr: Cohort): multiset<Transition> {
    multiset(KeySet(ids, prev, curr))
  }

  /** The unguided downgrades of a pair that `available` still pays for; one that is not paid
      for is reported as unauthorized instead. */
  function PaidDowngrades(prev: Cohort, curr: Cohort, available: multiset<Transition>): set<Transition> {
    set k | k in KeySet(UnguidedDowngrades(prev, curr), prev, curr) && available[k] > 0
  }

  /** Every departure of the history, once per transition it happens at. */
  function Demand(history: seq<Cohort>): multiset<Transition> {
    var n := |history|;
    if n < 2 then multiset{}
    else Demand(history[..n - 1]) + Keys(Departed(history[n - 2], history[n - 1]), history[n - 2], history[n - 1])
  }

  /** The paid unguided downgrades of the whole history, each pair after the ones before it. */
  function PaidDowngradesOf(history: seq<Cohort>, corrections: multiset<Transition>): set<Transition> {
    var n := |history|;
    if n < 2 then {}
    else PaidDowngradesOf(history[..n - 1], corrections)
         + PaidDowngrades(history[n - 2], history[n - 1], corrections - Demand(history[..n - 1]))
  }

  function EverBlind(history: seq<Cohort>): set<string> {
    set c, id | c in history && id in c.BlindIds() :: id
  }

  function EverGuidedBlind(history: seq<Cohort>): set<string> {
    set c, id | c in history && id in c.GuidedBlindIds() :: id
  }

  /** Once blind, in the head under another role, and never guided a fix while blind. */
  function Survivors(history: seq<Cohort>): set<string> {
    if history == [] then {}
    else
      var head := history[|history| - 1];
      head.Identities() * EverBlind(history) - head.BlindIds() - EverGuidedBlind(history)
  }

  ghost predicate DowngradesGuided(history: seq<Cohort>) {
    forall i, j :: 0 <= i && j == i + 1 && j < |history| ==> UnguidedDowngrades(history[i], history[j]) == {}
  }

  lemma KeysGrow(ids: set<string>, id: string, prev: Cohort, curr: Cohort)
    requires id !in ids
    ensures Keys(ids + {id}, prev, curr)
         == Keys(ids, prev, curr) + multiset{Transition(id, prev.version, curr.version)}
  {
    var key := Transition(id, prev.version, curr.version);
    assert KeySet(ids + {id}, prev, curr) == KeySet(ids, prev, curr) + {key};
    assert key !in KeySet(ids, prev, curr);
  }

  lemma ConsumeAll(events: multiset<Transition>, paid: multiset<Transition>, more: multiset<Transition>)
    ensures (events - paid) - more == events - (paid + more)
    ensures (paid + more) - events == (paid - events) + (more - (events - paid))
  {
  }

  /** Consume the events that pay for one pair's departures; `downgraded` are the ones kept
      in the cohort without having guided a fix. */
  method SpendEvents(departures: set<Transition>, downgraded: set<Transition>, before: multiset<Transition>)
    returns (available: multiset<Transition>, unauthorized: set<Transition>, unguided: set<Transition>)
    ensures forall k :: available[k] == if k in departures && before[k] > 0 then before[k] - 1 else before[k]
    ensures unauthorized == set k | k in departures && before[k] == 0
    ensures unguided == set k | k in departures && before[k] > 0 && k in downgraded
  {
    available, unauthorized, unguided := before, {}, {};
    var todo := departures;
    while todo != {}
      invariant todo <= departures
      invariant forall k ::
        available[k] == if k in departures && k !in todo && before[k] > 0 then before[k] - 1 else before[k]
      invariant unauthorized == set k | k in departures && k !in todo && before[k] == 0
      invariant unguided == set k | k in departures && k !in todo && before[k] > 0 && k in downgraded
      decreases todo
    {
      var key :| key in todo;
      todo := todo - {key};
      if available[key] <= 0 {
        unauthorized := unauthorized + {key};
        continue;
      }
      available := available[key := available[key] - 1];
      if key in downgraded {
        unguided := unguided + {key};
      }
    }
  }

  /** One adjacent pair of versions. */
  method CheckTransition(prev: Cohort, curr: Cohort, before: multiset<Transition>)
    returns (available: multiset<Transition>, unauthorized: set<Transition>, unguided: set<Transition>)
    ensures available == before - Keys(Departed(prev, curr), prev, curr)
    ensures multiset(unauthorized) == Keys(Departed(prev, curr), prev, curr) - before
    ensures unguided == PaidDowngrades(prev, curr, before)
  {
    var removed := prev.Identities() - curr.Identities();
    var leftBlind := prev.BlindIds() - curr.BlindIds();
    var downgraded := leftBlind * curr.Identities() - prev.GuidedBlindIds();
    var departures, soft := KeySet(removed + leftBlind, prev, curr), KeySet(downgraded, prev, curr);
    available, unauthorized, unguided := SpendEvents(departures, soft, before);
    assert soft <= departures;
  }

  /** What the pair ending at version `n` adds to both specifications. */
  lemma NextPair(history: seq<Cohort>, n: nat, corrections: multiset<Transition>)
    requires 1 <= n < |history|
    ensures Demand(history[..n + 1])
         == Demand(history[..n]) + Keys(Departed(history[n - 1], history[n]), history[n - 1], history[n])
    ensures PaidDowngradesOf(history[..n + 1], corrections)
         == PaidDowngradesOf(history[..n], corrections)
            + PaidDowngrades(history[n - 1], history[n], corrections - Demand(history[..n]))
  {
    assert history[..n + 1][..n] == history[..n];
  }

  /** The pairwise part of `_check_denominator_preservation`. */
  method CheckTransitions(history: seq<Cohort>, events: seq<ExclusionEvent>)
    returns (unauthorized: multiset<Transition>, unguided: set<Transition>)
    ensures unauthorized == Demand(history) - Corrections(events)
    ensures unguided == PaidDowngradesOf(history, Corrections(events))
  {
    unauthorized, unguided := multiset{}, {};
    if history == [] {
      return;
    }
    var available := Corrections(events);
    for n := 1 to |history|
      invariant available == Corrections(events) - Demand(history[..n])
      invariant unauthorized == Demand(history[..n]) - Corrections(events)
      invariant unguided == PaidDowngradesOf(history[..n], Corrections(events))
    {
      var left, missing, soft := CheckTransition(history[n - 1], history[n], available);
      ConsumeAll(Corrections(events), Demand(history[..n]),
                 Keys(Departed(history[n - 1], history[n]), history[n - 1], history[n]));
      NextPair(history, n, Corrections(events));
      available, unauthorized, unguided := left, unauthorized + multiset(missing), unguided + soft;
    }
    assert history[..|history|] == history;
  }

  /** With every departure paid for, the reported downgrades are none exactly when every
      downgraded identity guided a fix. */
  lemma {:induction false} PaidMeaning(history: seq<Cohort>, corrections: multiset<Transition>)
    requires Demand(history) <= corrections
    ensures PaidDowngradesOf(history, corrections) == {} <==> DowngradesGuided(history)
  {
    var n := |history| - 1;
    if n >= 1 {
      var prev, curr := history[n - 1], history[n];
      assert history[..n + 1] == history;
      PaidMeaning(history[..n], corrections);
      DowngradesGrow(history, n);
      PaidPair(prev, curr, corrections - Demand(history[..n]));
    }
  }

  lemma PaidPair(prev: Cohort, curr: Cohort, available: multiset<Transition>)
    requires Keys(Departed(prev, curr), prev, curr) <= available
    ensures PaidDowngrades(prev, curr, available) == {} <==> UnguidedDowngrades(prev, curr) == {}
  {
    if UnguidedDowngrades(prev, curr) != {} {
      var id :| id in UnguidedDowngrades(prev, curr);
      var k := Transition(id, prev.version, curr.version);
      assert id in Departed(prev, curr) && k in Keys(Departed(prev, curr), prev, curr);
      assert k in PaidDowngrades(prev, curr, available);
    }
  }

  lemma DowngradesGrow(history: seq<Cohort>, n: nat)
    requires 1 <= n < |history|
    ensures DowngradesGuided(history[..n + 1]) <==>
      DowngradesGuided(history[..n]) && UnguidedDowngrades(history[n - 1], history[n]) == {}
  {
    var longer, shorter := history[..n + 1], history[..n];
    if DowngradesGuided(longer) {
      forall i, j | 0 <= i && j == i + 1 && j < n ensures UnguidedDowngrades(shorter[i], shorter[j]) == {} {
        assert UnguidedDowngrades(longer[i], longer[j]) == {};
      }
      assert UnguidedDowngrades(longer[n - 1], longer[n]) == {};
    } else {
      var i, j :| 0 <= i && j == i + 1 && j < n + 1 && UnguidedDowngrades(longer[i], longer[j]) != {};
      if j < n { assert UnguidedDowngrades(shorter[i], shorter[j]) != {}; }
    }
  }

  /** `_check_denominator_preservation`. The three results are the three kinds of violation
      it reports; the report is clean exactly when all three are empty. */
  method CheckDenominatorPreservation(history: seq<Cohort>, events: seq<ExclusionEvent>)
    returns (unauthorized: multiset<Transition>, unguided: set<Transition>, survivors: set<string>)
    ensures unauthorized == Demand(history) - Corrections(events)
    ensures unguided == PaidDowngradesOf(history, Corrections(events))
    ensures survivors == Survivors(history)
    ensures unauthorized == multiset{} && unguided == {} && survivors == {} <==> Preserved(history, events)
  {
    unauthorized, unguided := CheckTransitions(history, events);
    survivors := CheckHead(history);
    Cleanliness(history, Corrections(events), unauthorized);
  }

  lemma Cleanliness(history: seq<Cohort>, corrections: multiset<Transition>, unauthorized: multiset<Transition>)
    requires unauthorized == Demand(history) - corrections
    ensures unauthorized == multiset{} <==> Demand(history) <= corrections
    ensures unauthorized == multiset{} ==>
      (PaidDowngradesOf(history, corrections) == {} <==> DowngradesGuided(history))
  {
    if unauthorized == multiset{} {
      forall k ensures Demand(history)[k] <= corrections[k] { assert unauthorized[k] == 0; }
      PaidMeaning(history, corrections);
    }
  }

  /** The guard on the head: ever blind, present, no longer blind, never guided a fix. */
  method CheckHead(history: seq<Cohort>) returns (survivors: set<string>)
    ensures survivors == Survivors(history)
  {
    survivors := {};
    if history != [] {
      var head := history[|history| - 1];
      var everBlind, everGuidedBlind := {}, {};
      for i := 0 to |history|
        invariant everBlind == EverBlind(history[..i])
        invariant everGuidedBlind == EverGuidedBlind(history[..i])
      {
        EverGrows(history, i);
        everBlind := everBlind + history[i].BlindIds();
        everGuidedBlind := everGuidedBlind + history[i].GuidedBlindIds();
      }
      assert history[..|history|] == history;
      survivors := set id | id in head.Identities() && id in everBlind
                            && id !in head.BlindIds() && id !in everGuidedBlind;
    }
  }

  lemma EverGrows(history: seq<Cohort>, n: nat)
    requires n < |history|
    ensures EverBlind(history[..n + 1]) == EverBlind(history[..n]) + history[n].BlindIds()
    ensures EverGuidedBlind(history[..n + 1]) == EverGuidedBlind(history[..n]) + history[n].GuidedBlindIds()
  {
    assert history[..n + 1] == history[..n] + [history[n]];
  }

  /** The histories and logs the check accepts. */
  ghost predicate Preserved(history: seq<Cohort>, events: seq<ExclusionEvent>) {
    Demand(history) <= Corrections(events) && DowngradesGuided(history) && Survivors(history) == {}
  }

  /** Everything lost so far, in a set: blind once, not blind in the last version. */
  function Lost(history: seq<Cohort>): set<string>
    requires history != []
  {
    EverBlind(history) - history[|history| - 1].BlindIds()
  }

  lemma LostStep(history: seq<Cohort>)
    requires |history| > 1
    ensures var n := |history| - 1;
      Lost(history) <= Lost(history[..n]) + Departed(history[n - 1], history[n])
  {
    var n := |history| - 1;
    EverGrows(history, n);
    assert history[..n + 1] == history;
  }

  lemma DemandStep(history: seq<Cohort>)
    requires |history| > 1
    ensures var n := |history| - 1;
      |Demand(history)| == |Demand(history[..n])| + |Departed(history[n - 1], history[n])|
  {
    var n := |history| - 1;
    KeysCount(Departed(history[n - 1], history[n]), history[n - 1], history[n]);
  }

  /** Conservation: whatever was ever blind is still blind in the head, or one correction
      event was spent on it. */
  lemma {:induction false} EverBlindBounded(history: seq<Cohort>)
    requires history != []
    ensures |Lost(history)| <= |Demand(history)|
  {
    var n := |history| - 1;
    if n == 0 {
      assert Lost(history) == {};
    } else {
      EverBlindBounded(history[..n]);
      LostStep(history);
      DemandStep(history);
      SetGrows(Lost(history), Lost(history[..n]) + Departed(history[n - 1], history[n]));
    }
  }

  lemma SizeGrows<T>(small: multiset<T>, large: multiset<T>)
    requires small <= large
    ensures |small| <= |large|
  {
    assert large == small + (large - small);
  }

  lemma SetGrows<T>(small: set<T>, large: set<T>)
    requires small <= large
    ensures |small| <= |large|
  {
    SizeGrows(multiset(small), multiset(large));
  }

  lemma {:induction false} KeysCount(ids: set<string>, prev: Cohort, curr: Cohort)
    ensures |Keys(ids, prev, curr)| == |ids|
  {
    if ids != {} {
      var id :| id in ids;
      KeysCount(ids - {id}, prev, curr);
      KeysGrow(ids - {id}, id, prev, curr);
      assert ids == (ids - {id}) + {id};
    }
  }

  /** A lost identity left the blind set at some transition, and that transition is demanded. */
  lemma {:induction false} LostIsDemanded(history: seq<Cohort>, id: string)
    returns (n: nat)
    requires history != [] && id in Lost(history)
    ensures 1 <= n < |history| && id in history[n - 1].BlindIds() - history[n].BlindIds()
    ensures Transition(id, history[n - 1].version, history[n].version) in Demand(history)
  {
    n := |history| - 1;
    var front, curr := history[..n], history[n];
    EverGrows(history, n);
    assert history[..n + 1] == history;
    if n > 0 {
      if id in history[n - 1].BlindIds() {
        assert id in Departed(history[n - 1], curr);
        assert Transition(id, history[n - 1].version, curr.version) in Keys(Departed(history[n - 1], curr),
            history[n - 1], curr);
      } else {
        n := LostIsDemanded(front, id);
      }
    }
  }

  /** A clean report conserves the denominator: what is blind in the head plus the logged
      corrections bound everything that was ever blind. */
  lemma DenominatorConserved(history: seq<Cohort>, events: seq<ExclusionEvent>)
    requires history != [] && Preserved(history, events)
    ensures |EverBlind(history)| <= |history[|history| - 1].BlindIds()| + |Corrections(events)|
  {
    EverBlindBounded(history);
    SizeGrows(Demand(history), Corrections(events));
    SetGrows(EverBlind(history), history[|history| - 1].BlindIds() + Lost(history));
  }

  /** A correction event names a transition at which the identity left the blind set. */
  ghost predicate CorrectedAt(history: seq<Cohort>, events: seq<ExclusionEvent>, id: string) {
    exists m, n :: 0 <= m && n == m + 1 && n < |history|
      && id in history[m].BlindIds() - history[n].BlindIds()
      && Transition(id, history[m].version, history[n].version) in Corrections(events)
  }

  /** Under a clean report each lost identity has a correction event at the transition where it
      left. Distinct identities name distinct transitions, so no event pays for two. */
  lemma LostIsCorrected(history: seq<Cohort>, events: seq<ExclusionEvent>)
    requires history != [] && Preserved(history, events)
    ensures forall id :: id in Lost(history) ==>
      CorrectedAt(history, events, id)
  {
    forall id | id in Lost(history) ensures CorrectedAt(history, events, id) {
      var n := LostIsDemanded(history, id);
    }
  }

  /** How a once-blind identity can be in the head under another role when the report is clean:
      it left the blind set at a transition a correction event names, and either it guided a fix
      in the version it left, or it was taken out of the cohort there altogether, re-added
      later, and guided a fix in some version while blind. */
  lemma SurvivorAccounted(history: seq<Cohort>, events: seq<ExclusionEvent>, id: string) returns (n: nat)
    requires history != [] && Preserved(history, events)
    requires id in Lost(history) && id in history[|history| - 1].Identities()
    ensures 1 <= n < |history| && id in history[n - 1].BlindIds() - history[n].BlindIds()
    ensures Transition(id, history[n - 1].version, history[n].version) in Corrections(events)
    ensures || id in history[n - 1].GuidedBlindIds()
            || (n < |history| - 1 && id !in history[n].Identities() && id in EverGuidedBlind(history))
  {
    n := LostIsDemanded(history, id);
    DowngradeMustBeGuided(history[n - 1], history[n], id);
    assert id !in Survivors(history);
  }

  /** A split departure: blind, then absent from the next version altogether, then in the head
      under another role, and never guided a fix while blind. */
  ghost predicate SplitDeparture(history: seq<Cohort>, id: string) {
    && history != [] && id !in EverGuidedBlind(history)
    && id in history[|history| - 1].Identities() - history[|history| - 1].BlindIds()
    && exists m, n :: 0 <= m && n == m + 1 && n < |history| - 1
                      && id in history[m].BlindIds() && id !in history[n].Identities()
  }

  lemma SurvivorIsSplit(history: seq<Cohort>, id: string)
    requires DowngradesGuided(history) && id in Survivors(history)
    ensures SplitDeparture(history, id)
  {
    var n := LostIsDemanded(history, id);
    EverContains(history, n - 1);
    DowngradeMustBeGuided(history[n - 1], history[n], id);
  }

  lemma SplitSurvives(history: seq<Cohort>, id: string)
    requires SplitDeparture(history, id)
    ensures id in Survivors(history)
  {
    var m :| 0 <= m < |history| - 2 && id in history[m].BlindIds();
    EverContains(history, m);
  }

  /** Past the pairwise check, the head guard reports exactly the split departures. */
  lemma HeadGuardExactly(history: seq<Cohort>, id: string)
    requires DowngradesGuided(history)
    ensures id in Survivors(history) <==> SplitDeparture(history, id)
  {
    if id in Survivors(history) { SurvivorIsSplit(history, id); }
    if SplitDeparture(history, id) { SplitSurvives(history, id); }
  }

  /** A blind entry removed, then re-added as a regression case. */
  function Readded(x: string): seq<Cohort> {
    [Cohort("1", [Entry(x, Blind, false)]), Cohort("2", []), Cohort("3", [Entry(x, Regression, false)])]
  }

  function Removal(x: string): Transition { Transition(x, "1", "2") }

  lemma OneCorrection(e: ExclusionEvent)
    requires Authorizes(e)
    ensures Corrections([e]) == multiset{e.transition}
  {
    assert [e][..0] == [];
  }

  /** The shape of such a history: blind, absent, present under another role. */
  ghost predicate ReaddedShape(history: seq<Cohort>, x: string) {
    && |history| == 3 && history[0].version == "1" && history[1].version == "2"
    && history[0].BlindIds() == {x} && history[0].GuidedBlindIds() == {} && history[0].Identities() == {x}
    && history[1].Identities() == history[1].BlindIds() == history[1].GuidedBlindIds() == {}
    && history[2].Identities() == {x} && history[2].BlindIds() == history[2].GuidedBlindIds() == {}
  }

  /** `Readded` has that shape, so such histories exist. */
  lemma ReaddedSets(history: seq<Cohort>, x: string)
    requires history == Readded(x)
    ensures ReaddedShape(history, x)
  {
    assert Entry(x, Blind, false) in history[0].entries && Entry(x, Regression, false) in history[2].entries;
  }

  lemma OneKey(ids: set<string>, x: string, prev: Cohort, curr: Cohort)
    requires ids == {x}
    ensures Keys(ids, prev, curr) == multiset{Transition(x, prev.version, curr.version)}
  {
    assert KeySet(ids, prev, curr) == {Transition(x, prev.version, curr.version)};
  }

  lemma ReaddedDemand(history: seq<Cohort>, x: string)
    requires ReaddedShape(history, x)
    ensures Demand(history) == multiset{Removal(x)}
  {
    var first, second := Departed(history[0], history[1]), Departed(history[1], history[2]);
    NextPair(history, 1, multiset{});
    NextPair(history, 2, multiset{});
    assert history[..3] == history;
    assert first == {x} && second == {};
    OneKey(first, x, history[0], history[1]);
    assert Keys(second, history[1], history[2]) == multiset{} by {
      assert KeySet(second, history[1], history[2]) == {};
    }
  }

  lemma ReaddedSurvives(history: seq<Cohort>, x: string)
    requires ReaddedShape(history, x)
    ensures DowngradesGuided(history) && Survivors(history) == {x}
  {
    assert x in history[0].BlindIds() && x !in history[1].Identities();
    forall id ensures id !in EverGuidedBlind(history) {}
    SplitSurvives(history, x);
  }

  /** The head guard does add something: with a correction for the removal, a history of that
      shape passes the pairwise check, and the guard reports the entry. */
  lemma HeadGuardAdds(history: seq<Cohort>, x: string, e: ExclusionEvent)
    requires ReaddedShape(history, x) && Authorizes(e) && e.transition == Removal(x)
    ensures Demand(history) <= Corrections([e]) && DowngradesGuided(history) && Survivors(history) == {x}
  {
    ReaddedDemand(history, x);
    ReaddedSurvives(history, x);
    OneCorrection(e);
  }

  lemma EverContains(history: seq<Cohort>, n: nat)
    requires n < |history|
    ensures history[n].BlindIds() <= EverBlind(history) && history[n].GuidedBlindIds() <= EverGuidedBlind(history)
  {
    assert history[n] in history;
  }

  lemma DowngradeMustBeGuided(prev: Cohort, curr: Cohort, id: string)
    requires UnguidedDowngrades(prev, curr) == {} && id in prev.BlindIds() - curr.BlindIds()
    ensures id in curr.Identities() ==> id in prev.GuidedBlindIds()
  {
    assert id !in UnguidedDowngrades(prev, curr);
  }
}

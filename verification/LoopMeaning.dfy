/** The selection policy by the records of the store: which work is due, and in which order it is
    proposed. */
module LoopMeaning {
  import opened LoopPolicy
  import opened Options

  /** A session of the kind went through: the gate let it proceed and it closed clean. */
  ghost predicate Done(store: Store, kind: SessionType) {
    exists s :: s in store.sessions && s.kind == kind && s.outcome == Proceed && s.close == Clean
  }

  ghost predicate Mapped(store: Store, area: string) { exists c :: c in store.coverage && c.area == area }

  /** Some finished discovery is at least as new as all coverage. */
  ghost predicate DiscoveredSince(store: Store) {
    exists s :: s in store.sessions && s.kind == DiscoverSession && s.outcome == Proceed && s.close == Clean
                && s.id > 0 && forall c :: c in store.coverage ==> c.lastSession <= s.id
  }

  /** An earlier run finished a sibling hunt of the finding. */
  ghost predicate HuntedBefore(store: Store, finding: string) {
    exists trace, s :: trace in store.loopRuns && s in trace && s.kind == SiblingHunt && s.finding == Some(finding)
                       && s.outcome == Proceed && s.close == Clean
  }

  ghost predicate DraftedBefore(store: Store, finding: string) {
    exists s :: s in store.sessions && s.kind == DisclosureSession && s.outcome == Proceed && s.close == Clean
                && s.draftsOk && finding in s.findingsTouched
  }

  /** What each kind of work waits for, for the project as a whole. */
  ghost predicate ProjectDue(kind: ActionKind, store: Store, project: Project) {
    match kind
    case Status => !Done(store, StatusSession)
    case Map => exists a :: a in project.inScope && !Mapped(store, a)
    case Discover => store.coverage != [] && !DiscoveredSince(store)
    case _ => false
  }

  /** And for one finding. */
  ghost predicate FindingDue(kind: ActionKind, f: Finding, store: Store) {
    match kind
    case SiblingHunt => f.status == Verified && !HuntedBefore(store, f.id)
    case Disclosure => f.status == Verified && !DraftedBefore(store, f.id)
    case DisclosureSend => f.status == Verified && DraftedBefore(store, f.id)
    case VerifyEscalation => f.status == Candidate
    case _ => false
  }

  lemma {:induction false} LastMapMeaning(coverage: seq<Coverage>, n: nat)
    ensures LastMap(coverage) <= n <==> forall c :: c in coverage ==> c.lastSession <= n
  {
    if coverage != [] {
      LastMapMeaning(coverage[1..], n);
      assert coverage == [coverage[0]] + coverage[1..];
    }
  }

  ghost predicate FinishedDiscovery(s: Session, n: nat) {
    s.kind == DiscoverSession && s.outcome == Proceed && s.close == Clean && s.id > n
  }

  lemma {:induction false} LastDiscoverMeaning(sessions: seq<Session>, n: nat)
    ensures LastDiscover(sessions) > n <==> exists s :: s in sessions && FinishedDiscovery(s, n)
  {
    if sessions != [] {
      LastDiscoverMeaning(sessions[1..], n);
      assert sessions == [sessions[0]] + sessions[1..];
      if FinishedDiscovery(sessions[0], n) { assert sessions[0] in sessions; }
      if s :| s in sessions[1..] && FinishedDiscovery(s, n) { assert s in sessions; }
    }
  }

  lemma CurrentMeaning(store: Store)
    ensures DiscoverCurrent(store) <==> DiscoveredSince(store)
  {
    var d, m := LastDiscover(store.sessions), LastMap(store.coverage);
    if DiscoverCurrent(store) {
      LastDiscoverMeaning(store.sessions, d - 1);
      var s :| s in store.sessions && FinishedDiscovery(s, d - 1);
      LastMapMeaning(store.coverage, s.id);
    }
    if s :| s in store.sessions && FinishedDiscovery(s, 0)
            && forall c :: c in store.coverage ==> c.lastSession <= s.id
    {
      LastMapMeaning(store.coverage, s.id);
      LastDiscoverMeaning(store.sessions, s.id - 1);
    }
  }

  lemma ProjectDueMeaning(store: Store, project: Project)
    ensures Succeeded(store, StatusSession) <==> !ProjectDue(Status, store, project)
    ensures FullyMapped(store, project) <==> !ProjectDue(Map, store, project)
    ensures store.coverage != [] && !DiscoverCurrent(store) <==> ProjectDue(Discover, store, project)
  {
    CurrentMeaning(store);
    assert forall a :: Covered(store, a) <==> Mapped(store, a);
  }

  lemma OpenMeaning(kind: ActionKind, finding: string, store: Store)
    requires kind in {SiblingHunt, Disclosure, DisclosureSend, VerifyEscalation}
    ensures Open(kind, finding, store) <==>
      match kind
      case SiblingHunt => !HuntedBefore(store, finding)
      case Disclosure => !DraftedBefore(store, finding)
      case DisclosureSend => DraftedBefore(store, finding)
      case _ => true
  {
  }

  // ----- the first finding a rung can act on -----

  /** The finding at `i` is the first on which the work is due and new in this run. */
  ghost predicate FirstDue(kind: ActionKind, findings: seq<Finding>, store: Store, done: set<Key>, i: int) {
    && 0 <= i < |findings| && Ready(kind, findings[i], store, done)
    && forall j :: 0 <= j < i ==> !Ready(kind, findings[j], store, done)
  }

  ghost predicate Ready(kind: ActionKind, f: Finding, store: Store, done: set<Key>) {
    FindingDue(kind, f, store) && (kind, f.id) !in done
  }

  function StatusFor(kind: ActionKind): FindingStatus { if kind.VerifyEscalation? then Candidate else Verified }

  lemma {:induction false} FirstOpenMeaning(kind: ActionKind, findings: seq<Finding>, store: Store, done: set<Key>)
    requires kind in {SiblingHunt, Disclosure, DisclosureSend, VerifyEscalation}
    ensures var r := FirstOpen(kind, WithStatus(findings, StatusFor(kind)), store, done);
      && (r.None? <==> forall f :: f in findings ==> !Ready(kind, f, store, done))
      && (r.Some? ==> exists i :: FirstDue(kind, findings, store, done, i) && findings[i].id == r.value)
    decreases findings
  {
    if findings != [] {
      var first, rest := findings[0], findings[1..];
      FirstOpenMeaning(kind, rest, store, done);
      OpenMeaning(kind, first.id, store);
      assert findings == [first] + rest;
      var ids, more := WithStatus(findings, StatusFor(kind)), WithStatus(rest, StatusFor(kind));
      assert if first.status == StatusFor(kind) then ids == [first.id] + more && ids[1..] == more else ids == more;
      if Ready(kind, first, store, done) {
        assert FirstDue(kind, findings, store, done, 0);
      } else {
        DueLater(kind, findings, store, done);
      }
    }
  }

  lemma DueLater(kind: ActionKind, findings: seq<Finding>, store: Store, done: set<Key>)
    requires findings != [] && !Ready(kind, findings[0], store, done)
    ensures forall i :: FirstDue(kind, findings[1..], store, done, i) ==>
      FirstDue(kind, findings, store, done, i + 1) && findings[i + 1].id == findings[1..][i].id
  {
    var rest := findings[1..];
    forall i | FirstDue(kind, rest, store, done, i) ensures FirstDue(kind, findings, store, done, i + 1) {
      forall j | 0 <= j < i + 1 ensures !Ready(kind, findings[j], store, done) {
        if j > 0 { assert findings[j] == rest[j - 1]; }
      }
    }
  }

  // ----- the order of the rungs -----

  const RUNGS: seq<ActionKind> :=
    [Status, Map, Discover, SiblingHunt, Disclosure, DisclosureSend, VerifyEscalation]

  /** An action of a rung is due and new in this run; on findings, on the first such one. */
  ghost predicate Due(a: Action, rung: nat, store: Store, project: Project, done: set<Key>) {
    && rung < |RUNGS| && a.kind == RUNGS[rung]
    && if rung < 3 then a.finding.None? && ProjectDue(a.kind, store, project) && (a.kind, project.id) !in done
       else exists i :: FirstDue(a.kind, store.findings, store, done, i) && a.finding == Some(store.findings[i].id)
  }

  ghost predicate Idle(rung: nat, store: Store, project: Project, done: set<Key>) {
    forall a :: !Due(a, rung, store, project, done)
  }

  predicate OnProject(kind: ActionKind) { kind in {Status, Map, Discover} }

  /** What one rung has to offer. */
  ghost function Offer(kind: ActionKind, store: Store, project: Project, done: set<Key>): Option<Action> {
    if OnProject(kind) then
      if ProjectDue(kind, store, project) && (kind, project.id) !in done then Some(Action(kind, None)) else None
    else
      var f := FirstOpen(kind, WithStatus(store.findings, StatusFor(kind)), store, done);
      if f.Some? then Some(Action(kind, f)) else None
  }

  lemma OfferMeaning(rung: nat, store: Store, project: Project, done: set<Key>)
    requires rung < |RUNGS|
    ensures var offer := Offer(RUNGS[rung], store, project, done);
      && (offer.None? ==> Idle(rung, store, project, done))
      && (offer.Some? ==> Due(offer.value, rung, store, project, done))
  {
    var kind := RUNGS[rung];
    assert OnProject(kind) <==> rung < 3;
    if rung >= 3 {
      FirstOpenMeaning(kind, store.findings, store, done);
      var f := FirstOpen(kind, WithStatus(store.findings, StatusFor(kind)), store, done);
      if f.Some? {
        var i :| FirstDue(kind, store.findings, store, done, i) && store.findings[i].id == f.value;
      }
    }
  }

  /** The first offer from a rung on. */
  ghost function Pick(rung: nat, store: Store, project: Project, done: set<Key>): Option<Action>
    requires rung <= |RUNGS|
    decreases |RUNGS| - rung
  {
    if rung == |RUNGS| then None
    else if Offer(RUNGS[rung], store, project, done).Some? then Offer(RUNGS[rung], store, project, done)
    else Pick(rung + 1, store, project, done)
  }

  lemma {:induction false} PickMeaning(rung: nat, store: Store, project: Project, done: set<Key>) returns (r: nat)
    requires rung <= |RUNGS|
    ensures Pick(rung, store, project, done).None? ==>
      forall q: nat :: rung <= q < |RUNGS| ==> Idle(q, store, project, done)
    ensures Pick(rung, store, project, done).Some? ==>
      rung <= r && FirstFrom(Pick(rung, store, project, done).value, rung, r, store, project, done)
    decreases |RUNGS| - rung
  {
    r := rung;
    if rung < |RUNGS| {
      OfferMeaning(rung, store, project, done);
      if Offer(RUNGS[rung], store, project, done).None? { r := PickMeaning(rung + 1, store, project, done); }
    }
  }

  /** The action is due on a rung, and nothing is on the ones from `rung` up to it. */
  ghost predicate FirstFrom(a: Action, rung: nat, r: nat, store: Store, project: Project, done: set<Key>) {
    Due(a, r, store, project, done) && forall q: nat :: rung <= q < r ==> Idle(q, store, project, done)
  }

  lemma LastRungs(store: Store, project: Project, done: set<Key>)
    ensures Pick(5, store, project, done) == NextEscalation(store, done)
  {
    assert Pick(6, store, project, done) == Offer(VerifyEscalation, store, project, done);
  }

  lemma FindingRungs(store: Store, project: Project, done: set<Key>)
    ensures var hunt, draft := Offer(SiblingHunt, store, project, done), Offer(Disclosure, store, project, done);
      Pick(3, store, project, done) ==
        if hunt.Some? then hunt else if draft.Some? then draft else NextEscalation(store, done)
  {
    LastRungs(store, project, done);
    assert RUNGS[3] == SiblingHunt && RUNGS[4] == Disclosure;
    assert Pick(4, store, project, done) ==
      if Offer(RUNGS[4], store, project, done).Some? then Offer(RUNGS[4], store, project, done)
      else Pick(5, store, project, done);
  }

  lemma SelectIsPick(store: Store, project: Project, done: set<Key>)
    ensures SelectNextAction(store, project, done) == Pick(0, store, project, done)
  {
    ProjectDueMeaning(store, project);
    FindingRungs(store, project, done);
    var status, mapping := Offer(Status, store, project, done), Offer(Map, store, project, done);
    assert RUNGS[0] == Status && RUNGS[1] == Map && RUNGS[2] == Discover;
    assert Pick(1, store, project, done) == if mapping.Some? then mapping else Pick(2, store, project, done);
    assert Pick(0, store, project, done) == if status.Some? then status else Pick(1, store, project, done);
  }

  /** The selector proposes the action of the highest rung that has any due, and nothing exactly when
      none has: recon first, then hunts, drafts, sends and verifications. */
  lemma SelectExactly(store: Store, project: Project, done: set<Key>) returns (r: nat)
    ensures var a := SelectNextAction(store, project, done);
      && (a.None? ==> forall q: nat :: q < |RUNGS| ==> Idle(q, store, project, done))
      && (a.Some? ==> FirstFrom(a.value, 0, r, store, project, done))
  {
    SelectIsPick(store, project, done);
    r := PickMeaning(0, store, project, done);
  }

  // ----- the pending escalations -----

  /** An action is pending exactly when its escalation is due on some finding. */
  lemma PendingMeaning(store: Store, a: Action)
    ensures a in PendingEscalations(store) <==>
      exists f :: f in store.findings && a.finding == Some(f.id) && a.kind in {DisclosureSend, VerifyEscalation}
                  && FindingDue(a.kind, f, store)
  {
    EscalationMeaning(DisclosureSend, store.findings, store, a);
    EscalationMeaning(VerifyEscalation, store.findings, store, a);
  }

  lemma {:induction false} EscalationMeaning(kind: ActionKind, findings: seq<Finding>, store: Store, a: Action)
    requires kind in {DisclosureSend, VerifyEscalation}
    ensures a in Escalations(kind, WithStatus(findings, StatusFor(kind)), store) <==>
      a.kind == kind && exists f :: f in findings && a.finding == Some(f.id) && FindingDue(kind, f, store)
    decreases findings
  {
    if findings != [] {
      var first, rest := findings[0], findings[1..];
      EscalationMeaning(kind, rest, store, a);
      OpenMeaning(kind, first.id, store);
      assert findings == [first] + rest;
      var ids, more := WithStatus(findings, StatusFor(kind)), WithStatus(rest, StatusFor(kind));
      assert if first.status == StatusFor(kind) then ids == [first.id] + more && ids[1..] == more else ids == more;
    }
  }
}

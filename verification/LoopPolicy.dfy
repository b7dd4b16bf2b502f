/** The autonomous loop's selection policy: a pure function of a store snapshot and the
    run's own `done` set. Session ids are creation counters (0 for an absent id), and scope
    areas are already stripped and non-empty. */
module LoopPolicy {
  import opened Options

  datatype SessionType =
    | StatusSession | MapSession | DiscoverSession | SiblingHuntSession | DisclosureSession | OtherSession

  datatype GateOutcome = Proceed | Hold | Refuse | NoOutcome

  datatype CloseState = Clean | Interrupted

  datatype Session = Session(id: nat, kind: SessionType, outcome: GateOutcome, close: CloseState,
                             findingsTouched: set<string>, draftsOk: bool)

  datatype Coverage = Coverage(area: string, lastSession: nat)

  datatype FindingStatus = Candidate | Verified | Disclosed | Patched

  datatype Finding = Finding(id: string, status: FindingStatus)

  datatype ActionKind = Status | Map | Discover | SiblingHunt | Disclosure | VerifyEscalation | DisclosureSend

  datatype Action = Action(kind: ActionKind, finding: Option<string>) {
    predicate IsEscalation() { kind.VerifyEscalation? || kind.DisclosureSend? }
  }

  datatype Step = Step(kind: ActionKind, finding: Option<string>, outcome: GateOutcome, close: CloseState)

  /** What the policy reads: one project's sessions, coverage, findings and loop traces. */
  datatype Store = Store(sessions: seq<Session>, coverage: seq<Coverage>, findings: seq<Finding>,
          loopRuns: seq<seq<Step>>)

  datatype Project = Project(id: string, inScope: seq<string>)

  type Key = (ActionKind, string)

  /** The driver's key of a dispatched action: its finding, or else the project. */
  function KeyOf(a: Action, project: Project): Key {
    (a.kind, if a.finding.Some? then a.finding.value else project.id)
  }

  predicate Completed(outcome: GateOutcome, close: CloseState) { outcome.Proceed? && close.Clean? }

  predicate Succeeded(store: Store, kind: SessionType) {
    exists s :: s in store.sessions && s.kind == kind && Completed(s.outcome, s.close)
  }

  predicate Covered(store: Store, area: string) {
    exists c :: c in store.coverage && c.area == area
  }

  predicate FullyMapped(store: Store, project: Project) {
    forall a :: a in project.inScope ==> Covered(store, a)
  }

  function LastMap(coverage: seq<Coverage>): nat {
    if coverage == [] then 0
    else
      var rest := LastMap(coverage[1..]);
      if coverage[0].lastSession > rest then coverage[0].lastSession else rest
  }

  function LastDiscover(sessions: seq<Session>): nat {
    if sessions == [] then 0
    else
      var rest := LastDiscover(sessions[1..]);
      var s := sessions[0];
      if s.kind.DiscoverSession? && Completed(s.outcome, s.close) && s.id > rest then s.id else rest
  }

  predicate DiscoverCurrent(store: Store) {
    LastDiscover(store.sessions) > 0 && LastDiscover(store.sessions) >= LastMap(store.coverage)
  }

  /** The ids of the findings with a status, in store order. */
  function WithStatus(findings: seq<Finding>, status: FindingStatus): (r: seq<string>)
    ensures forall id :: id in r <==> exists f :: f in findings && f.status == status && f.id == id
  {
    if findings == [] then []
    else
      assert findings == [findings[0]] + findings[1..];
      (if findings[0].status == status then [findings[0].id] else []) + WithStatus(findings[1..], status)
  }

  function VerifiedIds(store: Store): set<string> { set id | id in WithStatus(store.findings, Verified) }

  predicate Hunted(store: Store, finding: string) {
    exists trace :: trace in store.loopRuns && HuntedIn(trace, finding)
  }

  predicate HuntedIn(trace: seq<Step>, finding: string) {
    exists s :: s in trace && s.kind.SiblingHunt? && s.finding == Some(finding) && Completed(s.outcome, s.close)
  }

  predicate Drafted(store: Store, finding: string) {
    exists s :: s in store.sessions && s.kind.DisclosureSession? && Completed(s.outcome, s.close) && s.draftsOk
      && finding in s.findingsTouched
  }

  /** The first id a rung still has to act on. */
  function FirstOpen(kind: ActionKind, ids: seq<string>, store: Store, done: set<Key>): (r: Option<string>)
    ensures r.Some? ==> r.value in ids && Open(kind, r.value, store) && (kind, r.value) !in done
    ensures r.None? <==> forall id :: id in ids ==> !Open(kind, id, store) || (kind, id) in done
  {
    if ids == [] then None
    else
      assert ids == [ids[0]] + ids[1..];
      if Open(kind, ids[0], store) && (kind, ids[0]) !in done then Some(ids[0])
      else FirstOpen(kind, ids[1..], store, done)
  }

  /** Whether the store leaves a finding-level rung something to do. */
  predicate Open(kind: ActionKind, finding: string, store: Store) {
    match kind
    case SiblingHunt => !Hunted(store, finding)
    case Disclosure => !Drafted(store, finding)
    case DisclosureSend => Drafted(store, finding)
    case _ => true
  }

  /** Rungs 1 to 5: the safe, runnable work, highest priority first. */
  function NextRunnable(store: Store, project: Project, done: set<Key>): Option<Action> {
    var verified := WithStatus(store.findings, Verified);
    if !Succeeded(store, StatusSession) && (Status, project.id) !in done then Some(Action(Status, None))
    else if !FullyMapped(store, project) && (Map, project.id) !in done then Some(Action(Map, None))
    else if store.coverage != [] && !DiscoverCurrent(store) && (Discover, project.id) !in done then
      Some(Action(Discover, None))
    else if FirstOpen(SiblingHunt, verified, store, done).Some? then
      Some(Action(SiblingHunt, FirstOpen(SiblingHunt, verified, store, done)))
    else if FirstOpen(Disclosure, verified, store, done).Some? then
      Some(Action(Disclosure, FirstOpen(Disclosure, verified, store, done)))
    else None
  }

  /** Rungs 6 and 7: the human hard stops. */
  function NextEscalation(store: Store, done: set<Key>): Option<Action> {
    var send := FirstOpen(DisclosureSend, WithStatus(store.findings, Verified), store, done);
    var verify := FirstOpen(VerifyEscalation, WithStatus(store.findings, Candidate), store, done);
    if send.Some? then Some(Action(DisclosureSend, send))
    else if verify.Some? then Some(Action(VerifyEscalation, verify))
    else None
  }

  function SelectNextAction(store: Store, project: Project, done: set<Key>): Option<Action> {
    var next := NextRunnable(store, project, done);
    if next.Some? then next else NextEscalation(store, done)
  }

  /** Every outstanding escalation: sends first, then verifications. */
  function PendingEscalations(store: Store): seq<Action> {
    Escalations(DisclosureSend, WithStatus(store.findings, Verified), store)
    + Escalations(VerifyEscalation, WithStatus(store.findings, Candidate), store)
  }

  function Escalations(kind: ActionKind, ids: seq<string>, store: Store): (r: seq<Action>)
    ensures forall a :: a in r ==> a.kind == kind
  {
    if ids == [] then []
    else (if Open(kind, ids[0], store) then [Action(kind, Some(ids[0]))] else []) + Escalations(kind, ids[1..], store)
  }

  /** The keys a run can mark: no escalation is ever dispatched. */
  ghost predicate OnlyRunnable(done: set<Key>) {
    forall k :: k in done ==> !k.0.VerifyEscalation? && !k.0.DisclosureSend?
  }

  lemma {:induction false} FirstEscalation(kind: ActionKind, ids: seq<string>, store: Store, done: set<Key>)
    requires OnlyRunnable(done) && (kind.VerifyEscalation? || kind.DisclosureSend?)
    ensures Escalations(kind, ids, store) == [] <==> FirstOpen(kind, ids, store, done).None?
    ensures Escalations(kind, ids, store) != [] ==>
      Escalations(kind, ids, store)[0] == Action(kind, FirstOpen(kind, ids, store, done))
  {
    if ids != [] { FirstEscalation(kind, ids[1..], store, done); }
  }

  /** The selector's escalation is the first pending one, and it has none exactly when
      nothing is pending. */
  lemma EscalationIsFirstPending(store: Store, done: set<Key>)
    requires OnlyRunnable(done)
    ensures NextEscalation(store, done).None? <==> PendingEscalations(store) == []
    ensures PendingEscalations(store) != [] ==> NextEscalation(store, done) == Some(PendingEscalations(store)[0])
  {
    FirstEscalation(DisclosureSend, WithStatus(store.findings, Verified), store, done);
    FirstEscalation(VerifyEscalation, WithStatus(store.findings, Candidate), store, done);
  }

  // ----- a bound on the runnable work -----

  function HuntKeys(verified: set<string>): set<Key> { set f | f in verified :: (SiblingHunt, f) }
  function DraftKeys(verified: set<string>): set<Key> { set f | f in verified :: (Disclosure, f) }

  /** Every key a run can dispatch while these are the verified findings. */
  function PossibleKeys(project: Project, verified: set<string>): set<Key> {
    {(Status, project.id), (Map, project.id), (Discover, project.id)} + HuntKeys(verified) + DraftKeys(verified)
  }

  lemma {:induction false} HuntKeysCount(verified: set<string>)
    ensures |HuntKeys(verified)| == |verified|
  {
    if verified != {} {
      var f :| f in verified;
      HuntKeysCount(verified - {f});
      assert HuntKeys(verified) == HuntKeys(verified - {f}) + {(SiblingHunt, f)};
    }
  }

  lemma {:induction false} DraftKeysCount(verified: set<string>)
    ensures |DraftKeys(verified)| == |verified|
  {
    if verified != {} {
      var f :| f in verified;
      DraftKeysCount(verified - {f});
      assert DraftKeys(verified) == DraftKeys(verified - {f}) + {(Disclosure, f)};
    }
  }

  lemma PossibleCount(project: Project, verified: set<string>, done: set<Key>)
    requires done <= PossibleKeys(project, verified)
    ensures |done| <= 3 + 2 * |verified|
  {
    var base: set<Key> := {(Status, project.id), (Map, project.id), (Discover, project.id)};
    HuntKeysCount(verified);
    DraftKeysCount(verified);
    Union(base, HuntKeys(verified));
    Union(base + HuntKeys(verified), DraftKeys(verified));
    var all := PossibleKeys(project, verified);
    assert all == done + (all - done);
  }

  lemma Union(a: set<Key>, b: set<Key>)
    ensures |a + b| <= |a| + |b|
  {
    assert a + b == a + (b - a);
    assert b == (b - a) + (a * b);
  }

  /** A selected runnable action has a new key, and a possible one. */
  lemma SelectedKey(store: Store, project: Project, done: set<Key>)
    requires NextRunnable(store, project, done).Some?
    ensures var a := NextRunnable(store, project, done).value;
      !a.IsEscalation() && KeyOf(a, project) !in done
      && KeyOf(a, project) in PossibleKeys(project, VerifiedIds(store))
  {
  }

  lemma PossibleGrows(project: Project, small: set<string>, large: set<string>)
    requires small <= large
    ensures PossibleKeys(project, small) <= PossibleKeys(project, large)
  {
  }
}

/** The loop driver: bounded, gated, one recorded stop reason. Session bodies, the gate and
    the clock are a `World`; what is known of sessions is stated as assumptions on it. */
module LoopDriver {
  import opened LoopPolicy
  import opened Options
  import opened PyText

  datatype StopReason = FixedPoint | BudgetExhausted | HardStop | GateHeld | GateRefused

  datatype Budget = Budget(maxSessions: Option<nat>, maxWall: Option<real>, maxTokens: Option<nat>)

  datatype Spend = Spend(sessions: nat, tokens: nat)

  datatype SessionResult = SessionResult(store: Store, record: Session, tokens: nat)

  /** `session(store, action, n)` is the n-th session of the run; `elapsed(n)` the wall clock
      at the n-th reading. */
  datatype World = World(gate: GateOutcome, session: (Store, Action, nat) -> SessionResult, elapsed: nat -> real)

  datatype Note = ProjectMissing | GateNote(outcome: GateOutcome) | HumanAction(action: Action)

  datatype LoopRun = LoopRun(stop: StopReason, spent: Spend, trace: seq<Step>, outstanding: seq<Note>,
          planned: Option<Action>)

  predicate WallExceeded(budget: Budget, wall: real) {
    budget.maxWall.Some? && wall >= budget.maxWall.value
  }

  /** `would_exceed`: one more session could cross a set limit. */
  predicate WouldExceed(budget: Budget, spent: Spend, wall: real) {
    || (budget.maxSessions.Some? && spent.sessions + 1 > budget.maxSessions.value)
    || WallExceeded(budget, wall)
    || (budget.maxTokens.Some? && spent.tokens >= budget.maxTokens.value)
  }

  function StepOf(a: Action, r: Session): Step { Step(a.kind, a.finding, r.outcome, r.close) }

  function EscalationSteps(pending: seq<Action>): seq<Step> {
    seq(|pending|, i requires 0 <= i < |pending| => Step(pending[i].kind, pending[i].finding, NoOutcome, Interrupted))
  }

  function EscalationNotes(pending: seq<Action>): seq<Note> {
    seq(|pending|, i requires 0 <= i < |pending| => HumanAction(pending[i]))
  }

  /** One step and one note for each pending escalation, in order; no session stands behind the step. */
  lemma EscalationRows(pending: seq<Action>, i: nat)
    requires i < |pending|
    ensures |EscalationSteps(pending)| == |EscalationNotes(pending)| == |pending|
    ensures EscalationSteps(pending)[i] == Step(pending[i].kind, pending[i].finding, NoOutcome, Interrupted)
    ensures EscalationNotes(pending)[i] == HumanAction(pending[i])
  {
  }

  /** Sessions never add a verified finding: verification is a human's. */
  ghost predicate NeverVerifies(w: World) {
    forall store, a, n :: VerifiedIds(w.session(store, a, n).store) <= VerifiedIds(store)
  }

  function SessionTypeOf(kind: ActionKind): SessionType {
    match kind
    case Status => StatusSession
    case Map => MapSession
    case Discover => DiscoverSession
    case SiblingHunt => SiblingHuntSession
    case Disclosure => DisclosureSession
    case _ => OtherSession
  }

  /** The stated effect of a session that proceeds, closes clean and does its work: it
      records itself under a fresh id, only MAP writes coverage (all of the scope), a
      DISCLOSURE leaves valid drafts for its finding, and no finding becomes verified. */
  ghost predicate DoesItsWork(project: Project, store: Store, a: Action, r: SessionResult) {
    && r.store.sessions == store.sessions + [r.record]
    && r.record.kind == SessionTypeOf(a.kind) && Completed(r.record.outcome, r.record.close)
    && (forall s :: s in store.sessions ==> s.id < r.record.id)
    && (forall c :: c in store.coverage ==> c.lastSession < r.record.id)
    && VerifiedIds(r.store) <= VerifiedIds(store)
    && r.store.loopRuns == store.loopRuns
    && (if a.kind.Map? then FullyMapped(r.store, project) else r.store.coverage == store.coverage)
    && (a.kind.Disclosure? && a.finding.Some? ==> a.finding.value in r.record.findingsTouched && r.record.draftsOk)
  }

  ghost predicate Works(w: World, project: Project) {
    && w.gate.Proceed?
    && forall store, a, n :: DoesItsWork(project, store, a, w.session(store, a, n))
  }

  /** Nothing runnable is left for a fresh run on this store. */
  predicate Quiescent(store: Store, project: Project) {
    NextRunnable(store, project, {}).None?
  }

  /** Persist the run's trace. */
  function Save(store: Store, trace: seq<Step>): Store {
    store.(loopRuns := store.loopRuns + [trace])
  }

  // ----- what a run of working sessions leaves behind -----

  /** The store and the trace reflect every dispatched key. */
  ghost predicate Reflected(store: Store, project: Project, done: set<Key>, trace: seq<Step>) {
    && ((Status, project.id) in done ==> Succeeded(store, StatusSession))
    && ((Map, project.id) in done ==> FullyMapped(store, project))
    && ((Discover, project.id) in done ==> FullyMapped(store, project) && DiscoverCurrent(store))
    && (forall f :: (SiblingHunt, f) in done ==> HuntedIn(trace, f))
    && (forall f :: (Disclosure, f) in done ==> Drafted(store, f))
  }

  lemma {:induction false} LastDiscoverAppend(sessions: seq<Session>, r: Session)
    ensures LastDiscover(sessions + [r]) >= LastDiscover(sessions)
    ensures r.kind.DiscoverSession? && Completed(r.outcome, r.close) ==> LastDiscover(sessions + [r]) >= r.id
  {
    if sessions == [] {
      assert sessions + [r] == [r] && LastDiscover([r][1..]) == 0;
    } else {
      assert (sessions + [r])[1..] == sessions[1..] + [r];
      LastDiscoverAppend(sessions[1..], r);
    }
  }

  lemma {:induction false} LastMapBelow(coverage: seq<Coverage>, id: nat)
    requires coverage != [] && forall c :: c in coverage ==> c.lastSession < id
    ensures LastMap(coverage) < id
  {
    assert coverage[0].lastSession < id;
    if coverage[1..] != [] { LastMapBelow(coverage[1..], id); }
  }

  lemma HuntedGrows(trace: seq<Step>, more: seq<Step>, f: string)
    requires HuntedIn(trace, f) || HuntedIn(more, f)
    ensures HuntedIn(trace + more, f)
  {
  }

  /** Sessions only accumulate, so what was done stays done. */
  lemma SessionsGrow(store: Store, a: Action, r: SessionResult, project: Project)
    requires DoesItsWork(project, store, a, r)
    ensures forall kind :: Succeeded(store, kind) ==> Succeeded(r.store, kind)
    ensures forall f :: Drafted(store, f) ==> Drafted(r.store, f)
    ensures Succeeded(r.store, SessionTypeOf(a.kind))
    ensures a.kind.Disclosure? && a.finding.Some? ==> Drafted(r.store, a.finding.value)
    ensures FullyMapped(store, project) ==> FullyMapped(r.store, project)
    ensures !a.kind.Map? && DiscoverCurrent(store) ==> DiscoverCurrent(r.store)
  {
    assert r.record in r.store.sessions;
    LastDiscoverAppend(store.sessions, r.record);
  }

  lemma ReflectedStep(store: Store, project: Project, done: set<Key>, trace: seq<Step>, a: Action, r: SessionResult)
    requires Reflected(store, project, done, trace) && NextRunnable(store, project, done) == Some(a)
    requires DoesItsWork(project, store, a, r)
    ensures Reflected(r.store, project, done + {KeyOf(a, project)}, trace + [StepOf(a, r.record)])
  {
    SessionsGrow(store, a, r, project);
    var step := StepOf(a, r.record);
    forall f | (SiblingHunt, f) in done + {KeyOf(a, project)} ensures HuntedIn(trace + [step], f) {
      if (SiblingHunt, f) !in done {
        assert step in [step];
      }
      HuntedGrows(trace, [step], f);
    }
    if a.kind.Discover? {
      LastDiscoverAppend(store.sessions, r.record);
      LastMapBelow(store.coverage, r.record.id);
    }
  }

  /** Where the selector finds no runnable work after the run's own keys, a fresh run on the
      saved store finds none either. */
  lemma QuiescentAtStop(store: Store, project: Project, done: set<Key>, trace: seq<Step>, more: seq<Step>)
    requires Reflected(store, project, done, trace) && NextRunnable(store, project, done).None?
    ensures Quiescent(Save(store, trace + more), project)
  {
    var saved, verified := Save(store, trace + more), WithStatus(store.findings, Verified);
    assert trace + more in saved.loopRuns;
    forall f | f in verified ensures Hunted(saved, f) {
      assert FirstOpen(SiblingHunt, verified, store, done).None?;
      if Hunted(store, f) {
        var t :| t in store.loopRuns && HuntedIn(t, f);
        assert t in saved.loopRuns;
      } else {
        HuntedGrows(trace, more, f);
      }
    }
    forall f | f in verified ensures Drafted(saved, f) {
      assert FirstOpen(Disclosure, verified, store, done).None?;
      assert Drafted(store, f);
    }
  }

  /** Saving a trace changes no escalation. */
  lemma {:induction false} EscalationsSaved(kind: ActionKind, ids: seq<string>, store: Store, trace: seq<Step>)
    requires kind.VerifyEscalation? || kind.DisclosureSend?
    ensures Escalations(kind, ids, Save(store, trace)) == Escalations(kind, ids, store)
  {
    if ids != [] {
      EscalationsSaved(kind, ids[1..], store, trace);
      assert Drafted(store, ids[0]) <==> Drafted(Save(store, trace), ids[0]);
    }
  }

  lemma PendingSaved(store: Store, trace: seq<Step>)
    ensures PendingEscalations(Save(store, trace)) == PendingEscalations(store)
  {
    EscalationsSaved(DisclosureSend, WithStatus(store.findings, Verified), store, trace);
    EscalationsSaved(VerifyEscalation, WithStatus(store.findings, Candidate), store, trace);
  }

  // ----- runs -----

  /** The sessions a run dispatched, each the policy's choice at its moment. */
  datatype Journal = Start | Dispatched(earlier: Journal, action: Action, result: SessionResult) {
    function StoreAfter(initial: Store): Store { if Start? then initial else result.store }
    function DoneAfter(project: Project): set<Key> {
      if Start? then {} else earlier.DoneAfter(project) + {KeyOf(action, project)}
    }
    function TraceAfter(): seq<Step> {
      if Start? then []
      else earlier.TraceAfter() + [Step(action.kind, action.finding, result.record.outcome, result.record.close)]
    }
    function Sessions(): nat { if Start? then 0 else earlier.Sessions() + 1 }
    function Tokens(): nat { if Start? then 0 else earlier.Tokens() + result.tokens }
    predicate Refused() { Dispatched? && !result.record.outcome.Proceed? }
  }

  ghost predicate ValidJournal(j: Journal, initial: Store, project: Project, w: World) {
    j.Start? ||
    (&& ValidJournal(j.earlier, initial, project, w)
     && NextRunnable(j.earlier.StoreAfter(initial), project, j.earlier.DoneAfter(project)) == Some(j.action)
     && j.result == w.session(j.earlier.StoreAfter(initial), j.action, j.earlier.Sessions()))
  }

  /** Each dispatch adds a new key out of finitely many, so a run without a budget is finite
      too. */
  lemma {:induction false} JournalBounded(j: Journal, initial: Store, project: Project, w: World)
    requires ValidJournal(j, initial, project, w) && NeverVerifies(w)
    ensures VerifiedIds(j.StoreAfter(initial)) <= VerifiedIds(initial)
    ensures j.DoneAfter(project) <= PossibleKeys(project, VerifiedIds(initial)) && OnlyRunnable(j.DoneAfter(project))
    ensures |j.DoneAfter(project)| == j.Sessions() <= 3 + 2 * |VerifiedIds(initial)|
  {
    if j.Dispatched? {
      var store, done := j.earlier.StoreAfter(initial), j.earlier.DoneAfter(project);
      JournalBounded(j.earlier, initial, project, w);
      SelectedKey(store, project, done);
      PossibleGrows(project, VerifiedIds(store), VerifiedIds(initial));
    }
    PossibleCount(project, VerifiedIds(initial), j.DoneAfter(project));
  }

  /** Running the selected action extends the journal. */
  lemma NextDispatch(j: Journal, initial: Store, project: Project, w: World, action: Action)
    requires ValidJournal(j, initial, project, w) && NeverVerifies(w)
    requires NextRunnable(j.StoreAfter(initial), project, j.DoneAfter(project)) == Some(action)
    ensures var next := Dispatched(j, action, w.session(j.StoreAfter(initial), action, j.Sessions()));
      && ValidJournal(next, initial, project, w)
      && next.DoneAfter(project) == j.DoneAfter(project) + {KeyOf(action, project)}
      && next.TraceAfter() == j.TraceAfter() + [StepOf(action, next.result.record)]
      && next.Sessions() == j.Sessions() + 1 <= SessionBound(initial)
  {
    var next := Dispatched(j, action, w.session(j.StoreAfter(initial), action, j.Sessions()));
    JournalBounded(next, initial, project, w);
  }

  function SessionBound(initial: Store): nat { 3 + 2 * |VerifiedIds(initial)| }

  /** A run of working sessions is reflected in its store and trace. */
  lemma {:induction false} JournalReflected(j: Journal, initial: Store, project: Project, w: World)
    requires ValidJournal(j, initial, project, w) && Works(w, project)
    ensures Reflected(j.StoreAfter(initial), project, j.DoneAfter(project), j.TraceAfter())
  {
    if j.Dispatched? {
      var store := j.earlier.StoreAfter(initial);
      JournalReflected(j.earlier, initial, project, w);
      assert DoesItsWork(project, store, j.action, w.session(store, j.action, j.earlier.Sessions()));
      ReflectedStep(store, project, j.earlier.DoneAfter(project), j.earlier.TraceAfter(), j.action, j.result);
    }
  }

  /** What the selector's three answers mean while only runnable keys are done. */
  lemma Selection(store: Store, project: Project, done: set<Key>)
    requires OnlyRunnable(done)
    ensures SelectNextAction(store, project, done).None? ==>
      NextRunnable(store, project, done).None? && PendingEscalations(store) == []
    ensures SelectNextAction(store, project, done).Some? ==>
      var a := SelectNextAction(store, project, done).value;
      if a.IsEscalation() then NextRunnable(store, project, done).None? && PendingEscalations(store) != []
      else NextRunnable(store, project, done) == Some(a)
  {
    EscalationIsFirstPending(store, done);
    if NextRunnable(store, project, done).Some? { SelectedKey(store, project, done); }
  }

  lemma JournalSelection(j: Journal, initial: Store, project: Project, w: World)
    requires ValidJournal(j, initial, project, w) && NeverVerifies(w)
    ensures var store, done := j.StoreAfter(initial), j.DoneAfter(project);
      match SelectNextAction(store, project, done)
      case None => NextRunnable(store, project, done).None? && PendingEscalations(store) == []
      case Some(a) =>
        if a.IsEscalation() then NextRunnable(store, project, done).None? && PendingEscalations(store) != []
        else NextRunnable(store, project, done) == Some(a)
  {
    JournalBounded(j, initial, project, w);
    Selection(j.StoreAfter(initial), project, j.DoneAfter(project));
  }

  /** No set limit is reached: fewer sessions, less time and fewer tokens than allowed. */
  predicate Affordable(budget: Budget, sessions: nat, tokens: nat, wall: real) {
    && (budget.maxSessions.Some? ==> sessions < budget.maxSessions.value)
    && (budget.maxWall.Some? ==> wall < budget.maxWall.value)
    && (budget.maxTokens.Some? ==> tokens < budget.maxTokens.value)
  }

  /** The budget allowed one more session after those of `j`, at both readings of the clock: the
      first is held against the time limit alone. */
  predicate MayGoOn(j: Journal, budget: Budget, w: World) {
    var n := j.Sessions();
    && (budget.maxWall.Some? ==> w.elapsed(2 * n + 1) < budget.maxWall.value)
    && Affordable(budget, n, j.Tokens(), w.elapsed(2 * n + 2))
  }

  /** Every session was within the budget, and followed sessions the gate let through. */
  ghost predicate Allowed(j: Journal, budget: Budget, w: World) {
    j.Start? || (Allowed(j.earlier, budget, w) && !j.earlier.Refused() && MayGoOn(j.earlier, budget, w))
  }

  /** Why a run stops after the sessions of `j`, and what it reports: a session the gate did not let
      through; nothing selected; the time limit; only escalations left, each with a step and a note of
      its own; the budget. None of these, and the run goes on. */
  function StopOf(selected: Option<Action>, pending: seq<Action>, j: Journal, budget: Budget, w: World)
    : Option<LoopRun>
  {
    var spent, trace := Spend(j.Sessions(), j.Tokens()), j.TraceAfter();
    if j.Refused() then
      Some(LoopRun(if j.result.record.outcome.Hold? then GateHeld else GateRefused, spent, trace,
                   [GateNote(j.result.record.outcome)], None))
    else if selected.None? then
      Some(LoopRun(FixedPoint, spent, trace, [], None))
    else if budget.maxWall.Some? && w.elapsed(2 * j.Sessions() + 1) >= budget.maxWall.value then
      Some(LoopRun(BudgetExhausted, spent, trace, [], selected))
    else if selected.value.kind == VerifyEscalation || selected.value.kind == DisclosureSend then
      Some(LoopRun(HardStop, spent, trace + EscalationSteps(pending), EscalationNotes(pending), None))
    else if !MayGoOn(j, budget, w) then
      Some(LoopRun(BudgetExhausted, spent, trace, [], selected))
    else None
  }

  /** How a run ended, before its record is saved. */
  ghost predicate Ended(run: LoopRun, store: Store, j: Journal, initial: Store, project: Project, budget: Budget,
                        w: World) {
    && ValidJournal(j, initial, project, w) && Allowed(j, budget, w) && j.Sessions() <= SessionBound(initial)
    && store == j.StoreAfter(initial)
    && StopOf(SelectNextAction(store, project, j.DoneAfter(project)), PendingEscalations(store), j, budget, w)
       == Some(run)
  }

  /** The checks between selecting an action and running it, in the order of the source. The arm
      that would report a hard stop when nothing at all is selected is never taken: nothing is
      outstanding there. */
  method CheckStop(selected: Option<Action>, pending: seq<Action>, spent: Spend, trace: seq<Step>,
                   outstanding: seq<Note>, budget: Budget, w: World, ghost j: Journal) returns (run: Option<LoopRun>)
    requires !j.Refused() && spent == Spend(j.Sessions(), j.Tokens()) && trace == j.TraceAfter() && outstanding == []
    ensures run == StopOf(selected, pending, j, budget, w)
  {
    if selected.None? {
      return Some(LoopRun(if outstanding != [] then HardStop else FixedPoint, spent, trace, outstanding, None));
    }
    if WallExceeded(budget, w.elapsed(2 * spent.sessions + 1)) {
      return Some(LoopRun(BudgetExhausted, spent, trace, outstanding, selected));
    }
    if selected.value.IsEscalation() {
      assert outstanding + EscalationNotes(pending) == EscalationNotes(pending);
      return Some(LoopRun(HardStop, spent, trace + EscalationSteps(pending), outstanding + EscalationNotes(pending),
                          None));
    }
    if WouldExceed(budget, spent, w.elapsed(2 * spent.sessions + 2)) {
      return Some(LoopRun(BudgetExhausted, spent, trace, outstanding, selected));
    }
    return None;
  }

  /** What the loop keeps while it goes on. */
  ghost predicate Running(store: Store, done: set<Key>, spent: Spend, trace: seq<Step>, j: Journal, initial: Store,
                          project: Project, budget: Budget, w: World) {
    && ValidJournal(j, initial, project, w) && Allowed(j, budget, w)
    && store == j.StoreAfter(initial) && done == j.DoneAfter(project)
    && trace == j.TraceAfter() && spent == Spend(j.Sessions(), j.Tokens())
    && spent.sessions <= SessionBound(initial)
  }

  lemma RunningStep(store: Store, done: set<Key>, spent: Spend, trace: seq<Step>, j: Journal, initial: Store,
                    project: Project, budget: Budget, w: World, action: Action)
    requires NeverVerifies(w) && Running(store, done, spent, trace, j, initial, project, budget, w)
    requires SelectNextAction(store, project, done) == Some(action) && !action.IsEscalation()
    requires !j.Refused() && MayGoOn(j, budget, w)
    ensures var result := w.session(store, action, spent.sessions);
      Running(result.store, done + {KeyOf(action, project)}, Spend(spent.sessions + 1, spent.tokens + result.tokens),
              trace + [StepOf(action, result.record)], Dispatched(j, action, result), initial, project, budget, w)
  {
    JournalSelection(j, initial, project, w);
    NextDispatch(j, initial, project, w, action);
  }

  lemma EndedByGate(run: LoopRun, store: Store, done: set<Key>, spent: Spend, trace: seq<Step>, j: Journal,
                    initial: Store, project: Project, budget: Budget, w: World)
    requires Running(store, done, spent, trace, j, initial, project, budget, w) && j.Refused()
    requires run == LoopRun(if j.result.record.outcome.Hold? then GateHeld else GateRefused, spent, trace,
                            [GateNote(j.result.record.outcome)], None)
    ensures Ended(run, store, j, initial, project, budget, w)
  {
  }

  /** The loop of `run_loop`, reading the clock twice for each session. */
  method Drive(initial: Store, project: Project, budget: Budget, w: World)
    returns (run: LoopRun, store: Store, ghost journal: Journal)
    requires NeverVerifies(w)
    ensures Ended(run, store, journal, initial, project, budget, w)
  {
    store, journal := initial, Start;
    var spent, done, trace := Spend(0, 0), {}, [];
    var outstanding: seq<Note> := [];
    while true
      invariant outstanding == [] && !journal.Refused()
      invariant Running(store, done, spent, trace, journal, initial, project, budget, w)
      decreases SessionBound(initial) - spent.sessions
    {
      var action := SelectNextAction(store, project, done);
      var stop := CheckStop(action, PendingEscalations(store), spent, trace, outstanding, budget, w, journal);
      if stop.Some? {
        run := stop.value;
        return;
      }
      RunningStep(store, done, spent, trace, journal, initial, project, budget, w, action.value);
      var result := w.session(store, action.value, spent.sessions);
      journal := Dispatched(journal, action.value, result);
      store := result.store;
      done := done + {KeyOf(action.value, project)};
      trace := trace + [StepOf(action.value, result.record)];
      spent := Spend(spent.sessions + 1, spent.tokens + result.tokens);
      if !result.record.outcome.Proceed? {
        run := LoopRun(if result.record.outcome.Hold? then GateHeld else GateRefused, spent, trace,
                       outstanding + [GateNote(result.record.outcome)], None);
        EndedByGate(run, store, done, spent, trace, journal, initial, project, budget, w);
        return;
      }
    }
  }

  /** What a stop says about the run, whatever was selected. */
  lemma StopFacts(run: LoopRun, selected: Option<Action>, pending: seq<Action>, j: Journal, budget: Budget, w: World)
    requires StopOf(selected, pending, j, budget, w) == Some(run)
    ensures j.TraceAfter() <= run.trace && run.spent == Spend(j.Sessions(), j.Tokens())
    ensures run.stop == FixedPoint ==> selected.None? && run.outstanding == []
    ensures run.stop == HardStop ==>
      selected.Some? && selected.value.IsEscalation() && |run.outstanding| == |pending|
  {
  }

  lemma WithinSessions(j: Journal, budget: Budget, w: World)
    requires Allowed(j, budget, w)
    ensures budget.maxSessions.Some? ==> j.Sessions() <= budget.maxSessions.value
  {
    if j.Dispatched? { assert MayGoOn(j.earlier, budget, w); }
  }

  /** What the two clean stops say: a fixed point leaves nothing runnable and nothing pending, a
      hard stop nothing runnable. */
  lemma StopMeaning(run: LoopRun, store: Store, j: Journal, initial: Store, project: Project, budget: Budget, w: World)
    requires NeverVerifies(w) && Ended(run, store, j, initial, project, budget, w)
    ensures j.TraceAfter() <= run.trace && run.spent == Spend(j.Sessions(), j.Tokens())
    ensures budget.maxSessions.Some? ==> run.spent.sessions <= budget.maxSessions.value
    ensures run.stop == FixedPoint ==> PendingEscalations(store) == [] && run.outstanding == []
    ensures run.stop == HardStop ==>
      PendingEscalations(store) != [] && |run.outstanding| == |PendingEscalations(store)|
    ensures run.stop == FixedPoint || run.stop == HardStop ==> NextRunnable(store, project, j.DoneAfter(project)).None?
  {
    JournalSelection(j, initial, project, w);
    WithinSessions(j, budget, w);
    StopFacts(run, SelectNextAction(store, project, j.DoneAfter(project)), PendingEscalations(store), j, budget, w);
  }

  /** `run_loop` on a registered, gated project. It always ends, with at most three sessions
      plus two per verified finding, whatever the budget, and saves its record. */
  method RunProject(initial: Store, project: Project, budget: Budget, w: World)
    returns (run: LoopRun, store: Store, ghost journal: Journal)
    requires NeverVerifies(w)
    ensures Ended(run, journal.StoreAfter(initial), journal, initial, project, budget, w)
    ensures store == journal.StoreAfter(initial).(loopRuns := journal.StoreAfter(initial).loopRuns + [run.trace])
    ensures run.spent.sessions <= 3 + 2 * |VerifiedIds(initial)|
    ensures budget.maxSessions.Some? ==> run.spent.sessions <= budget.maxSessions.value
    ensures run.stop == FixedPoint ==> PendingEscalations(store) == [] && run.outstanding == []
    ensures run.stop == HardStop ==> PendingEscalations(store) != [] && |run.outstanding| == |PendingEscalations(store)|
  {
    run, store, journal := Drive(initial, project, budget, w);
    StopMeaning(run, store, journal, initial, project, budget, w);
    PendingSaved(store, run.trace);
    store := Save(store, run.trace);
  }

  /** `run_loop`: an unregistered project is refused and leaves no trace; a gate that does
      not proceed stops the run before any work, and the run is saved. */
  method RunLoop(initial: Store, registered: Option<Project>, budget: Budget, w: World)
    returns (run: LoopRun, store: Store, ghost journal: Journal)
    requires NeverVerifies(w)
    ensures registered.None? ==>
              run == LoopRun(GateRefused, Spend(0, 0), [], [ProjectMissing], None) && store == initial
    ensures registered.Some? && !w.gate.Proceed? ==>
              && run.stop == (if w.gate.Hold? then GateHeld else GateRefused)
              && run == LoopRun(run.stop, Spend(0, 0), [], [GateNote(w.gate)], None)
              && store == initial.(loopRuns := initial.loopRuns + [[]])
    ensures registered.Some? && w.gate.Proceed? ==>
              && Ended(run, journal.StoreAfter(initial), journal, initial, registered.value, budget, w)
              && store == journal.StoreAfter(initial).(loopRuns := journal.StoreAfter(initial).loopRuns + [run.trace])
    ensures run.spent.sessions <= 3 + 2 * |VerifiedIds(initial)|
    ensures run.stop == FixedPoint ==> PendingEscalations(store) == [] && run.outstanding == []
    ensures registered.Some? && (run.stop == FixedPoint || run.stop == HardStop) && Works(w, registered.value) ==>
      Quiescent(store, registered.value)
    ensures registered.Some? && Quiescent(initial, registered.value) ==> run.spent.sessions == 0
  {
    store, journal := initial, Start;
    if registered.None? {
      run := LoopRun(GateRefused, Spend(0, 0), [], [ProjectMissing], None);
      return;
    }
    var project := registered.value;
    if !w.gate.Proceed? {
      run := LoopRun(if w.gate.Hold? then GateHeld else GateRefused, Spend(0, 0), [], [GateNote(w.gate)], None);
      store := Save(store, run.trace);
      return;
    }
    run, store, journal := RunProject(initial, project, budget, w);
    StopMeaning(run, journal.StoreAfter(initial), journal, initial, project, budget, w);
    if (run.stop == FixedPoint || run.stop == HardStop) && Works(w, project) {
      RunQuiescent(journal, initial, project, w, run.trace);
    }
    FirstDispatch(journal, initial, project, w);
  }

  lemma RunQuiescent(j: Journal, initial: Store, project: Project, w: World, trace: seq<Step>)
    requires ValidJournal(j, initial, project, w) && Works(w, project) && j.TraceAfter() <= trace
    requires NextRunnable(j.StoreAfter(initial), project, j.DoneAfter(project)).None?
    ensures Quiescent(Save(j.StoreAfter(initial), trace), project)
  {
    var more := trace[|j.TraceAfter()|..];
    assert j.TraceAfter() + more == trace;
    JournalReflected(j, initial, project, w);
    QuiescentAtStop(j.StoreAfter(initial), project, j.DoneAfter(project), j.TraceAfter(), more);
  }

  lemma {:induction false} FirstDispatch(j: Journal, initial: Store, project: Project, w: World)
    requires ValidJournal(j, initial, project, w)
    ensures j.Dispatched? ==> !Quiescent(initial, project)
  {
    if j.Dispatched? && j.earlier.Dispatched? {
      FirstDispatch(j.earlier, initial, project, w);
    }
  }

  /** Cross-run convergence: after a run of working sessions that stopped at a fixed point or
      a hard stop, a second run on the saved store runs no session, whatever its budget and
      its world. */
  method RunTwice(initial: Store, project: Project, budget: Budget, w: World, budget': Budget, w': World)
    returns (first: LoopRun, second: LoopRun, store: Store)
    requires NeverVerifies(w) && NeverVerifies(w') && Works(w, project)
    ensures first.stop == FixedPoint || first.stop == HardStop ==> second.spent.sessions == 0
  {
    ghost var journal, journal';
    first, store, journal := RunLoop(initial, Some(project), budget, w);
    second, store, journal' := RunLoop(store, Some(project), budget', w');
  }

  // ----- the assumptions can be met -----

  function NextId(sessions: seq<Session>, coverage: seq<Coverage>): (id: nat)
    ensures forall s :: s in sessions ==> s.id < id
    ensures forall c :: c in coverage ==> c.lastSession < id
  {
    if sessions != [] then
      var rest := NextId(sessions[1..], coverage);
      if sessions[0].id >= rest then sessions[0].id + 1 else rest
    else if coverage != [] then
      var rest := NextId(sessions, coverage[1..]);
      if coverage[0].lastSession >= rest then coverage[0].lastSession + 1 else rest
    else 1
  }

  /** A session that does its work on any store. */
  function IdealSession(project: Project, store: Store, a: Action): SessionResult {
    var id := NextId(store.sessions, store.coverage);
    var record := Session(id, SessionTypeOf(a.kind), Proceed, Clean,
        if a.finding.Some? then {a.finding.value} else {}, true);
    var mapped := seq(|project.inScope|, i requires 0 <= i < |project.inScope| => Coverage(project.inScope[i], id));
    SessionResult(store.(sessions := store.sessions + [record],
        coverage := if a.kind.Map? then mapped else store.coverage),
                  record, 0)
  }

  lemma IdealWorks(project: Project, store: Store, a: Action)
    ensures DoesItsWork(project, store, a, IdealSession(project, store, a))
  {
    var r := IdealSession(project, store, a);
    if a.kind.Map? {
      forall area | area in project.inScope ensures Covered(r.store, area) {
        var i :| 0 <= i < |project.inScope| && project.inScope[i] == area;
        assert r.store.coverage[i].area == area && r.store.coverage[i] in r.store.coverage;
      }
    }
  }

  /** Some world meets what convergence asks of sessions, for every project. */
  lemma SomeWorldWorks(project: Project) returns (w: World)
    ensures Works(w, project) && NeverVerifies(w)
  {
    w := World(Proceed, (store, a, n) => IdealSession(project, store, a), n => 0.0);
    forall store, a, n ensures DoesItsWork(project, store, a, w.session(store, a, n)) {
      IdealWorks(project, store, a);
    }
  }

  // ----- run ids -----

  /** The largest parsed sequence number among the ids with the day's prefix, or 0. */
  function MaxSequence(ids: seq<string>, prefix: string, parse: string -> Option<int>): (r: nat)
    ensures forall id :: id in ids && prefix <= id && parse(id[|prefix|..]).Some? ==> parse(id[|prefix|..]).value <= r
  {
    if ids == [] then 0
    else
      var last, front := ids[|ids| - 1], ids[..|ids| - 1];
      var before := MaxSequence(front, prefix, parse);
      assert ids == front + [last];
      if prefix <= last && parse(last[|prefix|..]).Some? && parse(last[|prefix|..]).value > before
      then parse(last[|prefix|..]).value else before
  }

  /** An id carries a number: it has the day's prefix and the rest parses. */
  ghost predicate Carries(id: string, prefix: string, parse: string -> Option<int>, n: int) {
    prefix <= id && parse(id[|prefix|..]) == Some(n)
  }

  /** The largest number in use is carried by some id, or is 0, and no id carries a larger one. */
  lemma {:induction false} MaxExactly(ids: seq<string>, prefix: string, parse: string -> Option<int>, n: nat)
    ensures n == MaxSequence(ids, prefix, parse) <==>
      && (forall id, k :: id in ids && Carries(id, prefix, parse, k) ==> k <= n)
      && (n == 0 || exists id :: id in ids && Carries(id, prefix, parse, n))
  {
    var r := MaxSequence(ids, prefix, parse);
    assert forall id, k :: id in ids && Carries(id, prefix, parse, k) ==> k <= r;
    MaxAttained(ids, prefix, parse);
  }

  lemma {:induction false} MaxAttained(ids: seq<string>, prefix: string, parse: string -> Option<int>)
    ensures var r := MaxSequence(ids, prefix, parse);
      r == 0 || exists id :: id in ids && Carries(id, prefix, parse, r)
  {
    if ids != [] {
      var last, front := ids[|ids| - 1], ids[..|ids| - 1];
      MaxAttained(front, prefix, parse);
      assert ids == front + [last];
      var r := MaxSequence(ids, prefix, parse);
      if r != MaxSequence(front, prefix, parse) { assert last in ids && Carries(last, prefix, parse, r); }
    }
  }

  /** `generate_loop_run_id`: one more than the largest number in use, never the id of an
      existing run. All that is asked of the parser is that it reads printed numbers back. */
  method NextRunId(ids: seq<string>, prefix: string, parse: string -> Option<int>) returns (id: string)
    requires forall n: nat :: parse(Padded(n)) == Some(n)
    ensures id !in ids
    ensures id == prefix + Padded(MaxSequence(ids, prefix, parse) + 1)
  {
    var largest := 0;
    for i := 0 to |ids|
      invariant largest == MaxSequence(ids[..i], prefix, parse)
    {
      assert ids[..i + 1][..i] == ids[..i];
      if prefix <= ids[i] {
        var parsed := parse(ids[i][|prefix|..]);
        if parsed.Some? && parsed.value > largest {
          largest := parsed.value;
        }
      }
    }
    assert ids[..|ids|] == ids;
    id := prefix + Padded(largest + 1);
    assert id[|prefix|..] == Padded(largest + 1);
  }
}

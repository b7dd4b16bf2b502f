/** Validation guarantees are exact on tests built from validator calls: a name is guaranteed for an
    outcome if and only if every way to that outcome has a validator accept it. */
module RedirectGuards {
  import opened Options
  import opened OpenRedirect
  import opened RedirectSoundness
  import RedirectMeaning

  /** Validator calls on one name, combined by `not`, `and` and `or`. */
  predicate IsCheck(test: Expr, names: Names) {
    match test
    case Call(callee, args, _) =>
      && callee in names.validators
      && args.Arg? && args.value.Name? && args.rest.NoArgs? && CheckedArg(args).Some?
    case Not(operand) => IsCheck(operand, names)
    case BoolExpr(_, operands) => operands.Arg? && AllChecks(operands, names)
    case _ => false
  }

  predicate AllChecks(args: ArgList<Expr>, names: Names) {
    args.Arg? ==> IsCheck(args.value, names) && AllChecks(args.rest, names)
  }

  // ----- no name is guaranteed for both outcomes -----

  lemma {:induction false} OneOutcome(test: Expr, x: string, names: Names)
    requires IsCheck(test, names)
    ensures !(x in Guaranteed(test, true, names) && x in Guaranteed(test, false, names))
    decreases test
  {
    match test
    case Not(operand) => OneOutcome(operand, x, names);
    case BoolExpr(op, operands) =>
      OneOutcomeEach(operands, x, names);
      CombineMeaning(op, true, GuaranteedEach(operands, true, names), x);
      CombineMeaning(op, false, GuaranteedEach(operands, false, names), x);
    case _ =>
  }

  lemma {:induction false} OneOutcomeEach(args: ArgList<Expr>, x: string, names: Names)
    requires AllChecks(args, names)
    ensures var yes, no := GuaranteedEach(args, true, names), GuaranteedEach(args, false, names);
      |yes| == |no| && forall i :: 0 <= i < |yes| ==> !(x in yes[i] && x in no[i])
    decreases args
  {
    if args.Arg? {
      OneOutcome(args.value, x, names);
      OneOutcomeEach(args.rest, x, names);
    }
  }

  lemma CombineMeaning(op: BoolOp, outcome: bool, sets: seq<set<string>>, x: string)
    requires sets != []
    ensures x in Combine(op, outcome, sets) <==>
      if op.And? == outcome then exists i :: 0 <= i < |sets| && x in sets[i]
      else forall i :: 0 <= i < |sets| ==> x in sets[i]
  {
    UnionMeaning(sets, x);
    RedirectMeaning.MeetMeaning(sets, x);
  }

  lemma {:induction false} UnionMeaning(sets: seq<set<string>>, x: string)
    ensures x in Union(sets) <==> exists i :: 0 <= i < |sets| && x in sets[i]
  {
    if sets != [] {
      UnionMeaning(sets[1..], x);
      assert forall i :: 1 <= i < |sets| ==> sets[i] == sets[1..][i - 1];
    }
  }

  // ----- a way to an outcome that leaves a name unchecked -----

  /** Two worlds agree on the names and on the replies before some moment. */
  ghost predicate Alike(w: World, w': World, clock: nat) {
    w.global == w'.global && forall t: nat :: t < clock ==> w.reply(t) == w'.reply(t)
  }

  /** Every name holds its own value. */
  ghost predicate OwnValues(m: Machine, w: World) { m.env == map[] && forall y: string :: w.global(y) == y }

  function Held(x: string): Value { RawValue.Value(x, false, false) }

  function Replying(w: World, clock: nat, yes: bool): World {
    w.(reply := (t: nat) => if t == clock then yes else w.reply(t))
  }

  lemma SoleCheck(args: ArgList<Expr>, m: Machine, w: World, names: Names)
    requires args.Arg? && args.value.Name? && args.rest.NoArgs? && CheckedArg(args).Some?
    ensures CheckedArg(args).value == args.value
    ensures EvalArgs(args, m, w, names) == (Arg(args.keyword, m.Read(args.value.id, w), NoArgs), m)
    ensures CheckedArg(EvalArgs(args, m, w, names).0) == Some(m.Read(args.value.id, w))
  {
    var keywords := {"url", "target", "redirect_url", "next_url"};
    assert FirstKeyword<Expr>(args.rest, keywords) == None && FirstPositional<Expr>(args.rest) == None;
    assert EvalArgs(args.rest, m, w, names) == (NoArgs, m);
    ArgsRead(args, m, w, names);
    CheckedRead(args, EvalArgs(args, m, w, names).0, m, w);
  }

  /** A validator call takes one moment, answers what the world replies, and accepts the value of its
      name if that is yes. */
  lemma CallCheck(test: Expr, m: Machine, w: World, names: Names)
    requires IsCheck(test, names) && test.Call?
    ensures var (v, m') := Eval(test, m, w, names);
      && Truthy(v) == w.reply(m.clock) && m'.clock == m.clock + 1
      && m'.accepted == (if w.reply(m.clock) then m.accepted + {m.Read(test.args.value.id, w)} else m.accepted)
    ensures Guaranteed(test, true, names) == {test.args.value.id} && Guaranteed(test, false, names) == {}
  {
    SoleCheck(test.args, m, w, names);
  }

  lemma {:induction false} ClockRuns(test: Expr, m: Machine, w: World, names: Names)
    requires IsCheck(test, names)
    ensures Eval(test, m, w, names).1.clock >= m.clock
    decreases test
  {
    match test
    case Call(_, _, _) => CallCheck(test, m, w, names);
    case Not(operand) => ClockRuns(operand, m, w, names);
    case BoolExpr(op, operands) => ClockRunsEach(op, operands, m, w, names);
  }

  lemma {:induction false} ClockRunsEach(op: BoolOp, args: ArgList<Expr>, m: Machine, w: World, names: Names)
    requires AllChecks(args, names)
    ensures EvalBool(op, args, m, w, names).1.clock >= m.clock
    decreases args
  {
    if args.Arg? {
      ClockRuns(args.value, m, w, names);
      ClockRunsEach(op, args.rest, Eval(args.value, m, w, names).1, w, names);
    }
  }

  /** A test depends on the replies up to its end only. */
  lemma {:induction false} CheckLocal(test: Expr, m: Machine, w: World, w': World, names: Names)
    requires IsCheck(test, names) && Alike(w, w', Eval(test, m, w, names).1.clock)
    ensures Eval(test, m, w', names) == Eval(test, m, w, names)
    decreases test
  {
    match test
    case Call(_, _, _) =>
      CallCheck(test, m, w, names);
      CallCheck(test, m, w', names);
      SoleCheck(test.args, m, w, names);
      SoleCheck(test.args, m, w', names);
    case Not(operand) => CheckLocal(operand, m, w, w', names);
    case BoolExpr(op, operands) => EachLocal(op, operands, m, w, w', names);
  }

  lemma {:induction false} EachLocal(op: BoolOp, args: ArgList<Expr>, m: Machine, w: World, w': World, names: Names)
    requires AllChecks(args, names) && Alike(w, w', EvalBool(op, args, m, w, names).1.clock)
    ensures EvalBool(op, args, m, w', names) == EvalBool(op, args, m, w, names)
    decreases args
  {
    if args.Arg? {
      var (v, m1) := Eval(args.value, m, w, names);
      ClockRunsEach(op, args.rest, m1, w, names);
      CheckLocal(args.value, m, w, w', names);
      if !(args.rest.NoArgs? || Truthy(v) == op.Or?) { EachLocal(op, args.rest, m1, w, w', names); }
    }
  }

  /** The test comes out as `outcome`, and the value of `x` is not accepted on the way. */
  ghost predicate Avoids(test: Expr, outcome: bool, x: string, m: Machine, w: World, names: Names) {
    Truthy(Eval(test, m, w, names).0) == outcome && Held(x) !in Eval(test, m, w, names).1.accepted
  }

  ghost predicate AvoidsBool(op: BoolOp, args: ArgList<Expr>, outcome: bool, x: string, m: Machine, w: World,
                             names: Names)
  {
    Truthy(EvalBool(op, args, m, w, names).0) == outcome && Held(x) !in EvalBool(op, args, m, w, names).1.accepted
  }

  /** A name that is not guaranteed for an outcome can be avoided on some way to it, whatever the world
      replies before. */
  lemma {:induction false} Avoid(test: Expr, outcome: bool, x: string, m: Machine, w0: World, names: Names)
    returns (w: World)
    requires IsCheck(test, names) && x !in Guaranteed(test, outcome, names)
    requires OwnValues(m, w0) && Held(x) !in m.accepted
    ensures Alike(w0, w, m.clock) && Avoids(test, outcome, x, m, w, names)
    decreases test
  {
    match test
    case Call(_, _, _) =>
      w := Replying(w0, m.clock, outcome);
      CallCheck(test, m, w, names);
    case Not(operand) => w := Avoid(operand, !outcome, x, m, w0, names);
    case BoolExpr(op, operands) =>
      CombineMeaning(op, outcome, GuaranteedEach(operands, outcome, names), x);
      if op.And? == outcome {
        w := AvoidAll(op, operands, outcome, x, m, w0, names);
      } else {
        w := AvoidSome(op, operands, outcome, x, m, w0, names);
      }
  }

  /** Every operand comes out as the whole. */
  lemma {:induction false} AvoidAll(op: BoolOp, args: ArgList<Expr>, outcome: bool, x: string, m: Machine,
                                    w0: World, names: Names)
    returns (w: World)
    requires args.Arg? && AllChecks(args, names) && op.And? == outcome
    requires forall i :: 0 <= i < |GuaranteedEach(args, outcome, names)| ==>
      x !in GuaranteedEach(args, outcome, names)[i]
    requires OwnValues(m, w0) && Held(x) !in m.accepted
    ensures Alike(w0, w, m.clock) && AvoidsBool(op, args, outcome, x, m, w, names)
    decreases args
  {
    var sets, rest := GuaranteedEach(args, outcome, names), GuaranteedEach(args.rest, outcome, names);
    assert sets[0] == Guaranteed(args.value, outcome, names);
    assert forall i :: 0 <= i < |rest| ==> rest[i] == sets[i + 1];
    var w1 := Avoid(args.value, outcome, x, m, w0, names);
    w := w1;
    if args.rest.Arg? {
      var m1 := Eval(args.value, m, w1, names).1;
      ClockRuns(args.value, m, w1, names);
      w := AvoidAll(op, args.rest, outcome, x, m1, w1, names);
      CheckLocal(args.value, m, w1, w, names);
    }
  }

  /** The first operand that does not guarantee the name decides; the ones before come out the other
      way. */
  lemma {:induction false} AvoidSome(op: BoolOp, args: ArgList<Expr>, outcome: bool, x: string, m: Machine,
                                     w0: World, names: Names)
    returns (w: World)
    requires args.Arg? && AllChecks(args, names) && op.And? != outcome
    requires !(forall i :: 0 <= i < |GuaranteedEach(args, outcome, names)| ==>
                 x in GuaranteedEach(args, outcome, names)[i])
    requires OwnValues(m, w0) && Held(x) !in m.accepted
    ensures Alike(w0, w, m.clock) && AvoidsBool(op, args, outcome, x, m, w, names)
    decreases args
  {
    var sets, rest := GuaranteedEach(args, outcome, names), GuaranteedEach(args.rest, outcome, names);
    assert sets[0] == Guaranteed(args.value, outcome, names) && sets[1..] == rest;
    if x !in sets[0] {
      w := Avoid(args.value, outcome, x, m, w0, names);
    } else {
      OneOutcome(args.value, x, names);
      var w1 := Avoid(args.value, !outcome, x, m, w0, names);
      var m1 := Eval(args.value, m, w1, names).1;
      ClockRuns(args.value, m, w1, names);
      var i :| 0 <= i < |sets| && x !in sets[i];
      assert rest[i - 1] == sets[i];
      w := AvoidSome(op, args.rest, outcome, x, m1, w1, names);
      CheckLocal(args.value, m, w1, w, names);
    }
  }

  /** Whenever the test comes out as `outcome`, the test itself had the value of `x` accepted. */
  ghost predicate AlwaysAccepted(test: Expr, outcome: bool, x: string, names: Names) {
    forall m: Machine, w: World :: m.accepted == {} && Truthy(Eval(test, m, w, names).0) == outcome ==>
      m.Read(x, w) in Eval(test, m, w, names).1.accepted
  }

  /** The guarantees are exact: a name is guaranteed for an outcome if and only if every way to it has
      a validator call of the test accept the name's value. */
  lemma GuaranteedExactly(test: Expr, outcome: bool, x: string, names: Names)
    requires IsCheck(test, names)
    ensures x in Guaranteed(test, outcome, names) <==> AlwaysAccepted(test, outcome, x, names)
  {
    if x in Guaranteed(test, outcome, names) {
      forall m: Machine, w: World | m.accepted == {} && Truthy(Eval(test, m, w, names).0) == outcome
        ensures m.Read(x, w) in Eval(test, m, w, names).1.accepted
      {
        GuaranteedSound(test, outcome, m, w, names);
      }
    } else {
      var m := Machine(map[], {}, 0, {});
      var w := Avoid(test, outcome, x, m, World(_ => true, _ => 0, _ => "", y => y, (_, t) => t, _ => false), names);
      assert m.Read(x, w) == Held(x) && Avoids(test, outcome, x, m, w, names);
    }
  }

  // ----- what the scan makes of a guard -----

  function Redirecting(callee: string, x: string, site: nat): Block {
    Then(Evaluate(Call(callee, Arg("", Name(x), NoArgs), site)), Empty)
  }

  /** `if test: return`, then the rest. */
  function Unless(test: Expr, rest: Block): Block {
    Then(If(test, Then(Return(None), Empty), Empty), rest)
  }

  lemma NoSite(callee: string, x: string, site: nat, st: State, names: Names)
    requires x in st.validated
    ensures ScanBlock(Redirecting(callee, x, site), st, names).results == []
  {
    var args := Arg("", Name(x), NoArgs);
    assert RedirectTarget(args) == Some(Name(x));
    assert st.Lookup(x) == Internal;
    assert FlowOf(Name(x), st, names) == Internal;
    assert ScanExpr(Name(x), st, names) == [] && ScanArgs(args, st, names) == [];
    assert ScanExpr(Call(callee, args, site), st, names) == [];
  }

  /** Behind an early return whose fall-through guarantees a name, and inside a branch that does, the
      scan reports nothing for a redirect to it. */
  lemma GuardPasses(test: Expr, callee: string, x: string, site: nat, st: State, names: Names)
    ensures x in Guaranteed(test, false, names) ==>
      ScanBlock(Unless(test, Redirecting(callee, x, site)), st, names).results == ScanExpr(test, st, names)
    ensures x in Guaranteed(test, true, names) ==>
      ScanBlock(Then(If(test, Redirecting(callee, x, site), Empty), Empty), st, names).results
      == ScanExpr(test, st, names)
  {
    if x in Guaranteed(test, false, names) { FallThrough(test, callee, x, site, st, names); }
    if x in Guaranteed(test, true, names) {
      NoSite(callee, x, site, Entering(test, true, st, names), names);
      var scan := ScanBranches(test, Redirecting(callee, x, site), Empty, st, names);
      assert ScanBlock(Empty, Entering(test, false, st, names), names).results == [];
      assert scan.results == ScanExpr(test, st, names) + [] + [] == ScanExpr(test, st, names);
    }
  }

  lemma FallThrough(test: Expr, callee: string, x: string, site: nat, st: State, names: Names)
    requires x in Guaranteed(test, false, names)
    ensures ScanBlock(Unless(test, Redirecting(callee, x, site)), st, names).results == ScanExpr(test, st, names)
  {
    var leave, other := Then(Return(None), Empty), Entering(test, false, st, names);
    var branches := ScanBranches(test, leave, Empty, st, names);
    assert ScanBlock(leave, Entering(test, true, st, names), names).results == [];
    assert ScanBlock(Empty, other, names) == Scan(other, []);
    assert Continuing(leave, Empty, ScanBlock(leave, Entering(test, true, st, names), names).state, other) == [other];
    assert branches.results == ScanExpr(test, st, names) + [] + [];
    SoleBranch(other);
    assert branches.state == Merge([other]);
    NoSite(callee, x, site, branches.state, names);
  }

  /** A single continuing branch is what the state after the if is. */
  lemma SoleBranch(st: State)
    ensures Merge([st]).validated == st.validated && forall x :: Merge([st]).Get(x) == st.Get(x)
  {
    assert [st][0] == st;
    var sets := seq(|[st]|, i requires 0 <= i < |[st]| => [st][i].validated);
    assert sets == [st.validated];
    forall x ensures Merge([st]).Get(x) == st.Get(x) {
      var flows := seq(|[st]|, i requires 0 <= i < |[st]| => [st][i].Get(x));
      assert flows == [st.Get(x)] && flows[0] in flows;
    }
  }
}

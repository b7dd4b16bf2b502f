/** The scanner as the program runs it: a mutable state that branches, merges and is updated
    in place, and a growing list of results. Each method computes the scan function of
    `OpenRedirect`, whose soundness is proved there. */
module RedirectScanner {
  import opened OpenRedirect
  import opened Options

  class MutableState {
    var env: map<string, Flow>
    var validated: set<string>

    constructor (value: State)
      ensures Value() == value
    {
      env, validated := value.env, value.validated;
    }

    function Value(): State
      reads this
    {
      State(env, validated)
    }

    /** A copy in which `more` names are validated as well. */
    method BranchValidated(more: set<string>) returns (s: MutableState)
      ensures fresh(s) && s.Value() == Value().(validated := Value().validated + more)
    {
      s := new MutableState(State(env, validated + more));
    }

    /** Bind every target to one flow; a rebound name is no longer validated. */
    method Bind(targets: seq<string>, f: Flow)
      modifies this
      ensures Value() == AssignAll(targets, f, old(Value()))
    {
      var i := 0;
      while i < |targets|
        invariant 0 <= i <= |targets|
        invariant AssignAll(targets[i..], f, Value()) == AssignAll(targets, f, old(Value()))
      {
        assert targets[i..][0] == targets[i] && targets[i..][1..] == targets[i + 1..];
        env := env[targets[i] := f];
        validated := validated - {targets[i]};
        i := i + 1;
      }
    }

    method Adopt(value: State)
      modifies this
      ensures Value() == value
    {
      env, validated := value.env, value.validated;
    }
  }

  ghost function Values(branches: seq<MutableState>): (r: seq<State>)
    reads branches
    ensures |r| == |branches|
  {
    seq(|branches|, i requires 0 <= i < |branches| reads branches => branches[i].Value())
  }

  /** `_merge_states`: nothing to merge leaves the target alone. */
  method MergeStates(target: MutableState, branches: seq<MutableState>)
    modifies target
    ensures target.Value() == if branches == [] then old(target.Value()) else Merge(old(Values(branches)))
  {
    if branches == [] {
      return;
    }
    var values: seq<State> := [];
    for i := 0 to |branches|
      invariant values == Values(branches)[..i]
    {
      values := values + [State(branches[i].env, branches[i].validated)];
    }
    assert values == Values(branches);
    target.Adopt(Merge(values));
  }

  /** `pass` is what has been reported so far followed by what `rest` still reports. */
  ghost predicate PassContinues(pass: Scan, reported: seq<nat>, rest: Scan) {
    pass.state == rest.state && pass.results == reported + rest.results
  }

  lemma BlockStep(pass: Scan, reported: seq<nat>, remaining: Block, current: State, names: Names)
    requires remaining.Then? && PassContinues(pass, reported, ScanBlock(remaining, current, names))
    ensures var step := ScanStmt(remaining.first, current, names);
      if remaining.first.Return? || remaining.first.Raise?
      then pass.state == step.state && pass.results == reported + step.results
      else PassContinues(pass, reported + step.results, ScanBlock(remaining.rest, step.state, names))
  {
    var step := ScanStmt(remaining.first, current, names);
    if !(remaining.first.Return? || remaining.first.Raise?) {
      var rest := ScanBlock(remaining.rest, step.state, names);
      assert reported + (step.results + rest.results) == (reported + step.results) + rest.results;
    }
  }

  class Scanner {
    const names: Names
    var results: seq<nat>

    constructor (names: Names)
      ensures this.names == names && results == []
    {
      this.names := names;
      results := [];
    }

    /** `_scan_expr`: arguments first, then the call itself. */
    method ScanExpression(e: Expr, state: MutableState)
      modifies this`results
      ensures results == old(results) + ScanExpr(e, state.Value(), names)
      decreases e, 1
    {
      match e
      case BoolExpr(_, operands) => ScanArguments(operands, state);
      case Not(operand) => ScanExpression(operand, state);
      case IfExp(test, body, orelse) =>
        ScanExpression(test, state);
        ScanExpression(body, state);
        ScanExpression(orelse, state);
      case Call(callee, args, site) =>
        ScanArguments(args, state);
        CheckSink(callee, args, site, state);
      case Concat(left, right) =>
        ScanExpression(left, state);
        ScanExpression(right, state);
      case Template(parts) => ScanPieces(parts, state);
      case Join(_, _, _) => ScanReceiver(e, state);
      case Transform(_, _) => ScanReceiver(e, state);
      case _ =>
    }

    /** A method call that is neither redirect nor validator: its receiver, then its arguments. */
    method ScanReceiver(e: Expr, state: MutableState)
      requires e.Join? || e.Transform?
      modifies this`results
      ensures results == old(results) + ScanExpr(e, state.Value(), names)
      decreases e, 0
    {
      match e
      case Join(_, separator, elements) =>
        ScanExpression(separator, state);
        ScanArguments(elements, state);
      case Transform(operand, Reshape(args)) =>
        ScanExpression(operand, state);
        ScanArguments(args, state);
      case Transform(operand, _) => ScanExpression(operand, state);
    }

    method ScanPieces(parts: Parts, state: MutableState)
      modifies this`results
      ensures results == old(results) + ScanParts(parts, state.Value(), names)
      decreases parts
    {
      match parts
      case NoParts =>
      case Fixed(_, rest) => ScanPieces(rest, state);
      case Hole(e, rest) =>
        ScanExpression(e, state);
        ScanPieces(rest, state);
    }

    method CheckSink(callee: string, args: ArgList<Expr>, site: nat, state: MutableState)
      modifies this`results
      ensures results == old(results) + if Flagged(callee, args, state.Value(), names) then [site] else []
    {
      var target := RedirectTarget(args);
      if callee in names.redirects && target.Some? {
        var flow := FlowOf(target.value, State(state.env, state.validated), names);
        if flow == Tainted || flow == UrlSuffix {
          results := results + [site];
        }
      }
    }

    method ScanArguments(args: ArgList<Expr>, state: MutableState)
      modifies this`results
      ensures results == old(results) + ScanArgs(args, state.Value(), names)
      decreases args
    {
      if args.Arg? {
        ScanExpression(args.value, state);
        ScanArguments(args.rest, state);
      }
    }

    /** `_scan_block`: one pass over the statements, stopping at a return or raise. */
    method ScanStatements(statements: Block, state: MutableState)
      modifies this`results, state
      ensures state.Value() == ScanBlock(statements, old(state.Value()), names).state
      ensures results == old(results) + ScanBlock(statements, old(state.Value()), names).results
      decreases BlockSize(statements)
    {
      var remaining := statements;
      ghost var before, pass := results, ScanBlock(statements, state.Value(), names);
      ghost var reported: seq<nat> := [];
      while remaining.Then?
        invariant BlockSize(remaining) <= BlockSize(statements)
        invariant results == before + reported
        invariant PassContinues(pass, reported, ScanBlock(remaining, state.Value(), names))
        decreases remaining
      {
        var stop;
        stop, reported := ScanFirst(remaining, state, pass, reported);
        if stop {
          return;
        }
        remaining := remaining.rest;
      }
    }

    /** One statement of the pass; a return or raise ends it. */
    method ScanFirst(remaining: Block, state: MutableState, ghost pass: Scan, ghost reported: seq<nat>)
      returns (stop: bool, ghost more: seq<nat>)
      requires remaining.Then? && PassContinues(pass, reported, ScanBlock(remaining, state.Value(), names))
      modifies this`results, state
      ensures reported <= more && results == old(results) + more[|reported|..]
      ensures stop ==> PassContinues(pass, more, Scan(state.Value(), []))
      ensures !stop ==> PassContinues(pass, more, ScanBlock(remaining.rest, state.Value(), names))
      decreases StmtSize(remaining.first), 2
    {
      var s := remaining.first;
      ghost var step := ScanStmt(s, state.Value(), names);
      BlockStep(pass, reported, remaining, state.Value(), names);
      ScanStatement(s, state);
      more := reported + step.results;
      stop := s.Return? || s.Raise?;
    }

    method ScanStatement(s: Stmt, state: MutableState)
      modifies this`results, state
      ensures state.Value() == ScanStmt(s, old(state.Value()), names).state
      ensures results == old(results) + ScanStmt(s, old(state.Value()), names).results
      decreases StmtSize(s), 1
    {
      match s
      case Return(v) => if v.Some? { ScanExpression(v.value, state); }
      case Raise(v) => if v.Some? { ScanExpression(v.value, state); }
      case Evaluate(e) => ScanExpression(e, state);
      case Assign(targets, e) =>
        ScanExpression(e, state);
        state.Bind(targets, FlowOf(e, State(state.env, state.validated), names));
      case Declare(x) => state.Bind([x], Untainted);
      case AugAssign(x, e) =>
        ScanExpression(e, state);
        state.Bind([x], AugFlow(x, e, State(state.env, state.validated), names));
      case If(_, _, _) => ScanIf(s, state);
    }

    method ScanIf(s: Stmt, state: MutableState)
      requires s.If?
      modifies this`results, state
      ensures state.Value() == ScanStmt(s, old(state.Value()), names).state
      ensures results == old(results) + ScanStmt(s, old(state.Value()), names).results
      decreases StmtSize(s), 0
    {
      ScanExpression(s.test, state);
      var bodyState := state.BranchValidated(Guaranteed(s.test, true, names));
      ScanStatements(s.body, bodyState);
      var falseState := state.BranchValidated(Guaranteed(s.test, false, names));
      var elseState := falseState.BranchValidated({});
      assert elseState.Value().validated == falseState.Value().validated;
      ScanStatements(s.orelse, elseState);
      MergeContinuing(s, state, bodyState, falseState, elseState);
    }
  }

  /** The branches that reach the next statement, merged into the state after the if. */
  method MergeContinuing(s: Stmt, target: MutableState, bodyState: MutableState, falseState: MutableState,
                         elseState: MutableState)
    requires s.If? && (s.orelse.Empty? ==> falseState.Value() == elseState.Value())
    modifies target
    ensures var continuing := Continuing(s.body, s.orelse, old(bodyState.Value()), old(elseState.Value()));
      target.Value() == if continuing == [] then old(target.Value()) else Merge(continuing)
  {
    var continuing: seq<MutableState> := [];
    if !AlwaysExits(s.body) {
      continuing := continuing + [bodyState];
    }
    if s.orelse.Then? {
      if !AlwaysExits(s.orelse) {
        continuing := continuing + [elseState];
      }
    } else {
      continuing := continuing + [falseState];
    }
    assert Values(continuing) == Continuing(s.body, s.orelse, bodyState.Value(), elseState.Value());
    MergeStates(target, continuing);
  }

  ghost function BlockSize(b: Block): nat {
    match b
    case Empty => 0
    case Then(s, rest) => 1 + StmtSize(s) + BlockSize(rest)
  }

  ghost function StmtSize(s: Stmt): nat {
    match s
    case If(_, body, orelse) => 1 + BlockSize(body) + BlockSize(orelse)
    case _ => 0
  }
}

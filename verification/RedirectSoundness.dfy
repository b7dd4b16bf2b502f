/** Scanner soundness: whatever the world answers, every site where an execution redirects to a
    request text that no validator accepted and no literal prefix anchors is reported. */
module RedirectSoundness {
  import opened Options
  import opened OriginPrefix
  import opened OpenRedirect
  import opened BuiltTexts

  // ----- validation guarantees -----

  /** The guarantees are sound under short-circuit evaluation: if the test came out as
      `outcome`, every guaranteed name holds a value some validator call accepted. */
  lemma {:induction false} GuaranteedSound(test: Expr, outcome: bool, m: Machine, w: World, names: Names)
    requires Truthy(Eval(test, m, w, names).0) == outcome
    ensures forall x :: x in Guaranteed(test, outcome, names) ==> m.Read(x, w) in Eval(test, m, w, names).1.accepted
    decreases test
  {
    match test
    case Call(callee, args, site) =>
      ArgsRead(args, m, w, names);
      CheckedRead(args, EvalArgs(args, m, w, names).0, m, w);
    case Not(operand) => GuaranteedSound(operand, !outcome, m, w, names);
    case BoolExpr(op, operands) => if operands.Arg? { GuaranteedBool(op, operands, outcome, m, w, names); }
    case _ =>
  }

  lemma {:induction false} GuaranteedBool(op: BoolOp, operands: ArgList<Expr>, outcome: bool, m: Machine, w: World,
          names: Names)
    requires operands.Arg? && Truthy(EvalBool(op, operands, m, w, names).0) == outcome
    ensures forall x :: x in Combine(op, outcome, GuaranteedEach(operands, outcome, names)) ==>
      m.Read(x, w) in EvalBool(op, operands, m, w, names).1.accepted
    decreases operands
  {
    var (v, m1) := Eval(operands.value, m, w, names);
    var sets := GuaranteedEach(operands, outcome, names);
    assert sets[0] == Guaranteed(operands.value, outcome, names);
    assert sets[1..] == GuaranteedEach(operands.rest, outcome, names);
    if Truthy(v) == outcome {
      GuaranteedSound(operands.value, outcome, m, w, names);
    }
    if operands.rest.NoArgs? {
      assert |sets| == 1 && Union(sets[1..]) == {};
      assert Combine(op, outcome, sets) == sets[0];
    } else {
      CombineFirst(op, outcome, sets);
      if Truthy(v) != op.Or? {
        GuaranteedBool(op, operands.rest, outcome, m1, w, names);
      }
    }
  }

  lemma CombineFirst(op: BoolOp, outcome: bool, sets: seq<set<string>>)
    requires |sets| > 1
    ensures Combine(op, outcome, sets) ==
      if op.And? == outcome then sets[0] + Combine(op, outcome, sets[1..])
      else sets[0] * Combine(op, outcome, sets[1..])
  {
  }

  /** A name passed as an argument arrives as the value it holds. */
  ghost predicate NamesRead(args: ArgList<Expr>, vals: ArgList<Value>, m: Machine, w: World) {
    match args
    case NoArgs => vals.NoArgs?
    case Arg(k, e, rest) =>
      vals.Arg? && vals.keyword == k && (e.Name? ==> vals.value == m.Read(e.id, w))
      && NamesRead(rest, vals.rest, m, w)
  }

  lemma {:induction false} ArgsRead(args: ArgList<Expr>, m: Machine, w: World, names: Names)
    ensures NamesRead(args, EvalArgs(args, m, w, names).0, m, w)
    decreases args
  {
    if args.Arg? {
      var (v, m1) := Eval(args.value, m, w, names);
      ArgsRead(args.rest, m1, w, names);
      SameReads(args.rest, EvalArgs(args.rest, m1, w, names).0, m1, m, w);
    }
  }

  lemma {:induction false} SameReads(args: ArgList<Expr>, vals: ArgList<Value>, m: Machine, m': Machine, w: World)
    requires NamesRead(args, vals, m, w) && m.env == m'.env
    ensures NamesRead(args, vals, m', w)
  {
    if args.Arg? { SameReads(args.rest, vals.rest, m, m', w); }
  }

  lemma {:induction false} PickRead(args: ArgList<Expr>, vals: ArgList<Value>, keywords: set<string>, m: Machine,
          w: World)
    requires NamesRead(args, vals, m, w)
    ensures FirstPositional(args).Some? == FirstPositional(vals).Some?
    ensures FirstKeyword(args, keywords).Some? == FirstKeyword(vals, keywords).Some?
    ensures FirstPositional(args).Some? && FirstPositional(args).value.Name? ==>
      FirstPositional(vals).value == m.Read(FirstPositional(args).value.id, w)
    ensures FirstKeyword(args, keywords).Some? && FirstKeyword(args, keywords).value.Name? ==>
      FirstKeyword(vals, keywords).value == m.Read(FirstKeyword(args, keywords).value.id, w)
  {
    if args.Arg? { PickRead(args.rest, vals.rest, keywords, m, w); }
  }

  lemma CheckedRead(args: ArgList<Expr>, vals: ArgList<Value>, m: Machine, w: World)
    requires NamesRead(args, vals, m, w)
    ensures CheckedArg(args).Some? ==> CheckedArg(vals).Some?
    ensures CheckedArg(args).Some? && CheckedArg(args).value.Name? ==>
      CheckedArg(vals).value == m.Read(CheckedArg(args).value.id, w)
  {
    PickRead(args, vals, {"url", "target", "redirect_url", "next_url"}, m, w);
  }

  // ----- values and facts -----

  /** What is known covers the machine. A validated name may hold any request value some validator
      accepted, so what is stored for it is asked of the stored flow as well. */
  ghost predicate Covers(k: Knowledge, m: Machine, w: World) {
    forall x :: Suits(m.Read(x, w), k.Of(x), m) && (m.Read(x, w).fromRequest ==> !k.state.Get(x).Untainted?)
  }

  lemma CoversGrows(k: Knowledge, m: Machine, m': Machine, w: World)
    requires Covers(k, m, w) && m.env == m'.env && m.accepted <= m'.accepted
    ensures Covers(k, m', w)
  {
    forall x ensures Suits(m'.Read(x, w), k.Of(x), m') {
      assert Suits(m.Read(x, w), k.Of(x), m);
    }
  }

  lemma {:induction false} AnchoredEval(e: Expr, m: Machine, w: World, names: Names)
    requires Anchored(e)
    ensures Eval(e, m, w, names).0.anchored
    decreases e
  {
    match e
    case Concat(left, _) => AnchoredEval(left, m, w, names);
    case _ =>
  }

  predicate Reported(before: set<nat>, after: set<nat>, results: seq<nat>) {
    forall site :: site in after ==> site in before || site in results
  }

  /** Soundness of one evaluation: the value suits what is known of the expression, and every hit
      on the way is reported by the scan. */
  ghost predicate Sound(e: Expr, k: Knowledge, m: Machine, v: Value, m': Machine, names: Names) {
    Suits(v, FactOf(e, k, names), m') && Reported(m.hits, m'.hits, ScanExpr(e, k.state, names))
  }

  lemma SuitsGrows(v: Value, a: Fact, m: Machine, m': Machine)
    requires Suits(v, a, m) && m.accepted <= m'.accepted
    ensures Suits(v, a, m')
  {
  }

  lemma {:induction false} EvalSound(e: Expr, k: Knowledge, m: Machine, w: World, names: Names)
    requires Covers(k, m, w) && BuiltSafely(e, k, names)
    ensures Sound(e, k, m, Eval(e, m, w, names).0, Eval(e, m, w, names).1, names)
    decreases e, 1
  {
    match e
    case Name(x) => assert Suits(m.Read(x, w), k.Of(x), m);
    case BoolExpr(op, operands) => BoolSound(op, operands, k, m, w, names);
    case Not(operand) => EvalSound(operand, k, m, w, names);
    case IfExp(test, body, orelse) => IfExpSound(test, body, orelse, k, m, w, names);
    case Call(_, _, _) => CallSound(e, k, m, w, names);
    case Concat(_, _) => ConcatSound(e, k, m, w, names);
    case Template(_) => TemplateSound(e, k, m, w, names);
    case Join(_, _, _) => JoinSound(e, k, m, w, names);
    case Transform(_, _) => TransformSound(e, k, m, w, names);
    case _ =>
  }

  lemma {:induction false} CallSound(e: Expr, k: Knowledge, m: Machine, w: World, names: Names)
    requires e.Call? && Covers(k, m, w) && BuiltSafely(e, k, names)
    ensures Sound(e, k, m, Eval(e, m, w, names).0, Eval(e, m, w, names).1, names)
    decreases e, 0
  {
    ArgsSound(e.args, k, m, w, names);
    var (vals, m1) := EvalArgs(e.args, m, w, names);
    PickMatches(e.args, vals, {"location", "redirect_to", "url", "to"}, k, m1, names);
    ReturnMatches(e.args, vals, w.handsBack(m1.clock), k, m1, names);
    DrawnCarry(e.args, vals, k, m1, names);
  }

  lemma {:induction false} IfExpSound(test: Expr, body: Expr, orelse: Expr, k: Knowledge, m: Machine, w: World,
                                      names: Names)
    requires Covers(k, m, w) && BuiltSafely(IfExp(test, body, orelse), k, names)
    ensures var e := IfExp(test, body, orelse);
      Sound(e, k, m, Eval(e, m, w, names).0, Eval(e, m, w, names).1, names)
    decreases IfExp(test, body, orelse), 0
  {
    EvalSound(test, k, m, w, names);
    var m1 := Eval(test, m, w, names).1;
    CoversGrows(k, m, m1, w);
    EvalSound(body, k, m1, w, names);
    EvalSound(orelse, k, m1, w, names);
    JoinOfTwo(FlowOf(body, k.state, names), FlowOf(orelse, k.state, names));
  }

  /** What a stripped expression yields has no leading slash. */
  lemma StrippedEval(e: Expr, m: Machine, w: World, names: Names)
    requires Stripped(e)
    ensures var text := Eval(e, m, w, names).0.text; text == "" || text[0] != '/'
  {
    var t := Eval(e.operand, m, w, names).0.text;
    TrimLeftShape(t);
    TrimRightShape(TrimLeft(t));
  }

  lemma {:induction false} ConcatSound(e: Expr, k: Knowledge, m: Machine, w: World, names: Names)
    requires e.Concat? && Covers(k, m, w) && BuiltSafely(e, k, names)
    ensures Sound(e, k, m, Eval(e, m, w, names).0, Eval(e, m, w, names).1, names)
    decreases e, 0
  {
    EvalSound(e.left, k, m, w, names);
    var (a, m1) := Eval(e.left, m, w, names);
    CoversGrows(k, m, m1, w);
    EvalSound(e.right, k, m1, w, names);
    var (b, m2) := Eval(e.right, m1, w, names);
    var f, g := FactOf(e.left, k, names), FactOf(e.right, k, names);
    SuitsGrows(a, f, m1, m2);
    if Anchored(e.left) { AnchoredEval(e.left, m, w, names); }
    if Stripped(e.right) { StrippedEval(e.right, m1, w, names); }
    SumFits(e.left, Stripped(e.right), f, g, a, b, m2);
  }

  lemma {:induction false} TemplateSound(e: Expr, k: Knowledge, m: Machine, w: World, names: Names)
    requires e.Template? && Covers(k, m, w) && BuiltSafely(e, k, names)
    ensures Sound(e, k, m, Eval(e, m, w, names).0, Eval(e, m, w, names).1, names)
    decreases e, 0
  {
    var (vals, m') := EvalHoles(e.parts, m, w, names);
    var facts := HoleFacts(e.parts, k, names);
    HolesSound(e.parts, k, m, w, names);
    HoleFactFlows(e.parts, k, names);
    TemplateFits(e.parts, facts, vals, m');
    RenderRequest(e.parts, vals);
  }

  /** The value of every hole suits its expression, and bad redirects inside holes are reported. */
  lemma {:induction false} HolesSound(parts: Parts, k: Knowledge, m: Machine, w: World, names: Names)
    requires Covers(k, m, w) && PartsBuilt(parts, k, names)
    ensures var (vals, m') := EvalHoles(parts, m, w, names);
      && AllSuit(vals, HoleFacts(parts, k, names), m')
      && (forall i :: 0 <= i < |vals| && vals[i].fromRequest ==> AnyHoleHolds(parts, k.holders, names))
      && Reported(m.hits, m'.hits, ScanParts(parts, k.state, names))
    decreases parts, 0
  {
    match parts
    case NoParts =>
    case Fixed(_, rest) => HolesSound(rest, k, m, w, names);
    case Hole(e, rest) =>
      EvalSound(e, k, m, w, names);
      var (v, m1) := Eval(e, m, w, names);
      CoversGrows(k, m, m1, w);
      HolesSound(rest, k, m1, w, names);
      var (vals, m') := EvalHoles(parts, m, w, names);
      SuitsGrows(v, FactOf(e, k, names), m1, m');
      assert vals == [v] + EvalHoles(rest, m1, w, names).0;
      assert HoleFacts(parts, k, names) == [FactOf(e, k, names)] + HoleFacts(rest, k, names);
  }

  lemma {:induction false} JoinSound(e: Expr, k: Knowledge, m: Machine, w: World, names: Names)
    requires e.Join? && Covers(k, m, w) && BuiltSafely(e, k, names)
    ensures Sound(e, k, m, Eval(e, m, w, names).0, Eval(e, m, w, names).1, names)
    decreases e, 0
  {
    EvalSound(e.separator, k, m, w, names);
    var (s, m1) := Eval(e.separator, m, w, names);
    CoversGrows(k, m, m1, w);
    ArgsSound(e.elements, k, m1, w, names);
    var (vals, m2) := EvalArgs(e.elements, m1, w, names);
    SuitsGrows(s, FactOf(e.separator, k, names), m1, m2);
    if e.elements.Arg? {
      if Anchored(e.elements.value) { AnchoredEval(e.elements.value, m1, w, names); }
      ElementsSound(e, s, vals, k, m2, names);
    }
  }

  /** What comes after the first element of a join. */
  function Tail(kind: JoinKind, s: Value, rest: ArgList<Value>): Value {
    if rest.NoArgs? then RawValue.Value("", false, false)
    else if kind.TextJoin? then Append(s, JoinAll(kind, s, rest)) else JoinAll(kind, s, rest)
  }

  lemma JoinSplits(kind: JoinKind, s: Value, vals: ArgList<Value>)
    requires vals.Arg?
    ensures JoinAll(kind, s, vals) == Joined(kind, vals.rest.NoArgs?, vals.value, Tail(kind, s, vals.rest))
  {
  }

  lemma TailSound(kind: JoinKind, separator: Expr, s: Value, rest: ArgList<Expr>, vals: ArgList<Value>, k: Knowledge,
                  m: Machine, names: Names)
    requires Suits(s, FactOf(separator, k, names), m) && Matches(rest, vals, k, m, names)
    ensures Tail(kind, s, vals).fromRequest ==> TailCarries(kind, separator, rest, k, names)
    ensures TailCarries(kind, separator, rest, k, names) ==>
      !JoinValues([FlowOf(separator, k.state, names)] + Flows(rest, false, k.state, names)).Untainted?
  {
    DrawnCarry(rest, vals, k, m, names);
    JoinRequest(kind, s, vals);
    CarriedFlows(rest, k, names);
    JoinGrows(FlowOf(separator, k.state, names), Flows(rest, false, k.state, names));
  }

  /** The join of suiting elements, the first anchored if its expression is. */
  lemma ElementsSound(e: Expr, s: Value, vals: ArgList<Value>, k: Knowledge, m: Machine, names: Names)
    requires e.Join? && e.elements.Arg? && Kept(e, k, names)
    requires Suits(s, FactOf(e.separator, k, names), m) && Matches(e.elements, vals, k, m, names)
    requires Anchored(e.elements.value) ==> vals.value.anchored
    requires e.elements.value.Literal? ==> vals.value == LiteralValue(e.elements.value.text)
    ensures Suits(JoinAll(e.kind, s, vals), FactOf(e, k, names), m)
  {
    ElementsHeld(e, s, vals, k, m, names);
    JoinFlows(e, k, names);
    ElementsFit(e.kind, e.separator, e.elements.value, e.elements.rest, s, vals, k, m, names);
  }

  lemma JoinFlows(e: Expr, k: Knowledge, names: Names)
    requires e.Join? && e.elements.Arg?
    ensures Flows(e.elements, false, k.state, names)
         == [FlowOf(e.elements.value, k.state, names)] + Flows(e.elements.rest, false, k.state, names)
  {
  }

  lemma ElementsHeld(e: Expr, s: Value, vals: ArgList<Value>, k: Knowledge, m: Machine, names: Names)
    requires e.Join? && Suits(s, FactOf(e.separator, k, names), m) && Matches(e.elements, vals, k, m, names)
    ensures JoinAll(e.kind, s, vals).fromRequest ==> MayHold(e, k.holders, names)
  {
    JoinRequest(e.kind, s, vals);
    DrawnCarry(e.elements, vals, k, m, names);
  }

  lemma ElementsFit(kind: JoinKind, separator: Expr, first: Expr, rest: ArgList<Expr>, s: Value, vals: ArgList<Value>,
                    k: Knowledge, m: Machine, names: Names)
    requires Suits(s, FactOf(separator, k, names), m) && vals.Arg? && Matches(rest, vals.rest, k, m, names)
    requires Suits(vals.value, FactOf(first, k, names), m)
    requires Anchored(first) ==> vals.value.anchored
    requires first.Literal? ==> vals.value == LiteralValue(first.text)
    requires var flows := [FlowOf(first, k.state, names)] + Flows(rest, false, k.state, names);
      JoinKept(kind, first, JoinFlow(LiteralText(first), FlowOf(separator, k.state, names), flows),
               FactOf(first, k, names), TailCarries(kind, separator, rest, k, names), rest.NoArgs?)
    ensures var flows := [FlowOf(first, k.state, names)] + Flows(rest, false, k.state, names);
      Fits(JoinAll(kind, s, vals), JoinFlow(LiteralText(first), FlowOf(separator, k.state, names), flows), m)
  {
    TailSound(kind, separator, s, rest, vals.rest, k, m, names);
    CarriedFlows(rest, k, names);
    JoinSplits(kind, s, vals);
    JoinFits(kind, first, FlowOf(separator, k.state, names), FactOf(first, k, names),
             Flows(rest, false, k.state, names), TailCarries(kind, separator, rest, k, names), vals.value,
             Tail(kind, s, vals.rest), m);
  }

  /** A join holds request data only if an element does, or a separator between two. */
  lemma {:induction false} JoinRequest(kind: JoinKind, s: Value, vals: ArgList<Value>)
    ensures JoinAll(kind, s, vals).fromRequest ==> AnyRequest(vals) || (kind.TextJoin? && s.fromRequest)
  {
    if vals.Arg? { JoinRequest(kind, s, vals.rest); }
  }

  lemma {:induction false} CarriedFlows(args: ArgList<Expr>, k: Knowledge, names: Names)
    ensures (Flows(args, false, k.state, names) == []) == args.NoArgs?
    ensures ArgsCarry(args, k, names) ==> !JoinValues(Flows(args, false, k.state, names)).Untainted?
  {
    if args.Arg? {
      CarriedFlows(args.rest, k, names);
      JoinGrows(FlowOf(args.value, k.state, names), Flows(args.rest, false, k.state, names));
    }
  }

  lemma {:induction false} TransformSound(e: Expr, k: Knowledge, m: Machine, w: World, names: Names)
    requires e.Transform? && Covers(k, m, w) && BuiltSafely(e, k, names)
    ensures Sound(e, k, m, Eval(e, m, w, names).0, Eval(e, m, w, names).1, names)
    decreases e, 0
  {
    EvalSound(e.operand, k, m, w, names);
    if e.how.Reshape? {
      var (v, m1) := Eval(e.operand, m, w, names);
      CoversGrows(k, m, m1, w);
      ArgsSound(e.how.args, k, m1, w, names);
      var (vals, m2) := EvalArgs(e.how.args, m1, w, names);
      DrawnCarry(e.how.args, vals, k, m2, names);
    }
  }

  /** `and` and `or` yield one of their operands, whichever it is. */
  lemma {:induction false} BoolSound(op: BoolOp, operands: ArgList<Expr>, k: Knowledge, m: Machine, w: World,
                                     names: Names)
    requires Covers(k, m, w) && ArgsBuilt(operands, k, names)
    ensures var (v, m') := EvalBool(op, operands, m, w, names);
      && Suits(v, Fact(JoinValues(Flows(operands, false, k.state, names)), AnyHolds(operands, false, k.holders, names)),
               m')
      && Reported(m.hits, m'.hits, ScanArgs(operands, k.state, names))
    decreases operands
  {
    if operands.Arg? {
      EvalSound(operands.value, k, m, w, names);
      var (v, m1) := Eval(operands.value, m, w, names);
      CoversGrows(k, m, m1, w);
      BoolSound(op, operands.rest, k, m1, w, names);
      JoinGrows(FlowOf(operands.value, k.state, names), Flows(operands.rest, false, k.state, names));
    }
  }

  /** A join is no lower than its parts. */
  lemma JoinGrows(f: Flow, rest: seq<Flow>)
    ensures var r := JoinValues([f] + rest);
      && (Risky(f) || Risky(JoinValues(rest)) ==> Risky(r))
      && (!f.Untainted? || !JoinValues(rest).Untainted? ==> !r.Untainted?)
  {
    assert ([f] + rest)[0] == f && forall v :: v in rest ==> v in [f] + rest;
  }

  /** Each argument's value suits its expression. */
  ghost predicate Matches(args: ArgList<Expr>, vals: ArgList<Value>, k: Knowledge, m: Machine, names: Names) {
    match args
    case NoArgs => vals.NoArgs?
    case Arg(keyword, e, rest) =>
      vals.Arg? && vals.keyword == keyword && Suits(vals.value, FactOf(e, k, names), m)
      && Matches(rest, vals.rest, k, m, names)
  }

  lemma {:induction false} ArgsSound(args: ArgList<Expr>, k: Knowledge, m: Machine, w: World, names: Names)
    requires Covers(k, m, w) && ArgsBuilt(args, k, names)
    ensures var (vals, m') := EvalArgs(args, m, w, names);
      Matches(args, vals, k, m', names) && Reported(m.hits, m'.hits, ScanArgs(args, k.state, names))
    decreases args
  {
    if args.Arg? {
      EvalSound(args.value, k, m, w, names);
      var (v, m1) := Eval(args.value, m, w, names);
      CoversGrows(k, m, m1, w);
      ArgsSound(args.rest, k, m1, w, names);
      SuitsGrows(v, FactOf(args.value, k, names), m1, EvalArgs(args.rest, m1, w, names).1);
    }
  }

  /** What a transform can draw from its arguments, they carry. */
  lemma {:induction false} DrawnCarry(args: ArgList<Expr>, vals: ArgList<Value>, k: Knowledge, m: Machine,
                                      names: Names)
    requires Matches(args, vals, k, m, names)
    ensures AnyRequest(vals) ==> ArgsCarry(args, k, names) && AnyHolds(args, false, k.holders, names)
  {
    if args.Arg? { DrawnCarry(args.rest, vals.rest, k, m, names); }
  }

  /** A call that hands back a positional argument is covered by the join of their flows. */
  lemma {:induction false} ReturnMatches(args: ArgList<Expr>, vals: ArgList<Value>, n: nat, k: Knowledge, m: Machine,
                                         names: Names)
    requires Matches(args, vals, k, m, names)
    ensures NthPositional(vals, n).Some? ==>
      Suits(NthPositional(vals, n).value,
            Fact(JoinValues(Flows(args, true, k.state, names)), AnyHolds(args, true, k.holders, names)), m)
  {
    if args.Arg? {
      var more := Flows(args.rest, true, k.state, names);
      if args.keyword == "" && n > 0 {
        ReturnMatches(args.rest, vals.rest, n - 1, k, m, names);
      } else if args.keyword != "" {
        ReturnMatches(args.rest, vals.rest, n, k, m, names);
        assert Flows(args, true, k.state, names) == more;
      }
      if args.keyword == "" { JoinGrows(FlowOf(args.value, k.state, names), more); }
    }
  }

  lemma {:induction false} PickMatches(args: ArgList<Expr>, vals: ArgList<Value>, keywords: set<string>, k: Knowledge,
                                       m: Machine, names: Names)
    requires Matches(args, vals, k, m, names)
    ensures FirstPositional(args).Some? == FirstPositional(vals).Some?
    ensures FirstKeyword(args, keywords).Some? == FirstKeyword(vals, keywords).Some?
    ensures FirstPositional(vals).Some? ==>
      Suits(FirstPositional(vals).value, FactOf(FirstPositional(args).value, k, names), m)
    ensures FirstKeyword(vals, keywords).Some? ==>
      Suits(FirstKeyword(vals, keywords).value, FactOf(FirstKeyword(args, keywords).value, k, names), m)
  {
    if args.Arg? { PickMatches(args.rest, vals.rest, keywords, k, m, names); }
  }

  // ----- statements -----

  lemma {:induction false} MeetWithin(sets: seq<set<string>>, i: nat)
    requires i < |sets|
    ensures Meet(sets) <= sets[i]
  {
    if |sets| > 1 && i > 0 { MeetWithin(sets[1..], i - 1); }
  }

  /** What one branch stores for a name, the merge stores no lower. */
  lemma MergeStores(branches: seq<State>, i: nat, x: string)
    requires i < |branches|
    ensures Risky(branches[i].Get(x)) ==> Risky(Merge(branches).Get(x))
    ensures !branches[i].Get(x).Untainted? ==> !Merge(branches).Get(x).Untainted?
    ensures x in Merge(branches).validated ==> x in branches[i].validated
  {
    var b := branches[i];
    MeetWithin(seq(|branches|, j requires 0 <= j < |branches| => branches[j].validated), i);
    if x in b.env {
      assert b in branches;
      var flows := seq(|branches|, j requires 0 <= j < |branches| => branches[j].Get(x));
      assert flows[i] == b.Get(x) && flows[i] in flows;
    }
  }

  /** The join keeps the relation: what covers one branch is covered after the merge. */
  lemma MergeCovers(branches: seq<State>, i: nat, few: set<string>, all: set<string>, m: Machine, w: World)
    requires i < |branches| && few <= all && Covers(Knowledge(branches[i], few), m, w)
    ensures Covers(Knowledge(Merge(branches), all), m, w)
  {
    var one, merged := Knowledge(branches[i], few), Knowledge(Merge(branches), all);
    forall x ensures Suits(m.Read(x, w), merged.Of(x), m)
                     && (m.Read(x, w).fromRequest ==> !merged.state.Get(x).Untainted?)
    {
      MergeStores(branches, i, x);
      assert Suits(m.Read(x, w), one.Of(x), m);
    }
  }

  lemma {:induction false} AssignCovers(targets: seq<string>, a: Fact, k: Knowledge, v: Value, m: Machine, w: World)
    requires Covers(k, m, w) && Suits(v, a, m)
    ensures Covers(Knowledge(AssignAll(targets, a.flow, k.state), Rebound(targets, a.held, k.holders)),
                   Store(targets, v, m), w)
    ensures Store(targets, v, m).hits == m.hits
  {
    if targets == [] {
      assert Rebound(targets, a.held, k.holders) == k.holders;
    } else {
      var x, rest := targets[0], targets[1..];
      var holders := Rebound([x], a.held, k.holders);
      var k1 := Knowledge(State(k.state.env[x := a.flow], k.state.validated - {x}), holders);
      var m1 := m.(env := m.env[x := v]);
      forall y ensures Suits(m1.Read(y, w), k1.Of(y), m1)
                       && (m1.Read(y, w).fromRequest ==> !k1.state.Get(y).Untainted?)
      {
        if y != x { assert Suits(m.Read(y, w), k.Of(y), m); }
      }
      AssignCovers(rest, a, k1, v, m1, w);
      assert Rebound(rest, a.held, holders) == Rebound(targets, a.held, k.holders) by {
        assert forall y :: y in targets <==> y == x || y in rest;
      }
    }
  }

  lemma {:induction false} AugCovers(x: string, e: Expr, k: Knowledge, m: Machine, w: World, names: Names)
    requires Covers(k, m, w) && StmtBuilt(AugAssign(x, e), k, names)
    ensures var (v, m1) := Eval(e, m, w, names);
      Suits(Append(m.Read(x, w), v),
            Fact(AugFlow(x, e, k.state, names), x in k.holders || MayHold(e, k.holders, names)), m1)
  {
    EvalSound(e, k, m, w, names);
    var (v, m1) := Eval(e, m, w, names);
    assert Suits(m.Read(x, w), k.Of(x), m);
    SuitsGrows(m.Read(x, w), k.Of(x), m, m1);
    JoinOfTwo(k.state.Lookup(x), FlowOf(e, k.state, names));
  }

  /** `_block_always_exits` is right: such a block never completes normally. */
  lemma {:induction false} AlwaysExitsSound(b: Block, m: Machine, w: World, names: Names)
    requires AlwaysExits(b)
    ensures !Exec(b, m, w, names).normal
    decreases b
  {
    var s := b.first;
    if b.rest.Empty? {
      if s.If? {
        var (v, m1) := Eval(s.test, m, w, names);
        AlwaysExitsSound(if Truthy(v) then s.body else s.orelse, m1, w, names);
      }
    } else if ExecStmt(s, m, w, names).normal {
      AlwaysExitsSound(b.rest, ExecStmt(s, m, w, names).machine, w, names);
    }
  }

  lemma OptionSound(e: Option<Expr>, k: Knowledge, m: Machine, w: World, names: Names)
    requires Covers(k, m, w) && (e.Some? ==> BuiltSafely(e.value, k, names))
    ensures Reported(m.hits, EvalOption(e, m, w, names).hits, ScanOption(e, k.state, names))
  {
    if e.Some? { EvalSound(e.value, k, m, w, names); }
  }

  /** Entering a branch: the guaranteed names hold accepted values. */
  lemma BranchCovers(test: Expr, outcome: bool, k: Knowledge, m: Machine, w: World, names: Names)
    requires Covers(k, m, w) && Truthy(Eval(test, m, w, names).0) == outcome
    ensures Covers(Branch(test, outcome, k, names), Eval(test, m, w, names).1, w)
  {
    var m1 := Eval(test, m, w, names).1;
    var k1 := Branch(test, outcome, k, names);
    GuaranteedSound(test, outcome, m, w, names);
    CoversGrows(k, m, m1, w);
    forall x ensures Suits(m1.Read(x, w), k1.Of(x), m1) && k1.state.Get(x) == k.state.Get(x) {
      assert m1.Read(x, w) == m.Read(x, w) && Suits(m1.Read(x, w), k.Of(x), m1);
    }
  }

  /** Scanner soundness. Whatever the world answers, every site where an execution redirects
      to a request value no validator has accepted and no literal prefix anchors is reported,
      and what is known afterwards covers every machine the block can leave behind. */
  lemma {:induction false} BlockSound(b: Block, k: Knowledge, m: Machine, w: World, names: Names)
    requires Covers(k, m, w) && BlockBuilt(b, k, names)
    ensures var run, scan := Exec(b, m, w, names), ScanBlock(b, k.state, names);
      && Reported(m.hits, run.machine.hits, scan.results)
      && (run.normal ==> Covers(Knowledge(scan.state, HoldersAfter(b, k.holders, names)), run.machine, w))
    decreases b
  {
    if b.Then? {
      StmtSound(b.first, k, m, w, names);
      var first := ExecStmt(b.first, m, w, names);
      if first.normal {
        BlockSound(b.rest, After(b.first, k, names), first.machine, w, names);
      }
    }
  }

  lemma {:induction false} StmtSound(s: Stmt, k: Knowledge, m: Machine, w: World, names: Names)
    requires Covers(k, m, w) && StmtBuilt(s, k, names)
    ensures var run := ExecStmt(s, m, w, names);
      && Reported(m.hits, run.machine.hits, ScanStmt(s, k.state, names).results)
      && (run.normal ==> Covers(After(s, k, names), run.machine, w))
    decreases s, 1
  {
    match s
    case Return(v) => OptionSound(v, k, m, w, names);
    case Raise(v) => OptionSound(v, k, m, w, names);
    case Evaluate(e) =>
      EvalSound(e, k, m, w, names);
      CoversGrows(k, m, Eval(e, m, w, names).1, w);
    case Assign(targets, e) =>
      EvalSound(e, k, m, w, names);
      var (v, m1) := Eval(e, m, w, names);
      CoversGrows(k, m, m1, w);
      AssignCovers(targets, FactOf(e, k, names), k, v, m1, w);
    case Declare(x) => DeclareSound(x, k, m, w, names);
    case AugAssign(x, e) => AugSound(x, e, k, m, w, names);
    case If(_, _, _) => IfSound(s, k, m, w, names);
  }

  lemma DeclareSound(x: string, k: Knowledge, m: Machine, w: World, names: Names)
    requires Covers(k, m, w) && StmtBuilt(Declare(x), k, names)
    ensures Covers(After(Declare(x), k, names), m, w)
  {
    var after := After(Declare(x), k, names);
    var st := State(k.state.env[x := Untainted], k.state.validated - {x});
    assert AssignAll([x], Untainted, k.state) == AssignAll([], Untainted, st) == st;
    forall y ensures Suits(m.Read(y, w), after.Of(y), m)
                     && (m.Read(y, w).fromRequest ==> !after.state.Get(y).Untainted?)
    {
      assert Suits(m.Read(y, w), k.Of(y), m);
    }
  }

  lemma {:induction false} AugSound(x: string, e: Expr, k: Knowledge, m: Machine, w: World, names: Names)
    requires Covers(k, m, w) && StmtBuilt(AugAssign(x, e), k, names)
    ensures var s := AugAssign(x, e);
      var run := ExecStmt(s, m, w, names);
      && Reported(m.hits, run.machine.hits, ScanStmt(s, k.state, names).results)
      && Covers(After(s, k, names), run.machine, w)
  {
    EvalSound(e, k, m, w, names);
    AugCovers(x, e, k, m, w, names);
    var (v, m1) := Eval(e, m, w, names);
    CoversGrows(k, m, m1, w);
    var a := Fact(AugFlow(x, e, k.state, names), x in k.holders || MayHold(e, k.holders, names));
    AssignCovers([x], a, k, Append(m.Read(x, w), v), m1, w);
  }

  lemma {:induction false} IfSound(s: Stmt, k: Knowledge, m: Machine, w: World, names: Names)
    requires s.If? && Covers(k, m, w) && StmtBuilt(s, k, names)
    ensures var run := ExecStmt(s, m, w, names);
      && Reported(m.hits, run.machine.hits, ScanStmt(s, k.state, names).results)
      && (run.normal ==> Covers(After(s, k, names), run.machine, w))
    decreases s, 0
  {
    var If(test, body, orelse) := s;
    var (v, m1) := Eval(test, m, w, names);
    var taken := if Truthy(v) then body else orelse;
    var entry := Branch(test, Truthy(v), k, names);
    EvalSound(test, k, m, w, names);
    BranchCovers(test, Truthy(v), k, m, w, names);
    BlockSound(taken, entry, m1, w, names);
    var run := Exec(taken, m1, w, names);
    if run.normal {
      if AlwaysExits(taken) { AlwaysExitsSound(taken, m1, w, names); }
      IfJoins(test, body, orelse, Truthy(v), k, run.machine, w, names);
    }
  }

  /** A machine that comes out of one branch is covered after the if. */
  lemma IfJoins(test: Expr, body: Block, orelse: Block, outcome: bool, k: Knowledge, m: Machine, w: World,
                names: Names)
    requires !AlwaysExits(if outcome then body else orelse)
    requires var taken := if outcome then body else orelse;
      Covers(Knowledge(ScanBlock(taken, Entering(test, outcome, k.state, names), names).state,
                       HoldersAfter(taken, k.holders, names)), m, w)
    ensures Covers(After(If(test, body, orelse), k, names), m, w)
  {
    var taken := if outcome then body else orelse;
    var b := ScanBlock(body, Entering(test, true, k.state, names), names);
    var o := ScanBlock(orelse, Entering(test, false, k.state, names), names);
    var continuing := Continuing(body, orelse, b.state, o.state);
    var after := After(If(test, body, orelse), k, names);
    assert after.state == ScanBranches(test, body, orelse, k.state, names).state == Merge(continuing);
    MergeCovers(continuing, if outcome || AlwaysExits(body) then 0 else 1, HoldersAfter(taken, k.holders, names),
                after.holders, m, w);
  }

  /** How a function scan starts: every parameter but the receiver and the request object is
      attacker-controlled. */
  function InitialState(parameters: set<string>): State {
    State(map p | p in parameters && p !in {"self", "cls", "request"} :: Tainted, {})
  }

  lemma InitialMeaning(parameters: set<string>, x: string)
    ensures InitialState(parameters).Get(x) ==
      if x in parameters && x != "self" && x != "cls" && x != "request" then Tainted else Untainted
    ensures InitialState(parameters).validated == {}
  {
  }

  /** Soundness of a whole function scan, for every caller and every world. */
  lemma FunctionSound(parameters: set<string>, body: Block, arguments: map<string, Value>, w: World, names: Names)
    requires arguments.Keys <= parameters
    requires BlockBuilt(body, Knowledge(InitialState(parameters), parameters - {"self", "cls", "request"}), names)
    requires forall p :: p in arguments && p in {"self", "cls", "request"} ==> !arguments[p].fromRequest
    ensures forall site :: site in Exec(body, Machine(arguments, {}, 0, {}), w, names).machine.hits ==>
      site in ScanBlock(body, InitialState(parameters), names).results
  {
    var k := Knowledge(InitialState(parameters), parameters - {"self", "cls", "request"});
    var m := Machine(arguments, {}, 0, {});
    forall x ensures Suits(m.Read(x, w), k.Of(x), m) && (m.Read(x, w).fromRequest ==> !k.state.Get(x).Untainted?) {
      if x in arguments { assert x in parameters; }
    }
    BlockSound(body, k, m, w, names);
  }
}

/** What the redirect scan computes, said on the programs themselves: which argument a call goes to,
    which parts of an expression decide its flow, which calls are reported, and what each statement
    leaves behind. */
module RedirectMeaning {
  import opened Options
  import opened OriginPrefix
  import opened OpenRedirect

  // ----- arguments -----

  datatype Given<+T> = Given(keyword: string, value: T)

  function ArgSeq<T>(args: ArgList<T>): seq<Given<T>> {
    match args
    case NoArgs => []
    case Arg(k, v, rest) => [Given(k, v)] + ArgSeq(rest)
  }

  /** The first argument whose keyword is one of these. */
  ghost predicate FirstOf<T(!new)>(args: seq<Given<T>>, keywords: set<string>, v: T) {
    exists i :: 0 <= i < |args| && args[i].keyword in keywords && args[i].value == v
                && forall j :: 0 <= j < i ==> args[j].keyword !in keywords
  }

  ghost predicate NoneOf<T(!new)>(args: seq<Given<T>>, keywords: set<string>) {
    forall i :: 0 <= i < |args| ==> args[i].keyword !in keywords
  }

  lemma {:induction false} KeywordMeaning<T(!new)>(args: ArgList<T>, keywords: set<string>)
    ensures match FirstKeyword(args, keywords)
            case Some(v) => FirstOf(ArgSeq(args), keywords, v)
            case None => NoneOf(ArgSeq(args), keywords)
  {
    if args.Arg? {
      var all, rest := ArgSeq(args), ArgSeq(args.rest);
      assert all[0] == Given(args.keyword, args.value);
      if args.keyword !in keywords {
        KeywordMeaning(args.rest, keywords);
        ArgShift(all, rest, keywords);
      }
    }
  }

  lemma ArgShift<T(!new)>(all: seq<Given<T>>, rest: seq<Given<T>>, keywords: set<string>)
    requires all != [] && all[1..] == rest && all[0].keyword !in keywords
    ensures NoneOf(rest, keywords) ==> NoneOf(all, keywords)
    ensures forall v :: FirstOf(rest, keywords, v) ==> FirstOf(all, keywords, v)
  {
    assert forall i :: 0 < i < |all| ==> all[i] == rest[i - 1];
    forall v | FirstOf(rest, keywords, v) ensures FirstOf(all, keywords, v) {
      var i :| 0 <= i < |rest| && rest[i].keyword in keywords && rest[i].value == v
               && forall j :: 0 <= j < i ==> rest[j].keyword !in keywords;
      assert all[i + 1] == rest[i];
      forall j | 0 <= j < i + 1 ensures all[j].keyword !in keywords {
        assert j > 0 ==> all[j] == rest[j - 1];
      }
    }
  }

  lemma {:induction false} PositionalMeaning<T(!new)>(args: ArgList<T>)
    ensures FirstPositional(args) == FirstKeyword(args, {""})
  {
    if args.Arg? { PositionalMeaning(args.rest); }
  }

  /** A redirect goes to its first positional argument, and failing that to the first one named as a
      target. */
  lemma TargetMeaning<T(!new)>(args: ArgList<T>)
    ensures var all, named := ArgSeq(args), {"location", "redirect_to", "url", "to"};
      match RedirectTarget(args)
      case Some(v) => FirstOf(all, {""}, v) || (NoneOf(all, {""}) && FirstOf(all, named, v))
      case None => NoneOf(all, {""}) && NoneOf(all, named)
  {
    PositionalMeaning(args);
    KeywordMeaning(args, {""});
    KeywordMeaning(args, {"location", "redirect_to", "url", "to"});
  }

  /** A validator checks the first argument named as a target, and failing that its first positional
      one. */
  lemma CheckedMeaning<T(!new)>(args: ArgList<T>)
    ensures var all, named := ArgSeq(args), {"url", "target", "redirect_url", "next_url"};
      match CheckedArg(args)
      case Some(v) => FirstOf(all, named, v) || (NoneOf(all, named) && FirstOf(all, {""}, v))
      case None => NoneOf(all, {""}) && NoneOf(all, named)
  {
    PositionalMeaning(args);
    KeywordMeaning(args, {""});
    KeywordMeaning(args, {"url", "target", "redirect_url", "next_url"});
  }

  // ----- flows -----

  /** How much a flow says against redirecting to its text. */
  function Level(f: Flow): nat {
    match f
    case Untainted => 0
    case Internal => 1
    case UrlSuffix => 2
    case Tainted => 3
  }

  /** The highest of the flows; nothing flows from no parts. */
  ghost predicate Highest(f: Flow, flows: seq<Flow>) {
    && (flows == [] ==> f == Untainted)
    && (flows != [] ==> f in flows)
    && forall g :: g in flows ==> Level(g) <= Level(f)
  }

  lemma JoinMeaning(flows: seq<Flow>)
    ensures Highest(JoinValues(flows), flows)
  {
    if flows != [] { assert flows[0] in flows; }
  }

  function Values(args: ArgList<Expr>): seq<Expr> {
    match args
    case NoArgs => []
    case Arg(_, e, rest) => [e] + Values(rest)
  }

  function Positional(args: ArgList<Expr>): seq<Expr> {
    match args
    case NoArgs => []
    case Arg(k, e, rest) => (if k == "" then [e] else []) + Positional(rest)
  }

  function Holes(parts: Parts): seq<Expr> {
    match parts
    case NoParts => []
    case Fixed(_, rest) => Holes(rest)
    case Hole(e, rest) => [e] + Holes(rest)
  }

  /** The parts of an expression that its value may be or hold. */
  function PartsOf(e: Expr, names: Names): seq<Expr> {
    match e
    case BoolExpr(_, operands) => Values(operands)
    case IfExp(_, body, orelse) => [body, orelse]
    case Call(callee, args, _) => if callee in names.known then [] else Positional(args)
    case Concat(left, right) => [left, right]
    case Template(parts) => Holes(parts)
    case Join(_, separator, elements) => [separator] + Values(elements)
    case Transform(operand, _) => [operand]
    case _ => []
  }

  function FlowsOf(es: seq<Expr>, st: State, names: Names): (r: seq<Flow>)
    ensures |r| == |es|
  {
    seq(|es|, i requires 0 <= i < |es| => FlowOf(es[i], st, names))
  }

  /** The ways to fix the origin of a text: a literal prefix that does, before request data in a sum or
      template and before anything in a join; a slash before stripped request data; an internal text
      before another one, in a join as long as nothing tainted or internal follows. */
  ghost predicate FixesOrigin(e: Expr, st: State, names: Names) {
    match e
    case Concat(left, right) =>
      || FlowOf(left, st, names) == Internal
      || (&& left.Literal? && Level(FlowOf(right, st, names)) >= 2
          && (InternalPrefix(left.text) || (left.text == "/" && right.Transform? && right.how.Strip?)))
    case Template(parts) =>
      && parts.Fixed? && InternalPrefix(parts.text) && Tainted in FlowsOf(Holes(parts), st, names)
    case Join(_, _, elements) =>
      && elements.Arg?
      && (|| (elements.value.Literal? && InternalPrefix(elements.value.text))
          || (&& FlowOf(elements.value, st, names) == Internal
              && forall f :: f in FlowsOf(Values(elements.rest), st, names) ==> f == Untainted || f == UrlSuffix))
    case _ => false
  }

  /** Only the part of a text behind a mark is left of it. */
  predicate CutsAt(e: Expr) { e.Transform? && e.how.Partition? && (e.how.mark == "?" || e.how.mark == "#") }

  lemma {:induction false} FlowsMeaning(args: ArgList<Expr>, st: State, names: Names)
    ensures Flows(args, false, st, names) == FlowsOf(Values(args), st, names)
    ensures Flows(args, true, st, names) == FlowsOf(Positional(args), st, names)
  {
    if args.Arg? { FlowsMeaning(args.rest, st, names); }
  }

  lemma {:induction false} HolesMeaning(parts: Parts, st: State, names: Names)
    ensures HoleFlows(parts, st, names) == FlowsOf(Holes(parts), st, names)
  {
    match parts
    case NoParts =>
    case Fixed(_, rest) => HolesMeaning(rest, st, names);
    case Hole(_, rest) => HolesMeaning(rest, st, names);
  }

  lemma EmptyPrefix()
    ensures !InternalPrefix("")
  {
  }

  /** The flow of every expression: what a name holds, unless it is validated; request data; internal
      where the origin is fixed; a suffix where request data is cut at a mark; otherwise the highest
      flow of its parts. */
  lemma FlowMeaning(e: Expr, st: State, names: Names)
    ensures var f := FlowOf(e, st, names);
      match e
      case Name(x) => f == if x in st.validated then Internal else if x in st.env then st.env[x] else Untainted
      case RequestSource => f == Tainted
      case InternalSource => f == Internal
      case _ =>
        if FixesOrigin(e, st, names) then f == Internal
        else if CutsAt(e) && Level(FlowOf(e.operand, st, names)) >= 2 then f == UrlSuffix
        else Highest(f, FlowsOf(PartsOf(e, names), st, names))
  {
    if !e.Name? && !e.RequestSource? && !e.InternalSource? {
      Composed(e, st, names);
      JoinMeaning(FlowsOf(PartsOf(e, names), st, names));
    }
  }

  lemma Composed(e: Expr, st: State, names: Names)
    requires !e.Name? && !e.RequestSource? && !e.InternalSource?
    ensures FlowOf(e, st, names) ==
      if FixesOrigin(e, st, names) then Internal
      else if CutsAt(e) && Level(FlowOf(e.operand, st, names)) >= 2 then UrlSuffix
      else JoinValues(FlowsOf(PartsOf(e, names), st, names))
  {
    match e
    case Concat(_, _) => SumMeaning(e, st, names);
    case Template(_) => TemplateMeaning(e, st, names);
    case Join(_, _, _) => JoinedMeaning(e, st, names);
    case Transform(_, _) => TransformMeaning(e, st, names);
    case _ => PlainMeaning(e, st, names);
  }

  lemma PlainMeaning(e: Expr, st: State, names: Names)
    requires e.Literal? || e.BoolExpr? || e.Not? || e.IfExp? || e.Call?
    ensures FlowOf(e, st, names) == JoinValues(FlowsOf(PartsOf(e, names), st, names))
  {
    match e
    case BoolExpr(_, operands) => FlowsMeaning(operands, st, names);
    case IfExp(_, body, orelse) =>
      assert FlowsOf([body, orelse], st, names) == [FlowOf(body, st, names), FlowOf(orelse, st, names)];
    case Call(_, args, _) => FlowsMeaning(args, st, names);
    case _ =>
  }

  lemma SumMeaning(e: Expr, st: State, names: Names)
    requires e.Concat?
    ensures FlowOf(e, st, names) ==
      if FixesOrigin(e, st, names) then Internal else JoinValues(FlowsOf(PartsOf(e, names), st, names))
  {
    assert FlowsOf([e.left, e.right], st, names) == [FlowOf(e.left, st, names), FlowOf(e.right, st, names)];
  }

  lemma TemplateMeaning(e: Expr, st: State, names: Names)
    requires e.Template?
    ensures FlowOf(e, st, names) ==
      if FixesOrigin(e, st, names) then Internal else JoinValues(FlowsOf(PartsOf(e, names), st, names))
  {
    EmptyPrefix();
    HolesMeaning(e.parts, st, names);
  }

  lemma TransformMeaning(e: Expr, st: State, names: Names)
    requires e.Transform?
    ensures FlowOf(e, st, names) ==
      if CutsAt(e) && Level(FlowOf(e.operand, st, names)) >= 2 then UrlSuffix
      else JoinValues(FlowsOf(PartsOf(e, names), st, names))
  {
    assert FlowsOf([e.operand], st, names) == [FlowOf(e.operand, st, names)];
  }

  lemma JoinedMeaning(e: Expr, st: State, names: Names)
    requires e.Join?
    ensures FlowOf(e, st, names) ==
      if FixesOrigin(e, st, names) then Internal else JoinValues(FlowsOf(PartsOf(e, names), st, names))
  {
    EmptyPrefix();
    var flows := FlowsOf(Values(e.elements), st, names);
    FlowsMeaning(e.elements, st, names);
    assert FlowsOf(PartsOf(e, names), st, names) == [FlowOf(e.separator, st, names)] + flows;
    if e.elements.Arg? {
      assert flows[0] == FlowOf(e.elements.value, st, names);
      assert flows[1..] == FlowsOf(Values(e.elements.rest), st, names);
    }
  }

  // ----- reported calls -----

  /** The calls of an expression, each behind those of its arguments. */
  function CallsIn(e: Expr): seq<Expr> {
    match e
    case BoolExpr(_, operands) => CallsOf(operands)
    case Not(operand) => CallsIn(operand)
    case IfExp(test, body, orelse) => CallsIn(test) + CallsIn(body) + CallsIn(orelse)
    case Call(_, args, _) => CallsOf(args) + [e]
    case Concat(left, right) => CallsIn(left) + CallsIn(right)
    case Template(parts) => CallsWithin(parts)
    case Join(_, separator, elements) => CallsIn(separator) + CallsOf(elements)
    case Transform(operand, how) => CallsIn(operand) + (if how.Reshape? then CallsOf(how.args) else [])
    case _ => []
  }

  function CallsOf(args: ArgList<Expr>): seq<Expr> {
    match args
    case NoArgs => []
    case Arg(_, e, rest) => CallsIn(e) + CallsOf(rest)
  }

  function CallsWithin(parts: Parts): seq<Expr> {
    match parts
    case NoParts => []
    case Fixed(_, rest) => CallsWithin(rest)
    case Hole(e, rest) => CallsIn(e) + CallsWithin(rest)
  }

  /** A call to a redirect function that goes to request data. */
  predicate Reports(c: Expr, st: State, names: Names) {
    && c.Call? && c.callee in names.redirects && RedirectTarget(c.args).Some?
    && Level(FlowOf(RedirectTarget(c.args).value, st, names)) >= 2
  }

  function Reported(calls: seq<Expr>, st: State, names: Names): seq<nat> {
    if calls == [] then []
    else (if Reports(calls[0], st, names) then [calls[0].site] else []) + Reported(calls[1..], st, names)
  }

  lemma {:induction false} ReportedAppend(a: seq<Expr>, b: seq<Expr>, st: State, names: Names)
    ensures Reported(a + b, st, names) == Reported(a, st, names) + Reported(b, st, names)
  {
    if a == [] {
      assert a + b == b;
    } else {
      assert (a + b)[1..] == a[1..] + b;
      ReportedAppend(a[1..], b, st, names);
    }
  }

  /** The scan of an expression reports exactly its calls that redirect to request data, those inside a
      call before it. */
  lemma {:induction false} ScanMeaning(e: Expr, st: State, names: Names)
    ensures ScanExpr(e, st, names) == Reported(CallsIn(e), st, names)
    decreases e
  {
    match e
    case BoolExpr(_, operands) => ScanArgsMeaning(operands, st, names);
    case Not(operand) => ScanMeaning(operand, st, names);
    case IfExp(test, body, orelse) =>
      ScanMeaning(test, st, names);
      ScanMeaning(body, st, names);
      ScanMeaning(orelse, st, names);
      ReportedAppend(CallsIn(test), CallsIn(body), st, names);
      ReportedAppend(CallsIn(test) + CallsIn(body), CallsIn(orelse), st, names);
    case Call(_, args, _) =>
      ScanArgsMeaning(args, st, names);
      ReportedAppend(CallsOf(args), [e], st, names);
      assert [e][1..] == [];
    case Concat(left, right) =>
      ScanMeaning(left, st, names);
      ScanMeaning(right, st, names);
      ReportedAppend(CallsIn(left), CallsIn(right), st, names);
    case Template(parts) => ScanPartsMeaning(parts, st, names);
    case Join(_, separator, elements) =>
      ScanMeaning(separator, st, names);
      ScanArgsMeaning(elements, st, names);
      ReportedAppend(CallsIn(separator), CallsOf(elements), st, names);
    case Transform(operand, how) =>
      ScanMeaning(operand, st, names);
      if how.Reshape? {
        ScanArgsMeaning(how.args, st, names);
        ReportedAppend(CallsIn(operand), CallsOf(how.args), st, names);
      } else {
        assert CallsIn(e) == CallsIn(operand) && ScanExpr(e, st, names) == ScanExpr(operand, st, names);
      }
    case _ =>
  }

  lemma {:induction false} ScanArgsMeaning(args: ArgList<Expr>, st: State, names: Names)
    ensures ScanArgs(args, st, names) == Reported(CallsOf(args), st, names)
    decreases args
  {
    if args.Arg? {
      ScanMeaning(args.value, st, names);
      ScanArgsMeaning(args.rest, st, names);
      ReportedAppend(CallsIn(args.value), CallsOf(args.rest), st, names);
    }
  }

  lemma {:induction false} ScanPartsMeaning(parts: Parts, st: State, names: Names)
    ensures ScanParts(parts, st, names) == Reported(CallsWithin(parts), st, names)
    decreases parts
  {
    match parts
    case NoParts =>
    case Fixed(_, rest) => ScanPartsMeaning(rest, st, names);
    case Hole(e, rest) =>
      ScanMeaning(e, st, names);
      ScanPartsMeaning(rest, st, names);
      ReportedAppend(CallsIn(e), CallsWithin(rest), st, names);
  }

  // ----- statements -----

  /** What a name holds after a binding: the given flow, no longer validated, if it is bound, and what
      it held otherwise. */
  ghost predicate Binds(before: State, after: State, targets: seq<string>, f: Flow) {
    forall x ::
      && (x in targets ==> x !in after.validated && x in after.env && after.env[x] == f)
      && (x !in targets ==> && (x in after.validated <==> x in before.validated)
                            && (x in after.env <==> x in before.env)
                            && (x in after.env ==> after.env[x] == before.env[x]))
  }

  lemma {:induction false} BindMeaning(targets: seq<string>, f: Flow, st: State)
    ensures Binds(st, AssignAll(targets, f, st), targets, f)
    decreases targets
  {
    if targets != [] {
      var next := State(st.env[targets[0] := f], st.validated - {targets[0]});
      BindMeaning(targets[1..], f, next);
    }
  }

  /** The three binding statements: an assignment binds its names to the flow of the value, a bare
      annotation to nothing known, an augmented assignment to the higher of the two flows. What they
      report are the calls of the value. */
  lemma BindingMeaning(s: Stmt, st: State, names: Names) returns (targets: seq<string>, f: Flow)
    requires s.Assign? || s.Declare? || s.AugAssign?
    ensures Binds(st, ScanStmt(s, st, names).state, targets, f)
    ensures s.Assign? ==> targets == s.targets && f == FlowOf(s.value, st, names)
    ensures s.Declare? ==> targets == [s.target] && f == Untainted
    ensures s.AugAssign? ==>
              targets == [s.target] && Highest(f, [FlowOf(Name(s.target), st, names), FlowOf(s.value, st, names)])
    ensures ScanStmt(s, st, names).results ==
              if s.Declare? then [] else Reported(CallsIn(s.value), st, names)
  {
    match s {
      case Assign(bound, e) =>
        targets, f := bound, FlowOf(e, st, names);
        ScanMeaning(e, st, names);
      case Declare(x) =>
        targets, f := [x], Untainted;
      case AugAssign(x, e) =>
        targets, f := [x], AugFlow(x, e, st, names);
        JoinMeaning([FlowOf(Name(x), st, names), FlowOf(e, st, names)]);
        ScanMeaning(e, st, names);
    }
    BindMeaning(targets, f, st);
  }

  /** What the other statements report, none of which binds a name. */
  lemma PlainStatements(e: Expr, st: State, names: Names)
    ensures ScanStmt(Evaluate(e), st, names) == Scan(st, Reported(CallsIn(e), st, names))
    ensures ScanStmt(Return(Some(e)), st, names) == Scan(st, Reported(CallsIn(e), st, names))
    ensures ScanStmt(Raise(Some(e)), st, names) == Scan(st, Reported(CallsIn(e), st, names))
    ensures ScanStmt(Return(None), st, names) == ScanStmt(Raise(None), st, names) == Scan(st, [])
  {
    ScanMeaning(e, st, names);
  }

  function Append(a: Block, b: Block): Block {
    match a
    case Empty => b
    case Then(s, rest) => Then(s, Append(rest, b))
  }

  /** A return or raise stands among the statements themselves, not in a branch. */
  predicate Leaves(b: Block) { b.Then? && (b.first.Return? || b.first.Raise? || Leaves(b.rest)) }

  /** Behind a return or raise nothing is scanned. */
  lemma {:induction false} DeadCode(a: Block, b: Block, st: State, names: Names)
    requires Leaves(a)
    ensures ScanBlock(Append(a, b), st, names) == ScanBlock(a, st, names)
    decreases a
  {
    var first := ScanStmt(a.first, st, names);
    OneMore(a.first, a.rest, st, names, first);
    OneMore(a.first, Append(a.rest, b), st, names, first);
    if !a.first.Return? && !a.first.Raise? { DeadCode(a.rest, b, first.state, names); }
  }

  /** Otherwise blocks one after the other are scanned one after the other. */
  lemma {:induction false} SequenceMeaning(a: Block, b: Block, st: State, names: Names)
    requires !Leaves(a)
    ensures var first := ScanBlock(a, st, names);
      var next := ScanBlock(b, first.state, names);
      ScanBlock(Append(a, b), st, names) == Scan(next.state, first.results + next.results)
    decreases a
  {
    if a.Then? {
      var first := ScanStmt(a.first, st, names);
      OneMore(a.first, a.rest, st, names, first);
      OneMore(a.first, Append(a.rest, b), st, names, first);
      SequenceMeaning(a.rest, b, first.state, names);
      var more := ScanBlock(a.rest, first.state, names);
      var next := ScanBlock(b, more.state, names);
      ResultsInOrder(first.results, more.results, next.results);
    }
  }

  lemma ResultsInOrder(a: seq<nat>, b: seq<nat>, c: seq<nat>)
    ensures a + (b + c) == a + b + c
  {
  }

  lemma OneMore(s: Stmt, rest: Block, st: State, names: Names, first: Scan)
    requires first == ScanStmt(s, st, names)
    ensures s.Return? || s.Raise? ==> ScanBlock(Then(s, rest), st, names) == first
    ensures !s.Return? && !s.Raise? ==>
      var next := ScanBlock(rest, first.state, names);
      ScanBlock(Then(s, rest), st, names) == Scan(next.state, first.results + next.results)
  {
  }

  /** A block always exits exactly when its last statement is a return or raise, or an if both of whose
      branches do. */
  lemma {:induction false} ExitsMeaning(b: Block, s: Stmt)
    ensures AlwaysExits(Append(b, Then(s, Empty))) <==>
      s.Return? || s.Raise? || (s.If? && AlwaysExits(s.body) && AlwaysExits(s.orelse))
    ensures !AlwaysExits(Empty)
    decreases b
  {
    if b.Then? { ExitsMeaning(b.rest, s); }
  }

  function HeldBy(st: State, x: string): Flow { if x in st.env then st.env[x] else Untainted }

  function Held(branches: seq<State>, x: string): (r: seq<Flow>)
    ensures |r| == |branches|
  {
    seq(|branches|, i requires 0 <= i < |branches| => HeldBy(branches[i], x))
  }

  /** One state stands for several: each name has the highest of its flows, and is validated if it is in
      all of them. */
  ghost predicate StandsFor(st: State, branches: seq<State>) {
    forall x ::
      && (x in st.validated <==> forall i :: 0 <= i < |branches| ==> x in branches[i].validated)
      && Highest(HeldBy(st, x), Held(branches, x))
  }

  lemma {:induction false} MeetMeaning(sets: seq<set<string>>, x: string)
    requires sets != []
    ensures x in Meet(sets) <==> forall i :: 0 <= i < |sets| ==> x in sets[i]
  {
    if |sets| > 1 {
      MeetMeaning(sets[1..], x);
      assert forall i :: 0 < i < |sets| ==> sets[i] == sets[1..][i - 1];
    }
  }

  lemma MergeMeaning(branches: seq<State>)
    requires branches != []
    ensures StandsFor(Merge(branches), branches)
  {
    var st := Merge(branches);
    var sets := seq(|branches|, i requires 0 <= i < |branches| => branches[i].validated);
    forall x
      ensures x in st.validated <==> forall i :: 0 <= i < |branches| ==> x in branches[i].validated
      ensures Highest(HeldBy(st, x), Held(branches, x))
    {
      MeetMeaning(sets, x);
      assert st.validated == Meet(sets) && forall i :: 0 <= i < |branches| ==> sets[i] == branches[i].validated;
      FlowStands(branches, x);
    }
  }

  lemma FlowStands(branches: seq<State>, x: string)
    requires branches != []
    ensures Highest(HeldBy(Merge(branches), x), Held(branches, x))
  {
    var flows := seq(|branches|, i requires 0 <= i < |branches| => branches[i].Get(x));
    assert flows == Held(branches, x);
    JoinMeaning(flows);
    if x in BoundNames(branches) {
      assert HeldBy(Merge(branches), x) == JoinValues(flows);
    } else {
      assert forall i :: 0 <= i < |branches| ==> branches[i] in branches && x !in branches[i].env;
      assert flows[0] == Untainted;
    }
  }

  /** An if: its test is scanned as it stands, each branch with the names validated that the outcome of
      the test guarantees. Afterwards the state stands for the branches that go on; where none does it
      is the state before. */
  lemma IfMeaning(test: Expr, body: Block, orelse: Block, st: State, names: Names)
    returns (b: Scan, o: Scan, branches: seq<State>)
    ensures b == ScanBlock(body, State(st.env, st.validated + Guaranteed(test, true, names)), names)
    ensures o == ScanBlock(orelse, State(st.env, st.validated + Guaranteed(test, false, names)), names)
    ensures branches == (if AlwaysExits(body) then [] else [b.state]) + (if AlwaysExits(orelse) then [] else [o.state])
    ensures var r := ScanStmt(If(test, body, orelse), st, names);
      && r.results == Reported(CallsIn(test), st, names) + b.results + o.results
      && if branches == [] then r.state == st else StandsFor(r.state, branches)
  {
    b := ScanBlock(body, State(st.env, st.validated + Guaranteed(test, true, names)), names);
    o := ScanBlock(orelse, State(st.env, st.validated + Guaranteed(test, false, names)), names);
    branches := (if AlwaysExits(body) then [] else [b.state]) + (if AlwaysExits(orelse) then [] else [o.state]);
    ScanMeaning(test, st, names);
    IfScan(test, body, orelse, st, names, b, o);
    if branches != [] { MergeMeaning(branches); }
  }

  lemma IfScan(test: Expr, body: Block, orelse: Block, st: State, names: Names, b: Scan, o: Scan)
    requires b == ScanBlock(body, State(st.env, st.validated + Guaranteed(test, true, names)), names)
    requires o == ScanBlock(orelse, State(st.env, st.validated + Guaranteed(test, false, names)), names)
    ensures var branches := Continuing(body, orelse, b.state, o.state);
      ScanStmt(If(test, body, orelse), st, names) ==
        Scan(if branches == [] then st else Merge(branches), ScanExpr(test, st, names) + b.results + o.results)
  {
  }
}

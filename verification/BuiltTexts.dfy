/** Texts built from pieces: sums, templates, joins, string transforms and augmented assignments.
    Such a text is new, no validator has seen it. The scanner treats it as safe when its flow comes
    out INTERNAL, and as free of request data when that comes out UNTAINTED. For each rule,
    `...Exactly` gives the condition under which it is right for all the values the flows
    allow, and `BlockBuilt` asks the conditions along a whole scan. */
module BuiltTexts {
  import opened Options
  import opened OriginPrefix
  import opened OpenRedirect

  /** A flow fits a value: a bad value has a risky flow, and request data is never untainted. */
  predicate Fits(v: Value, f: Flow, m: Machine) {
    (m.Bad(v) ==> Risky(f)) && (v.fromRequest ==> !f.Untainted?)
  }

  /** What is known of an expression's value: the scanner's flow, and whether it may hold request
      data at all. */
  datatype Fact = Fact(flow: Flow, held: bool)

  predicate Suits(v: Value, a: Fact, m: Machine) { Fits(v, a.flow, m) && (v.fromRequest ==> a.held) }

  /** Some suiting value holds request data. */
  predicate Carries(a: Fact) { a.held && !a.flow.Untainted? }

  /** What is known of the machine: the scanner's state, and the names that may hold request
      data. */
  datatype Knowledge = Knowledge(state: State, holders: set<string>) {
    function Of(x: string): Fact { Fact(state.Lookup(x), x in holders) }
  }

  // ----- which expressions may hold request data -----

  predicate MayHold(e: Expr, holders: set<string>, names: Names) {
    match e
    case Name(x) => x in holders
    case RequestSource => true
    case BoolExpr(_, operands) => AnyHolds(operands, false, holders, names)
    case IfExp(_, body, orelse) => MayHold(body, holders, names) || MayHold(orelse, holders, names)
    case Call(callee, args, _) =>
      callee !in Answering(names) && AnyHolds(args, callee !in names.builders, holders, names)
    case Concat(left, right) => MayHold(left, holders, names) || MayHold(right, holders, names)
    case Template(parts) => AnyHoleHolds(parts, holders, names)
    case Join(kind, separator, elements) =>
      AnyHolds(elements, false, holders, names) || (kind.TextJoin? && MayHold(separator, holders, names))
    case Transform(operand, how) =>
      MayHold(operand, holders, names) || (how.Reshape? && AnyHolds(how.args, false, holders, names))
    case _ => false
  }

  predicate AnyHolds(args: ArgList<Expr>, positionalOnly: bool, holders: set<string>, names: Names) {
    match args
    case NoArgs => false
    case Arg(k, e, rest) =>
      (!(positionalOnly && k != "") && MayHold(e, holders, names)) || AnyHolds(rest, positionalOnly, holders, names)
  }

  predicate AnyHoleHolds(parts: Parts, holders: set<string>, names: Names) {
    match parts
    case NoParts => false
    case Fixed(_, rest) => AnyHoleHolds(rest, holders, names)
    case Hole(e, rest) => MayHold(e, holders, names) || AnyHoleHolds(rest, holders, names)
  }

  function FactOf(e: Expr, k: Knowledge, names: Names): Fact {
    Fact(FlowOf(e, k.state, names), MayHold(e, k.holders, names))
  }

  function HoleFacts(parts: Parts, k: Knowledge, names: Names): (r: seq<Fact>)
    ensures |r| == HoleCount(parts)
  {
    match parts
    case NoParts => []
    case Fixed(_, rest) => HoleFacts(rest, k, names)
    case Hole(e, rest) => [FactOf(e, k, names)] + HoleFacts(rest, k, names)
  }

  predicate ArgsCarry(args: ArgList<Expr>, k: Knowledge, names: Names) {
    args.Arg? && (Carries(FactOf(args.value, k, names)) || ArgsCarry(args.rest, k, names))
  }

  // ----- sums -----

  /** A text that begins with a literal fixing the origin. */
  predicate Anchored(e: Expr) {
    match e
    case Literal(t) => InternalPrefix(t)
    case Concat(left, _) => Anchored(left)
    case Template(parts) => InternalPrefix(Lead(parts))
    case _ => false
  }

  /** What can be added: two suiting values, an anchored left side really being anchored, a literal
      one being itself, and a stripped right side having no leading slash. */
  predicate Addends(left: Expr, stripped: bool, f: Fact, g: Fact, a: Value, b: Value, m: Machine) {
    && Suits(a, f, m) && Suits(b, g, m)
    && (Anchored(left) ==> a.anchored)
    && (left.Literal? ==> a == LiteralValue(left.text))
    && (stripped ==> b.text == "" || b.text[0] != '/')
  }

  /** A sum is kept if it does not come out INTERNAL, or is anchored, adds nothing, or carries no
      request data. */
  predicate SumKept(left: Expr, stripped: bool, f: Fact, g: Fact) {
    || !ConcatFlow(left, stripped, f.flow, g.flow).Internal?
    || Anchored(left) || left == Literal("") || !(Carries(f) || Carries(g))
  }

  /** The exact condition of the addition rule: its flow fits every sum of suiting values if and
      only if the sum is kept. */
  lemma ConcatExactly(left: Expr, stripped: bool, f: Fact, g: Fact)
    requires left.Literal? ==> f.flow.Untainted?
    ensures (forall a, b, m :: Addends(left, stripped, f, g, a, b, m) ==>
                               Fits(Append(a, b), ConcatFlow(left, stripped, f.flow, g.flow), m))
            <==> SumKept(left, stripped, f, g)
  {
    if SumKept(left, stripped, f, g) {
      forall a, b, m | Addends(left, stripped, f, g, a, b, m)
        ensures Fits(Append(a, b), ConcatFlow(left, stripped, f.flow, g.flow), m)
      {
        SumFits(left, stripped, f, g, a, b, m);
      }
    } else {
      var a, b, m := ConcatMisses(left, stripped, f, g);
      assert Addends(left, stripped, f, g, a, b, m) && m.Bad(Append(a, b));
    }
  }

  lemma JoinOfTwo(f: Flow, g: Flow)
    ensures var r := JoinValues([f, g]);
      && (Risky(r) <==> Risky(f) || Risky(g)) && (r.Untainted? <==> f.Untainted? && g.Untainted?)
  {
    assert [f, g][0] == f && [f, g][1] == g;
  }

  lemma SumFits(left: Expr, stripped: bool, f: Fact, g: Fact, a: Value, b: Value, m: Machine)
    requires (left.Literal? ==> f.flow.Untainted?) && SumKept(left, stripped, f, g)
    requires Addends(left, stripped, f, g, a, b, m)
    ensures Fits(Append(a, b), ConcatFlow(left, stripped, f.flow, g.flow), m)
  {
    JoinOfTwo(f.flow, g.flow);
  }

  /** Otherwise some sum is a request text that no validator accepted and that leaves the origin,
      on a flow taken for safe. */
  lemma ConcatMisses(left: Expr, stripped: bool, f: Fact, g: Fact) returns (a: Value, b: Value, m: Machine)
    requires (left.Literal? ==> f.flow.Untainted?) && !SumKept(left, stripped, f, g)
    ensures Addends(left, stripped, f, g, a, b, m) && m.Bad(Append(a, b)) && !OnOrigin(Append(a, b).text)
  {
    JoinOfTwo(f.flow, g.flow);
    a := if left.Literal? then LiteralValue(left.text) else RawValue.Value("x", Carries(f), false);
    b := RawValue.Value("\\y", Carries(g), false);
    var sum := Append(a, b);
    assert a.text != "";
    assert sum.text == a.text + b.text && |sum.text| > |a.text| && |sum.text| > |b.text|;
    m := Machine(map[], {a, b}, 0, {});
    assert sum.text[0] == a.text[0] && (|a.text| == 1 ==> sum.text[1] == '\\')
           && (|a.text| > 1 ==> sum.text[1] == a.text[1]);
  }

  /** An augmented assignment joins the two flows; what it builds is kept if the join is not
      INTERNAL or nothing carries request data. */
  predicate AugKept(f: Fact, g: Fact) {
    !JoinValues([f.flow, g.flow]).Internal? || !(Carries(f) || Carries(g))
  }

  /** The exact condition of an augmented assignment. */
  lemma AugExactly(f: Fact, g: Fact)
    ensures (forall a, b, m :: Suits(a, f, m) && Suits(b, g, m) ==>
                               Fits(Append(a, b), JoinValues([f.flow, g.flow]), m))
            <==> AugKept(f, g)
  {
    JoinOfTwo(f.flow, g.flow);
    if !AugKept(f, g) {
      var a, b, m := AugMisses(f, g);
      assert Suits(a, f, m) && Suits(b, g, m) && m.Bad(Append(a, b));
    }
  }

  lemma AugMisses(f: Fact, g: Fact) returns (a: Value, b: Value, m: Machine)
    requires !AugKept(f, g)
    ensures Suits(a, f, m) && Suits(b, g, m) && m.Bad(Append(a, b)) && !OnOrigin(Append(a, b).text)
  {
    JoinOfTwo(f.flow, g.flow);
    a, b := RawValue.Value("x", Carries(f), false), RawValue.Value("y", Carries(g), false);
    m := Machine(map[], {a, b}, 0, {});
    assert |Append(a, b).text| == 2 && |a.text| == |b.text| == 1;
  }

  // ----- templates -----

  function FactFlows(facts: seq<Fact>): seq<Flow> { seq(|facts|, i requires 0 <= i < |facts| => facts[i].flow) }

  lemma {:induction false} HoleFactFlows(parts: Parts, k: Knowledge, names: Names)
    ensures FactFlows(HoleFacts(parts, k, names)) == HoleFlows(parts, k.state, names)
  {
    match parts
    case NoParts =>
    case Fixed(_, rest) => HoleFactFlows(rest, k, names);
    case Hole(e, rest) =>
      HoleFactFlows(rest, k, names);
      assert FactFlows(HoleFacts(parts, k, names))
          == [FlowOf(e, k.state, names)] + FactFlows(HoleFacts(rest, k, names));
  }

  predicate AllSuit(vals: seq<Value>, facts: seq<Fact>, m: Machine) {
    |vals| == |facts| && forall i :: 0 <= i < |vals| ==> Suits(vals[i], facts[i], m)
  }

  predicate SoleHole(parts: Parts) { parts.Hole? && parts.rest.NoParts? }

  predicate TemplateKept(parts: Parts, facts: seq<Fact>) {
    || !TemplateFlow(Lead(parts), FactFlows(facts)).Internal?
    || InternalPrefix(Lead(parts)) || SoleHole(parts) || forall a :: a in facts ==> !Carries(a)
  }

  /** Literals are neither empty nor adjacent, as the parser leaves them. */
  predicate WellFormed(parts: Parts) {
    match parts
    case NoParts => true
    case Fixed(t, rest) => t != "" && !rest.Fixed? && WellFormed(rest)
    case Hole(_, rest) => WellFormed(rest)
  }

  /** The exact condition of a template: its flow fits every text it can render from suiting
      values if and only if it does not come out INTERNAL, or a literal fixes the origin, or it
      is nothing but one hole, or no hole carries request data. */
  lemma TemplateExactly(parts: Parts, facts: seq<Fact>)
    requires WellFormed(parts) && |facts| == HoleCount(parts)
    ensures (forall vals, m :: AllSuit(vals, facts, m) ==>
                               Fits(Render(parts, vals), TemplateFlow(Lead(parts), FactFlows(facts)), m))
            <==> TemplateKept(parts, facts)
  {
    if TemplateKept(parts, facts) {
      forall vals, m | AllSuit(vals, facts, m)
        ensures Fits(Render(parts, vals), TemplateFlow(Lead(parts), FactFlows(facts)), m)
      {
        TemplateFits(parts, facts, vals, m);
      }
    } else {
      var vals, m := TemplateMisses(parts, facts);
      assert AllSuit(vals, facts, m) && m.Bad(Render(parts, vals));
    }
  }

  /** A rendered text holds request data exactly when some value in it does. */
  lemma {:induction false} RenderRequest(parts: Parts, vals: seq<Value>)
    requires |vals| == HoleCount(parts)
    ensures Render(parts, vals).fromRequest <==> exists i :: 0 <= i < |vals| && vals[i].fromRequest
  {
    match parts
    case NoParts =>
    case Fixed(_, rest) => RenderRequest(rest, vals);
    case Hole(_, rest) =>
      RenderRequest(rest, vals[1..]);
      assert vals == [vals[0]] + vals[1..];
  }

  lemma SoleHoleRenders(parts: Parts, vals: seq<Value>)
    requires SoleHole(parts) && |vals| == HoleCount(parts)
    ensures Render(parts, vals) == vals[0]
  {
    assert Render(parts.rest, vals[1..]) == RawValue.Value("", false, false);
    assert vals[0].text + "" == vals[0].text;
  }

  /** The join of a template's flows, or INTERNAL behind a prefix. */
  lemma TemplateJoin(lead: string, facts: seq<Fact>)
    ensures var r := TemplateFlow(lead, FactFlows(facts));
      && (!InternalPrefix(lead) ==> (Risky(r) <==> exists a :: a in facts && Risky(a.flow)))
      && (r.Untainted? <==> forall a :: a in facts ==> a.flow.Untainted?)
  {
    var flows := FactFlows(facts);
    forall a | a in facts ensures a.flow in flows {
      var i :| 0 <= i < |facts| && facts[i] == a;
      assert flows[i] == a.flow;
    }
    forall f | f in flows ensures exists a :: a in facts && a.flow == f {
      var i :| 0 <= i < |flows| && flows[i] == f;
      assert facts[i] in facts;
    }
  }

  lemma TemplateFits(parts: Parts, facts: seq<Fact>, vals: seq<Value>, m: Machine)
    requires |facts| == HoleCount(parts) && TemplateKept(parts, facts) && AllSuit(vals, facts, m)
    ensures Fits(Render(parts, vals), TemplateFlow(Lead(parts), FactFlows(facts)), m)
  {
    RenderRequest(parts, vals);
    TemplateJoin(Lead(parts), facts);
    if SoleHole(parts) {
      SoleHoleRenders(parts, vals);
      assert facts[0] in facts;
    } else if Render(parts, vals).fromRequest {
      var i :| 0 <= i < |vals| && vals[i].fromRequest;
      assert facts[i] in facts && Carries(facts[i]);
    }
  }

  /** Every hole holds the same text, request data where the facts allow it. */
  function Filled(facts: seq<Fact>, text: string): (r: seq<Value>)
    ensures |r| == |facts|
  {
    seq(|facts|, i requires 0 <= i < |facts| => RawValue.Value(text, Carries(facts[i]), false))
  }

  /** A rendered text is as long as what its holes hold, and longer behind a literal. */
  lemma {:induction false} RenderLength(parts: Parts, facts: seq<Fact>, text: string)
    requires WellFormed(parts) && |facts| == HoleCount(parts) && text != ""
    ensures |Render(parts, Filled(facts, text)).text| >= |text| * HoleCount(parts)
    ensures parts.Fixed? ==> |Render(parts, Filled(facts, text)).text| > |text| * HoleCount(parts)
  {
    match parts
    case NoParts =>
    case Fixed(_, rest) => RenderLength(rest, facts, text);
    case Hole(_, rest) =>
      RenderLength(rest, facts[1..], text);
      assert Filled(facts, text)[1..] == Filled(facts[1..], text);
  }

  /** Otherwise some rendered text is a request text that no validator accepted and that leaves
      the origin, on a flow taken for safe. */
  lemma TemplateMisses(parts: Parts, facts: seq<Fact>) returns (vals: seq<Value>, m: Machine)
    requires WellFormed(parts) && |facts| == HoleCount(parts) && !TemplateKept(parts, facts)
    ensures AllSuit(vals, facts, m) && m.Bad(Render(parts, vals)) && !OnOrigin(Render(parts, vals).text)
  {
    vals := Filled(facts, "\\y");
    m := Machine(map[], {RawValue.Value("\\y", true, false)}, 0, {});
    var a :| a in facts && Carries(a);
    var i :| 0 <= i < |facts| && facts[i] == a;
    assert vals[i].fromRequest;
    RenderRequest(parts, vals);
    TemplateJoin(Lead(parts), facts);
    RenderLength(parts, facts, "\\y");
  }

  // ----- joins -----

  /** What can be joined: a first element suiting its fact, an anchored one really being anchored
      and a literal one being itself, and a rest that holds request data only if it may. */
  predicate Joinable(first: Expr, f: Fact, tail: bool, a: Value, b: Value, m: Machine) {
    && Suits(a, f, m) && (Anchored(first) ==> a.anchored) && (first.Literal? ==> a == LiteralValue(first.text))
    && (b.fromRequest ==> tail)
  }

  /** The first element, alone or with the rest: separated texts, or two paths. */
  function Joined(kind: JoinKind, sole: bool, a: Value, b: Value): Value {
    if sole then a else if kind.TextJoin? then Append(a, b) else JoinPath(a, b)
  }

  /** A join is kept if it does not come out INTERNAL, or has one element, or carries no request
      data, or is anchored by an element that no absolute path can replace. */
  predicate JoinKept(kind: JoinKind, first: Expr, flow: Flow, f: Fact, tail: bool, sole: bool) {
    || !flow.Internal? || sole || !(Carries(f) || tail)
    || (Anchored(first) && (kind.TextJoin? || !tail))
  }

  /** The exact condition of the joining rule: its flow fits every join of suiting values if and
      only if the join is kept. */
  lemma JoinExactly(kind: JoinKind, first: Expr, separator: Flow, f: Fact, flows: seq<Flow>, tail: bool)
    requires (first.Literal? ==> f.flow.Untainted?) && (tail ==> !JoinValues([separator] + flows).Untainted?)
    ensures var flow, sole := JoinFlow(LiteralText(first), separator, [f.flow] + flows), flows == [];
      (forall a, b, m :: Joinable(first, f, tail, a, b, m) ==> Fits(Joined(kind, sole, a, b), flow, m))
      <==> JoinKept(kind, first, flow, f, tail, sole)
  {
    var flow, sole := JoinFlow(LiteralText(first), separator, [f.flow] + flows), flows == [];
    if JoinKept(kind, first, flow, f, tail, sole) {
      forall a, b, m | Joinable(first, f, tail, a, b, m) ensures Fits(Joined(kind, sole, a, b), flow, m) {
        JoinFits(kind, first, separator, f, flows, tail, a, b, m);
      }
    } else {
      var a, b, m := JoinMisses(kind, first, f, tail);
      assert Joinable(first, f, tail, a, b, m) && m.Bad(Joined(kind, sole, a, b));
    }
  }

  /** What the joining rule says of its parts. */
  lemma JoinOfAll(lead: string, separator: Flow, f: Flow, flows: seq<Flow>)
    ensures var r := JoinFlow(lead, separator, [f] + flows);
      && (r.Untainted? ==> f.Untainted? && JoinValues([separator] + flows).Untainted?)
      && (Risky(f) && !InternalPrefix(lead) ==> Risky(r)) && (f.Internal? ==> !r.Untainted?)
  {
    var all, more := [separator] + ([f] + flows), [separator] + flows;
    assert all[1] == f && all[0] == separator;
    assert forall v :: v in more ==> v in all;
    assert ([f] + flows)[0] == f;
  }

  lemma JoinFits(kind: JoinKind, first: Expr, separator: Flow, f: Fact, flows: seq<Flow>, tail: bool, a: Value,
                 b: Value, m: Machine)
    requires (first.Literal? ==> f.flow.Untainted?) && (tail ==> !JoinValues([separator] + flows).Untainted?)
    requires JoinKept(kind, first, JoinFlow(LiteralText(first), separator, [f.flow] + flows), f, tail, flows == [])
    requires Joinable(first, f, tail, a, b, m)
    ensures Fits(Joined(kind, flows == [], a, b),
                 JoinFlow(LiteralText(first), separator, [f.flow] + flows), m)
  {
    JoinOfAll(LiteralText(first), separator, f.flow, flows);
  }

  /** Otherwise some join is a request text that no validator accepted and that leaves the origin,
      on a flow taken for safe. */
  lemma JoinMisses(kind: JoinKind, first: Expr, f: Fact, tail: bool) returns (a: Value, b: Value, m: Machine)
    requires (first.Literal? ==> f.flow.Untainted?) && !JoinKept(kind, first, Internal, f, tail, false)
    ensures Joinable(first, f, tail, a, b, m)
    ensures var sum := Joined(kind, false, a, b); m.Bad(sum) && !OnOrigin(sum.text)
  {
    a := if first.Literal? then LiteralValue(first.text)
         else RawValue.Value(if Anchored(first) then "/x" else "x", Carries(f), Anchored(first));
    m := Machine(map[], {a}, 0, {});
    if kind.TextJoin? {
      b := RawValue.Value("\\y", tail, false);
      var sum := Append(a, b);
      assert a.text + b.text == sum.text;
      if a.text != "" {
        assert |sum.text| > |a.text| && sum.text[0] == a.text[0] && (|a.text| == 1 ==> sum.text[1] == '\\')
               && (|a.text| > 1 ==> sum.text[1] == a.text[1]);
      } else {
        assert |b.text| == 2 && |a.text| == 0;
      }
    } else if tail {
      b := RawValue.Value("//y", true, false);
    } else {
      b := RawValue.Value("y", false, false);
      assert |Joined(kind, false, a, b).text| > |a.text| && Joined(kind, false, a, b).text[0] == 'x';
    }
  }

  // ----- bare annotations -----

  /** `x: T` makes the flow UNTAINTED and leaves the value: that is right for all values the facts
      allow if and only if the name carries no request data. */
  lemma DeclareExactly(f: Fact)
    ensures (forall v, m :: Suits(v, f, m) ==> Fits(v, Untainted, m)) <==> !Carries(f)
  {
    if Carries(f) {
      var v: Value := RawValue.Value("//x", true, false);
      assert Suits(v, f, Machine(map[], {v}, 0, {}));
    }
  }

  // ----- string transforms -----

  /** What a string transform can make of a value: a text that holds request data if the value
      does, and otherwise only if `drawn`, some argument of it may carry request data. */
  predicate Makes(how: Method, v: Value, drawn: bool, r: Value) {
    && !r.anchored && (v.fromRequest ==> r.fromRequest) && (r.fromRequest ==> v.fromRequest || drawn)
    && (how.Strip? ==> r.text == TrimSlashes(v.text, how.both))
  }

  /** A transformed text is kept if its flow is risky, or neither the receiver nor an argument
      carries request data. */
  predicate TransformKept(how: Method, f: Fact, drawn: bool) {
    Risky(TransformFlow(how, f.flow)) || !(Carries(f) || drawn)
  }

  /** The exact condition of a string transform, whose arguments the flow ignores. */
  lemma TransformExactly(how: Method, f: Fact, drawn: bool)
    ensures (forall v, r, m :: Suits(v, f, m) && Makes(how, v, drawn, r) ==> Fits(r, TransformFlow(how, f.flow), m))
            <==> TransformKept(how, f, drawn)
  {
    if !TransformKept(how, f, drawn) {
      var v, r, m := TransformMisses(how, f, drawn);
      assert Suits(v, f, m) && Makes(how, v, drawn, r) && m.Bad(r);
    }
  }

  lemma TransformMisses(how: Method, f: Fact, drawn: bool) returns (v: Value, r: Value, m: Machine)
    requires !TransformKept(how, f, drawn)
    ensures Suits(v, f, m) && Makes(how, v, drawn, r) && m.Bad(r) && !OnOrigin(r.text)
  {
    v, r := RawValue.Value("/x", Carries(f), false), RawValue.Value("x", true, false);
    m := Machine(map[], {v}, 0, {});
    assert v.text[1..] == "x" && TrimLeft("x") == TrimRight("x") == "x";
    assert |v.text| == 2 && |r.text| == 1;
  }

  // ----- calls -----

  /** A text that a foreign function makes of its arguments is kept if its flow is risky, or no
      argument carries request data. */
  predicate CallKept(flow: Flow, drawn: bool) { Risky(flow) || !drawn }

  /** The exact condition of such a call, whose flow ignores the keyword arguments. */
  lemma CallExactly(flow: Flow, drawn: bool)
    ensures (forall r: Value, m :: !r.anchored && (r.fromRequest ==> drawn) ==> Fits(r, flow, m))
            <==> CallKept(flow, drawn)
  {
    if !CallKept(flow, drawn) {
      var r: Value, m := RawValue.Value("//x", true, false), Machine(map[], {}, 0, {});
      assert m.Bad(r) && !Fits(r, flow, m);
    }
  }

  // ----- the conditions along a scan -----

  /** Something after the first element carries request data. */
  predicate TailCarries(kind: JoinKind, separator: Expr, rest: ArgList<Expr>, k: Knowledge, names: Names) {
    ArgsCarry(rest, k, names) || (kind.TextJoin? && rest.Arg? && Carries(FactOf(separator, k, names)))
  }

  /** The text an expression builds is kept. */
  predicate Kept(e: Expr, k: Knowledge, names: Names) {
    match e
    case Call(callee, args, _) =>
      callee in names.builders && callee !in Answering(names) ==>
        CallKept(FlowOf(e, k.state, names), ArgsCarry(args, k, names))
    case Concat(left, right) => SumKept(left, Stripped(right), FactOf(left, k, names), FactOf(right, k, names))
    case Template(parts) => TemplateKept(parts, HoleFacts(parts, k, names))
    case Join(kind, separator, elements) =>
      elements.Arg? ==>
        JoinKept(kind, elements.value, FlowOf(e, k.state, names), FactOf(elements.value, k, names),
                 TailCarries(kind, separator, elements.rest, k, names), elements.rest.NoArgs?)
    case Transform(operand, how) =>
      TransformKept(how, FactOf(operand, k, names), how.Reshape? && ArgsCarry(how.args, k, names))
    case _ => true
  }

  lemma {:induction false} UnheldHoles(parts: Parts, k: Knowledge, names: Names)
    requires !AnyHoleHolds(parts, k.holders, names)
    ensures forall a :: a in HoleFacts(parts, k, names) ==> !a.held
  {
    match parts
    case NoParts =>
    case Fixed(_, rest) => UnheldHoles(rest, k, names);
    case Hole(_, rest) => UnheldHoles(rest, k, names);
  }

  lemma {:induction false} UnheldArgs(args: ArgList<Expr>, k: Knowledge, names: Names)
    requires !AnyHolds(args, false, k.holders, names)
    ensures !ArgsCarry(args, k, names)
  {
    if args.Arg? { UnheldArgs(args.rest, k, names); }
  }

  /** A text built without request data is kept, whatever its flow: `url_for(..) + "?a=1"`. */
  lemma UnheldKept(e: Expr, k: Knowledge, names: Names)
    requires !MayHold(e, k.holders, names)
    ensures Kept(e, k, names)
  {
    match e
    case Call(callee, args, _) =>
      if callee in names.builders && callee !in Answering(names) { UnheldArgs(args, k, names); }
    case Template(parts) => UnheldHoles(parts, k, names);
    case Join(_, _, elements) => if elements.Arg? { UnheldArgs(elements.rest, k, names); }
    case Transform(_, how) => if how.Reshape? { UnheldArgs(how.args, k, names); }
    case _ =>
  }

  /** Every text built inside an expression is kept. */
  predicate BuiltSafely(e: Expr, k: Knowledge, names: Names) {
    match e
    case BoolExpr(_, operands) => ArgsBuilt(operands, k, names)
    case Not(operand) => BuiltSafely(operand, k, names)
    case IfExp(test, body, orelse) =>
      BuiltSafely(test, k, names) && BuiltSafely(body, k, names) && BuiltSafely(orelse, k, names)
    case Call(_, args, _) => ArgsBuilt(args, k, names) && Kept(e, k, names)
    case Concat(left, right) => BuiltSafely(left, k, names) && BuiltSafely(right, k, names) && Kept(e, k, names)
    case Template(parts) => PartsBuilt(parts, k, names) && Kept(e, k, names)
    case Join(_, separator, elements) =>
      BuiltSafely(separator, k, names) && ArgsBuilt(elements, k, names) && Kept(e, k, names)
    case Transform(operand, how) =>
      BuiltSafely(operand, k, names) && (how.Reshape? ==> ArgsBuilt(how.args, k, names)) && Kept(e, k, names)
    case _ => true
  }

  predicate ArgsBuilt(args: ArgList<Expr>, k: Knowledge, names: Names) {
    match args
    case NoArgs => true
    case Arg(_, e, rest) => BuiltSafely(e, k, names) && ArgsBuilt(rest, k, names)
  }

  predicate PartsBuilt(parts: Parts, k: Knowledge, names: Names) {
    match parts
    case NoParts => true
    case Fixed(_, rest) => PartsBuilt(rest, k, names)
    case Hole(e, rest) => BuiltSafely(e, k, names) && PartsBuilt(rest, k, names)
  }

  function Rebound(targets: seq<string>, held: bool, holders: set<string>): set<string> {
    var bound := set x | x in targets;
    if held then holders + bound else holders - bound
  }

  /** The names that may hold request data after a block that completes normally. */
  function HoldersAfter(b: Block, holders: set<string>, names: Names): set<string>
    decreases b
  {
    match b
    case Empty => holders
    case Then(s, rest) => HoldersAfter(rest, HoldersStmt(s, holders, names), names)
  }

  function HoldersStmt(s: Stmt, holders: set<string>, names: Names): set<string>
    decreases s
  {
    match s
    case Assign(targets, e) => Rebound(targets, MayHold(e, holders, names), holders)
    case Declare(x) => holders - {x}
    case AugAssign(x, e) => Rebound([x], x in holders || MayHold(e, holders, names), holders)
    case If(_, body, orelse) =>
      (if AlwaysExits(body) then {} else HoldersAfter(body, holders, names))
      + (if AlwaysExits(orelse) then {} else HoldersAfter(orelse, holders, names))
    case _ => holders
  }

  function After(s: Stmt, k: Knowledge, names: Names): Knowledge {
    Knowledge(ScanStmt(s, k.state, names).state, HoldersStmt(s, k.holders, names))
  }

  function Branch(test: Expr, outcome: bool, k: Knowledge, names: Names): Knowledge {
    k.(state := Entering(test, outcome, k.state, names))
  }

  /** Every text built along the scan of a block is kept. */
  predicate BlockBuilt(b: Block, k: Knowledge, names: Names)
    decreases b
  {
    match b
    case Empty => true
    case Then(s, rest) =>
      StmtBuilt(s, k, names) && (s.Return? || s.Raise? || BlockBuilt(rest, After(s, k, names), names))
  }

  predicate StmtBuilt(s: Stmt, k: Knowledge, names: Names)
    decreases s
  {
    match s
    case Return(v) => v.Some? ==> BuiltSafely(v.value, k, names)
    case Raise(v) => v.Some? ==> BuiltSafely(v.value, k, names)
    case Evaluate(e) => BuiltSafely(e, k, names)
    case Assign(_, e) => BuiltSafely(e, k, names)
    case Declare(x) => !Carries(k.Of(x))
    case AugAssign(x, e) => BuiltSafely(e, k, names) && AugKept(k.Of(x), FactOf(e, k, names))
    case If(test, body, orelse) =>
      && BuiltSafely(test, k, names)
      && BlockBuilt(body, Branch(test, true, k, names), names)
      && BlockBuilt(orelse, Branch(test, false, k, names), names)
  }
}

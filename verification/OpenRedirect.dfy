/** The open-redirect scanner as an abstract interpreter, and the programs it reads.
    Covered: assignments, augmented assignments, ifs, returns, raises, expression statements
    and bare annotations over names, literals, request and internal sources, and/or/not,
    conditional expressions, calls, concatenations, templates (f-strings, and `format` or `%` on
    a literal), joins and string transforms. A `site` identifies a call's source position. */
module OpenRedirect {
  import opened Options
  import opened OriginPrefix

  datatype BoolOp = And | Or

  /** Positional arguments carry the keyword "" and come first. */
  datatype ArgList<+T> = NoArgs | Arg(keyword: string, value: T, rest: ArgList<T>)

  datatype Expr =
    | Name(id: string)
    | Literal(text: string)
    | RequestSource
    | InternalSource
    | BoolExpr(op: BoolOp, operands: ArgList<Expr>)
    | Not(operand: Expr)
    | IfExp(test: Expr, body: Expr, orelse: Expr)
    | Call(callee: string, args: ArgList<Expr>, site: nat)
    | Concat(left: Expr, right: Expr)
    | Template(parts: Parts)
    | Join(kind: JoinKind, separator: Expr, elements: ArgList<Expr>)
    | Transform(operand: Expr, how: Method)

  /** `separator.join([..])` on texts, or `os.path.join(..)`; a list that is not written out stands
      as one transformed text. */
  datatype JoinKind = TextJoin | PathJoin

  datatype Parts = NoParts | Fixed(text: string, rest: Parts) | Hole(value: Expr, rest: Parts)

  /** A string method that keeps the receiver's flow: stripping slashes, cutting at a literal
      mark, or any other, with its arguments. The conversion or format of a template's hole is
      one without arguments. */
  datatype Method = Strip(both: bool) | Partition(mark: string) | Reshape(args: ArgList<Expr>)

  datatype Stmt =
    | Assign(targets: seq<string>, value: Expr)
    | AugAssign(target: string, value: Expr)
    | Declare(target: string)
    | If(test: Expr, body: Block, orelse: Block)
    | Return(result: Option<Expr>)
    | Raise(exc: Option<Expr>)
    | Evaluate(value: Expr)

  datatype Block = Empty | Then(first: Stmt, rest: Block)

  /** The names a scope resolves to redirect functions and validators, and the validators'
      own names. The scanner knows nothing of `builders`: functions that make a new text from
      their arguments, where any other hands one of them back. */
  datatype Names = Names(redirects: set<string>, validators: set<string>, known: set<string>, builders: set<string>)

  function FirstPositional<T>(args: ArgList<T>): Option<T> {
    match args
    case NoArgs => None
    case Arg(k, v, rest) => if k == "" then Some(v) else FirstPositional(rest)
  }

  function FirstKeyword<T>(args: ArgList<T>, keywords: set<string>): Option<T> {
    match args
    case NoArgs => None
    case Arg(k, v, rest) => if k in keywords then Some(v) else FirstKeyword(rest, keywords)
  }

  /** The argument a validator call checks (`_call_arg_name`). */
  function CheckedArg<T>(args: ArgList<T>): Option<T> {
    var keyword := FirstKeyword(args, {"url", "target", "redirect_url", "next_url"});
    if keyword.Some? then keyword else FirstPositional(args)
  }

  /** The argument a redirect call goes to (`_redirect_target`). */
  function RedirectTarget<T>(args: ArgList<T>): Option<T> {
    var positional := FirstPositional(args);
    if positional.Some? then positional else FirstKeyword(args, {"location", "redirect_to", "url", "to"})
  }

  // ----- the abstract domain -----

  datatype Flow = Untainted | Tainted | Internal | UrlSuffix

  predicate Risky(f: Flow) { f.Tainted? || f.UrlSuffix? }

  function JoinValues(values: seq<Flow>): (r: Flow)
    ensures Risky(r) <==> exists v :: v in values && Risky(v)
    ensures r.Untainted? <==> forall v :: v in values ==> v.Untainted?
  {
    if Tainted in values then Tainted
    else if UrlSuffix in values then UrlSuffix
    else if Internal in values then Internal
    else Untainted
  }

  datatype State = State(env: map<string, Flow>, validated: set<string>) {
    function Get(x: string): Flow { if x in env then env[x] else Untainted }
    function Lookup(x: string): Flow { if x in validated then Internal else Get(x) }
  }

  function FlowOf(e: Expr, st: State, names: Names): Flow {
    match e
    case Name(x) => st.Lookup(x)
    case Literal(_) => Untainted
    case RequestSource => Tainted
    case InternalSource => Internal
    case BoolExpr(_, operands) => JoinValues(Flows(operands, false, st, names))
    case Not(_) => Untainted
    case IfExp(_, body, orelse) => JoinValues([FlowOf(body, st, names), FlowOf(orelse, st, names)])
    case Call(callee, args, _) =>
      if callee in names.known then Untainted else JoinValues(Flows(args, true, st, names))
    case Concat(left, right) =>
      ConcatFlow(left, Stripped(right), FlowOf(left, st, names), FlowOf(right, st, names))
    case Template(parts) => TemplateFlow(Lead(parts), HoleFlows(parts, st, names))
    case Join(_, separator, elements) =>
      JoinFlow(LeadText(elements), FlowOf(separator, st, names), Flows(elements, false, st, names))
    case Transform(operand, how) => TransformFlow(how, FlowOf(operand, st, names))
  }

  /** `_strips_leading_slashes`. */
  predicate Stripped(e: Expr) { e.Transform? && e.how.Strip? }

  /** The addition rule: a literal prefix that fixes the origin, or a slash before a stripped
      text, or an internal left side make the sum internal. */
  function ConcatFlow(left: Expr, stripped: bool, f: Flow, g: Flow): Flow {
    if left.Literal? && Risky(g) && (InternalPrefix(left.text) || (left.text == "/" && stripped)) then Internal
    else if f.Internal? then Internal
    else JoinValues([f, g])
  }

  /** The literal text a template starts with. */
  function Lead(parts: Parts): string { if parts.Fixed? then parts.text else "" }

  function TemplateFlow(lead: string, flows: seq<Flow>): Flow {
    if Tainted in flows && InternalPrefix(lead) then Internal else JoinValues(flows)
  }

  function LiteralText(e: Expr): string { if e.Literal? then e.text else "" }

  function LeadText(elements: ArgList<Expr>): string { if elements.Arg? then LiteralText(elements.value) else "" }

  /** The joining rule: a literal first element that fixes the origin makes the join internal, and
      so does an internal one before elements that are untainted or cut off behind a mark. */
  function JoinFlow(lead: string, separator: Flow, flows: seq<Flow>): Flow {
    if InternalPrefix(lead) then Internal
    else if flows != [] && flows[0].Internal? && (forall f :: f in flows[1..] ==> f.Untainted? || f.UrlSuffix?)
    then Internal
    else JoinValues([separator] + flows)
  }

  function TransformFlow(how: Method, f: Flow): Flow {
    if how.Partition? && how.mark in {"?", "#"} && Risky(f) then UrlSuffix else f
  }

  function HoleFlows(parts: Parts, st: State, names: Names): seq<Flow> {
    match parts
    case NoParts => []
    case Fixed(_, rest) => HoleFlows(rest, st, names)
    case Hole(e, rest) => [FlowOf(e, st, names)] + HoleFlows(rest, st, names)
  }

  /** The flows of all operands, or of a call's positional arguments only. */
  function Flows(args: ArgList<Expr>, positionalOnly: bool, st: State, names: Names): seq<Flow> {
    match args
    case NoArgs => []
    case Arg(k, e, rest) =>
      (if positionalOnly && k != "" then [] else [FlowOf(e, st, names)]) + Flows(rest, positionalOnly, st, names)
  }

  // ----- validation guarantees -----

  function Union(sets: seq<set<string>>): (r: set<string>) {
    if sets == [] then {} else sets[0] + Union(sets[1..])
  }

  function Meet(sets: seq<set<string>>): (r: set<string>)
    requires sets != []
  {
    if |sets| == 1 then sets[0] else sets[0] * Meet(sets[1..])
  }

  /** One operand settles an `and` that is false or an `or` that is true; otherwise every
      operand came out the same way. */
  function Combine(op: BoolOp, outcome: bool, sets: seq<set<string>>): set<string>
    requires sets != []
  {
    if op.And? == outcome then Union(sets) else Meet(sets)
  }

  /** `_validation_guarantees`: the names certainly validated when `test` came out as
      `outcome`. */
  function Guaranteed(test: Expr, outcome: bool, names: Names): set<string> {
    match test
    case Call(callee, args, _) =>
      if callee in names.validators && outcome && CheckedArg(args).Some? && CheckedArg(args).value.Name?
      then {CheckedArg(args).value.id} else {}
    case Not(operand) => Guaranteed(operand, !outcome, names)
    case BoolExpr(op, operands) =>
      var sets := GuaranteedEach(operands, outcome, names);
      if sets == [] then {} else Combine(op, outcome, sets)
    case _ => {}
  }

  function GuaranteedEach(args: ArgList<Expr>, outcome: bool, names: Names): (r: seq<set<string>>)
    ensures r == [] <==> args.NoArgs?
  {
    match args
    case NoArgs => []
    case Arg(_, e, rest) => [Guaranteed(e, outcome, names)] + GuaranteedEach(rest, outcome, names)
  }

  // ----- the scan, as a function -----

  function ScanExpr(e: Expr, st: State, names: Names): seq<nat> {
    match e
    case BoolExpr(_, operands) => ScanArgs(operands, st, names)
    case Not(operand) => ScanExpr(operand, st, names)
    case IfExp(test, body, orelse) =>
      ScanExpr(test, st, names) + ScanExpr(body, st, names) + ScanExpr(orelse, st, names)
    case Call(callee, args, site) =>
      ScanArgs(args, st, names) + (if Flagged(callee, args, st, names) then [site] else [])
    case Concat(left, right) => ScanExpr(left, st, names) + ScanExpr(right, st, names)
    case Template(parts) => ScanParts(parts, st, names)
    case Join(_, separator, elements) => ScanExpr(separator, st, names) + ScanArgs(elements, st, names)
    case Transform(operand, Reshape(args)) => ScanExpr(operand, st, names) + ScanArgs(args, st, names)
    case Transform(operand, _) => ScanExpr(operand, st, names)
    case _ => []
  }

  function ScanParts(parts: Parts, st: State, names: Names): seq<nat> {
    match parts
    case NoParts => []
    case Fixed(_, rest) => ScanParts(rest, st, names)
    case Hole(e, rest) => ScanExpr(e, st, names) + ScanParts(rest, st, names)
  }

  predicate Flagged(callee: string, args: ArgList<Expr>, st: State, names: Names) {
    callee in names.redirects && RedirectTarget(args).Some?
    && Risky(FlowOf(RedirectTarget(args).value, st, names))
  }

  function ScanArgs(args: ArgList<Expr>, st: State, names: Names): seq<nat> {
    match args
    case NoArgs => []
    case Arg(_, e, rest) => ScanExpr(e, st, names) + ScanArgs(rest, st, names)
  }

  function ScanOption(e: Option<Expr>, st: State, names: Names): seq<nat> {
    match e
    case None => []
    case Some(v) => ScanExpr(v, st, names)
  }

  predicate AlwaysExits(b: Block) {
    match b
    case Empty => false
    case Then(s, Empty) => s.Return? || s.Raise? || (s.If? && AlwaysExits(s.body) && AlwaysExits(s.orelse))
    case Then(_, rest) => AlwaysExits(rest)
  }

  function AssignAll(targets: seq<string>, f: Flow, st: State): State {
    if targets == [] then st
    else AssignAll(targets[1..], f, State(st.env[targets[0] := f], st.validated - {targets[0]}))
  }

  function BoundNames(branches: seq<State>): set<string> {
    set b, x | b in branches && x in b.env :: x
  }

  function Merge(branches: seq<State>): State
    requires branches != []
  {
    State(
      map x | x in BoundNames(branches) :: JoinValues(seq(|branches|,
          i requires 0 <= i < |branches| => branches[i].Get(x))),
      Meet(seq(|branches|, i requires 0 <= i < |branches| => branches[i].validated)))
  }

  /** The branch states that reach the statement after an if. */
  function Continuing(body: Block, orelse: Block, afterBody: State, afterElse: State): seq<State> {
    (if AlwaysExits(body) then [] else [afterBody]) + (if AlwaysExits(orelse) then [] else [afterElse])
  }

  datatype Scan = Scan(state: State, results: seq<nat>)

  function AugFlow(x: string, e: Expr, st: State, names: Names): Flow {
    JoinValues([st.Lookup(x), FlowOf(e, st, names)])
  }

  function ScanBlock(b: Block, st: State, names: Names): Scan
    decreases b
  {
    match b
    case Empty => Scan(st, [])
    case Then(s, rest) =>
      var first := ScanStmt(s, st, names);
      if s.Return? || s.Raise? then first
      else
        var next := ScanBlock(rest, first.state, names);
        Scan(next.state, first.results + next.results)
  }

  function ScanStmt(s: Stmt, st: State, names: Names): Scan
    decreases s, 1
  {
    match s
    case Return(v) => Scan(st, ScanOption(v, st, names))
    case Raise(v) => Scan(st, ScanOption(v, st, names))
    case Evaluate(e) => Scan(st, ScanExpr(e, st, names))
    case Assign(targets, e) => Scan(AssignAll(targets, FlowOf(e, st, names), st), ScanExpr(e, st, names))
    case Declare(x) => Scan(AssignAll([x], Untainted, st), [])
    case AugAssign(x, e) => Scan(AssignAll([x], AugFlow(x, e, st, names), st), ScanExpr(e, st, names))
    case If(test, body, orelse) => ScanBranches(test, body, orelse, st, names)
  }

  function ScanBranches(test: Expr, body: Block, orelse: Block, st: State, names: Names): Scan
    decreases If(test, body, orelse), 0
  {
    var b := ScanBlock(body, Entering(test, true, st, names), names);
    var o := ScanBlock(orelse, Entering(test, false, st, names), names);
    var continuing := Continuing(body, orelse, b.state, o.state);
    Scan(if continuing == [] then st else Merge(continuing), ScanExpr(test, st, names) + b.results + o.results)
  }

  /** The state in which a branch is scanned: the guaranteed names are validated as well. */
  function Entering(test: Expr, outcome: bool, st: State, names: Names): State {
    st.(validated := st.validated + Guaranteed(test, outcome, names))
  }

  // ----- concrete execution -----

  /** `anchored` marks a text that begins with a literal prefix fixing the origin. */
  datatype RawValue = Value(text: string, fromRequest: bool, anchored: bool)

  type Value = v: RawValue | v.anchored ==> InternalPrefix(v.text) witness RawValue.Value("", false, false)

  /** An anchored text stays on the origin. */
  lemma AnchoredOnOrigin(v: Value)
    ensures v.anchored ==> OnOrigin(v.text)
  {
  }

  function LiteralValue(t: string): Value { RawValue.Value(t, false, InternalPrefix(t)) }

  /** One text after another: a new text, anchored as its beginning is. */
  function Append(a: Value, b: Value): Value {
    if a.text == "" && !a.fromRequest then b
    else RawValue.Value(a.text + b.text, a.fromRequest || b.fromRequest, a.anchored)
  }

  /** Everything the program text does not decide: validator answers and other calls'
      truth, which positional argument another call hands back, the text of request and
      internal data, the text of global names, what a string transform makes of a text and
      whether it draws on its arguments. */
  datatype World = World(reply: nat -> bool, handsBack: nat -> nat, input: nat -> string, global: string -> string,
                         reshape: (nat, string) -> string, draws: nat -> bool)

  /** `accepted` are the values some validator call has accepted so far, `hits` the sites
      that redirected to a bad value: one built from request data that no validator had
      accepted and no literal prefix anchors. */
  datatype Machine = Machine(env: map<string, Value>, accepted: set<Value>, clock: nat, hits: set<nat>) {
    function Read(x: string, w: World): Value {
      if x in env then env[x] else RawValue.Value(w.global(x), false, false)
    }
    predicate Bad(v: Value) { v.fromRequest && v !in accepted && !v.anchored }
    function Tick(): Machine { this.(clock := clock + 1) }
  }

  predicate Truthy(v: Value) { v.text != "" }

  function Boolean(b: bool): Value { RawValue.Value(if b then "True" else "", false, false) }

  function Eval(e: Expr, m: Machine, w: World, names: Names): (r: (Value, Machine))
    ensures r.1.env == m.env && m.accepted <= r.1.accepted
    decreases e
  {
    match e
    case Name(x) => (m.Read(x, w), m)
    case Literal(t) => (LiteralValue(t), m)
    case RequestSource => (RawValue.Value(w.input(m.clock), true, false), m.Tick())
    case InternalSource => (RawValue.Value(w.input(m.clock), false, false), m.Tick())
    case BoolExpr(op, operands) => EvalBool(op, operands, m, w, names)
    case Not(operand) =>
      var (v, m1) := Eval(operand, m, w, names);
      (Boolean(!Truthy(v)), m1)
    case IfExp(test, body, orelse) =>
      var (v, m1) := Eval(test, m, w, names);
      if Truthy(v) then Eval(body, m1, w, names) else Eval(orelse, m1, w, names)
    case Call(callee, args, site) =>
      var (vals, m1) := EvalArgs(args, m, w, names);
      Invoke(callee, vals, site, m1, w, names)
    case Concat(left, right) =>
      var (a, m1) := Eval(left, m, w, names);
      var (b, m2) := Eval(right, m1, w, names);
      (Append(a, b), m2)
    case Template(parts) =>
      var (vals, m1) := EvalHoles(parts, m, w, names);
      (Render(parts, vals), m1)
    case Join(kind, separator, elements) =>
      var (s, m1) := Eval(separator, m, w, names);
      var (vals, m2) := EvalArgs(elements, m1, w, names);
      (JoinAll(kind, s, vals), m2)
    case Transform(operand, how) =>
      var (v, m1) := Eval(operand, m, w, names);
      var (vals, m2) := if how.Reshape? then EvalArgs(how.args, m1, w, names) else (NoArgs, m1);
      (Transformed(how, v, vals, m2.clock, w), m2.Tick())
  }

  function HoleCount(parts: Parts): nat {
    match parts
    case NoParts => 0
    case Fixed(_, rest) => HoleCount(rest)
    case Hole(_, rest) => 1 + HoleCount(rest)
  }

  function EvalHoles(parts: Parts, m: Machine, w: World, names: Names): (r: (seq<Value>, Machine))
    ensures |r.0| == HoleCount(parts) && r.1.env == m.env && m.accepted <= r.1.accepted
    decreases parts
  {
    match parts
    case NoParts => ([], m)
    case Fixed(_, rest) => EvalHoles(rest, m, w, names)
    case Hole(e, rest) =>
      var (v, m1) := Eval(e, m, w, names);
      var (vals, m2) := EvalHoles(rest, m1, w, names);
      ([v] + vals, m2)
  }

  /** The pieces of a template, one after another, its holes filled with values. */
  function Render(parts: Parts, vals: seq<Value>): Value
    requires |vals| == HoleCount(parts)
  {
    match parts
    case NoParts => RawValue.Value("", false, false)
    case Fixed(t, rest) => Append(LiteralValue(t), Render(rest, vals))
    case Hole(_, rest) => Append(vals[0], Render(rest, vals[1..]))
  }

  function JoinTwo(kind: JoinKind, separator: Value, a: Value, b: Value): Value {
    if kind.TextJoin? then Append(a, Append(separator, b)) else JoinPath(a, b)
  }

  /** An absolute second path is all that is left. */
  function JoinPath(a: Value, b: Value): Value {
    if Absolute(b.text) then b
    else RawValue.Value(PathJoined(a.text, b.text), a.fromRequest || b.fromRequest, a.anchored)
  }

  /** All elements, joined from the right; `PathsAssociate` says that this is no matter. */
  function JoinAll(kind: JoinKind, separator: Value, vals: ArgList<Value>): Value {
    match vals
    case NoArgs => RawValue.Value("", false, false)
    case Arg(_, v, rest) => if rest.NoArgs? then v else JoinTwo(kind, separator, v, JoinAll(kind, separator, rest))
  }

  lemma PathsAssociate(a: Value, b: Value, c: Value)
    ensures JoinPath(JoinPath(a, b), c) == JoinPath(a, JoinPath(b, c))
  {
    var left, right := JoinPath(JoinPath(a, b), c), JoinPath(a, JoinPath(b, c));
    if !Absolute(b.text) && !Absolute(c.text) {
      assert left.text == right.text;
    }
  }

  /** A stripped or partitioned text comes from the receiver alone; any other transform may draw
      on its arguments. */
  function Transformed(how: Method, v: Value, vals: ArgList<Value>, clock: nat, w: World): Value {
    RawValue.Value(if how.Strip? then TrimSlashes(v.text, how.both) else w.reshape(clock, v.text),
                   v.fromRequest || (how.Reshape? && w.draws(clock) && AnyRequest(vals)), false)
  }

  predicate AnyRequest(vals: ArgList<Value>) { vals.Arg? && (vals.value.fromRequest || AnyRequest(vals.rest)) }

  /** Short-circuit evaluation of `and` and `or`; the value is the deciding operand's. */
  function EvalBool(op: BoolOp, operands: ArgList<Expr>, m: Machine, w: World, names: Names): (r: (Value, Machine))
    ensures r.1.env == m.env && m.accepted <= r.1.accepted
    decreases operands
  {
    match operands
    case NoArgs => (Boolean(op.And?), m)
    case Arg(_, e, rest) =>
      var (v, m1) := Eval(e, m, w, names);
      if rest.NoArgs? || Truthy(v) == op.Or? then (v, m1) else EvalBool(op, rest, m1, w, names)
  }

  function EvalArgs(args: ArgList<Expr>, m: Machine, w: World, names: Names): (r: (ArgList<Value>, Machine))
    ensures r.1.env == m.env && m.accepted <= r.1.accepted
    decreases args
  {
    match args
    case NoArgs => (NoArgs, m)
    case Arg(k, e, rest) =>
      var (v, m1) := Eval(e, m, w, names);
      var (vs, m2) := EvalArgs(rest, m1, w, names);
      (Arg(k, v, vs), m2)
  }

  function NthPositional<T>(args: ArgList<T>, n: nat): Option<T> {
    match args
    case NoArgs => None
    case Arg(k, v, rest) =>
      if k != "" then NthPositional(rest, n) else if n == 0 then Some(v) else NthPositional(rest, n - 1)
  }

  /** The functions that return a truth value. */
  function Answering(names: Names): set<string> { names.redirects + names.validators + names.known }

  /** What a call returns: a truth value, or, from a function that is no redirect and no
      validator, possibly one of its positional arguments or a text made of all of them. */
  function Returned(callee: string, vals: ArgList<Value>, m: Machine, w: World, names: Names): Value {
    var back := NthPositional(vals, w.handsBack(m.clock));
    if callee in Answering(names) then Boolean(w.reply(m.clock))
    else if callee in names.builders then RawValue.Value(w.reshape(m.clock, callee), AnyRequest(vals), false)
    else if back.None? then Boolean(w.reply(m.clock))
    else back.value
  }

  /** A redirect records a hit if its target is bad; a validator that answers yes accepts
      the value it checked. */
  function Invoke(callee: string, vals: ArgList<Value>, site: nat, m: Machine, w: World, names: Names)
    : (r: (Value, Machine))
    ensures r.1.env == m.env && m.accepted <= r.1.accepted
  {
    var target, checked := RedirectTarget(vals), CheckedArg(vals);
    var yes := w.reply(m.clock);
    var hits := if callee in names.redirects && target.Some? && m.Bad(target.value) then m.hits + {site} else m.hits;
    var accepted :=
      if callee in names.validators && yes && checked.Some? then m.accepted + {checked.value} else m.accepted;
    (Returned(callee, vals, m, w, names), Machine(m.env, accepted, m.clock + 1, hits))
  }

  function Store(targets: seq<string>, v: Value, m: Machine): Machine {
    if targets == [] then m else Store(targets[1..], v, m.(env := m.env[targets[0] := v]))
  }

  function EvalOption(e: Option<Expr>, m: Machine, w: World, names: Names): Machine {
    match e
    case None => m
    case Some(v) => Eval(v, m, w, names).1
  }

  datatype Run = Run(normal: bool, machine: Machine)

  function Exec(b: Block, m: Machine, w: World, names: Names): Run {
    match b
    case Empty => Run(true, m)
    case Then(s, rest) =>
      var first := ExecStmt(s, m, w, names);
      if first.normal then Exec(rest, first.machine, w, names) else first
  }

  function ExecStmt(s: Stmt, m: Machine, w: World, names: Names): Run {
    match s
    case Return(v) => Run(false, EvalOption(v, m, w, names))
    case Raise(v) => Run(false, EvalOption(v, m, w, names))
    case Evaluate(e) => Run(true, Eval(e, m, w, names).1)
    case Assign(targets, e) =>
      var (v, m1) := Eval(e, m, w, names);
      Run(true, Store(targets, v, m1))
    case Declare(_) => Run(true, m)
    case AugAssign(x, e) =>
      var (v, m1) := Eval(e, m, w, names);
      Run(true, Store([x], Append(m.Read(x, w), v), m1))
    case If(test, body, orelse) =>
      var (v, m1) := Eval(test, m, w, names);
      Exec(if Truthy(v) then body else orelse, m1, w, names)
  }
}

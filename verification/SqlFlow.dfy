/** The flat SQL-injection pass: statements are visited once in source order, with weak
    updates under conditionals. It is proved to cover the branch-by-branch analysis it
    stands in for, and every concrete execution.
    Covered: assignments, bare annotations, augmented assignments, expression statements and ifs.
    A sink call in the right-hand side of an assignment is the one thing the pass visits out of
    order: after the assignment. `Hidden` says exactly when that loses the sink. */
module SqlFlow {

  datatype Point = Point(line: nat, column: nat)

  /** `_Flow`; the construction sites are a set. */
  datatype Flow = Flow(sqlish: bool, tainted: bool, unsafe: bool, constructions: set<Point>)

  const EMPTY: Flow := Flow(false, false, false, {})
  const SOURCE: Flow := Flow(false, true, true, {})

  function Merge(a: Flow, b: Flow): Flow {
    Flow(a.sqlish || b.sqlish, a.tainted || b.tainted, a.unsafe || b.unsafe, a.constructions + b.constructions)
  }

  function Sanitized(f: Flow): Flow { Flow(f.sqlish, f.tainted, false, {}) }

  function Constructed(f: Flow, point: Point): Flow {
    if f.sqlish && f.unsafe then f.(constructions := f.constructions + {point}) else f
  }

  datatype Expr =
    | Text(text: string, sqlish: bool)
    | Inert
    | Name(id: string)
    | RequestData
    | Compound(parts: Exprs)
    | IfExp(test: Expr, body: Expr, orelse: Expr)
    | Member(base: Expr, index: Exprs)
    | Call(callee: string, receiver: Exprs, args: Exprs, point: Point)

  datatype Exprs = NoExprs | Exprs(head: Expr, tail: Exprs)

  datatype Stmt =
    | Assign(targets: seq<string>, value: Expr, point: Point)
    | Declare(target: string, point: Point)
    | AugAssign(target: string, value: Expr, point: Point)
    | Evaluate(value: Expr)
    | If(test: Expr, body: Block, orelse: Block)

  datatype Block = Empty | Then(first: Stmt, rest: Block)

  type Env = map<string, Flow>

  function Get(env: Env, x: string): Flow { if x in env then env[x] else EMPTY }

  predicate IsSink(callee: string) { callee in {"execute", "executemany", "executescript", "raw"} }

  predicate IsNumeric(callee: string) { callee in {"int", "float"} }

  /** The source text of `e` holds request data. */
  predicate Mentions(e: Expr) {
    match e
    case RequestData => true
    case Compound(parts) => MentionsAny(parts)
    case IfExp(test, body, orelse) => Mentions(test) || Mentions(body) || Mentions(orelse)
    case Member(base, index) => Mentions(base) || MentionsAny(index)
    case Call(_, receiver, args, _) => MentionsAny(receiver) || MentionsAny(args)
    case _ => false
  }

  predicate MentionsAny(es: Exprs) { es.Exprs? && (Mentions(es.head) || MentionsAny(es.tail)) }

  /** `_py_eval`. A member or call whose text holds request data is a source as a whole. */
  function FlowOf(e: Expr, env: Env): Flow {
    match e
    case Text(_, sqlish) => Flow(sqlish, false, false, {})
    case Inert => EMPTY
    case Name(x) => Get(env, x)
    case RequestData => SOURCE
    case Compound(parts) => FlowOfAll(parts, env)
    case IfExp(_, body, orelse) => Merge(FlowOf(body, env), FlowOf(orelse, env))
    case Member(base, _) => if Mentions(e) then SOURCE else FlowOf(base, env)
    case Call(callee, receiver, args, _) =>
      var combined := Merge(FlowOfAll(receiver, env), FlowOfAll(args, env));
      if Mentions(e) then SOURCE else if IsNumeric(callee) then Sanitized(combined) else combined
  }

  function FlowOfAll(es: Exprs, env: Env): Flow {
    match es
    case NoExprs => EMPTY
    case Exprs(e, rest) => Merge(FlowOf(e, env), FlowOfAll(rest, env))
  }

  // ----- the node list the pass walks -----

  datatype Node =
    | AssignNode(targets: seq<string>, value: Expr, point: Point, conditional: bool)
    | AugNode(target: string, value: Expr, point: Point)
    | SinkNode(query: Expr, point: Point)

  /** The sink calls of an expression that have a positional argument. */
  function Sinks(e: Expr): seq<Node> {
    match e
    case Compound(parts) => SinksOfAll(parts)
    case IfExp(test, body, orelse) => Sinks(body) + Sinks(test) + Sinks(orelse)
    case Member(base, index) => Sinks(base) + SinksOfAll(index)
    case Call(callee, receiver, args, point) =>
      (if IsSink(callee) && args.Exprs? then [SinkNode(args.head, point)] else [])
      + SinksOfAll(receiver) + SinksOfAll(args)
    case _ => []
  }

  function SinksOfAll(es: Exprs): seq<Node> {
    match es
    case NoExprs => []
    case Exprs(e, rest) => Sinks(e) + SinksOfAll(rest)
  }

  /** The scope's nodes in source order: an assignment stands before the calls inside its
      own right-hand side. */
  function Flatten(b: Block, conditional: bool): seq<Node> {
    match b
    case Empty => []
    case Then(s, rest) => FlattenStmt(s, conditional) + Flatten(rest, conditional)
  }

  function FlattenStmt(s: Stmt, conditional: bool): seq<Node> {
    match s
    case Assign(targets, e, point) => [AssignNode(targets, e, point, conditional)] + Sinks(e)
    case Declare(target, point) => [AssignNode([target], Inert, point, conditional)]
    case AugAssign(target, e, point) => [AugNode(target, e, point)] + Sinks(e)
    case Evaluate(e) => Sinks(e)
    case If(test, body, orelse) => Sinks(test) + Flatten(body, true) + Flatten(orelse, true)
  }

  // ----- the flat pass -----

  function Update(env: Env, targets: seq<string>, f: Flow, weak: bool): Env
    decreases targets
  {
    if targets == [] then env
    else
      var x := targets[0];
      Update(env[x := if weak then Merge(Get(env, x), f) else f], targets[1..], f, weak)
  }

  function StepEnv(n: Node, env: Env): Env {
    match n
    case AssignNode(targets, e, point, weak) => Update(env, targets, Constructed(FlowOf(e, env), point), weak)
    case AugNode(x, e, point) => env[x := Constructed(Merge(Get(env, x), FlowOf(e, env)), point)]
    case SinkNode(_, _) => env
  }

  function StepHits(n: Node, env: Env): set<Point> {
    if n.SinkNode? && FlowOf(n.query, env).unsafe then {n.point} else {}
  }

  function FlatEnv(nodes: seq<Node>, env: Env): Env {
    if nodes == [] then env else FlatEnv(nodes[1..], StepEnv(nodes[0], env))
  }

  function FlatHits(nodes: seq<Node>, env: Env): set<Point> {
    if nodes == [] then {} else StepHits(nodes[0], env) + FlatHits(nodes[1..], StepEnv(nodes[0], env))
  }

  lemma {:induction false} FlatNext(nodes: seq<Node>, k: nat, env: Env)
    requires k < |nodes|
    ensures FlatEnv(nodes[..k + 1], env) == StepEnv(nodes[k], FlatEnv(nodes[..k], env))
  {
    assert nodes[..k + 1] == nodes[..k] + [nodes[k]];
    FlatAppend(nodes[..k], [nodes[k]], env);
    assert [nodes[k]][1..] == [];
  }

  /** The node at `k` is a sink call whose query is unsafe where the pass meets it. */
  predicate Unsafe(nodes: seq<Node>, initial: Env, k: nat)
    requires k < |nodes|
  {
    nodes[k].SinkNode? && FlowOf(nodes[k].query, FlatEnv(nodes[..k], initial)).unsafe
  }

  /** The results list the points of the unsafe sinks, each where it first appears. */
  ghost predicate Listed(nodes: seq<Node>, initial: Env, at: seq<nat>, results: seq<Point>) {
    && |at| == |results|
    && (forall i :: 0 <= i < |at| ==> at[i] < |nodes| && Unsafe(nodes, initial, at[i])
                                      && nodes[at[i]].point == results[i])
    && (forall i, j :: 0 <= i < j < |at| ==> at[i] < at[j])
  }

  ghost predicate ListedBy(at: seq<nat>, results: seq<Point>, p: Point, k: nat) {
    exists i :: 0 <= i < |results| && i < |at| && results[i] == p && at[i] <= k
  }

  /** Every unsafe sink before `k` has its point in the results, at its own place or an earlier one. */
  ghost predicate AllListed(nodes: seq<Node>, initial: Env, k: nat, at: seq<nat>, results: seq<Point>)
    requires k <= |nodes|
  {
    forall j :: 0 <= j < k && Unsafe(nodes, initial, j) ==> ListedBy(at, results, nodes[j].point, j)
  }

  /** What the first `k` nodes have put into the results. */
  ghost predicate Scanned(nodes: seq<Node>, initial: Env, k: nat, at: seq<nat>, results: seq<Point>)
    requires k <= |nodes|
  {
    && Listed(nodes, initial, at, results)
    && (forall i :: 0 <= i < |at| ==> at[i] < k)
    && (forall i, j :: 0 <= i < j < |results| ==> results[i] != results[j])
    && AllListed(nodes, initial, k, at, results)
  }

  lemma ScannedPass(nodes: seq<Node>, initial: Env, k: nat, at: seq<nat>, results: seq<Point>)
    requires k < |nodes| && Scanned(nodes, initial, k, at, results)
    requires Unsafe(nodes, initial, k) ==> nodes[k].point in results
    ensures Scanned(nodes, initial, k + 1, at, results)
  {
    if Unsafe(nodes, initial, k) {
      var i :| 0 <= i < |results| && results[i] == nodes[k].point;
      assert ListedBy(at, results, nodes[k].point, k);
    }
  }

  lemma ScannedHit(nodes: seq<Node>, initial: Env, k: nat, at: seq<nat>, results: seq<Point>)
    requires k < |nodes| && Scanned(nodes, initial, k, at, results)
    requires Unsafe(nodes, initial, k) && nodes[k].point !in results
    ensures Scanned(nodes, initial, k + 1, at + [k], results + [nodes[k].point])
  {
    ListedNext(nodes, initial, k, at, results);
    AllListedNext(nodes, initial, k, at, results);
  }

  lemma ListedNext(nodes: seq<Node>, initial: Env, k: nat, at: seq<nat>, results: seq<Point>)
    requires k < |nodes| && Listed(nodes, initial, at, results) && Unsafe(nodes, initial, k)
    requires forall i :: 0 <= i < |at| ==> at[i] < k
    ensures Listed(nodes, initial, at + [k], results + [nodes[k].point])
  {
    var at', results' := at + [k], results + [nodes[k].point];
    forall i | 0 <= i < |at'|
      ensures at'[i] < |nodes| && Unsafe(nodes, initial, at'[i]) && nodes[at'[i]].point == results'[i]
    {
      if i < |at| { assert at'[i] == at[i] && results'[i] == results[i]; }
    }
  }

  lemma AllListedNext(nodes: seq<Node>, initial: Env, k: nat, at: seq<nat>, results: seq<Point>)
    requires k < |nodes| && |at| == |results| && AllListed(nodes, initial, k, at, results)
    ensures AllListed(nodes, initial, k + 1, at + [k], results + [nodes[k].point])
  {
    var at', results' := at + [k], results + [nodes[k].point];
    ListedStay(at, results, at', results');
    forall j | 0 <= j < k + 1 && Unsafe(nodes, initial, j) ensures ListedBy(at', results', nodes[j].point, j) {
      if j == k { assert results'[|results|] == nodes[k].point && at'[|at|] == k; }
    }
  }

  lemma ListedStay(at: seq<nat>, results: seq<Point>, at': seq<nat>, results': seq<Point>)
    requires at <= at' && results <= results'
    ensures forall p, k :: ListedBy(at, results, p, k) ==> ListedBy(at', results', p, k)
  {
    forall p, k | ListedBy(at, results, p, k) ensures ListedBy(at', results', p, k) {
      var i :| 0 <= i < |results| && i < |at| && results[i] == p && at[i] <= k;
      assert results'[i] == p && at'[i] <= k;
    }
  }

  lemma ScannedHits(nodes: seq<Node>, initial: Env, at: seq<nat>, results: seq<Point>)
    requires Scanned(nodes, initial, |nodes|, at, results)
    ensures forall p :: p in results <==> p in FlatHits(nodes, initial)
  {
    forall p ensures p in results <==> p in FlatHits(nodes, initial) {
      HitsMeaning(nodes, initial, p);
      if k :| 0 <= k < |nodes| && Unsafe(nodes, initial, k) && nodes[k].point == p {
        assert p in results;
      }
    }
  }

  /** What the pass reports: the points of the unsafe sinks. */
  lemma {:induction false} HitsMeaning(nodes: seq<Node>, env: Env, p: Point)
    ensures p in FlatHits(nodes, env) <==>
      exists k :: 0 <= k < |nodes| && Unsafe(nodes, env, k) && nodes[k].point == p
  {
    if nodes != [] {
      var rest, next := nodes[1..], StepEnv(nodes[0], env);
      HitsMeaning(rest, next, p);
      forall k | 0 <= k < |rest| ensures Unsafe(rest, next, k) <==> Unsafe(nodes, env, k + 1) {
        assert nodes[..k + 1][1..] == rest[..k];
      }
      assert Unsafe(nodes, env, 0) <==> p in StepHits(nodes[0], env) || (Unsafe(nodes, env, 0) && nodes[0].point != p);
      if k :| 0 <= k < |nodes| && Unsafe(nodes, env, k) && nodes[k].point == p {
        assert k > 0 ==> Unsafe(rest, next, k - 1) && rest[k - 1].point == p;
      }
      if k :| 0 <= k < |rest| && Unsafe(rest, next, k) && rest[k].point == p {
        assert Unsafe(nodes, env, k + 1) && nodes[k + 1].point == p;
      }
    }
  }

  /** `_scan_python_scope` over its sorted nodes: each flagged point is reported once, in the order
      of the first nodes flagged there. */
  method ScanScope(nodes: seq<Node>, initial: Env) returns (results: seq<Point>, ghost at: seq<nat>)
    ensures forall p :: p in results <==> p in FlatHits(nodes, initial)
    ensures forall i, j :: 0 <= i < j < |results| ==> results[i] != results[j]
    ensures Listed(nodes, initial, at, results) && AllListed(nodes, initial, |nodes|, at, results)
  {
    var env := initial;
    var seen: set<Point> := {};
    results, at := [], [];
    for i := 0 to |nodes|
      invariant env == FlatEnv(nodes[..i], initial)
      invariant forall p :: p in results <==> p in seen
      invariant Scanned(nodes, initial, i, at, results)
    {
      var node := nodes[i];
      FlatNext(nodes, i, initial);
      if Unsafe(nodes, initial, i) && node.point !in results {
        ScannedHit(nodes, initial, i, at, results);
      } else {
        ScannedPass(nodes, initial, i, at, results);
      }
      match node {
        case AssignNode(targets, value, point, conditional) =>
          env := UpdateAll(env, targets, Constructed(FlowOf(value, env), point), conditional);
        case AugNode(target, value, point) =>
          env := env[target := Constructed(Merge(Get(env, target), FlowOf(value, env)), point)];
        case SinkNode(query, point) =>
          if FlowOf(query, env).unsafe && point !in seen {
            seen := seen + {point};
            results := results + [point];
            at := at + [i];
          }
      }
    }
    assert nodes[..|nodes|] == nodes;
    ScannedHits(nodes, initial, at, results);
  }

  method UpdateAll(before: Env, targets: seq<string>, flow: Flow, weak: bool) returns (env: Env)
    ensures env == Update(before, targets, flow, weak)
  {
    env := before;
    for k := 0 to |targets|
      invariant Update(env, targets[k..], flow, weak) == Update(before, targets, flow, weak)
    {
      assert targets[k..][0] == targets[k] && targets[k..][1..] == targets[k + 1..];
      var name := targets[k];
      env := env[name := if weak then Merge(Get(env, name), flow) else flow];
    }
  }

  // ----- the branch-by-branch analysis -----

  datatype Analysis = Analysis(env: Env, hits: set<Point>)

  function Join(a: Env, b: Env): Env {
    map x | x in a.Keys + b.Keys :: Merge(Get(a, x), Get(b, x))
  }

  function Structured(b: Block, env: Env): Analysis
    decreases b
  {
    match b
    case Empty => Analysis(env, {})
    case Then(s, rest) =>
      var first := StructuredStmt(s, env);
      var next := Structured(rest, first.env);
      Analysis(next.env, first.hits + next.hits)
  }

  function StructuredStmt(s: Stmt, env: Env): Analysis
    decreases s
  {
    match s
    case Assign(targets, e, point) =>
      Analysis(Update(env, targets, Constructed(FlowOf(e, env), point), false), FlatHits(Sinks(e), env))
    case Declare(_, _) => Analysis(env, {})
    case AugAssign(x, e, point) =>
      Analysis(env[x := Constructed(Merge(Get(env, x), FlowOf(e, env)), point)], FlatHits(Sinks(e), env))
    case Evaluate(e) => Analysis(env, FlatHits(Sinks(e), env))
    case If(test, body, orelse) =>
      var b, o := Structured(body, env), Structured(orelse, env);
      Analysis(Join(b.env, o.env), FlatHits(Sinks(test), env) + b.hits + o.hits)
  }

  // ----- which sinks an assignment hides -----

  /** The calls that make a number of whatever they are given. */
  predicate Coerces(callee: string) { callee == "int" || callee == "float" }

  /** The names whose unsafe flag reaches the flow of `e`. */
  function Reaching(e: Expr): set<string> {
    match e
    case Name(x) => {x}
    case Compound(parts) => ReachingAll(parts)
    case IfExp(_, body, orelse) => Reaching(body) + Reaching(orelse)
    case Member(base, _) => Reaching(base)
    case Call(callee, receiver, args, _) =>
      if Coerces(callee) then {} else ReachingAll(receiver) + ReachingAll(args)
    case _ => {}
  }

  function ReachingAll(es: Exprs): set<string> {
    match es
    case NoExprs => {}
    case Exprs(e, rest) => Reaching(e) + ReachingAll(rest)
  }

  /** How often request data stands in the source text of `e`. */
  function RequestParts(e: Expr): nat {
    match e
    case RequestData => 1
    case Compound(parts) => RequestPartsOf(parts)
    case IfExp(test, body, orelse) => RequestParts(body) + RequestParts(test) + RequestParts(orelse)
    case Member(base, index) => RequestParts(base) + RequestPartsOf(index)
    case Call(_, receiver, args, _) => RequestPartsOf(receiver) + RequestPartsOf(args)
    case Text(_, _) => 0
    case Inert => 0
    case Name(_) => 0
  }

  function RequestPartsOf(es: Exprs): nat {
    match es
    case NoExprs => 0
    case Exprs(e, rest) => RequestParts(e) + RequestPartsOf(rest)
  }

  lemma {:induction false} MentionsExactly(e: Expr)
    ensures Mentions(e) <==> RequestParts(e) > 0
    decreases e
  {
    match e
    case Compound(parts) => MentionsAnyExactly(parts);
    case IfExp(test, body, orelse) =>
      MentionsExactly(test);
      MentionsExactly(body);
      MentionsExactly(orelse);
    case Member(base, index) =>
      MentionsExactly(base);
      MentionsAnyExactly(index);
    case Call(_, receiver, args, _) =>
      MentionsAnyExactly(receiver);
      MentionsAnyExactly(args);
    case _ =>
  }

  lemma {:induction false} MentionsAnyExactly(es: Exprs)
    ensures MentionsAny(es) <==> RequestPartsOf(es) > 0
    decreases es
  {
    if es.Exprs? {
      MentionsExactly(es.head);
      MentionsAnyExactly(es.tail);
    }
  }

  /** Request data makes the flow of `e` unsafe by itself. */
  predicate FromRequest(e: Expr) {
    match e
    case RequestData => true
    case Compound(parts) => FromRequestAny(parts)
    case IfExp(_, body, orelse) => FromRequest(body) || FromRequest(orelse)
    case Member(_, _) => RequestParts(e) > 0
    case Call(_, _, _, _) => RequestParts(e) > 0
    case _ => false
  }

  predicate FromRequestAny(es: Exprs) {
    match es
    case NoExprs => false
    case Exprs(e, rest) => FromRequest(e) || FromRequestAny(rest)
  }

  /** `targets = value` hides a sink on `query`: some assigned name makes the query unsafe but
      not the value, and no request data makes either unsafe by itself. */
  predicate Hidden(query: Expr, targets: seq<string>, value: Expr) {
    && !FromRequest(query) && !FromRequest(value)
    && exists x :: x in Reaching(query) && x in targets && x !in Reaching(value)
  }

  /** No sink in the value of an assignment is hidden by it. */
  predicate SinksKept(targets: seq<string>, value: Expr) {
    forall n :: n in Sinks(value) && n.SinkNode? ==> !Hidden(n.query, targets, value)
  }

  /** Every unconditional assignment keeps its sinks, and no bare annotation is unconditional.
      Conditional and augmented assignments only raise the environment, so nothing is asked of
      them. */
  predicate WellPlaced(b: Block, conditional: bool) {
    match b
    case Empty => true
    case Then(s, rest) =>
      && (!conditional ==> !s.Declare? && (s.Assign? ==> SinksKept(s.targets, s.value)))
      && WellPlaced(rest, conditional)
  }

  ghost predicate UnsafeAmong(names: set<string>, env: Env) { exists x :: x in names && Get(env, x).unsafe }

  lemma {:induction false} MentionedRequest(e: Expr)
    ensures FromRequest(e) ==> RequestParts(e) > 0
    decreases e
  {
    match e
    case Compound(parts) => MentionedAny(parts);
    case IfExp(_, body, orelse) =>
      MentionedRequest(body);
      MentionedRequest(orelse);
    case _ =>
  }

  lemma {:induction false} MentionedAny(es: Exprs)
    ensures FromRequestAny(es) ==> RequestPartsOf(es) > 0
    decreases es
  {
    if es.Exprs? {
      MentionedRequest(es.head);
      MentionedAny(es.tail);
    }
  }

  /** What the unsafe flag of a flow depends on. */
  lemma {:induction false} UnsafeMeaning(e: Expr, env: Env)
    ensures FlowOf(e, env).unsafe <==> FromRequest(e) || UnsafeAmong(Reaching(e), env)
    decreases e
  {
    match e
    case Compound(parts) => UnsafeAllMeaning(parts, env);
    case IfExp(_, body, orelse) =>
      UnsafeMeaning(body, env);
      UnsafeMeaning(orelse, env);
      UnsafeUnion(Reaching(body), Reaching(orelse), env);
    case Member(base, _) =>
      MentionsExactly(e);
      MentionedRequest(base);
      UnsafeMeaning(base, env);
    case Call(_, receiver, args, _) =>
      MentionsExactly(e);
      MentionedAny(receiver);
      MentionedAny(args);
      UnsafeAllMeaning(receiver, env);
      UnsafeAllMeaning(args, env);
      UnsafeUnion(ReachingAll(receiver), ReachingAll(args), env);
    case _ =>
  }

  lemma {:induction false} UnsafeAllMeaning(es: Exprs, env: Env)
    ensures FlowOfAll(es, env).unsafe <==> FromRequestAny(es) || UnsafeAmong(ReachingAll(es), env)
    decreases es
  {
    if es.Exprs? {
      UnsafeMeaning(es.head, env);
      UnsafeAllMeaning(es.tail, env);
      UnsafeUnion(Reaching(es.head), ReachingAll(es.tail), env);
    }
  }

  lemma UnsafeUnion(a: set<string>, b: set<string>, env: Env)
    ensures UnsafeAmong(a + b, env) <==> UnsafeAmong(a, env) || UnsafeAmong(b, env)
  {
  }

  lemma {:induction false} UpdateGet(env: Env, targets: seq<string>, f: Flow, x: string)
    ensures Get(Update(env, targets, f, false), x) == if x in targets then f else Get(env, x)
    decreases targets
  {
    if targets != [] { UpdateGet(env[targets[0] := f], targets[1..], f, x); }
  }

  function AfterAssign(env: Env, targets: seq<string>, value: Expr, at: Point): Env {
    Update(env, targets, Constructed(FlowOf(value, env), at), false)
  }

  lemma HiddenLost(query: Expr, targets: seq<string>, value: Expr, at: Point) returns (env: Env, x: string)
    requires Hidden(query, targets, value)
    ensures x in Reaching(query) && env == map[x := SOURCE]
    ensures FlowOf(query, env).unsafe && !FlowOf(query, AfterAssign(env, targets, value, at)).unsafe
  {
    x :| x in Reaching(query) && x in targets && x !in Reaching(value);
    env := map[x := SOURCE];
    var after := AfterAssign(env, targets, value, at);
    UnsafeMeaning(query, env);
    UnsafeMeaning(value, env);
    UnsafeMeaning(query, after);
    forall y ensures !Get(after, y).unsafe { UpdateGet(env, targets, Constructed(FlowOf(value, env), at), y); }
  }

  lemma KeptUnsafe(query: Expr, targets: seq<string>, value: Expr, at: Point, env: Env)
    requires !Hidden(query, targets, value) && FlowOf(query, env).unsafe
    ensures FlowOf(query, AfterAssign(env, targets, value, at)).unsafe
  {
    var after := AfterAssign(env, targets, value, at);
    UnsafeMeaning(query, env);
    UnsafeMeaning(value, env);
    UnsafeMeaning(query, after);
    if !FromRequest(query) {
      var x :| x in Reaching(query) && Get(env, x).unsafe;
      UpdateGet(env, targets, Constructed(FlowOf(value, env), at), x);
    }
  }

  /** The exact condition for one sink: seen after the assignment instead of before it, an
      unsafe query stays unsafe in every environment if and only if it is not hidden. */
  lemma HiddenExactly(query: Expr, targets: seq<string>, value: Expr, at: Point)
    ensures (forall env :: FlowOf(query, env).unsafe ==> FlowOf(query, AfterAssign(env, targets, value, at)).unsafe)
            <==> !Hidden(query, targets, value)
  {
    if Hidden(query, targets, value) {
      var env, x := HiddenLost(query, targets, value, at);
    } else {
      forall env | FlowOf(query, env).unsafe ensures FlowOf(query, AfterAssign(env, targets, value, at)).unsafe {
        KeptUnsafe(query, targets, value, at, env);
      }
    }
  }

  predicate Below(f: Flow, g: Flow) {
    && (f.sqlish ==> g.sqlish) && (f.tainted ==> g.tainted) && (f.unsafe ==> g.unsafe)
    && f.constructions <= g.constructions
  }

  ghost predicate EnvBelow(a: Env, b: Env) { forall x :: Below(Get(a, x), Get(b, x)) }

  lemma {:induction false} FlowMonotone(e: Expr, a: Env, b: Env)
    requires EnvBelow(a, b)
    ensures Below(FlowOf(e, a), FlowOf(e, b))
    decreases e
  {
    match e
    case Compound(parts) => FlowAllMonotone(parts, a, b);
    case IfExp(_, body, orelse) => FlowMonotone(body, a, b); FlowMonotone(orelse, a, b);
    case Member(base, _) => FlowMonotone(base, a, b);
    case Call(_, receiver, args, _) =>
      FlowAllMonotone(receiver, a, b);
      FlowAllMonotone(args, a, b);
      CallMonotone(e, a, b);
    case _ =>
  }

  lemma CallMonotone(e: Expr, a: Env, b: Env)
    requires e.Call? && Below(FlowOfAll(e.receiver, a), FlowOfAll(e.receiver, b))
    requires Below(FlowOfAll(e.args, a), FlowOfAll(e.args, b))
    ensures Below(FlowOf(e, a), FlowOf(e, b))
  {
  }

  lemma {:induction false} FlowAllMonotone(es: Exprs, a: Env, b: Env)
    requires EnvBelow(a, b)
    ensures Below(FlowOfAll(es, a), FlowOfAll(es, b))
    decreases es
  {
    if es.Exprs? {
      FlowMonotone(es.head, a, b);
      FlowAllMonotone(es.tail, a, b);
    }
  }

  /** A strong update below, a strong or weak one above. */
  lemma {:induction false} UpdateBelow(a: Env, b: Env, targets: seq<string>, f: Flow, g: Flow, weak: bool)
    requires EnvBelow(a, b) && Below(f, g)
    ensures EnvBelow(Update(a, targets, f, false), Update(b, targets, g, weak))
    decreases targets
  {
    if targets != [] {
      var x := targets[0];
      var a', b' := a[x := f], b[x := if weak then Merge(Get(b, x), g) else g];
      forall y ensures Below(Get(a', y), Get(b', y)) { assert Below(Get(a, y), Get(b, y)); }
      UpdateBelow(a', b', targets[1..], f, g, weak);
    }
  }

  lemma {:induction false} WeakUpdateInflates(env: Env, targets: seq<string>, f: Flow)
    ensures EnvBelow(env, Update(env, targets, f, true))
    decreases targets
  {
    if targets != [] {
      var x := targets[0];
      var env' := env[x := Merge(Get(env, x), f)];
      WeakUpdateInflates(env', targets[1..], f);
      forall y ensures Below(Get(env, y), Get(env', y)) {}
      BelowTransitive(env, env', Update(env, targets, f, true));
    }
  }

  predicate Conditional(nodes: seq<Node>) {
    forall n :: n in nodes && n.AssignNode? ==> n.conditional
  }

  /** Under conditionals the pass only ever raises the environment. */
  lemma {:induction false} FlatInflates(nodes: seq<Node>, env: Env)
    requires Conditional(nodes)
    ensures EnvBelow(env, FlatEnv(nodes, env))
  {
    if nodes != [] {
      var env' := StepEnv(nodes[0], env);
      if nodes[0].AssignNode? {
        WeakUpdateInflates(env, nodes[0].targets, Constructed(FlowOf(nodes[0].value, env), nodes[0].point));
      }
      FlatInflates(nodes[1..], env');
      BelowTransitive(env, env', FlatEnv(nodes, env));
    }
  }

  lemma BelowTransitive(a: Env, b: Env, c: Env)
    requires EnvBelow(a, b) && EnvBelow(b, c)
    ensures EnvBelow(a, c)
  {
    forall x ensures Below(Get(a, x), Get(c, x)) {
      assert Below(Get(a, x), Get(b, x)) && Below(Get(b, x), Get(c, x));
    }
  }

  lemma {:induction false} FlatAppend(a: seq<Node>, b: seq<Node>, env: Env)
    ensures FlatEnv(a + b, env) == FlatEnv(b, FlatEnv(a, env))
    ensures FlatHits(a + b, env) == FlatHits(a, env) + FlatHits(b, FlatEnv(a, env))
  {
    if a == [] {
      assert a + b == b;
    } else {
      assert (a + b)[1..] == a[1..] + b;
      FlatAppend(a[1..], b, StepEnv(a[0], env));
    }
  }

  lemma {:induction false} SinksOnly(e: Expr)
    ensures forall n :: n in Sinks(e) ==> n.SinkNode?
    decreases e
  {
    match e
    case Compound(parts) => SinksOfAllOnly(parts);
    case IfExp(test, body, orelse) => SinksOnly(test); SinksOnly(body); SinksOnly(orelse);
    case Member(base, index) => SinksOnly(base); SinksOfAllOnly(index);
    case Call(_, receiver, args, _) => SinksOfAllOnly(receiver); SinksOfAllOnly(args);
    case _ =>
  }

  lemma {:induction false} SinksOfAllOnly(es: Exprs)
    ensures forall n :: n in SinksOfAll(es) ==> n.SinkNode?
    decreases es
  {
    if es.Exprs? { SinksOnly(es.head); SinksOfAllOnly(es.tail); }
  }

  predicate Flags(n: Node, env: Env, p: Point) {
    n.SinkNode? && n.point == p && FlowOf(n.query, env).unsafe
  }

  /** The points the sink nodes of a list are flagged at when all see one environment. */
  ghost predicate FlaggedAt(nodes: seq<Node>, env: Env, p: Point) {
    exists n :: n in nodes && Flags(n, env, p)
  }

  /** Sink nodes leave the environment alone. */
  lemma {:induction false} SinkHits(nodes: seq<Node>, env: Env)
    requires forall n :: n in nodes ==> n.SinkNode?
    ensures FlatEnv(nodes, env) == env
    ensures forall p :: p in FlatHits(nodes, env) <==> FlaggedAt(nodes, env, p)
  {
    if nodes != [] {
      var n, rest := nodes[0], nodes[1..];
      SinkHits(rest, env);
      FlaggedWithin(rest, nodes, env);
      forall p ensures p in FlatHits(nodes, env) <==> FlaggedAt(nodes, env, p) {
        assert FlaggedAt(nodes, env, p) <==> Flags(n, env, p) || FlaggedAt(rest, env, p) by {
          assert forall x :: x in nodes <==> x == n || x in rest;
        }
        assert p in StepHits(n, env) <==> Flags(n, env, p);
        assert p in FlatHits(nodes, env) <==> p in StepHits(n, env) || p in FlatHits(rest, env);
      }
    }
  }

  lemma SinksMonotone(nodes: seq<Node>, a: Env, b: Env)
    requires (forall n :: n in nodes ==> n.SinkNode?) && EnvBelow(a, b)
    ensures FlatEnv(nodes, b) == b && FlatHits(nodes, a) <= FlatHits(nodes, b)
  {
    SinkHits(nodes, a);
    SinkHits(nodes, b);
    forall p | p in FlatHits(nodes, a) ensures p in FlatHits(nodes, b) {
      var n :| n in nodes && Flags(n, a, p);
      FlowMonotone(n.query, a, b);
      assert Flags(n, b, p);
    }
  }

  lemma {:induction false} FlattenConditional(b: Block)
    ensures Conditional(Flatten(b, true))
    decreases b
  {
    if b.Then? {
      FlattenConditional(b.rest);
      match b.first
      case Assign(_, e, _) => SinksOnly(e);
      case Declare(_, _) =>
      case AugAssign(_, e, _) => SinksOnly(e);
      case Evaluate(e) => SinksOnly(e);
      case If(test, body, orelse) =>
        SinksOnly(test);
        FlattenConditional(body);
        FlattenConditional(orelse);
    }
  }

  lemma {:induction false} ConditionalPlaced(b: Block)
    ensures WellPlaced(b, true)
    decreases b
  {
    if b.Then? { ConditionalPlaced(b.rest); }
  }

  /** A sink list reports no less in an environment where each of its queries is no safer. */
  lemma SinksStay(nodes: seq<Node>, a: Env, b: Env)
    requires forall n :: n in nodes ==> n.SinkNode?
    requires forall n :: n in nodes && n.SinkNode? && FlowOf(n.query, a).unsafe ==> FlowOf(n.query, b).unsafe
    ensures FlatEnv(nodes, b) == b && FlatHits(nodes, a) <= FlatHits(nodes, b)
  {
    SinkHits(nodes, a);
    SinkHits(nodes, b);
    forall p | p in FlatHits(nodes, a) ensures p in FlatHits(nodes, b) {
      var n :| n in nodes && Flags(n, a, p);
      assert Flags(n, b, p);
    }
  }

  lemma NodeThenSinks(n: Node, nodes: seq<Node>, env: Env)
    requires !n.SinkNode?
    ensures FlatEnv([n] + nodes, env) == FlatEnv(nodes, StepEnv(n, env))
    ensures FlatHits([n] + nodes, env) == FlatHits(nodes, StepEnv(n, env))
  {
    assert ([n] + nodes)[1..] == nodes;
  }

  /** An assignment that keeps its sinks, or stands under a conditional, reports all that its
      sinks report before it. */
  lemma AssignHits(targets: seq<string>, e: Expr, at: Point, conditional: bool, env: Env)
    requires !conditional ==> SinksKept(targets, e)
    ensures var nodes := FlattenStmt(Assign(targets, e, at), conditional);
      && FlatEnv(nodes, env) == Update(env, targets, Constructed(FlowOf(e, env), at), conditional)
      && FlatHits(Sinks(e), env) <= FlatHits(nodes, env)
  {
    var n := AssignNode(targets, e, at, conditional);
    var after := StepEnv(n, env);
    NodeThenSinks(n, Sinks(e), env);
    SinksOnly(e);
    if conditional {
      WeakUpdateInflates(env, targets, Constructed(FlowOf(e, env), at));
      SinksMonotone(Sinks(e), env, after);
    } else {
      forall n | n in Sinks(e) && n.SinkNode? && FlowOf(n.query, env).unsafe ensures FlowOf(n.query, after).unsafe {
        KeptUnsafe(n.query, targets, e, at, env);
      }
      SinksStay(Sinks(e), env, after);
    }
  }

  lemma AugHits(x: string, e: Expr, at: Point, env: Env)
    ensures var nodes := FlattenStmt(AugAssign(x, e, at), false);
      && FlatEnv(nodes, env) == env[x := Constructed(Merge(Get(env, x), FlowOf(e, env)), at)]
      && FlatHits(Sinks(e), env) <= FlatHits(nodes, env)
  {
    var n := AugNode(x, e, at);
    NodeThenSinks(n, Sinks(e), env);
    SinksOnly(e);
    SinksMonotone(Sinks(e), env, StepEnv(n, env));
  }

  /** A bare annotation forgets what its name holds, unless it stands under a conditional, where it
      only raises the environment. */
  lemma DeclareRaises(x: string, at: Point, env: Env)
    ensures EnvBelow(env, FlatEnv(FlattenStmt(Declare(x, at), true), env))
    ensures FlatEnv(FlattenStmt(Declare(x, at), false), env) == env[x := EMPTY]
  {
    var f := Constructed(FlowOf(Inert, env), at);
    WeakUpdateInflates(env, [x], f);
    assert Update(env, [x], f, false) == Update(env[x := f], [], f, false);
  }

  /** The exact condition for one assignment whose sink calls have distinct positions: the flat
      pass reports all that the analysis reports, from every environment, if and only if the
      assignment hides none of its sinks. */
  lemma AssignmentExactly(targets: seq<string>, e: Expr, at: Point)
    requires forall n, k :: n in Sinks(e) && k in Sinks(e) && n.point == k.point ==> n == k
    ensures var s := Assign(targets, e, at);
      (forall env :: StructuredStmt(s, env).hits <= FlatHits(FlattenStmt(s, false), env)) <==> SinksKept(targets, e)
  {
    var s := Assign(targets, e, at);
    if SinksKept(targets, e) {
      forall env ensures StructuredStmt(s, env).hits <= FlatHits(FlattenStmt(s, false), env) {
        AssignHits(targets, e, at, false, env);
      }
    } else {
      var n :| n in Sinks(e) && n.SinkNode? && Hidden(n.query, targets, e);
      var env, x := HiddenLost(n.query, targets, e, at);
      SinkLost(targets, e, at, n, env);
    }
  }

  lemma SinkLost(targets: seq<string>, e: Expr, at: Point, n: Node, env: Env)
    requires forall m, k :: m in Sinks(e) && k in Sinks(e) && m.point == k.point ==> m == k
    requires n in Sinks(e) && n.SinkNode? && FlowOf(n.query, env).unsafe
    requires !FlowOf(n.query, AfterAssign(env, targets, e, at)).unsafe
    ensures var s := Assign(targets, e, at);
      n.point in StructuredStmt(s, env).hits && n.point !in FlatHits(FlattenStmt(s, false), env)
  {
    var after := AfterAssign(env, targets, e, at);
    NodeThenSinks(AssignNode(targets, e, at, false), Sinks(e), env);
    SinksOnly(e);
    SinkHits(Sinks(e), env);
    SinkHits(Sinks(e), after);
    assert Flags(n, env, n.point);
    forall k | k in Sinks(e) ensures !Flags(k, after, n.point) {
      if k.point == n.point { assert k == n; }
    }
  }

  /** Flat covers structured: from an environment at least as high, the pass ends at least
      as high as the branch-by-branch join, and flags every sink that analysis flags. */
  lemma {:induction false} FlatCovers(b: Block, conditional: bool, low: Env, high: Env)
    requires WellPlaced(b, conditional) && EnvBelow(low, high)
    ensures EnvBelow(Structured(b, low).env, FlatEnv(Flatten(b, conditional), high))
    ensures Structured(b, low).hits <= FlatHits(Flatten(b, conditional), high)
    decreases b
  {
    if b.Then? {
      var nodes := FlattenStmt(b.first, conditional);
      FlatCoversStmt(b, conditional, low, high);
      FlatCovers(b.rest, conditional, StructuredStmt(b.first, low).env, FlatEnv(nodes, high));
      FlatAppend(nodes, Flatten(b.rest, conditional), high);
    }
  }

  lemma {:induction false} FlatCoversStmt(b: Block, conditional: bool, low: Env, high: Env)
    requires b.Then? && WellPlaced(b, conditional) && EnvBelow(low, high)
    ensures EnvBelow(StructuredStmt(b.first, low).env, FlatEnv(FlattenStmt(b.first, conditional), high))
    ensures StructuredStmt(b.first, low).hits <= FlatHits(FlattenStmt(b.first, conditional), high)
    decreases b.first
  {
    match b.first
    case Assign(targets, e, point) =>
      FlowMonotone(e, low, high);
      UpdateBelow(low, high, targets,
                  Constructed(FlowOf(e, low), point), Constructed(FlowOf(e, high), point), conditional);
      AssignHits(targets, e, point, conditional, high);
      SinksOnly(e);
      SinksMonotone(Sinks(e), low, high);
    case Declare(x, point) =>
      DeclareRaises(x, point, high);
      BelowTransitive(low, high, FlatEnv(FlattenStmt(b.first, conditional), high));
    case AugAssign(x, e, point) =>
      FlowMonotone(e, low, high);
      var f := Constructed(Merge(Get(low, x), FlowOf(e, low)), point);
      var g := Constructed(Merge(Get(high, x), FlowOf(e, high)), point);
      assert Below(Get(low, x), Get(high, x));
      var low', high' := low[x := f], high[x := g];
      forall y ensures Below(Get(low', y), Get(high', y)) { assert Below(Get(low, y), Get(high, y)); }
      AugHits(x, e, point, high);
      SinksOnly(e);
      SinksMonotone(Sinks(e), low, high);
    case Evaluate(e) => SinksOnly(e); SinksMonotone(Sinks(e), low, high);
    case If(test, body, orelse) => FlatCoversIf(test, body, orelse, low, high);
  }

  lemma {:induction false} FlatCoversIf(test: Expr, body: Block, orelse: Block, low: Env, high: Env)
    requires EnvBelow(low, high)
    ensures var s := If(test, body, orelse);
      EnvBelow(StructuredStmt(s, low).env, FlatEnv(FlattenStmt(s, true), high))
      && StructuredStmt(s, low).hits <= FlatHits(FlattenStmt(s, true), high)
    decreases If(test, body, orelse), 0
  {
    var t, b, o := Sinks(test), Flatten(body, true), Flatten(orelse, true);
    SinksOnly(test);
    SinksMonotone(t, low, high);
    FlatAppend(t + b, o, high);
    FlatAppend(t, b, high);
    var afterBody := FlatEnv(b, high);
    ConditionalPlaced(body);
    ConditionalPlaced(orelse);
    FlatCovers(body, true, low, high);
    FlattenConditional(body);
    FlatInflates(b, high);
    BelowTransitive(low, high, afterBody);
    FlatCovers(orelse, true, low, afterBody);
    FlattenConditional(orelse);
    FlatInflates(o, afterBody);
    var x, y, end := Structured(body, low).env, Structured(orelse, low).env, FlatEnv(o, afterBody);
    BelowTransitive(x, afterBody, end);
    JoinBelow(x, y, end);
  }

  lemma JoinBelow(x: Env, y: Env, end: Env)
    requires EnvBelow(x, end) && EnvBelow(y, end)
    ensures EnvBelow(Join(x, y), end)
  {
    var joined := Join(x, y);
    forall z ensures Below(Get(joined, z), Get(end, z)) {
      assert Below(Get(x, z), Get(end, z)) && Below(Get(y, z), Get(end, z));
    }
  }

  // ----- concrete execution -----

  datatype Origin = Program | Untrusted | Coerced

  /** A value is the text fragments it was built from, each with its origin. */
  type Value = seq<Origin>

  predicate Raw(v: Value) { Untrusted in v }

  /** What the program text does not decide: which operands survive into a compound or call
      result, and which branch a test takes. */
  datatype World = World(keep: nat -> bool, branch: nat -> bool)

  type Store = map<string, Value>

  function Read(store: Store, x: string): Value { if x in store then store[x] else [] }

  /** `hits` are the sink calls whose query held raw untrusted text. */
  datatype Out = Out(value: Value, clock: nat, hits: set<Point>)

  /** The database calls that take a query as their first argument. */
  predicate RunsQuery(callee: string) {
    callee == "execute" || callee == "executemany" || callee == "executescript" || callee == "raw"
  }

  function Eval(e: Expr, store: Store, clock: nat, w: World): Out {
    match e
    case Text(_, _) => Out([Program], clock, {})
    case Inert => Out([Program], clock, {})
    case Name(x) => Out(Read(store, x), clock, {})
    case RequestData => Out([Untrusted], clock, {})
    case Compound(parts) => EvalAll(parts, store, clock, w)
    case IfExp(test, body, orelse) =>
      var t := Eval(test, store, clock, w);
      var r := Eval(if w.branch(t.clock) then body else orelse, store, t.clock + 1, w);
      Out(r.value, r.clock, t.hits + r.hits)
    case Member(base, index) =>
      var r := Eval(base, store, clock, w);
      var i := EvalAll(index, store, r.clock, w);
      Out(r.value, i.clock, r.hits + i.hits)
    case Call(callee, receiver, args, point) =>
      var r := EvalAll(receiver, store, clock, w);
      var a := EvalAll(args, store, r.clock, w);
      var hit := RunsQuery(callee) && args.Exprs? && Raw(Eval(args.head, store, r.clock, w).value);
      var value := r.value + a.value;
      Out(if Coerces(callee) then Coerce(value) else value, a.clock,
          r.hits + a.hits + if hit then {point} else {})
  }

  function EvalAll(es: Exprs, store: Store, clock: nat, w: World): Out {
    match es
    case NoExprs => Out([], clock, {})
    case Exprs(e, rest) =>
      var first := Eval(e, store, clock, w);
      var others := EvalAll(rest, store, first.clock + 1, w);
      Out((if w.keep(first.clock) then first.value else []) + others.value, others.clock, first.hits + others.hits)
  }

  function Coerce(v: Value): Value { seq(|v|, _ => Coerced) }

  datatype Run = Run(store: Store, clock: nat, hits: set<Point>)

  function Assigned(store: Store, targets: seq<string>, v: Value): Store
    decreases targets
  {
    if targets == [] then store else Assigned(store[targets[0] := v], targets[1..], v)
  }

  function Exec(b: Block, store: Store, clock: nat, w: World): Run
    decreases b
  {
    match b
    case Empty => Run(store, clock, {})
    case Then(s, rest) =>
      var first := ExecStmt(s, store, clock, w);
      var next := Exec(rest, first.store, first.clock, w);
      Run(next.store, next.clock, first.hits + next.hits)
  }

  function ExecStmt(s: Stmt, store: Store, clock: nat, w: World): Run
    decreases s
  {
    match s
    case Assign(targets, e, _) =>
      var r := Eval(e, store, clock, w);
      Run(Assigned(store, targets, r.value), r.clock, r.hits)
    case Declare(_, _) => Run(store, clock, {})
    case AugAssign(x, e, _) =>
      var r := Eval(e, store, clock, w);
      Run(store[x := Read(store, x) + r.value], r.clock, r.hits)
    case Evaluate(e) =>
      var r := Eval(e, store, clock, w);
      Run(store, r.clock, r.hits)
    case If(test, body, orelse) =>
      var t := Eval(test, store, clock, w);
      var r := Exec(if w.branch(t.clock) then body else orelse, store, t.clock + 1, w);
      Run(r.store, r.clock, t.hits + r.hits)
  }

  /** Every name holding raw untrusted text is unsafe in the environment. */
  ghost predicate Covers(env: Env, store: Store) { forall x :: Raw(Read(store, x)) ==> Get(env, x).unsafe }

  lemma {:induction false} EvalCovered(e: Expr, env: Env, store: Store, clock: nat, w: World)
    requires Covers(env, store)
    ensures Raw(Eval(e, store, clock, w).value) ==> FlowOf(e, env).unsafe
    ensures forall p :: p in Eval(e, store, clock, w).hits ==> FlaggedAt(Sinks(e), env, p)
    decreases e
  {
    match e
    case Compound(parts) => EvalAllCovered(parts, env, store, clock, w);
    case IfExp(test, body, orelse) =>
      var t := Eval(test, store, clock, w);
      EvalCovered(test, env, store, clock, w);
      EvalCovered(body, env, store, t.clock + 1, w);
      EvalCovered(orelse, env, store, t.clock + 1, w);
      FlaggedWithin(Sinks(test), Sinks(e), env);
      FlaggedWithin(Sinks(body), Sinks(e), env);
      FlaggedWithin(Sinks(orelse), Sinks(e), env);
    case Member(_, _) => MemberCovered(e, env, store, clock, w);
    case Call(_, _, _, _) => CallCovered(e, env, store, clock, w);
    case _ =>
  }

  lemma {:induction false} MemberCovered(e: Expr, env: Env, store: Store, clock: nat, w: World)
    requires e.Member? && Covers(env, store)
    ensures Raw(Eval(e, store, clock, w).value) ==> FlowOf(e, env).unsafe
    ensures forall p :: p in Eval(e, store, clock, w).hits ==> FlaggedAt(Sinks(e), env, p)
    decreases e, 0
  {
    EvalCovered(e.base, env, store, clock, w);
    EvalAllCovered(e.index, env, store, Eval(e.base, store, clock, w).clock, w);
    FlaggedWithin(Sinks(e.base), Sinks(e), env);
    FlaggedWithin(SinksOfAll(e.index), Sinks(e), env);
  }

  lemma {:induction false} CallCovered(e: Expr, env: Env, store: Store, clock: nat, w: World)
    requires e.Call? && Covers(env, store)
    ensures Raw(Eval(e, store, clock, w).value) ==> FlowOf(e, env).unsafe
    ensures forall p :: p in Eval(e, store, clock, w).hits ==> FlaggedAt(Sinks(e), env, p)
    decreases e, 0
  {
    var r := EvalAll(e.receiver, store, clock, w);
    var a := EvalAll(e.args, store, r.clock, w);
    EvalAllCovered(e.receiver, env, store, clock, w);
    EvalAllCovered(e.args, env, store, r.clock, w);
    var hit := IsSink(e.callee) && e.args.Exprs? && Raw(Eval(e.args.head, store, r.clock, w).value);
    if hit {
      EvalCovered(e.args.head, env, store, r.clock, w);
      OwnSink(e, env);
    }
    CallHits(e, r.hits, a.hits, hit, env);
  }

  lemma CallHits(e: Expr, receiver: set<Point>, args: set<Point>, hit: bool, env: Env)
    requires e.Call? && (hit ==> FlaggedAt(Sinks(e), env, e.point))
    requires forall p :: p in receiver ==> FlaggedAt(SinksOfAll(e.receiver), env, p)
    requires forall p :: p in args ==> FlaggedAt(SinksOfAll(e.args), env, p)
    ensures forall p :: p in receiver + args + (if hit then {e.point} else {}) ==> FlaggedAt(Sinks(e), env, p)
  {
    FlaggedWithin(SinksOfAll(e.receiver), Sinks(e), env);
    FlaggedWithin(SinksOfAll(e.args), Sinks(e), env);
  }

  lemma OwnSink(e: Expr, env: Env)
    requires e.Call? && IsSink(e.callee) && e.args.Exprs? && FlowOf(e.args.head, env).unsafe
    ensures FlaggedAt(Sinks(e), env, e.point)
  {
    var n := SinkNode(e.args.head, e.point);
    assert n in Sinks(e) && Flags(n, env, e.point);
  }

  lemma {:induction false} EvalAllCovered(es: Exprs, env: Env, store: Store, clock: nat, w: World)
    requires Covers(env, store)
    ensures Raw(EvalAll(es, store, clock, w).value) ==> FlowOfAll(es, env).unsafe
    ensures forall p :: p in EvalAll(es, store, clock, w).hits ==> FlaggedAt(SinksOfAll(es), env, p)
    decreases es
  {
    if es.Exprs? {
      EvalCovered(es.head, env, store, clock, w);
      EvalAllCovered(es.tail, env, store, Eval(es.head, store, clock, w).clock + 1, w);
      FlaggedWithin(Sinks(es.head), SinksOfAll(es), env);
      FlaggedWithin(SinksOfAll(es.tail), SinksOfAll(es), env);
    }
  }

  lemma FlaggedWithin(some: seq<Node>, all: seq<Node>, env: Env)
    requires forall n :: n in some ==> n in all
    ensures forall p :: FlaggedAt(some, env, p) ==> FlaggedAt(all, env, p)
  {
  }

  lemma {:induction false} AssignedCovered(env: Env, store: Store, targets: seq<string>, f: Flow, v: Value,
          weak: bool)
    requires Covers(env, store) && (Raw(v) ==> f.unsafe)
    ensures Covers(Update(env, targets, f, weak), Assigned(store, targets, v))
    decreases targets
  {
    if targets != [] {
      var x := targets[0];
      var g := if weak then Merge(Get(env, x), f) else f;
      SetCovered(env, store, x, g, v);
      AssignedCovered(env[x := g], store[x := v], targets[1..], f, v, weak);
    }
  }

  lemma SetCovered(env: Env, store: Store, x: string, f: Flow, v: Value)
    requires Covers(env, store) && (Raw(v) ==> f.unsafe)
    ensures Covers(env[x := f], store[x := v])
  {
    var env', store' := env[x := f], store[x := v];
    forall y ensures Raw(Read(store', y)) ==> Get(env', y).unsafe {
      assert Raw(Read(store, y)) ==> Get(env, y).unsafe;
    }
  }

  lemma CoversAbove(a: Env, b: Env, store: Store)
    requires Covers(a, store) && EnvBelow(a, b)
    ensures Covers(b, store)
  {
    forall x ensures Raw(Read(store, x)) ==> Get(b, x).unsafe {
      assert Below(Get(a, x), Get(b, x));
    }
  }

  /** What an expression really hits, its sink list reports. */
  lemma ValueHits(e: Expr, env: Env, store: Store, clock: nat, w: World)
    requires Covers(env, store)
    ensures Eval(e, store, clock, w).hits <= FlatHits(Sinks(e), env)
  {
    EvalCovered(e, env, store, clock, w);
    SinksOnly(e);
    SinkHits(Sinks(e), env);
  }

  /** Soundness of the flat pass: in every world, each sink call that receives raw untrusted
      text as its query is flagged, and the final environment covers the final store. */
  lemma {:induction false} FlatSound(b: Block, conditional: bool, env: Env, store: Store, clock: nat, w: World)
    requires WellPlaced(b, conditional) && Covers(env, store)
    ensures Covers(FlatEnv(Flatten(b, conditional), env), Exec(b, store, clock, w).store)
    ensures Exec(b, store, clock, w).hits <= FlatHits(Flatten(b, conditional), env)
    decreases b
  {
    if b.Then? {
      var nodes, first := FlattenStmt(b.first, conditional), ExecStmt(b.first, store, clock, w);
      FlatSoundStmt(b, conditional, env, store, clock, w);
      FlatSound(b.rest, conditional, FlatEnv(nodes, env), first.store, first.clock, w);
      FlatAppend(nodes, Flatten(b.rest, conditional), env);
    }
  }

  lemma {:induction false} FlatSoundStmt(b: Block, conditional: bool, env: Env, store: Store, clock: nat, w: World)
    requires b.Then? && WellPlaced(b, conditional) && Covers(env, store)
    ensures Covers(FlatEnv(FlattenStmt(b.first, conditional), env), ExecStmt(b.first, store, clock, w).store)
    ensures ExecStmt(b.first, store, clock, w).hits <= FlatHits(FlattenStmt(b.first, conditional), env)
    decreases b.first
  {
    match b.first
    case Assign(targets, e, point) =>
      EvalCovered(e, env, store, clock, w);
      var v := Eval(e, store, clock, w).value;
      AssignedCovered(env, store, targets, Constructed(FlowOf(e, env), point), v, conditional);
      ValueHits(e, env, store, clock, w);
      AssignHits(targets, e, point, conditional, env);
    case Declare(x, point) =>
      DeclareRaises(x, point, env);
      CoversAbove(env, FlatEnv(FlattenStmt(b.first, conditional), env), store);
    case AugAssign(x, e, point) =>
      EvalCovered(e, env, store, clock, w);
      var f := Constructed(Merge(Get(env, x), FlowOf(e, env)), point);
      var v := Read(store, x) + Eval(e, store, clock, w).value;
      assert Raw(Read(store, x)) ==> Get(env, x).unsafe;
      SetCovered(env, store, x, f, v);
      ValueHits(e, env, store, clock, w);
      AugHits(x, e, point, env);
    case Evaluate(e) =>
      SinksOnly(e);
      SinkHits(Sinks(e), env);
      ValueHits(e, env, store, clock, w);
    case If(test, body, orelse) =>
      FlatSoundIf(test, body, orelse, env, store, clock, w);
      IfParts(test, body, orelse, conditional, env);
  }

  /** The test, then the branch taken. */
  lemma {:induction false} FlatSoundIf(test: Expr, body: Block, orelse: Block, env: Env, store: Store, clock: nat,
          w: World)
    requires Covers(env, store)
    ensures var b, o := Flatten(body, true), Flatten(orelse, true);
      var run := ExecStmt(If(test, body, orelse), store, clock, w);
      && Covers(FlatEnv(o, FlatEnv(b, env)), run.store)
      && run.hits <= FlatHits(Sinks(test), env) + FlatHits(b, env) + FlatHits(o, FlatEnv(b, env))
    decreases If(test, body, orelse), 2
  {
    var t := Eval(test, store, clock, w);
    ValueHits(test, env, store, clock, w);
    BranchSound(test, body, orelse, w.branch(t.clock), env, store, t.clock + 1, w);
  }

  lemma {:induction false} BranchSound(test: Expr, body: Block, orelse: Block, taken: bool, env: Env, store: Store,
                                       clock: nat, w: World)
    requires Covers(env, store)
    ensures var b, o := Flatten(body, true), Flatten(orelse, true);
      var run := Exec(if taken then body else orelse, store, clock, w);
      && Covers(FlatEnv(o, FlatEnv(b, env)), run.store)
      && run.hits <= FlatHits(b, env) + FlatHits(o, FlatEnv(b, env))
    decreases If(test, body, orelse), 1
  {
    if taken {
      BodySound(test, body, orelse, env, store, clock, w);
    } else {
      OrelseSound(test, body, orelse, env, store, clock, w);
    }
  }

  /** What the flat pass reports for an if is what it reports for the test and the branches,
      the second branch seen after the first. */
  lemma IfParts(test: Expr, body: Block, orelse: Block, conditional: bool, env: Env)
    ensures var b, o := Flatten(body, true), Flatten(orelse, true);
      var nodes := FlattenStmt(If(test, body, orelse), conditional);
      && FlatEnv(nodes, env) == FlatEnv(o, FlatEnv(b, env))
      && FlatHits(nodes, env) == FlatHits(Sinks(test), env) + FlatHits(b, env) + FlatHits(o, FlatEnv(b, env))
  {
    var t, b, o := Sinks(test), Flatten(body, true), Flatten(orelse, true);
    SinksOnly(test);
    SinkHits(t, env);
    FlatAppend(t + b, o, env);
    FlatAppend(t, b, env);
  }

  /** The first branch, with the second seen after it only raising the environment. */
  lemma {:induction false} BodySound(test: Expr, body: Block, orelse: Block, env: Env, store: Store, clock: nat,
                                     w: World)
    requires Covers(env, store)
    ensures var afterBody := FlatEnv(Flatten(body, true), env);
      && Covers(FlatEnv(Flatten(orelse, true), afterBody), Exec(body, store, clock, w).store)
      && Exec(body, store, clock, w).hits <= FlatHits(Flatten(body, true), env)
    decreases If(test, body, orelse), 0
  {
    var o, afterBody := Flatten(orelse, true), FlatEnv(Flatten(body, true), env);
    ConditionalPlaced(body);
    FlatSound(body, true, env, store, clock, w);
    FlattenConditional(orelse);
    FlatInflates(o, afterBody);
    CoversAbove(afterBody, FlatEnv(o, afterBody), Exec(body, store, clock, w).store);
  }

  /** The second branch, from the environment the first one has raised. */
  lemma {:induction false} OrelseSound(test: Expr, body: Block, orelse: Block, env: Env, store: Store, clock: nat,
                                       w: World)
    requires Covers(env, store)
    ensures var afterBody := FlatEnv(Flatten(body, true), env);
      && Covers(FlatEnv(Flatten(orelse, true), afterBody), Exec(orelse, store, clock, w).store)
      && Exec(orelse, store, clock, w).hits <= FlatHits(Flatten(orelse, true), afterBody)
    decreases If(test, body, orelse), 0
  {
    var b := Flatten(body, true);
    var afterBody := FlatEnv(b, env);
    FlattenConditional(body);
    FlatInflates(b, env);
    CoversAbove(env, afterBody, store);
    ConditionalPlaced(orelse);
    FlatSound(orelse, true, afterBody, store, clock, w);
  }

  /** A whole function scope: every parameter is a source. */
  lemma ScopeSound(parameters: set<string>, body: Block, arguments: Store, w: World)
    requires WellPlaced(body, false) && arguments.Keys <= parameters
    ensures Exec(body, arguments, 0, w).hits <= FlatHits(Flatten(body, false), map p | p in parameters :: SOURCE)
  {
    var env: Env := map p | p in parameters :: SOURCE;
    forall x ensures Raw(Read(arguments, x)) ==> Get(env, x).unsafe {}
    FlatSound(body, false, env, arguments, 0, w);
  }

  // ----- hidden sinks are really missed -----

  /** Two worlds answer alike before some moment. */
  ghost predicate Agree(w: World, w': World, clock: nat) {
    forall t: nat :: t < clock ==> w.keep(t) == w'.keep(t) && w.branch(t) == w'.branch(t)
  }

  lemma {:induction false} ClockRuns(e: Expr, store: Store, clock: nat, w: World)
    ensures Eval(e, store, clock, w).clock >= clock
    decreases e
  {
    match e
    case Compound(parts) => ClockRunsAll(parts, store, clock, w);
    case IfExp(test, body, orelse) =>
      var t := Eval(test, store, clock, w);
      ClockRuns(test, store, clock, w);
      ClockRuns(if w.branch(t.clock) then body else orelse, store, t.clock + 1, w);
    case Member(base, index) =>
      ClockRuns(base, store, clock, w);
      ClockRunsAll(index, store, Eval(base, store, clock, w).clock, w);
    case Call(_, receiver, args, _) =>
      ClockRunsAll(receiver, store, clock, w);
      ClockRunsAll(args, store, EvalAll(receiver, store, clock, w).clock, w);
    case _ =>
  }

  lemma {:induction false} ClockRunsAll(es: Exprs, store: Store, clock: nat, w: World)
    ensures EvalAll(es, store, clock, w).clock >= clock
    decreases es
  {
    if es.Exprs? {
      ClockRuns(es.head, store, clock, w);
      ClockRunsAll(es.tail, store, Eval(es.head, store, clock, w).clock + 1, w);
    }
  }

  /** An evaluation depends on the answers up to its end only. */
  lemma {:induction false} EvalLocal(e: Expr, store: Store, clock: nat, w: World, w': World)
    requires Agree(w, w', Eval(e, store, clock, w).clock)
    ensures Eval(e, store, clock, w') == Eval(e, store, clock, w)
    decreases e
  {
    match e
    case Compound(parts) => EvalAllLocal(parts, store, clock, w, w');
    case IfExp(_, _, _) => IfExpLocal(e, store, clock, w, w');
    case Member(base, index) =>
      ClockRunsAll(index, store, Eval(base, store, clock, w).clock, w);
      EvalLocal(base, store, clock, w, w');
      EvalAllLocal(index, store, Eval(base, store, clock, w).clock, w, w');
    case Call(_, _, _, _) => CallLocal(e, store, clock, w, w');
    case _ =>
  }

  lemma {:induction false} IfExpLocal(e: Expr, store: Store, clock: nat, w: World, w': World)
    requires e.IfExp? && Agree(w, w', Eval(e, store, clock, w).clock)
    ensures Eval(e, store, clock, w') == Eval(e, store, clock, w)
    decreases e, 0
  {
    var t := Eval(e.test, store, clock, w);
    var taken := if w.branch(t.clock) then e.body else e.orelse;
    ClockRuns(taken, store, t.clock + 1, w);
    EvalLocal(e.test, store, clock, w, w');
    EvalLocal(taken, store, t.clock + 1, w, w');
  }

  lemma {:induction false} CallLocal(e: Expr, store: Store, clock: nat, w: World, w': World)
    requires e.Call? && Agree(w, w', Eval(e, store, clock, w).clock)
    ensures Eval(e, store, clock, w') == Eval(e, store, clock, w)
    decreases e, 0
  {
    var r := EvalAll(e.receiver, store, clock, w);
    ClockRunsAll(e.args, store, r.clock, w);
    EvalAllLocal(e.receiver, store, clock, w, w');
    EvalAllLocal(e.args, store, r.clock, w, w');
    if e.args.Exprs? { HeadLocal(e.args, store, r.clock, w, w'); }
  }

  lemma {:induction false} HeadLocal(es: Exprs, store: Store, clock: nat, w: World, w': World)
    requires es.Exprs? && Agree(w, w', EvalAll(es, store, clock, w).clock)
    ensures Eval(es.head, store, clock, w') == Eval(es.head, store, clock, w)
    decreases es, 0
  {
    ClockRunsAll(es.tail, store, Eval(es.head, store, clock, w).clock + 1, w);
    EvalLocal(es.head, store, clock, w, w');
  }

  lemma {:induction false} EvalAllLocal(es: Exprs, store: Store, clock: nat, w: World, w': World)
    requires Agree(w, w', EvalAll(es, store, clock, w).clock)
    ensures EvalAll(es, store, clock, w') == EvalAll(es, store, clock, w)
    decreases es
  {
    if es.Exprs? {
      var first := Eval(es.head, store, clock, w);
      ClockRunsAll(es.tail, store, first.clock + 1, w);
      EvalLocal(es.head, store, clock, w, w');
      EvalAllLocal(es.tail, store, first.clock + 1, w, w');
    }
  }

  /** Nothing is dropped on the way into a compound or a call. */
  ghost predicate KeepsAll(w: World) { forall t :: w.keep(t) }

  /** The world that takes the given branch at one moment. */
  function Taking(w: World, clock: nat, taken: bool): World {
    w.(branch := (t: nat) => if t == clock then taken else w.branch(t))
  }

  /** A raw name that reaches an expression makes it raw in some world, whatever the world answers
      before. */
  lemma {:induction false} RawReaches(e: Expr, x: string, store: Store, clock: nat, w0: World) returns (w: World)
    requires x in Reaching(e) && Raw(Read(store, x)) && KeepsAll(w0)
    ensures Agree(w0, w, clock) && KeepsAll(w) && Raw(Eval(e, store, clock, w).value)
    decreases e
  {
    w := w0;
    match e
    case Compound(parts) => w := RawReachesAll(parts, x, store, clock, w0);
    case IfExp(test, body, orelse) =>
      var t := Eval(test, store, clock, w0);
      var taken := x in Reaching(body);
      ClockRuns(test, store, clock, w0);
      w := RawReaches(if taken then body else orelse, x, store, t.clock + 1, Taking(w0, t.clock, taken));
      EvalLocal(test, store, clock, w0, w);
      assert w.branch(t.clock) == taken;
    case Member(base, _) => w := RawReaches(base, x, store, clock, w0);
    case Call(_, receiver, args, _) =>
      if x in ReachingAll(receiver) {
        w := RawReachesAll(receiver, x, store, clock, w0);
      } else {
        var r := EvalAll(receiver, store, clock, w0);
        ClockRunsAll(receiver, store, clock, w0);
        w := RawReachesAll(args, x, store, r.clock, w0);
        EvalAllLocal(receiver, store, clock, w0, w);
      }
    case _ =>
  }

  lemma {:induction false} RawReachesAll(es: Exprs, x: string, store: Store, clock: nat, w0: World)
    returns (w: World)
    requires x in ReachingAll(es) && Raw(Read(store, x)) && KeepsAll(w0)
    ensures Agree(w0, w, clock) && KeepsAll(w) && Raw(EvalAll(es, store, clock, w).value)
    decreases es
  {
    if x in Reaching(es.head) {
      w := RawReaches(es.head, x, store, clock, w0);
    } else {
      var first := Eval(es.head, store, clock, w0);
      ClockRuns(es.head, store, clock, w0);
      w := RawReachesAll(es.tail, x, store, first.clock + 1, w0);
      EvalLocal(es.head, store, clock, w0, w);
    }
  }

  /** Every sink is reached in some world, with its query raw if a raw name reaches it. */
  lemma {:induction false} SinkReached(e: Expr, n: Node, x: string, store: Store, clock: nat, w0: World)
    returns (w: World)
    requires n in Sinks(e) && n.SinkNode? && x in Reaching(n.query) && Raw(Read(store, x)) && KeepsAll(w0)
    ensures Agree(w0, w, clock) && KeepsAll(w) && n.point in Eval(e, store, clock, w).hits
    decreases e
  {
    w := w0;
    match e
    case Compound(parts) => w := SinkReachedAll(parts, n, x, store, clock, w0);
    case IfExp(_, _, _) => w := IfExpReached(e, n, x, store, clock, w0);
    case Member(base, index) =>
      if n in Sinks(base) {
        w := SinkReached(base, n, x, store, clock, w0);
      } else {
        var r := Eval(base, store, clock, w0);
        ClockRuns(base, store, clock, w0);
        w := SinkReachedAll(index, n, x, store, r.clock, w0);
        EvalLocal(base, store, clock, w0, w);
      }
    case Call(_, _, _, _) => w := CallReached(e, n, x, store, clock, w0);
    case _ =>
  }

  lemma {:induction false} IfExpReached(e: Expr, n: Node, x: string, store: Store, clock: nat, w0: World)
    returns (w: World)
    requires e.IfExp?
    requires n in Sinks(e) && n.SinkNode? && x in Reaching(n.query) && Raw(Read(store, x)) && KeepsAll(w0)
    ensures Agree(w0, w, clock) && KeepsAll(w) && n.point in Eval(e, store, clock, w).hits
    decreases e, 0
  {
    if n in Sinks(e.test) {
      w := SinkReached(e.test, n, x, store, clock, w0);
    } else {
      var t := Eval(e.test, store, clock, w0);
      var taken := n in Sinks(e.body);
      ClockRuns(e.test, store, clock, w0);
      w := SinkReached(if taken then e.body else e.orelse, n, x, store, t.clock + 1, Taking(w0, t.clock, taken));
      EvalLocal(e.test, store, clock, w0, w);
      assert w.branch(t.clock) == taken;
    }
  }

  lemma {:induction false} CallReached(e: Expr, n: Node, x: string, store: Store, clock: nat, w0: World)
    returns (w: World)
    requires e.Call?
    requires n in Sinks(e) && n.SinkNode? && x in Reaching(n.query) && Raw(Read(store, x)) && KeepsAll(w0)
    ensures Agree(w0, w, clock) && KeepsAll(w) && n.point in Eval(e, store, clock, w).hits
    decreases e, 0
  {
    if n in SinksOfAll(e.receiver) {
      w := SinkReachedAll(e.receiver, n, x, store, clock, w0);
    } else {
      var r := EvalAll(e.receiver, store, clock, w0);
      ClockRunsAll(e.receiver, store, clock, w0);
      if n in SinksOfAll(e.args) {
        w := SinkReachedAll(e.args, n, x, store, r.clock, w0);
      } else {
        w := RawReaches(e.args.head, x, store, r.clock, w0);
      }
      EvalAllLocal(e.receiver, store, clock, w0, w);
    }
  }

  lemma {:induction false} SinkReachedAll(es: Exprs, n: Node, x: string, store: Store, clock: nat, w0: World)
    returns (w: World)
    requires n in SinksOfAll(es) && n.SinkNode? && x in Reaching(n.query) && Raw(Read(store, x)) && KeepsAll(w0)
    ensures Agree(w0, w, clock) && KeepsAll(w) && n.point in EvalAll(es, store, clock, w).hits
    decreases es
  {
    if n in Sinks(es.head) {
      w := SinkReached(es.head, n, x, store, clock, w0);
    } else {
      var first := Eval(es.head, store, clock, w0);
      ClockRuns(es.head, store, clock, w0);
      w := SinkReachedAll(es.tail, n, x, store, first.clock + 1, w0);
      EvalLocal(es.head, store, clock, w0, w);
    }
  }

  /** Every hidden sink is really missed: for some store and world it receives raw untrusted text
      that the environment covers, and the pass does not flag it. */
  lemma HiddenMissed(targets: seq<string>, e: Expr, at: Point, n: Node)
    returns (env: Env, store: Store, w: World)
    requires forall m, k :: m in Sinks(e) && k in Sinks(e) && m.point == k.point ==> m == k
    requires n in Sinks(e) && n.SinkNode? && Hidden(n.query, targets, e)
    ensures var s := Assign(targets, e, at);
      && Covers(env, store) && n.point in ExecStmt(s, store, 0, w).hits
      && n.point !in FlatHits(FlattenStmt(s, false), env)
  {
    var x;
    env, x := HiddenLost(n.query, targets, e, at);
    SinkLost(targets, e, at, n, env);
    store := map[x := [Untrusted]];
    w := SinkReached(e, n, x, store, 0, World(_ => true, _ => true));
  }

  /** The exact condition against executions: in every covered store and every world the flat pass
      flags each raw sink call of an assignment, if and only if the assignment hides none of its
      sinks. */
  lemma AssignmentSoundExactly(targets: seq<string>, e: Expr, at: Point)
    requires forall n, k :: n in Sinks(e) && k in Sinks(e) && n.point == k.point ==> n == k
    ensures var s := Assign(targets, e, at);
      (forall env, store, clock, w :: Covers(env, store) ==>
         ExecStmt(s, store, clock, w).hits <= FlatHits(FlattenStmt(s, false), env))
      <==> SinksKept(targets, e)
  {
    var s := Assign(targets, e, at);
    if SinksKept(targets, e) {
      forall env, store, clock, w | Covers(env, store)
        ensures ExecStmt(s, store, clock, w).hits <= FlatHits(FlattenStmt(s, false), env)
      {
        ValueHits(e, env, store, clock, w);
        AssignHits(targets, e, at, false, env);
      }
    } else {
      var n :| n in Sinks(e) && n.SinkNode? && Hidden(n.query, targets, e);
      var env, store, w := HiddenMissed(targets, e, at, n);
      assert Covers(env, store) && !(ExecStmt(s, store, 0, w).hits <= FlatHits(FlattenStmt(s, false), env));
    }
  }

  // ----- a program the pass misses -----

  const CALL: Expr := Call("execute", NoExprs, Exprs(Name("q"), NoExprs), Point(1, 9))

  /** `q = int(execute(q))`, `q = execute(q)` and `rows = execute(q)`. */
  const COERCED: Expr := Call("int", NoExprs, Exprs(CALL, NoExprs), Point(1, 5))
  const MISSED: Block := Then(Assign(["q"], COERCED, Point(1, 1)), Empty)
  const REUSED: Block := Then(Assign(["q"], CALL, Point(1, 1)), Empty)
  const USUAL: Block := Then(Assign(["rows"], CALL, Point(1, 1)), Empty)

  lemma CallFacts()
    ensures Reaching(CALL) == {"q"} && !FromRequest(CALL) && Sinks(CALL) == [SinkNode(Name("q"), Point(1, 9))]
  {
    assert ReachingAll(Exprs(Name("q"), NoExprs)) == {"q"};
    assert SinksOfAll(Exprs(Name("q"), NoExprs)) == [];
  }

  /** The usual placements are allowed; only the coerced reassignment is not. */
  lemma Placements()
    ensures WellPlaced(USUAL, false) && WellPlaced(REUSED, false) && !WellPlaced(MISSED, false)
  {
    CallFacts();
    var value := MISSED.first.value;
    var n := SinkNode(Name("q"), Point(1, 9));
    assert SinksOfAll(Exprs(CALL, NoExprs)) == [n] && Sinks(value) == [n];
    assert n in Sinks(value) && Reaching(n.query) == {"q"} && Reaching(value) == {} && !FromRequest(value);
    assert "q" in Reaching(n.query) && Hidden(n.query, ["q"], value);
  }

  /** The condition is needed: every run of `q = int(execute(q))` on an untrusted `q` passes it
      raw to the sink, and the pass reports nothing. */
  lemma SinkInAssignmentMissed(w: World)
    ensures Exec(MISSED, map["q" := [Untrusted]], 0, w).hits == {Point(1, 9)}
    ensures FlatHits(Flatten(MISSED, false), map["q" := SOURCE]) == {}
  {
    MissedRun(w);
    MissedFlat();
  }

  lemma CallRun(store: Store, w: World)
    requires Read(store, "q") == [Untrusted]
    ensures Eval(CALL, store, 0, w).hits == {Point(1, 9)}
  {
    var args := Exprs(Name("q"), NoExprs);
    assert Eval(Name("q"), store, 0, w) == Out([Untrusted], 0, {});
    assert EvalAll(args, store, 0, w).hits == {};
  }

  lemma MissedRun(w: World)
    ensures Exec(MISSED, map["q" := [Untrusted]], 0, w).hits == {Point(1, 9)}
  {
    var store: Store := map["q" := [Untrusted]];
    CallRun(store, w);
    assert EvalAll(Exprs(CALL, NoExprs), store, 0, w).hits == {Point(1, 9)};
    assert Eval(MISSED.first.value, store, 0, w).hits == {Point(1, 9)};
  }

  lemma MissedFlat()
    ensures FlatHits(Flatten(MISSED, false), map["q" := SOURCE]) == {}
  {
    var env: Env := map["q" := SOURCE];
    var value := MISSED.first.value;
    var n, q := AssignNode(["q"], value, Point(1, 1), false), SinkNode(Name("q"), Point(1, 9));
    CallFacts();
    assert SinksOfAll(Exprs(CALL, NoExprs)) == [q] && Sinks(value) == [q];
    assert Flatten(MISSED, false) == [n] + [q];
    NodeThenSinks(n, [q], env);
    assert !FlowOf(value, env).unsafe;
    UpdateGet(env, ["q"], Constructed(FlowOf(value, env), Point(1, 1)), "q");
    assert [q][1..] == [];
  }

  /** The exact condition of a bare annotation: afterwards the environment still covers every store
      it covered, if and only if the annotation stands under a conditional. */
  lemma DeclareExactly(x: string, at: Point, conditional: bool)
    ensures (forall env, store :: Covers(env, store) ==>
               Covers(FlatEnv(FlattenStmt(Declare(x, at), conditional), env), store))
            <==> conditional
  {
    if conditional {
      forall env, store | Covers(env, store)
        ensures Covers(FlatEnv(FlattenStmt(Declare(x, at), conditional), env), store)
      {
        DeclareRaises(x, at, env);
        CoversAbove(env, FlatEnv(FlattenStmt(Declare(x, at), true), env), store);
      }
    } else {
      var env, store: Store := map[x := SOURCE], map[x := [Untrusted]];
      DeclareRaises(x, at, env);
      var after := FlatEnv(FlattenStmt(Declare(x, at), conditional), env);
      assert Raw(Read(store, x)) && !Get(after, x).unsafe;
      assert Covers(env, store) && !Covers(after, store);
    }
  }

  /** `q: str; execute(q)`. */
  const DECLARED: Block := Then(Declare("q", Point(1, 1)), Then(Evaluate(CALL), Empty))

  /** Every run of it on an untrusted `q` passes `q` raw to the sink, and the pass reports nothing. */
  lemma DeclaredMissed(w: World)
    ensures Exec(DECLARED, map["q" := [Untrusted]], 0, w).hits == {Point(1, 9)}
    ensures FlatHits(Flatten(DECLARED, false), map["q" := SOURCE]) == {}
  {
    var store: Store := map["q" := [Untrusted]];
    CallRun(store, w);
    assert Exec(DECLARED.rest, store, 0, w).hits == {Point(1, 9)};
    var env: Env := map["q" := SOURCE];
    var n, q := AssignNode(["q"], Inert, Point(1, 1), false), SinkNode(Name("q"), Point(1, 9));
    CallFacts();
    assert Flatten(DECLARED.rest, false) == [q] && Flatten(DECLARED, false) == [n] + [q];
    DeclareRaises("q", Point(1, 1), env);
    NodeThenSinks(n, [q], env);
    var after := env["q" := EMPTY];
    assert StepEnv(n, env) == after by { assert Update(after, [], EMPTY, false) == after; }
    assert [q][1..] == [];
  }
}

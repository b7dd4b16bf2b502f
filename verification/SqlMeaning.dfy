/** What the flat SQL-injection pass computes, said without its own functions: which parts of an
    expression reach each field of its flow, what a statement does to each name, and that the
    walked nodes are the program's in order of position. */
module SqlMeaning {
  import opened SqlFlow

  /** What a flow can come from: text that looks like SQL, data from outside, or a name, read as it
      is or made a number on the way. */
  datatype Leaf = Sql | Outside | Variable(name: string, coerced: bool)

  /** The leaves of an expression; a member or call that holds request data is from outside as a
      whole. */
  function Leaves(e: Expr, coerced: bool): set<Leaf> {
    match e
    case Text(_, sqlish) => if sqlish then {Sql} else {}
    case Inert => {}
    case Name(x) => {Variable(x, coerced)}
    case RequestData => {Outside}
    case Compound(parts) => LeavesOf(parts, coerced)
    case IfExp(_, body, orelse) => Leaves(body, coerced) + Leaves(orelse, coerced)
    case Member(base, _) => if RequestParts(e) > 0 then {Outside} else Leaves(base, coerced)
    case Call(callee, receiver, args, _) =>
      if RequestParts(e) > 0 then {Outside}
      else LeavesOf(receiver, coerced || Coerces(callee)) + LeavesOf(args, coerced || Coerces(callee))
  }

  function LeavesOf(es: Exprs, coerced: bool): set<Leaf> {
    match es
    case NoExprs => {}
    case Exprs(e, rest) => Leaves(e, coerced) + LeavesOf(rest, coerced)
  }

  ghost predicate SqlAmong(leaves: set<Leaf>, env: Env) {
    Sql in leaves || exists l :: l in leaves && l.Variable? && Get(env, l.name).sqlish
  }

  ghost predicate TaintAmong(leaves: set<Leaf>, env: Env) {
    Outside in leaves || exists l :: l in leaves && l.Variable? && Get(env, l.name).tainted
  }

  ghost predicate RawAmong(leaves: set<Leaf>, env: Env) {
    Outside in leaves || exists l :: l in leaves && l.Variable? && !l.coerced && Get(env, l.name).unsafe
  }

  ghost predicate BuiltAmong(leaves: set<Leaf>, env: Env, p: Point) {
    exists l :: l in leaves && l.Variable? && !l.coerced && p in Get(env, l.name).constructions
  }

  /** The four fields of a flow, each from the leaves that feed it. */
  ghost predicate Feeds(leaves: set<Leaf>, env: Env, f: Flow, p: Point) {
    && (f.sqlish <==> SqlAmong(leaves, env))
    && (f.tainted <==> TaintAmong(leaves, env))
    && (f.unsafe <==> RawAmong(leaves, env))
    && (p in f.constructions <==> BuiltAmong(leaves, env, p))
  }

  lemma FeedsMerge(a: set<Leaf>, b: set<Leaf>, env: Env, f: Flow, g: Flow, p: Point)
    requires Feeds(a, env, f, p) && Feeds(b, env, g, p)
    ensures Feeds(a + b, env, Merge(f, g), p)
  {
  }

  /** The leaves read as they are, or all made numbers. */
  lemma {:induction false} LeavesCoerced(e: Expr, coerced: bool)
    ensures forall l :: l in Leaves(e, true) && l.Variable? ==> l.coerced
    ensures RequestParts(e) == 0 ==> Outside !in Leaves(e, coerced)
    ensures Sql in Leaves(e, coerced) <==> Sql in Leaves(e, true)
    ensures Outside in Leaves(e, coerced) <==> Outside in Leaves(e, true)
    ensures forall x :: Variable(x, true) in Leaves(e, true)
                        <==> Variable(x, true) in Leaves(e, coerced) || Variable(x, false) in Leaves(e, coerced)
    decreases e
  {
    match e
    case Compound(parts) => LeavesOfCoerced(parts, coerced);
    case IfExp(_, body, orelse) =>
      LeavesCoerced(body, coerced);
      LeavesCoerced(orelse, coerced);
    case Member(base, _) => LeavesCoerced(base, coerced);
    case Call(callee, receiver, args, _) =>
      LeavesOfCoerced(receiver, coerced || Coerces(callee));
      LeavesOfCoerced(args, coerced || Coerces(callee));
    case _ =>
  }

  lemma {:induction false} LeavesOfCoerced(es: Exprs, coerced: bool)
    ensures forall l :: l in LeavesOf(es, true) && l.Variable? ==> l.coerced
    ensures RequestPartsOf(es) == 0 ==> Outside !in LeavesOf(es, coerced)
    ensures Sql in LeavesOf(es, coerced) <==> Sql in LeavesOf(es, true)
    ensures Outside in LeavesOf(es, coerced) <==> Outside in LeavesOf(es, true)
    ensures forall x :: Variable(x, true) in LeavesOf(es, true)
                        <==> Variable(x, true) in LeavesOf(es, coerced) || Variable(x, false) in LeavesOf(es, coerced)
    decreases es
  {
    if es.Exprs? {
      LeavesCoerced(es.head, coerced);
      LeavesOfCoerced(es.tail, coerced);
    }
  }

  /** Making a number keeps what a value came from and drops what makes it unsafe. */
  lemma FeedsCoerced(receiver: Exprs, args: Exprs, env: Env, f: Flow, p: Point)
    requires RequestPartsOf(receiver) == RequestPartsOf(args) == 0
    requires Feeds(LeavesOf(receiver, false) + LeavesOf(args, false), env, f, p)
    ensures Feeds(LeavesOf(receiver, true) + LeavesOf(args, true), env, Sanitized(f), p)
  {
    LeavesOfCoerced(receiver, false);
    LeavesOfCoerced(args, false);
    var a, b := LeavesOf(receiver, false) + LeavesOf(args, false), LeavesOf(receiver, true) + LeavesOf(args, true);
    forall l | l in a && l.Variable? ensures Variable(l.name, true) in b {
      assert l == Variable(l.name, true) || l == Variable(l.name, false);
    }
    forall l | l in b && l.Variable? ensures Variable(l.name, true) in a || Variable(l.name, false) in a {
      assert l == Variable(l.name, true);
    }
  }

  /** What each field of the flow of an expression depends on. */
  lemma {:induction false} FlowMeaning(e: Expr, env: Env, p: Point)
    ensures Feeds(Leaves(e, false), env, FlowOf(e, env), p)
    decreases e
  {
    match e
    case Text(_, _) => assert p !in FlowOf(e, env).constructions;
    case Compound(parts) => FlowAllMeaning(parts, env, p);
    case IfExp(_, body, orelse) =>
      FlowMeaning(body, env, p);
      FlowMeaning(orelse, env, p);
      FeedsMerge(Leaves(body, false), Leaves(orelse, false), env, FlowOf(body, env), FlowOf(orelse, env), p);
    case Member(base, _) =>
      MentionsExactly(e);
      FlowMeaning(base, env, p);
    case Call(callee, receiver, args, _) =>
      MentionsExactly(e);
      FlowAllMeaning(receiver, env, p);
      FlowAllMeaning(args, env, p);
      var f, g := FlowOfAll(receiver, env), FlowOfAll(args, env);
      FeedsMerge(LeavesOf(receiver, false), LeavesOf(args, false), env, f, g, p);
      if RequestParts(e) == 0 { FeedsCoerced(receiver, args, env, Merge(f, g), p); }
    case _ =>
  }

  lemma {:induction false} FlowAllMeaning(es: Exprs, env: Env, p: Point)
    ensures Feeds(LeavesOf(es, false), env, FlowOfAll(es, env), p)
    decreases es
  {
    if es.Exprs? {
      FlowMeaning(es.head, env, p);
      FlowAllMeaning(es.tail, env, p);
      FeedsMerge(Leaves(es.head, false), LeavesOf(es.tail, false), env, FlowOf(es.head, env),
                 FlowOfAll(es.tail, env), p);
    }
  }

  // ----- what a statement does to a name -----

  /** A name bound to a value with these leaves, and joined with what it held if `kept`. The
      statement is itself a construction where unsafe data meets text that looks like SQL. */
  ghost predicate Bound(was: Flow, f: Flow, leaves: set<Leaf>, env: Env, kept: bool, at: Point, p: Point) {
    && (f.sqlish <==> SqlAmong(leaves, env) || (kept && was.sqlish))
    && (f.tainted <==> TaintAmong(leaves, env) || (kept && was.tainted))
    && (f.unsafe <==> RawAmong(leaves, env) || (kept && was.unsafe))
    && (p in f.constructions <==>
         || BuiltAmong(leaves, env, p)
         || (kept && p in was.constructions)
         || (p == at && SqlAmong(leaves, env) && RawAmong(leaves, env)))
  }

  lemma {:induction false} UpdateMeaning(env: Env, targets: seq<string>, f: Flow, weak: bool, x: string)
    ensures Get(Update(env, targets, f, weak), x) ==
              if x !in targets then Get(env, x) else if weak then Merge(Get(env, x), f) else f
    decreases targets
  {
    if targets != [] {
      var next := env[targets[0] := if weak then Merge(Get(env, targets[0]), f) else f];
      UpdateMeaning(next, targets[1..], f, weak, x);
    }
  }

  /** An assignment binds its targets, every other name keeps its flow. */
  lemma AssignMeaning(targets: seq<string>, e: Expr, at: Point, conditional: bool, env: Env, x: string, p: Point)
    ensures var f := Get(FlatEnv([AssignNode(targets, e, at, conditional)], env), x);
      if x in targets then Bound(Get(env, x), f, Leaves(e, false), env, conditional, at, p) else f == Get(env, x)
  {
    var n := AssignNode(targets, e, at, conditional);
    assert [n][1..] == [];
    FlowMeaning(e, env, p);
    UpdateMeaning(env, targets, Constructed(FlowOf(e, env), at), conditional, x);
  }

  /** An augmented assignment binds its target to what it held and the value together. */
  lemma AugMeaning(target: string, e: Expr, at: Point, env: Env, x: string, p: Point)
    ensures var f := Get(FlatEnv([AugNode(target, e, at)], env), x);
      if x == target then Bound(EMPTY, f, Leaves(e, false) + {Variable(x, false)}, env, false, at, p)
      else f == Get(env, x)
  {
    var n := AugNode(target, e, at);
    assert [n][1..] == [];
    FlowMeaning(e, env, p);
    var leaves := Leaves(e, false) + {Variable(target, false)};
    FeedsMerge({Variable(target, false)}, Leaves(e, false), env, Get(env, target), FlowOf(e, env), p);
    assert leaves == {Variable(target, false)} + Leaves(e, false);
  }

  // ----- the order of the nodes -----

  predicate Before(p: Point, q: Point) { p.line < q.line || (p.line == q.line && p.column < q.column) }

  predicate Apart(a: set<Point>, b: set<Point>) { forall p, q :: p in a && q in b ==> Before(p, q) }

  function CallPoints(e: Expr): set<Point> {
    match e
    case Compound(parts) => CallPointsOf(parts)
    case IfExp(test, body, orelse) => CallPoints(test) + CallPoints(body) + CallPoints(orelse)
    case Member(base, index) => CallPoints(base) + CallPointsOf(index)
    case Call(_, receiver, args, point) => {point} + CallPointsOf(receiver) + CallPointsOf(args)
    case _ => {}
  }

  function CallPointsOf(es: Exprs): set<Point> {
    match es
    case NoExprs => {}
    case Exprs(e, rest) => CallPoints(e) + CallPointsOf(rest)
  }

  /** The calls stand as in the text: a conditional expression has its body before its test, a call
      begins where its receiver does. */
  ghost predicate InText(e: Expr) {
    match e
    case Compound(parts) => AllInText(parts)
    case IfExp(test, body, orelse) =>
      && InText(body) && InText(test) && InText(orelse)
      && Apart(CallPoints(body), CallPoints(test)) && Apart(CallPoints(body) + CallPoints(test), CallPoints(orelse))
    case Member(base, index) => InText(base) && AllInText(index) && Apart(CallPoints(base), CallPointsOf(index))
    case Call(_, receiver, args, point) =>
      && AllInText(receiver) && AllInText(args) && Apart(CallPointsOf(receiver), CallPointsOf(args))
      && forall p :: p in CallPointsOf(receiver) + CallPointsOf(args) ==> !Before(p, point)
    case _ => true
  }

  ghost predicate AllInText(es: Exprs) {
    match es
    case NoExprs => true
    case Exprs(e, rest) => InText(e) && AllInText(rest) && Apart(CallPoints(e), CallPointsOf(rest))
  }

  function BlockPoints(b: Block): set<Point>
    decreases b
  {
    match b
    case Empty => {}
    case Then(s, rest) => StmtPoints(s) + BlockPoints(rest)
  }

  function StmtPoints(s: Stmt): set<Point>
    decreases s
  {
    match s
    case Assign(_, e, at) => {at} + CallPoints(e)
    case Declare(_, at) => {at}
    case AugAssign(_, e, at) => {at} + CallPoints(e)
    case Evaluate(e) => CallPoints(e)
    case If(test, body, orelse) => CallPoints(test) + BlockPoints(body) + BlockPoints(orelse)
  }

  /** The statements stand as in the text, one after the other. */
  ghost predicate BlockInText(b: Block)
    decreases b
  {
    match b
    case Empty => true
    case Then(s, rest) => StmtInText(s) && BlockInText(rest) && Apart(StmtPoints(s), BlockPoints(rest))
  }

  ghost predicate StmtInText(s: Stmt)
    decreases s
  {
    match s
    case Assign(_, e, at) => InText(e) && Apart({at}, CallPoints(e))
    case Declare(_, _) => true
    case AugAssign(_, e, at) => InText(e) && Apart({at}, CallPoints(e))
    case Evaluate(e) => InText(e)
    case If(test, body, orelse) =>
      && InText(test) && BlockInText(body) && BlockInText(orelse)
      && Apart(CallPoints(test), BlockPoints(body) + BlockPoints(orelse))
      && Apart(BlockPoints(body), BlockPoints(orelse))
  }

  /** In order of position, and nowhere else than at the given points. */
  ghost predicate Ordered(nodes: seq<Node>, points: set<Point>) {
    && (forall i, j :: 0 <= i < j < |nodes| ==> !Before(nodes[j].point, nodes[i].point))
    && (forall i :: 0 <= i < |nodes| ==> nodes[i].point in points)
  }

  lemma OrderedJoin(a: seq<Node>, b: seq<Node>, p: set<Point>, q: set<Point>)
    requires Ordered(a, p) && Ordered(b, q) && forall x, y :: x in p && y in q ==> !Before(y, x)
    ensures Ordered(a + b, p + q)
  {
    var nodes := a + b;
    forall i, j | 0 <= i < j < |nodes| ensures !Before(nodes[j].point, nodes[i].point) {
      if i < |a| <= j { assert nodes[i].point in p && nodes[j].point in q; }
    }
  }

  lemma {:induction false} SinksOrdered(e: Expr)
    requires InText(e)
    ensures Ordered(Sinks(e), CallPoints(e))
    decreases e
  {
    match e
    case Compound(parts) => SinksOfOrdered(parts);
    case IfExp(test, body, orelse) =>
      SinksOrdered(body);
      SinksOrdered(test);
      SinksOrdered(orelse);
      OrderedJoin(Sinks(body), Sinks(test), CallPoints(body), CallPoints(test));
      OrderedJoin(Sinks(body) + Sinks(test), Sinks(orelse), CallPoints(body) + CallPoints(test), CallPoints(orelse));
    case Member(base, index) =>
      SinksOrdered(base);
      SinksOfOrdered(index);
      OrderedJoin(Sinks(base), SinksOfAll(index), CallPoints(base), CallPointsOf(index));
    case Call(_, receiver, args, point) =>
      SinksOfOrdered(receiver);
      SinksOfOrdered(args);
      CallOrdered(e);
    case _ =>
  }

  lemma CallOrdered(e: Expr)
    requires e.Call? && InText(e)
    requires Ordered(SinksOfAll(e.receiver), CallPointsOf(e.receiver))
    requires Ordered(SinksOfAll(e.args), CallPointsOf(e.args))
    ensures Ordered(Sinks(e), CallPoints(e))
  {
    var r, a := SinksOfAll(e.receiver), SinksOfAll(e.args);
    var p, q := CallPointsOf(e.receiver), CallPointsOf(e.args);
    var own := if IsSink(e.callee) && e.args.Exprs? then [SinkNode(e.args.head, e.point)] else [];
    assert Ordered(own, {e.point});
    OrderedJoin(own, r, {e.point}, p);
    OrderedJoin(own + r, a, {e.point} + p, q);
    assert Sinks(e) == own + r + a;
  }

  lemma {:induction false} SinksOfOrdered(es: Exprs)
    requires AllInText(es)
    ensures Ordered(SinksOfAll(es), CallPointsOf(es))
    decreases es
  {
    if es.Exprs? {
      SinksOrdered(es.head);
      SinksOfOrdered(es.tail);
      OrderedJoin(Sinks(es.head), SinksOfAll(es.tail), CallPoints(es.head), CallPointsOf(es.tail));
    }
  }

  /** The walk is in order of position: for a program written out in text, the nodes are sorted by
      line and column. */
  lemma {:induction false} FlattenOrdered(b: Block, conditional: bool)
    requires BlockInText(b)
    ensures Ordered(Flatten(b, conditional), BlockPoints(b))
    decreases b
  {
    if b.Then? {
      FlattenStmtOrdered(b.first, conditional);
      FlattenOrdered(b.rest, conditional);
      OrderedJoin(FlattenStmt(b.first, conditional), Flatten(b.rest, conditional), StmtPoints(b.first),
                  BlockPoints(b.rest));
    }
  }

  lemma {:induction false} FlattenStmtOrdered(s: Stmt, conditional: bool)
    requires StmtInText(s)
    ensures Ordered(FlattenStmt(s, conditional), StmtPoints(s))
    decreases s
  {
    match s
    case Assign(targets, e, at) => NodeOrdered(AssignNode(targets, e, at, conditional), e);
    case Declare(_, _) =>
    case AugAssign(target, e, at) => NodeOrdered(AugNode(target, e, at), e);
    case Evaluate(e) => SinksOrdered(e);
    case If(test, body, orelse) =>
      SinksOrdered(test);
      FlattenOrdered(body, true);
      FlattenOrdered(orelse, true);
      IfOrdered(Sinks(test), Flatten(body, true), Flatten(orelse, true), CallPoints(test), BlockPoints(body),
                BlockPoints(orelse));
  }

  lemma NodeOrdered(n: Node, e: Expr)
    requires InText(e) && Apart({n.point}, CallPoints(e))
    ensures Ordered([n] + Sinks(e), {n.point} + CallPoints(e))
  {
    SinksOrdered(e);
    OrderedJoin([n], Sinks(e), {n.point}, CallPoints(e));
  }

  lemma IfOrdered(t: seq<Node>, b: seq<Node>, o: seq<Node>, p: set<Point>, q: set<Point>, r: set<Point>)
    requires Ordered(t, p) && Ordered(b, q) && Ordered(o, r) && Apart(p, q + r) && Apart(q, r)
    ensures Ordered(t + b + o, p + q + r)
  {
    OrderedJoin(t, b, p, q);
    OrderedJoin(t + b, o, p + q, r);
  }
}

/** Programs the redirect scanner misses, one for each way a built text goes wrong: each redirects
    to a request text that no validator accepted, and the scan reports nothing. */
module RedirectMisses {
  import opened Options
  import opened OriginPrefix
  import opened OpenRedirect
  import opened RedirectSoundness

  const NAMES: Names := Names({"redirect"}, {"ok"}, {"ok"}, {"urljoin"})

  /** `redirect(e)`. */
  function Redirecting(e: Expr): Block {
    Then(Evaluate(Call("redirect", Arg("", e, NoArgs), 2)), Empty)
  }

  /** `if ok(u): body`. */
  function Guarded(body: Block): Block {
    Then(If(Call("ok", Arg("", Name("u"), NoArgs), 1), body, Empty), Empty)
  }

  lemma NameSets()
    ensures "ok" in NAMES.validators && "ok" !in NAMES.redirects && "redirect" in NAMES.redirects
    ensures "redirect" !in NAMES.validators && "redirect" !in NAMES.known && "ok" in NAMES.known
    ensures "urljoin" in NAMES.builders && "urljoin" !in Answering(NAMES)
  {
    assert |"ok"| == 2 && |"redirect"| == 8 && |"urljoin"| == 7;
  }

  lemma SoleArgument<T>(v: T)
    ensures RedirectTarget(Arg("", v, NoArgs)) == CheckedArg(Arg("", v, NoArgs)) == Some(v)
  {
    var keywords := {"url", "target", "redirect_url", "next_url"};
    assert "" !in keywords by {
      assert |""| == 0 && |"url"| == 3 && |"target"| == 6 && |"redirect_url"| == 12 && |"next_url"| == 8;
    }
    assert FirstKeyword(Arg("", v, NoArgs), keywords) == FirstKeyword<T>(NoArgs, keywords) == None;
  }

  // ----- redirecting, and redirecting behind a validator -----

  lemma RedirectingRun(e: Expr, m: Machine, w: World)
    requires var (v, m1) := Eval(e, m, w, NAMES); m1.Bad(v)
    ensures 2 in Exec(Redirecting(e), m, w, NAMES).machine.hits
  {
    var (v, m1) := Eval(e, m, w, NAMES);
    NameSets();
    SoleArgument(v);
    assert EvalArgs(Arg("", e, NoArgs), m, w, NAMES) == (Arg("", v, NoArgs), m1);
    var call := Call("redirect", Arg("", e, NoArgs), 2);
    assert 2 in Eval(call, m, w, NAMES).1.hits;
    assert Exec(Redirecting(e), m, w, NAMES).machine == Eval(call, m, w, NAMES).1;
  }

  lemma RedirectingScan(e: Expr, st: State)
    requires ScanExpr(e, st, NAMES) == [] && !Risky(FlowOf(e, st, NAMES))
    ensures ScanBlock(Redirecting(e), st, NAMES).results == []
  {
    SoleArgument(e);
    assert ScanArgs(Arg("", e, NoArgs), st, NAMES) == [];
    assert ScanExpr(Call("redirect", Arg("", e, NoArgs), 2), st, NAMES) == [];
  }

  function Started(text: string): Machine { Machine(map["u" := RawValue.Value(text, true, false)], {}, 0, {}) }

  function Accepted(text: string): Machine {
    Machine(map["u" := RawValue.Value(text, true, false)], {RawValue.Value(text, true, false)}, 1, {})
  }

  const ACCEPTING: State := State(map["u" := Tainted], {"u"})

  /** Where the validator accepts `u`, the body runs with `u` accepted. */
  lemma GuardedRun(body: Block, text: string, w: World)
    requires w.reply(0)
    ensures Exec(Guarded(body), Started(text), w, NAMES).machine == Exec(body, Accepted(text), w, NAMES).machine
  {
    var m, u: Value := Started(text), RawValue.Value(text, true, false);
    NameSets();
    SoleArgument(u);
    assert EvalArgs(Arg("", Name("u"), NoArgs), m, w, NAMES) == (Arg("", u, NoArgs), m);
    var test := Call("ok", Arg("", Name("u"), NoArgs), 1);
    assert {} + {u} == {u};
    assert Invoke("ok", Arg("", u, NoArgs), 1, m, w, NAMES).1 == Machine(m.env, m.accepted + {u}, 1, {});
    assert Eval(test, m, w, NAMES) == (Boolean(true), Accepted(text));
    var run := ExecStmt(Guarded(body).first, m, w, NAMES);
    assert run == Exec(body, Accepted(text), w, NAMES);
    assert Guarded(body).rest == Empty;
  }

  lemma GuardedScan(body: Block)
    requires ScanBlock(body, ACCEPTING, NAMES).results == []
    ensures ScanBlock(Guarded(body), InitialState({"u"}), NAMES).results == []
  {
    var st, test := InitialState({"u"}), Call("ok", Arg("", Name("u"), NoArgs), 1);
    GuardHolds();
    assert ScanExpr(test, st, NAMES) == [] by { NameSets(); }
    assert ScanBlock(Empty, Entering(test, false, st, NAMES), NAMES).results == [];
    var scan := ScanBranches(test, body, Empty, st, NAMES);
    assert scan.results == [] + [] + [] == [];
    assert ScanStmt(Guarded(body).first, st, NAMES) == scan;
    assert Guarded(body).rest == Empty;
  }

  lemma GuardHolds()
    ensures Entering(Call("ok", Arg("", Name("u"), NoArgs), 1), true, InitialState({"u"}), NAMES) == ACCEPTING
  {
    NameSets();
    SoleArgument(Name("u"));
    assert "u" !in {"self", "cls", "request"} by { assert |"u"| == 1 && |"self"| == 4 && |"cls"| == 3; }
    assert {} + {"u"} == {"u"};
  }

  // ----- the programs -----

  /** `if ok(u): u += "/x"; redirect(u)`. */
  const EXTENDED: Block := Then(AugAssign("u", Literal("/x")), Redirecting(Name("u")))

  /** Extending a validated text: whenever the validator accepts `u`, whatever it is, the program
      redirects to a text the validator never saw. A `u` that stays on the origin may so leave it. */
  lemma ExtendedMissed(text: string, w: World)
    requires w.reply(0)
    ensures 2 in Exec(Guarded(EXTENDED), Started(text), w, NAMES).machine.hits
    ensures ScanBlock(Guarded(EXTENDED), InitialState({"u"}), NAMES).results == []
    ensures OnOrigin("/") && !OnOrigin("/" + "/x")
  {
    GuardedRun(EXTENDED, text, w);
    ExtendedRun(text, w);
    ExtendedScan();
    GuardedScan(EXTENDED);
  }

  lemma ExtendedRun(text: string, w: World)
    ensures 2 in Exec(EXTENDED, Accepted(text), w, NAMES).machine.hits
  {
    var u: Value := RawValue.Value(text, true, false);
    var m := Accepted(text);
    var extended := Append(u, LiteralValue("/x"));
    var m1 := m.(env := m.env["u" := extended]);
    assert Store(["u"], extended, m) == Store([], extended, m1) == m1;
    assert ExecStmt(EXTENDED.first, m, w, NAMES) == Run(true, m1);
    assert |extended.text| == |u.text| + 2 && m1.Bad(extended);
    RedirectingRun(Name("u"), m1, w);
  }

  lemma ExtendedScan()
    ensures ScanBlock(EXTENDED, ACCEPTING, NAMES).results == []
  {
    var after := State(ACCEPTING.env["u" := Internal], ACCEPTING.validated - {"u"});
    assert AugFlow("u", Literal("/x"), ACCEPTING, NAMES) == Internal;
    assert AssignAll(["u"], Internal, ACCEPTING) == AssignAll([], Internal, after) == after;
    RedirectingScan(Name("u"), after);
  }

  /** `f"/{u}"`. */
  const SLASHED: Expr := Template(Fixed("/", Hole(Name("u"), NoParts)))

  /** A template around a validated text: `if ok(u): redirect(f"/{u}")` is missed whenever the
      validator accepts, and an internal path such as `/x` becomes the foreign host `//x`. */
  lemma TemplateMissed(text: string, w: World)
    requires w.reply(0)
    ensures 2 in Exec(Guarded(Redirecting(SLASHED)), Started(text), w, NAMES).machine.hits
    ensures ScanBlock(Guarded(Redirecting(SLASHED)), InitialState({"u"}), NAMES).results == []
    ensures Eval(SLASHED, Accepted(text), w, NAMES).0.text == "/" + text
    ensures OnOrigin("/x") && !OnOrigin("/" + "/x")
  {
    GuardedRun(Redirecting(SLASHED), text, w);
    SlashedRun(text, w);
    SlashedScan();
    GuardedScan(Redirecting(SLASHED));
  }

  lemma SlashedRun(text: string, w: World)
    ensures 2 in Exec(Redirecting(SLASHED), Accepted(text), w, NAMES).machine.hits
    ensures Eval(SLASHED, Accepted(text), w, NAMES).0.text == "/" + text
  {
    var u, m := RawValue.Value(text, true, false), Accepted(text);
    var parts := SLASHED.parts;
    assert Eval(Name("u"), m, w, NAMES) == (u, m) && EvalHoles(NoParts, m, w, NAMES) == ([], m);
    assert [u] + [] == [u] && EvalHoles(parts.rest, m, w, NAMES) == ([u], m);
    assert Render(parts.rest, [u]).text == text + "" == text;
    var v := Render(parts, [u]);
    assert v.text == "/" + text && |v.text| == |u.text| + 1;
    RedirectingRun(SLASHED, m, w);
  }

  lemma SlashedScan()
    ensures ScanBlock(Redirecting(SLASHED), ACCEPTING, NAMES).results == []
  {
    var parts := SLASHED.parts;
    assert HoleFlows(parts.rest, ACCEPTING, NAMES) == [Internal];
    assert ScanParts(parts.rest, ACCEPTING, NAMES) == [];
    RedirectingScan(SLASHED, ACCEPTING);
  }

  /** `"/" + next.strip("/")` on request data. */
  function Trimmed(both: bool): Expr { Concat(Literal("/"), Transform(RequestSource, Strip(both))) }

  /** The rule for a slash before a stripped text: when the request text begins with a backslash,
      the program redirects off the origin, and in no state does the scan report anything. */
  lemma StripMissed(both: bool, st: State, w: World)
    requires w.input(0) == "\\evil"
    ensures 2 in Exec(Redirecting(Trimmed(both)), Machine(map[], {}, 0, {}), w, NAMES).machine.hits
    ensures var (v, m) := Eval(Trimmed(both), Machine(map[], {}, 0, {}), w, NAMES);
      v.text == "/\\evil" && m.Bad(v) && !OnOrigin(v.text)
    ensures ScanBlock(Redirecting(Trimmed(both)), st, NAMES).results == []
  {
    StripRun(both, w);
    StripScan(both, st);
  }

  lemma StripRun(both: bool, w: World)
    requires w.input(0) == "\\evil"
    ensures 2 in Exec(Redirecting(Trimmed(both)), Machine(map[], {}, 0, {}), w, NAMES).machine.hits
    ensures var (v, m) := Eval(Trimmed(both), Machine(map[], {}, 0, {}), w, NAMES);
      v.text == "/\\evil" && m.Bad(v) && !OnOrigin(v.text)
  {
    var m, e := Machine(map[], {}, 0, {}), Trimmed(both);
    StrippedRequest(both, m, w);
    assert ("/" + "\\evil")[1] == '\\';
    RedirectingRun(e, m, w);
  }

  lemma StrippedRequest(both: bool, m: Machine, w: World)
    requires w.input(m.clock) == "\\evil"
    ensures Eval(Transform(RequestSource, Strip(both)), m, w, NAMES)
         == (RawValue.Value("\\evil", true, false), m.Tick().Tick())
  {
    var t := "\\evil";
    assert TrimLeft(t) == t && TrimRight(t) == t;
  }

  lemma StripScan(both: bool, st: State)
    ensures ScanBlock(Redirecting(Trimmed(both)), st, NAMES).results == []
  {
    var e := Trimmed(both);
    assert FlowOf(e.right, st, NAMES) == Tainted && FlowOf(e, st, NAMES) == Internal;
    assert ScanExpr(e.right, st, NAMES) == [];
    RedirectingScan(e, st);
  }

  /** `session.get("next", request.args["next"])`. */
  const DEFAULTED: Expr :=
    Transform(Name("session"), Reshape(Arg("", Literal("next"), Arg("", RequestSource, NoArgs))))

  /** The arguments of a transform: a request text that comes in as a default is redirected to
      as it is, and the scan reports nothing. */
  lemma DefaultMissed(w: World)
    requires w.draws(1) && w.reshape(1, w.global("session")) == w.input(0)
    ensures 2 in Exec(Redirecting(DEFAULTED), Machine(map[], {}, 0, {}), w, NAMES).machine.hits
    ensures Eval(DEFAULTED, Machine(map[], {}, 0, {}), w, NAMES).0 == RawValue.Value(w.input(0), true, false)
    ensures ScanBlock(Redirecting(DEFAULTED), State(map[], {}), NAMES).results == []
  {
    var m, st := Machine(map[], {}, 0, {}), State(map[], {});
    var args := DEFAULTED.how.args;
    assert EvalArgs(args.rest, m, w, NAMES)
        == (Arg("", RawValue.Value(w.input(0), true, false), NoArgs), m.Tick());
    var (vals, m1) := EvalArgs(args, m, w, NAMES);
    assert AnyRequest(vals.rest) && AnyRequest(vals) && m1 == m.Tick();
    RedirectingRun(DEFAULTED, m, w);
    assert ScanArgs(args.rest, st, NAMES) == [] && ScanArgs(args, st, NAMES) == [];
    RedirectingScan(DEFAULTED, st);
  }

  /** `urljoin("/", url=request.args["next"])`. */
  const KEYWORD: Expr := Call("urljoin", Arg("", Literal("/"), Arg("url", RequestSource, NoArgs)), 3)

  /** The keyword arguments of a foreign call: whatever text it makes of the request data is
      redirected to, and in no state does the scan report anything. */
  lemma KeywordMissed(st: State, w: World)
    ensures 2 in Exec(Redirecting(KEYWORD), Machine(map[], {}, 0, {}), w, NAMES).machine.hits
    ensures Eval(KEYWORD, Machine(map[], {}, 0, {}), w, NAMES).0.text == w.reshape(1, "urljoin")
    ensures ScanBlock(Redirecting(KEYWORD), st, NAMES).results == []
  {
    var m, args := Machine(map[], {}, 0, {}), KEYWORD.args;
    NameSets();
    assert EvalArgs(args.rest, m, w, NAMES)
        == (Arg("url", RawValue.Value(w.input(0), true, false), NoArgs), m.Tick());
    var (vals, m1) := EvalArgs(args, m, w, NAMES);
    assert AnyRequest(vals.rest) && AnyRequest(vals) && m1 == m.Tick();
    RedirectingRun(KEYWORD, m, w);
    KeywordScan(st);
  }

  lemma KeywordScan(st: State)
    ensures ScanBlock(Redirecting(KEYWORD), st, NAMES).results == []
  {
    var args := KEYWORD.args;
    NameSets();
    assert "" != "url" by { assert |""| == 0 && |"url"| == 3; }
    assert Flows(args.rest, true, st, NAMES) == [] && Flows(args, true, st, NAMES) == [Untainted];
    assert !Risky(FlowOf(KEYWORD, st, NAMES)) by { assert "urljoin" !in NAMES.known; }
    assert ScanArgs(args.rest, st, NAMES) == [] && ScanArgs(args, st, NAMES) == [];
    assert "urljoin" !in NAMES.redirects;
    RedirectingScan(KEYWORD, st);
  }

  /** `os.path.join("/app", request.args["next"])`. */
  const PATHED: Expr :=
    Join(PathJoin, Name("path"), Arg("", Literal("/app"), Arg("", RequestSource, NoArgs)))

  /** A path join behind a literal prefix: an absolute request path replaces the prefix, and in no
      state does the scan report anything. */
  lemma PathMissed(st: State, w: World)
    requires w.input(0) == "//evil"
    ensures 2 in Exec(Redirecting(PATHED), Machine(map[], {}, 0, {}), w, NAMES).machine.hits
    ensures Eval(PATHED, Machine(map[], {}, 0, {}), w, NAMES).0.text == "//evil" && !OnOrigin("//evil")
    ensures ScanBlock(Redirecting(PATHED), st, NAMES).results == []
  {
    PathRun(w);
    PathScan(st);
  }

  lemma PathRun(w: World)
    requires w.input(0) == "//evil"
    ensures 2 in Exec(Redirecting(PATHED), Machine(map[], {}, 0, {}), w, NAMES).machine.hits
    ensures Eval(PATHED, Machine(map[], {}, 0, {}), w, NAMES).0.text == "//evil"
  {
    var m, args := Machine(map[], {}, 0, {}), PATHED.elements;
    var evil: Value := RawValue.Value("//evil", true, false);
    assert EvalArgs(args.rest, m, w, NAMES) == (Arg("", evil, NoArgs), m.Tick());
    var (vals, m1) := EvalArgs(args, m, w, NAMES);
    assert vals == Arg("", LiteralValue("/app"), Arg("", evil, NoArgs)) && m1 == m.Tick();
    assert JoinAll(PathJoin, m.Read("path", w), vals.rest) == evil;
    assert JoinAll(PathJoin, m.Read("path", w), vals) == JoinPath(LiteralValue("/app"), evil) == evil;
    RedirectingRun(PATHED, m, w);
  }

  lemma PathScan(st: State)
    ensures ScanBlock(Redirecting(PATHED), st, NAMES).results == []
  {
    var args := PATHED.elements;
    assert InternalPrefix("/app") && FlowOf(PATHED, st, NAMES) == Internal;
    assert ScanArgs(args.rest, st, NAMES) == [] && ScanArgs(args, st, NAMES) == [];
    RedirectingScan(PATHED, st);
  }

  /** `u: str; redirect(u)`. */
  const DECLARED: Block := Then(Declare("u"), Redirecting(Name("u")))

  /** A bare annotation: every request text in the annotated parameter is redirected to, and the
      scan reports nothing. */
  lemma DeclaredMissed(text: string, w: World)
    ensures 2 in Exec(DECLARED, Started(text), w, NAMES).machine.hits
    ensures ScanBlock(DECLARED, InitialState({"u"}), NAMES).results == []
  {
    RedirectingRun(Name("u"), Started(text), w);
    var st := InitialState({"u"});
    var after := State(st.env["u" := Untainted], st.validated - {"u"});
    assert AssignAll(["u"], Untainted, st) == AssignAll([], Untainted, after) == after;
    RedirectingScan(Name("u"), after);
  }
}

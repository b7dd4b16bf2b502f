/** What the two walks over a SARIF document yield, read off the runs, results and rules themselves. */
module SarifMeaning {
  import opened Options
  import opened PyText
  import opened SarifIngest

  // ----- which results are accepted -----

  predicate Names(l: Location) { l.Location? && !Blank(l.uri) }

  /** The first location that names a uri, with its line; nothing if none does. */
  ghost predicate FirstNamed(locations: seq<Location>, l: Option<(string, Option<int>)>) {
    match l
    case None => forall i :: 0 <= i < |locations| ==> !Names(locations[i])
    case Some(p) =>
      exists k :: 0 <= k < |locations| && Names(locations[k]) && p == (Strip(locations[k].uri), locations[k].line)
                  && forall j :: 0 <= j < k ==> !Names(locations[j])
  }

  lemma StripBlank(s: string)
    ensures Strip(s) == "" <==> Blank(s)
  {
    var i, j := StripEnds(s);
    if Strip(s) == "" {
      assert s == s[..i] + s[i..];
    } else {
      assert !IsSpace(s[i..j][0]) && s[i] in s;
    }
  }

  lemma {:induction false} LocationMeaning(locations: seq<Location>)
    ensures FirstNamed(locations, FirstLocation(locations))
  {
    if locations != [] {
      var first, rest := locations[0], locations[1..];
      LocationMeaning(rest);
      if first.Location? { StripBlank(first.uri); }
      if !Names(first) {
        var l := FirstLocation(rest);
        if l.Some? {
          var k :| 0 <= k < |rest| && Names(rest[k]) && l.value == (Strip(rest[k].uri), rest[k].line)
                   && forall j :: 0 <= j < k ==> !Names(rest[j]);
          assert Names(locations[k + 1]) && l.value == (Strip(locations[k + 1].uri), locations[k + 1].line);
          forall j | 0 <= j < k + 1 ensures !Names(locations[j]) { if j > 0 { assert locations[j] == rest[j - 1]; } }
        } else {
          forall i | 0 <= i < |locations| ensures !Names(locations[i]) {
            if i > 0 { assert locations[i] == rest[i - 1]; }
          }
        }
      }
    }
  }

  /** A well-formed result with a message that is not blank, whose first named location, if any, is
      in scope. */
  ghost predicate Acceptable(r: Result, setting: Setting) {
    && r.Result? && r.message.Text? && !Blank(r.message.text)
    && exists l :: FirstNamed(r.locations, l) && setting.inScope(if l.Some? then Some(l.value.0) else None)
  }

  lemma FirstNamedUnique(locations: seq<Location>, l: Option<(string, Option<int>)>)
    requires FirstNamed(locations, l)
    ensures l == FirstLocation(locations)
  {
    LocationMeaning(locations);
    var f := FirstLocation(locations);
    if l.Some? && f.Some? {
      var i :| 0 <= i < |locations| && Names(locations[i]) && l.value == (Strip(locations[i].uri), locations[i].line)
               && forall j :: 0 <= j < i ==> !Names(locations[j]);
      var k :| 0 <= k < |locations| && Names(locations[k]) && f.value == (Strip(locations[k].uri), locations[k].line)
               && forall j :: 0 <= j < k ==> !Names(locations[j]);
      assert !(i < k) && !(k < i);
    }
  }

  lemma UsableMeaning(r: Result, setting: Setting)
    ensures Usable(r, setting) <==> Acceptable(r, setting)
  {
    if r.Result? {
      LocationMeaning(r.locations);
      if r.message.Text? { StripBlank(r.message.text); }
      if l :| FirstNamed(r.locations, l) && setting.inScope(if l.Some? then Some(l.value.0) else None) {
        FirstNamedUnique(r.locations, l);
      }
    }
  }

  /** The rule of a result: the last well-formed one of its run with the id the result names. */
  ghost predicate RuleFor(rule: Option<Rule>, r: Result, rules: seq<Rule>)
    requires r.Result?
  {
    match rule
    case None => !r.ruleId.Text? || forall i :: 0 <= i < |rules| && rules[i].Rule? ==> rules[i].id != r.ruleId.text
    case Some(x) => r.ruleId.Text? && exists i :: LastNamed(rules, i, r.ruleId.text) && rules[i] == x
  }

  ghost predicate LastNamed(rules: seq<Rule>, i: int, id: string) {
    && 0 <= i < |rules| && rules[i].Rule? && rules[i].id == id
    && forall j :: i < j < |rules| && rules[j].Rule? ==> rules[j].id != id
  }

  lemma {:induction false} IndexMeaning(rules: seq<Rule>, id: string)
    ensures id in RulesIndex(rules) ==> exists i :: LastNamed(rules, i, id) && rules[i] == RulesIndex(rules)[id]
    ensures id !in RulesIndex(rules) ==> forall i :: 0 <= i < |rules| && rules[i].Rule? ==> rules[i].id != id
  {
    if rules != [] {
      var front, last := rules[..|rules| - 1], rules[|rules| - 1];
      IndexMeaning(front, id);
      if last.Rule? && last.id == id {
        assert LastNamed(rules, |rules| - 1, id);
      } else if id in RulesIndex(front) {
        var i :| LastNamed(front, i, id) && front[i] == RulesIndex(front)[id];
        assert LastNamed(rules, i, id);
      }
    }
  }

  lemma ResolveMeaning(r: Result, rules: seq<Rule>)
    requires r.Result?
    ensures RuleFor(ResolveRule(r, RulesIndex(rules)), r, rules)
  {
    if r.ruleId.Text? { IndexMeaning(rules, r.ruleId.text); }
  }

  /** A result by the numbers of its run and its place there. */
  datatype Spot = Spot(run: nat, index: nat)

  predicate Before(p: Spot, q: Spot) { p.run < q.run || (p.run == q.run && p.index < q.index) }

  predicate Stands(runs: seq<Run>, p: Spot) {
    p.run < |runs| && runs[p.run].Run? && p.index < |runs[p.run].results|
  }

  /** `found` lists, at strictly increasing positions, exactly the acceptable results, each with its
      rule. */
  ghost predicate ListsAcceptable(found: seq<Accepted>, at: seq<Spot>, runs: seq<Run>, setting: Setting) {
    && |at| == |found|
    && (forall i, j :: 0 <= i < j < |at| ==> Before(at[i], at[j]))
    && (forall i :: 0 <= i < |at| ==> Stands(runs, at[i]) && FoundAt(found[i], at[i], runs, setting))
    && (forall p :: Stands(runs, p) && Acceptable(runs[p.run].results[p.index], setting) ==> p in at)
  }

  ghost predicate FoundAt(a: Accepted, p: Spot, runs: seq<Run>, setting: Setting)
    requires Stands(runs, p)
  {
    var r := runs[p.run].results[p.index];
    a.result == r && Acceptable(r, setting) && RuleFor(a.rule, r, runs[p.run].rules)
  }

  /** The same within one run. */
  ghost predicate RunLists(found: seq<Accepted>, at: seq<nat>, results: seq<Result>, rules: seq<Rule>,
                           setting: Setting)
  {
    && |at| == |found|
    && (forall i, j :: 0 <= i < j < |at| ==> at[i] < at[j])
    && (forall i :: 0 <= i < |at| ==> at[i] < |results| && TakenFrom(found[i], results[at[i]], rules, setting))
    && (forall k :: 0 <= k < |results| && Acceptable(results[k], setting) ==> k in at)
  }

  ghost predicate TakenFrom(a: Accepted, r: Result, rules: seq<Rule>, setting: Setting) {
    a.result == r && Acceptable(r, setting) && RuleFor(a.rule, r, rules)
  }

  lemma {:induction false} RunExactly(results: seq<Result>, rules: seq<Rule>, setting: Setting) returns (at: seq<nat>)
    ensures RunLists(RunAccepted(results, RulesIndex(rules), setting), at, results, rules, setting)
  {
    at := [];
    if results != [] {
      var n := |results| - 1;
      var front, last := results[..n], results[n];
      at := RunExactly(front, rules, setting);
      RunGrows(RunAccepted(front, RulesIndex(rules), setting), at, results, rules, setting);
      UsableMeaning(last, setting);
      if Usable(last, setting) {
        ResolveMeaning(last, rules);
        at := at + [n];
      }
    }
  }

  lemma RunGrows(found: seq<Accepted>, at: seq<nat>, results: seq<Result>, rules: seq<Rule>, setting: Setting)
    requires results != [] && RunLists(found, at, results[..|results| - 1], rules, setting)
    ensures var n := |results| - 1;
      var last := results[n];
      && (!Acceptable(last, setting) ==> RunLists(found, at, results, rules, setting))
      && (forall a :: TakenFrom(a, last, rules, setting) ==>
            RunLists(found + [a], at + [n], results, rules, setting))
  {
    var n := |results| - 1;
    var front, last := results[..n], results[n];
    forall k | 0 <= k < n && Acceptable(results[k], setting) ensures k in at { assert front[k] == results[k]; }
    forall a | TakenFrom(a, last, rules, setting) ensures RunLists(found + [a], at + [n], results, rules, setting) {
      assert (at + [n])[|at|] == n;
    }
  }

  /** The walk accepts exactly the acceptable results of the document, each once and in document
      order, and attaches to each the rule of its own run that it names, if there is one. */
  lemma {:induction false} AcceptedExactly(runs: seq<Run>, setting: Setting) returns (at: seq<Spot>)
    ensures ListsAcceptable(AcceptedResults(runs, setting), at, runs, setting)
  {
    at := [];
    if runs != [] {
      var n := |runs| - 1;
      var front, last := runs[..n], runs[n];
      at := AcceptedExactly(front, setting);
      if last.Run? {
        var more := RunExactly(last.results, last.rules, setting);
        DocumentGrows(AcceptedResults(front, setting), at, runs, setting,
                      RunAccepted(last.results, RulesIndex(last.rules), setting), more);
        at := at + Positions(n, more);
      } else {
        DocumentStays(AcceptedResults(front, setting), at, runs, setting);
      }
    }
  }

  function Positions(run: nat, at: seq<nat>): (r: seq<Spot>)
    ensures |r| == |at|
  {
    seq(|at|, i requires 0 <= i < |at| => Spot(run, at[i]))
  }

  lemma DocumentStays(found: seq<Accepted>, at: seq<Spot>, runs: seq<Run>, setting: Setting)
    requires runs != [] && !runs[|runs| - 1].Run? && ListsAcceptable(found, at, runs[..|runs| - 1], setting)
    ensures ListsAcceptable(found, at, runs, setting)
  {
    var front := runs[..|runs| - 1];
    forall p | Stands(runs, p) && Acceptable(runs[p.run].results[p.index], setting) ensures p in at {
      assert Stands(front, p) && front[p.run] == runs[p.run];
    }
    forall i | 0 <= i < |at| ensures Stands(runs, at[i]) && FoundAt(found[i], at[i], runs, setting) {
      assert Stands(front, at[i]) && front[at[i].run] == runs[at[i].run];
    }
  }

  lemma DocumentGrows(found: seq<Accepted>, at: seq<Spot>, runs: seq<Run>, setting: Setting,
                      more: seq<Accepted>, within: seq<nat>)
    requires runs != [] && runs[|runs| - 1].Run? && ListsAcceptable(found, at, runs[..|runs| - 1], setting)
    requires var last := runs[|runs| - 1]; RunLists(more, within, last.results, last.rules, setting)
    ensures ListsAcceptable(found + more, at + Positions(|runs| - 1, within), runs, setting)
  {
    var n := |runs| - 1;
    var all := at + Positions(n, within);
    forall i | 0 <= i < |all| ensures Stands(runs, all[i]) && FoundAt((found + more)[i], all[i], runs, setting) {
      if i < |at| {
        FrontFound(found, at, runs, setting, i);
      } else {
        assert TakenFrom(more[i - |at|], runs[n].results[within[i - |at|]], runs[n].rules, setting);
      }
    }
    forall p | Stands(runs, p) && Acceptable(runs[p.run].results[p.index], setting) ensures p in all {
      SpotFound(found, at, runs, setting, more, within, p);
    }
    forall i | 0 <= i < |at| ensures at[i].run < n { FrontFound(found, at, runs, setting, i); }
    SpotsGrow(at, n, within);
  }

  lemma SpotsGrow(at: seq<Spot>, n: nat, within: seq<nat>)
    requires forall i, j :: 0 <= i < j < |at| ==> Before(at[i], at[j])
    requires forall i, j :: 0 <= i < j < |within| ==> within[i] < within[j]
    requires forall i :: 0 <= i < |at| ==> at[i].run < n
    ensures var all := at + Positions(n, within); forall i, j :: 0 <= i < j < |all| ==> Before(all[i], all[j])
  {
  }

  lemma FrontFound(found: seq<Accepted>, at: seq<Spot>, runs: seq<Run>, setting: Setting, i: nat)
    requires runs != [] && ListsAcceptable(found, at, runs[..|runs| - 1], setting) && i < |at|
    ensures at[i].run < |runs| - 1 && Stands(runs, at[i]) && FoundAt(found[i], at[i], runs, setting)
  {
    var front := runs[..|runs| - 1];
    assert Stands(front, at[i]) && front[at[i].run] == runs[at[i].run];
  }

  lemma SpotFound(found: seq<Accepted>, at: seq<Spot>, runs: seq<Run>, setting: Setting, more: seq<Accepted>,
                  within: seq<nat>, p: Spot)
    requires runs != [] && runs[|runs| - 1].Run? && ListsAcceptable(found, at, runs[..|runs| - 1], setting)
    requires var last := runs[|runs| - 1]; RunLists(more, within, last.results, last.rules, setting)
    requires Stands(runs, p) && Acceptable(runs[p.run].results[p.index], setting)
    ensures p in at + Positions(|runs| - 1, within)
  {
    var n := |runs| - 1;
    var front := runs[..n];
    if p.run < n {
      assert Stands(front, p) && front[p.run] == runs[p.run] && p in at;
    } else {
      var k :| 0 <= k < |within| && within[k] == p.index;
      assert Positions(n, within)[k] == p;
    }
  }

  // ----- what is read off a result -----

  /** A property of a result, or failing that of its rule. */
  function PropertyOf(a: Accepted, key: string): Option<Value>
    requires Sound(a)
  {
    if key in a.result.properties then Some(a.result.properties[key])
    else if a.rule.Some? && key in a.rule.value.properties then Some(a.rule.value.properties[key])
    else None
  }

  /** An identifier is recorded exactly when the property, stripped and in upper case, is accepted as a
      whole. */
  lemma KnownMeaning(a: Accepted, key: string, accept: string -> bool, upper: string -> string, id: string)
    requires Sound(a)
    ensures KnownId(a, key, accept, upper) == Some(id) <==>
      exists t :: PropertyOf(a, key) == Some(Text(t)) && id == upper(Strip(t)) && accept(id)
  {
    if KnownId(a, key, accept, upper) == Some(id) {
      assert PropertyOf(a, key) == Some(Text(PropertyOf(a, key).value.text));
    }
  }

  lemma DigitsAlike(s: string)
    ensures AllDigits(s) <==> Digits(s)
  {
    assert forall i :: 0 <= i < |s| ==> s[i] in s;
  }

  lemma CveMeaning(s: string)
    ensures IsCve(s) <==>
      exists year, number :: s == "CVE-" + year + "-" + number && |year| == 4 && 4 <= |number| <= 19
                             && Digits(year) && Digits(number)
  {
    if IsCve(s) {
      DigitsAlike(s[4..8]);
      DigitsAlike(s[9..]);
      assert s == "CVE-" + s[4..8] + "-" + s[9..];
    }
    if year, number :| s == "CVE-" + year + "-" + number && |year| == 4 && 4 <= |number| <= 19
                       && Digits(year) && Digits(number)
    {
      CveParts(s, year, number);
    }
  }

  lemma CveParts(s: string, year: string, number: string)
    requires s == "CVE-" + year + "-" + number && |year| == 4 && Digits(year) && Digits(number)
    ensures |s| == 9 + |number| && s[..4] == "CVE-" && s[8] == '-' && AllDigits(s[4..8]) && AllDigits(s[9..])
  {
    DigitsAlike(year);
    DigitsAlike(number);
    assert s == "CVE-" + (year + ("-" + number)) && s[4..] == year + ("-" + number);
    assert s[4..8] == year && s[8..] == "-" + number && s[9..] == number;
  }

  lemma CweMeaning(s: string)
    ensures IsCwe(s) <==> exists number :: s == "CWE-" + number && 1 <= |number| <= 7 && Digits(number)
  {
    if IsCwe(s) {
      DigitsAlike(s[4..]);
      assert s == "CWE-" + s[4..];
    }
    if number :| s == "CWE-" + number && 1 <= |number| <= 7 && Digits(number) {
      DigitsAlike(number);
      assert s[..4] == "CWE-" && s[4..] == number;
    }
  }

  /** A text up to its first line break. */
  predicate IsFirstLine(s: string, l: string) { l <= s && OneLine(l) && (l == s || IsBreak(s[|l|])) }

  lemma FirstLineMeaning(s: string)
    ensures IsFirstLine(s, FirstLine(s))
  {
    if s != "" {
      LineHasNoBreak(s);
      LineEndBreaks(s);
    }
  }

  lemma {:induction false} LineEndBreaks(s: string)
    ensures LineEnd(s) < |s| ==> IsBreak(s[LineEnd(s)])
  {
    if s != "" && !IsBreak(s[0]) { LineEndBreaks(s[1..]); }
  }

  /** A summary is the first line of the message, behind the first line of a rule id that is not empty,
      cut at 200 characters. */
  lemma SummaryMeaning(message: string, ruleId: Value) returns (line: string, id: string)
    ensures IsFirstLine(message, line)
    ensures var whole := if ruleId.Text? && ruleId.text != "" then id + ": " + line else line;
      Summary(message, ruleId) == if |whole| <= 200 then whole else whole[..200]
    ensures ruleId.Text? && ruleId.text != "" ==> IsFirstLine(ruleId.text, id)
  {
    line, id := FirstLine(message), "";
    FirstLineMeaning(message);
    if ruleId.Text? && ruleId.text != "" {
      id := FirstLine(ruleId.text);
      FirstLineMeaning(ruleId.text);
    }
  }

  /** `uri:line`, or the uri alone. */
  function PlaceText(place: (string, Option<int>)): string {
    match place.1
    case None => place.0
    case Some(n) => place.0 + ":" + (if n < 0 then "-" + Decimal(-n) else Decimal(n))
  }

  /** The parts of a finding, from the fields of its result and rule. */
  lemma FindingMeaning(a: Accepted, n: nat, setting: Setting, place: Option<(string, Option<int>)>)
    requires Sound(a) && FirstNamed(a.result.locations, place)
    ensures var f := FindingOf(a, n, setting);
      && f.id == "F-" + Padded(n)
      && f.summary == Summary(Strip(a.result.message.text), a.result.ruleId) && f.references == References(a.rule)
      && f.aliases == (var cve := KnownId(a, "cve", IsCve, setting.upper); if cve.Some? then [cve.value] else [])
    ensures LocationLine(a.result.locations) ==
      if place.None? then ""
      else "\n\n**Location:** `" + (var t := PlaceText(place.value); if |t| <= 512 then t else t[..512]) + "`"
    ensures WeaknessLine(a, setting.upper) ==
      (var cwe := KnownId(a, "cwe", IsCwe, setting.upper);
       if cwe.None? then "" else "\n\n**Weakness:** `" + cwe.value + "`")
  {
    FirstNamedUnique(a.result.locations, place);
  }

  /** The body of a finding: the header, the message, the location and the weakness. Only the end of
      the message gives way to the bound of 4096 characters, and only where that is reached. */
  lemma BodyMeaning(a: Accepted, n: nat, setting: Setting) returns (kept: nat)
    requires Sound(a)
    ensures kept <= |Strip(a.result.message.text)|
    ensures var f := FindingOf(a, n, setting);
      && f.body == "## Root cause\n\n" + Strip(a.result.message.text)[..kept]
                   + (LocationLine(a.result.locations) + WeaknessLine(a, setting.upper))
      && |f.body| <= 4096 && (kept < |Strip(a.result.message.text)| ==> |f.body| == 4096)
  {
    BodyKeepsItsLines(a, n, setting);
    var body, message := FindingOf(a, n, setting).body, MessageText(a.result).value;
    var tail := LocationLine(a.result.locations) + WeaknessLine(a, setting.upper);
    kept :| kept <= |message| && body == HEADER + message[..kept] + tail
            && (kept == |message| || (kept >= 3522 && |body| == BODY_MAX));
  }

  /** What a pattern for visible ASCII matches when case is ignored. */
  predicate Visible(c: char) { 33 <= c as int <= 126 || (c as int) in {304, 305, 383, 8490} }

  predicate IsScheme(s: string) {
    && 4 <= |s| <= 5 && (s[0] as int) in {72, 104} && (s[1] as int) in {84, 116} && (s[2] as int) in {84, 116}
    && (s[3] as int) in {80, 112} && (|s| == 5 ==> (s[4] as int) in {83, 115, 383})
  }

  predicate IsAuthority(s: string) {
    s != "" && s[0] != '/' && s[0] != '?' && s[0] != '#' && forall i :: 0 <= i < |s| ==> Visible(s[i])
  }

  /** A web address: `http` or `https` in any case, `://`, and a host with nothing but visible
      characters from there on. */
  ghost predicate IsUrl(u: string) {
    exists scheme, rest :: u == scheme + "://" + rest && IsScheme(scheme) && IsAuthority(rest)
  }

  lemma UrlMeaning(u: string)
    ensures SafeUrl(u) <==> IsUrl(u)
  {
    if SafeUrl(u) {
      var n := SchemeEnd(u).value;
      var scheme, rest := u[..n - 3], u[n..];
      assert u == scheme + "://" + rest;
      assert IsScheme(scheme) && IsAuthority(rest);
    }
    if scheme, rest :| u == scheme + "://" + rest && IsScheme(scheme) && IsAuthority(rest) {
      UrlParts(u, scheme, rest);
    }
  }

  lemma UrlParts(u: string, scheme: string, rest: string)
    requires u == scheme + "://" + rest && IsScheme(scheme) && IsAuthority(rest)
    ensures SafeUrl(u)
  {
    var n := |scheme|;
    assert u[n..n + 3] == "://" && u[n] == ':' && u[n + 3..] == rest;
    assert u[0] == scheme[0] && u[1] == scheme[1] && u[2] == scheme[2] && u[3] == scheme[3];
    assert u[4] == if n == 5 then scheme[4] else ':';
    forall i | n + 3 <= i < |u| ensures IsVisible(u[i]) { assert u[i] == rest[i - (n + 3)]; }
  }

  /** A finding refers to the help link of its rule, exactly when that is a web address of at most
      2048 characters; to nothing else. */
  lemma ReferenceMeaning(rule: Option<Rule>, link: string)
    ensures link in References(rule) <==>
      && rule.Some? && rule.value.Rule? && rule.value.helpUri.Text?
      && link == Strip(rule.value.helpUri.text) && |link| <= 2048 && IsUrl(link)
    ensures |References(rule)| <= 1
  {
    UrlMeaning(link);
  }

  // ----- capabilities and primitives -----

  function Set(texts: seq<string>): set<string> { set t | t in texts }

  ghost predicate Hits(setting: Setting, k: int, texts: set<string>) {
    0 <= k < |setting.table| && exists t :: t in texts && setting.hits(setting.table[k].0, t)
  }

  /** The first row of the table that any of the texts hits. */
  ghost predicate FirstRow(setting: Setting, texts: set<string>, k: int) {
    Hits(setting, k, texts) && forall j :: 0 <= j < k ==> !Hits(setting, j, texts)
  }

  ghost predicate NoRow(setting: Setting, texts: set<string>) { forall k :: !Hits(setting, k, texts) }

  lemma RowMeaning(setting: Setting, texts: seq<string>, k: nat)
    requires k < |setting.table|
    ensures RowHits(setting.table[k], texts, setting) <==> Hits(setting, k, Set(texts))
  {
    if t :| t in texts && setting.hits(setting.table[k].0, t) {
      var i :| 0 <= i < |texts| && texts[i] == t;
    }
  }

  lemma HitMeaning(setting: Setting, texts: seq<string>)
    ensures var r := FirstHit(setting.table, texts, setting);
      && (r.None? ==> NoRow(setting, Set(texts)))
      && (r.Some? ==> exists k :: FirstRow(setting, Set(texts), k) && setting.table[k].1 == r.value)
  {
    var table, r := setting.table, FirstHit(setting.table, texts, setting);
    FirstHitMeaning(table, texts, setting);
    forall k: nat | k < |table|
      ensures RowHits(table[k], texts, setting) <==> Hits(setting, k, Set(texts))
    {
      RowMeaning(setting, texts, k);
    }
    if r.Some? {
      var k :| 0 <= k < |table| && table[k].1 == r.value && RowHits(table[k], texts, setting)
               && forall j :: 0 <= j < k ==> !RowHits(table[j], texts, setting);
      assert FirstRow(setting, Set(texts), k);
    }
  }

  ghost predicate IsCapability(c: Option<string>, setting: Setting, texts: set<string>) {
    match c
    case None => NoRow(setting, texts)
    case Some(x) => exists k :: FirstRow(setting, texts, k) && setting.table[k].1 == x
  }

  /** The rule id decides if it hits any row; the tags decide otherwise. */
  lemma CapabilityMeaning(a: Accepted, setting: Setting)
    requires Sound(a)
    ensures var c, id := CapabilityOf(a, setting), a.result.ruleId;
      if id.Text? && id.text != "" && !NoRow(setting, {id.text}) then IsCapability(c, setting, {id.text})
      else IsCapability(c, setting, TagTexts(a))
  {
    var id := a.result.ruleId;
    HitMeaning(setting, RuleTags(a));
    TagsMeaning(if a.rule.Some? then a.rule.value.tags else []);
    assert Set(RuleTags(a)) == TagTexts(a);
    if id.Text? && id.text != "" {
      HitMeaning(setting, [id.text]);
      assert Set([id.text]) == {id.text};
    }
  }

  /** The tags of the rule that are texts and not blank, stripped. */
  function TagTexts(a: Accepted): set<string>
    requires Sound(a)
  {
    if a.rule.None? then {} else set v | v in a.rule.value.tags && v.Text? && !Blank(v.text) :: Strip(v.text)
  }

  lemma {:induction false} TagsMeaning(tags: seq<Value>)
    ensures forall t :: t in TagsOf(tags) <==> exists v :: v in tags && v.Text? && !Blank(v.text) && t == Strip(v.text)
  {
    if tags != [] {
      TagsMeaning(tags[1..]);
      if tags[0].Text? { StripBlank(tags[0].text); }
      assert tags == [tags[0]] + tags[1..];
    }
  }

  /** A primitive names the capability, the place of its result, or failing that its rule id, cut at
      256 characters, and its finding. */
  lemma PrimitiveMeaning(a: Accepted, id: string, setting: Setting, place: Option<(string, Option<int>)>)
    requires Sound(a) && FirstNamed(a.result.locations, place)
    ensures var p := PrimitiveOf(a, id, setting);
      var at := if place.Some? then PlaceText(place.value)
                else if a.result.ruleId.Text? && a.result.ruleId.text != "" then a.result.ruleId.text else "unknown";
      && p.Some? == CapabilityOf(a, setting).Some?
      && (p.Some? ==> p.value.kind == CapabilityOf(a, setting).value && p.value.findingRef == id
                      && p.value.locus == if |at| <= 256 then at else at[..256])
  {
    LocusMeaning(a, place);
  }

  lemma LocusMeaning(a: Accepted, place: Option<(string, Option<int>)>)
    requires Sound(a) && FirstNamed(a.result.locations, place)
    ensures var at := if place.Some? then PlaceText(place.value)
                else if a.result.ruleId.Text? && a.result.ruleId.text != "" then a.result.ruleId.text else "unknown";
      Locus(a) == if |at| <= 256 then at else at[..256]
  {
    FirstNamedUnique(a.result.locations, place);
  }
}

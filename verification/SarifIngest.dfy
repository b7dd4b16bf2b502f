/** Two independent walks over one SARIF document, one building findings and one building
    primitives, stay aligned; ids never repeat; the bounded body never loses its last lines;
    the capability lookup ignores the order of tags. Path containment, upper-casing and the
    word-boundary search are parameters. */
module SarifIngest {
  import opened Options
  import opened PyText

  // ----- the document, every wrongly typed part as Malformed -----

  datatype Value = Text(text: string) | OtherValue

  datatype Location = Location(uri: string, line: Option<int>) | MalformedLocation

  datatype Rule = Rule(id: string, helpUri: Value, tags: seq<Value>, properties: map<string, Value>) | MalformedRule

  datatype Result =
    | Result(message: Value, locations: seq<Location>, ruleId: Value, properties: map<string, Value>)
    | MalformedResult

  datatype Run = Run(rules: seq<Rule>, results: seq<Result>) | MalformedRun

  /** A usable result with the rule its id resolves to in its own run. */
  datatype Accepted = Accepted(result: Result, rule: Option<Rule>)

  /** What the walks are configured with. */
  datatype Setting = Setting(inScope: Option<string> -> bool, upper: string -> string,
                             hits: (string, string) -> bool, table: seq<(string, string)>)

  function MessageText(r: Result): Option<string>
    requires r.Result?
  {
    if r.message.Text? && Strip(r.message.text) != "" then Some(Strip(r.message.text)) else None
  }

  /** The first location with a usable uri. */
  function FirstLocation(locations: seq<Location>): Option<(string, Option<int>)> {
    if locations == [] then None
    else if locations[0].Location? && Strip(locations[0].uri) != "" then
      Some((Strip(locations[0].uri), locations[0].line))
    else FirstLocation(locations[1..])
  }

  function LocationUri(locations: seq<Location>): Option<string> {
    var l := FirstLocation(locations);
    if l.Some? then Some(l.value.0) else None
  }

  /** `_rules_index`: a later rule with the same id replaces an earlier one. */
  function RulesIndex(rules: seq<Rule>): map<string, Rule> {
    if rules == [] then map[]
    else
      var before, last := RulesIndex(rules[..|rules| - 1]), rules[|rules| - 1];
      if last.Rule? then before[last.id := last] else before
  }

  predicate Usable(r: Result, setting: Setting) {
    r.Result? && MessageText(r).Some? && setting.inScope(LocationUri(r.locations))
  }

  function ResolveRule(r: Result, index: map<string, Rule>): Option<Rule>
    requires r.Result?
  {
    if r.ruleId.Text? && r.ruleId.text in index then Some(index[r.ruleId.text]) else None
  }

  function RunAccepted(results: seq<Result>, index: map<string, Rule>, setting: Setting): seq<Accepted> {
    if results == [] then []
    else
      var before, last := RunAccepted(results[..|results| - 1], index, setting), results[|results| - 1];
      if Usable(last, setting) then before + [Accepted(last, ResolveRule(last, index))] else before
  }

  function AcceptedResults(runs: seq<Run>, setting: Setting): seq<Accepted> {
    if runs == [] then []
    else
      var before, last := AcceptedResults(runs[..|runs| - 1], setting), runs[|runs| - 1];
      before + if last.Run? then RunAccepted(last.results, RulesIndex(last.rules), setting) else []
  }

  /** `_accepted_results`, in document order. */
  method Accept(runs: seq<Run>, setting: Setting) returns (found: seq<Accepted>)
    ensures found == AcceptedResults(runs, setting)
  {
    found := [];
    for i := 0 to |runs|
      invariant found == AcceptedResults(runs[..i], setting)
    {
      assert runs[..i + 1][..i] == runs[..i];
      if runs[i].Run? {
        var index := BuildIndex(runs[i].rules);
        var more := AcceptRun(runs[i].results, index, setting);
        found := found + more;
      }
    }
    assert runs[..|runs|] == runs;
  }

  method BuildIndex(rules: seq<Rule>) returns (index: map<string, Rule>)
    ensures index == RulesIndex(rules)
  {
    index := map[];
    for i := 0 to |rules|
      invariant index == RulesIndex(rules[..i])
    {
      assert rules[..i + 1][..i] == rules[..i];
      if rules[i].Rule? {
        index := index[rules[i].id := rules[i]];
      }
    }
    assert rules[..|rules|] == rules;
  }

  method AcceptRun(results: seq<Result>, index: map<string, Rule>, setting: Setting) returns (found: seq<Accepted>)
    ensures found == RunAccepted(results, index, setting)
  {
    found := [];
    for i := 0 to |results|
      invariant found == RunAccepted(results[..i], index, setting)
    {
      assert results[..i + 1][..i] == results[..i];
      if Usable(results[i], setting) {
        found := found + [Accepted(results[i], ResolveRule(results[i], index))];
      }
    }
    assert results[..|results|] == results;
  }

  /** What makes a walked result safe to build from. */
  predicate Sound(a: Accepted) {
    a.result.Result? && MessageText(a.result).Some? && (a.rule.Some? ==> a.rule.value.Rule?)
  }

  lemma {:induction false} IndexHoldsRules(rules: seq<Rule>)
    ensures forall k :: k in RulesIndex(rules) ==> RulesIndex(rules)[k].Rule? && RulesIndex(rules)[k].id == k
  {
    if rules != [] { IndexHoldsRules(rules[..|rules| - 1]); }
  }

  lemma {:induction false} RunSound(results: seq<Result>, index: map<string, Rule>, setting: Setting)
    requires forall k :: k in index ==> index[k].Rule? && index[k].id == k
    ensures forall a :: a in RunAccepted(results, index, setting) ==> AcceptedRight(a, setting)
  {
    if results != [] { RunSound(results[..|results| - 1], index, setting); }
  }

  /** An accepted result has a usable message, lies in scope, and carries the rule it names. */
  predicate AcceptedRight(a: Accepted, setting: Setting) {
    && Sound(a) && setting.inScope(LocationUri(a.result.locations))
    && (a.rule.Some? ==> a.result.ruleId == Text(a.rule.value.id))
  }

  lemma {:induction false} AcceptedAreRight(runs: seq<Run>, setting: Setting)
    ensures forall a :: a in AcceptedResults(runs, setting) ==> AcceptedRight(a, setting)
  {
    if runs != [] {
      AcceptedAreRight(runs[..|runs| - 1], setting);
      var last := runs[|runs| - 1];
      if last.Run? {
        IndexHoldsRules(last.rules);
        RunSound(last.results, RulesIndex(last.rules), setting);
      }
    }
  }

  // ----- identities -----

  /** `f"F-{n:04d}"`. */
  function FormatId(n: nat): string {
    "F-" + Padded(n)
  }

  /** Two different numbers never print as the same id, however wide they are. */
  lemma IdsDiffer(a: nat, b: nat)
    requires FormatId(a) == FormatId(b)
    ensures a == b
  {
    assert FormatId(a)[2..] == Padded(a) && FormatId(b)[2..] == Padded(b);
    PaddedReadBack(a);
    PaddedReadBack(b);
  }

  // ----- findings -----

  const SUMMARY_MAX := 200
  const LOCATION_MAX := 512
  const BODY_MAX := 4096

  const HEADER: string := "## Root cause\n\n"

  /** `s[:n]`. */
  function Cut(s: string, n: nat): (r: string)
    ensures |r| <= n && r <= s && (|s| <= n ==> r == s)
  {
    if |s| <= n then s else s[..n]
  }

  function SignedDecimal(n: int): string { if n < 0 then "-" + Decimal(-n) else Decimal(n) }

  function LocusText(at: (string, Option<int>)): string {
    if at.1.None? then at.0 else at.0 + ":" + SignedDecimal(at.1.value)
  }

  function LocationLine(locations: seq<Location>): string {
    var at := FirstLocation(locations);
    if at.None? then "" else "\n\n**Location:** `" + Cut(LocusText(at.value), LOCATION_MAX) + "`"
  }

  predicate AllDigits(s: string) { forall c :: c in s ==> '0' <= c <= '9' }

  /** `CWE-` and one to seven digits. */
  predicate IsCwe(s: string) { 5 <= |s| <= 11 && s[..4] == "CWE-" && AllDigits(s[4..]) }

  /** `CVE-`, a four-digit year, `-` and four to nineteen digits. */
  predicate IsCve(s: string) {
    13 <= |s| <= 28 && s[..4] == "CVE-" && AllDigits(s[4..8]) && s[8] == '-' && AllDigits(s[9..])
  }

  /** `_known_vuln_ids`: the result's properties win over the rule's, even when ill-typed. */
  function Properties(a: Accepted): map<string, Value>
    requires Sound(a)
  {
    (if a.rule.Some? then a.rule.value.properties else map[]) + a.result.properties
  }

  function KnownId(a: Accepted, key: string, accept: string -> bool, upper: string -> string): (r: Option<string>)
    requires Sound(a)
    ensures r.Some? ==> accept(r.value)
  {
    var properties := Properties(a);
    if key in properties && properties[key].Text? && accept(upper(Strip(properties[key].text)))
    then Some(upper(Strip(properties[key].text))) else None
  }

  function WeaknessLine(a: Accepted, upper: string -> string): string
    requires Sound(a)
  {
    var cwe := KnownId(a, "cwe", IsCwe, upper);
    if cwe.None? then "" else "\n\n**Weakness:** `" + cwe.value + "`"
  }

  function Body(message: string, location: string, weakness: string): string {
    var spare := BODY_MAX - |HEADER| - |location| - |weakness|;
    Cut(HEADER + Cut(message, if spare < 0 then 0 else spare) + location + weakness, BODY_MAX)
  }

  function FirstLine(s: string): string { if SplitLines(s) == [] then s else SplitLines(s)[0] }

  function Summary(message: string, ruleId: Value): string {
    var line := FirstLine(message);
    Cut(if ruleId.Text? && ruleId.text != "" then FirstLine(ruleId.text) + ": " + line else line, SUMMARY_MAX)
  }

  const REFERENCE_MAX := 2048

  /** Visible ASCII, and the four letters whose other case is visible ASCII: the pattern ignores
      case. */
  predicate IsVisible(c: char) { '!' <= c <= '~' || c in {'\U{130}', '\U{131}', '\U{17F}', '\U{212A}'} }

  /** Where the authority begins: after `http://` or `https://` in either case. */
  function SchemeEnd(u: string): Option<nat> {
    if |u| < 8 || u[0] !in {'h', 'H'} || u[1] !in {'t', 'T'} || u[2] !in {'t', 'T'} || u[3] !in {'p', 'P'} then None
    else
      var n := if u[4] in {'s', 'S', '\U{17F}'} then 5 else 4;
      if n + 3 <= |u| && u[n..n + 3] == "://" then Some(n + 3) else None
  }

  /** `_SAFE_HTTP_URL_RE`, matched in full. */
  predicate SafeUrl(u: string) {
    var n := SchemeEnd(u);
    && n.Some? && n.value < |u| && u[n.value] !in {'/', '?', '#'}
    && forall i :: n.value <= i < |u| ==> IsVisible(u[i])
  }

  /** The help link of the rule, if it is a bounded, well-formed URL. */
  function References(rule: Option<Rule>): seq<string> {
    if rule.None? || !rule.value.Rule? || !rule.value.helpUri.Text? then []
    else
      var uri := Strip(rule.value.helpUri.text);
      if uri != "" && |uri| <= REFERENCE_MAX && SafeUrl(uri) then [uri] else []
  }

  datatype Finding = Finding(id: string, summary: string, references: seq<string>, aliases: seq<string>, body: string)

  function FindingOf(a: Accepted, n: nat, setting: Setting): Finding
    requires Sound(a)
  {
    var message := MessageText(a.result).value;
    var cve := KnownId(a, "cve", IsCve, setting.upper);
    Finding(FormatId(n), Summary(message, a.result.ruleId), References(a.rule), if cve.Some? then [cve.value] else [],
            Body(message, LocationLine(a.result.locations), WeaknessLine(a, setting.upper)))
  }

  predicate AllSound(found: seq<Accepted>) { forall a :: a in found ==> Sound(a) }

  /** One finding per result, in order, numbered from `start`. */
  function FindingsOf(found: seq<Accepted>, start: nat, setting: Setting): (r: seq<Finding>)
    requires AllSound(found)
    ensures |r| == |found|
  {
    seq(|found|, i requires 0 <= i < |found| => FindingOf(found[i], start + i, setting))
  }

  lemma FindingAt(found: seq<Accepted>, start: nat, setting: Setting, i: nat)
    requires AllSound(found) && i < |found|
    ensures FindingsOf(found, start, setting)[i] == FindingOf(found[i], start + i, setting)
  {
  }

  /** `sarif_to_findings`. */
  method ToFindings(runs: seq<Run>, start: nat, setting: Setting) returns (findings: seq<Finding>)
    ensures AllSound(AcceptedResults(runs, setting))
    ensures findings == FindingsOf(AcceptedResults(runs, setting), start, setting)
  {
    var found := Accept(runs, setting);
    AcceptedAreRight(runs, setting);
    findings := BuildFindings(found, start, setting);
  }

  method BuildFindings(found: seq<Accepted>, start: nat, setting: Setting) returns (findings: seq<Finding>)
    requires AllSound(found)
    ensures findings == FindingsOf(found, start, setting)
  {
    ghost var all := FindingsOf(found, start, setting);
    findings := [];
    var n := start;
    for i := 0 to |found|
      invariant n == start + i && findings == all[..i]
    {
      assert found[i] in found;
      var finding := FindingOf(found[i], n, setting);
      FindingAt(found, start, setting, i);
      TakeOneMore(all, i, finding);
      findings := findings + [finding];
      n := n + 1;
    }
  }

  lemma TakeOneMore<T>(all: seq<T>, i: nat, next: T)
    requires i < |all| && next == all[i]
    ensures all[..i] + [next] == all[..i + 1]
  {
  }

  lemma IdsNeverRepeat(ids: seq<string>, start: nat)
    requires forall i :: 0 <= i < |ids| ==> ids[i] == FormatId(start + i)
    ensures forall i, j :: 0 <= i < j < |ids| ==> ids[i] != ids[j]
  {
    forall i, j | 0 <= i < j < |ids| ensures ids[i] != ids[j] {
      if ids[i] == ids[j] { IdsDiffer(start + i, start + j); }
    }
  }

  /** Ids run on from the start and never repeat. */
  lemma FindingIds(found: seq<Accepted>, start: nat, setting: Setting, ids: seq<string>)
    requires AllSound(found) && |ids| == |found|
    requires forall i :: 0 <= i < |ids| ==> ids[i] == FindingsOf(found, start, setting)[i].id
    ensures forall i :: 0 <= i < |ids| ==> ids[i] == FormatId(start + i)
    ensures forall i, j :: 0 <= i < j < |ids| ==> ids[i] != ids[j]
  {
    forall i | 0 <= i < |ids| ensures ids[i] == FormatId(start + i) { FindingAt(found, start, setting, i); }
    IdsNeverRepeat(ids, start);
  }

  lemma LineWidths(a: Accepted, upper: string -> string)
    requires Sound(a)
    ensures |HEADER| + |LocationLine(a.result.locations)| + |WeaknessLine(a, upper)| <= 574
  {
  }

  /** The bound on the body cuts only the message: the location and weakness lines survive whole,
      and a message of up to 3522 characters does too. */
  lemma BodyKeepsItsLines(a: Accepted, n: nat, setting: Setting)
    requires Sound(a)
    ensures var f := FindingOf(a, n, setting);
      var message := MessageText(a.result).value;
      var tail := LocationLine(a.result.locations) + WeaknessLine(a, setting.upper);
      && |f.body| <= BODY_MAX
      && exists kept: nat :: kept <= |message| && f.body == HEADER + message[..kept] + tail
           && (kept == |message| || (kept >= 3522 && |f.body| == BODY_MAX))
  {
    LineWidths(a, setting.upper);
    BodyShape(MessageText(a.result).value, LocationLine(a.result.locations), WeaknessLine(a, setting.upper));
  }

  lemma BodyShape(message: string, location: string, weakness: string)
    requires |HEADER| + |location| + |weakness| <= 574
    ensures var body := Body(message, location, weakness);
      && |body| <= BODY_MAX
      && exists kept: nat :: kept <= |message| && body == HEADER + message[..kept] + (location + weakness)
           && (kept == |message| || (kept >= 3522 && |body| == BODY_MAX))
  {
    var spare := BODY_MAX - |HEADER| - |location| - |weakness|;
    var kept := |Cut(message, spare)|;
    assert Cut(message, spare) == message[..kept];
    assert HEADER + message[..kept] + location + weakness == HEADER + message[..kept] + (location + weakness);
  }

  /** A summary is one bounded line, whatever line breaks the message and the rule id hold. */
  lemma SummaryIsOneLine(a: Accepted, n: nat, setting: Setting)
    requires Sound(a)
    ensures OneLine(FindingOf(a, n, setting).summary) && |FindingOf(a, n, setting).summary| <= SUMMARY_MAX
  {
    SummaryShape(MessageText(a.result).value, a.result.ruleId);
  }

  lemma FirstLineShape(s: string)
    ensures OneLine(FirstLine(s))
  {
    if s != "" { FirstLineIsOneLine(s); }
  }

  lemma SummaryShape(message: string, ruleId: Value)
    ensures OneLine(Summary(message, ruleId)) && |Summary(message, ruleId)| <= SUMMARY_MAX
  {
    FirstLineShape(message);
    if ruleId.Text? && ruleId.text != "" {
      FirstLineShape(ruleId.text);
      var whole := FirstLine(ruleId.text) + ": " + FirstLine(message);
      assert OneLine(whole);
      assert forall c :: c in Cut(whole, SUMMARY_MAX) ==> c in whole;
    }
  }

  /** One bounded line without white space, under an HTTP scheme and a host that is not empty. */
  predicate IsSafeLink(u: string) {
    && |u| <= REFERENCE_MAX && OneLine(u) && (forall c :: c in u ==> !IsSpace(c))
    && SchemeEnd(u).Some? && SchemeEnd(u).value < |u| && u[SchemeEnd(u).value] !in {'/', '?', '#'}
  }

  /** Whatever a rule's help link holds, a finding has at most one reference, and a safe one. */
  lemma ReferenceIsSafe(a: Accepted, n: nat, setting: Setting)
    requires Sound(a)
    ensures var links := FindingOf(a, n, setting).references;
      |links| <= 1 && (links != [] ==> IsSafeLink(links[0]))
  {
    var links := References(a.rule);
    if links != [] { SafeUrlShape(links[0]); }
  }

  lemma SafeUrlShape(u: string)
    requires SafeUrl(u)
    ensures OneLine(u) && forall c :: c in u ==> !IsSpace(c)
  {
    var n := SchemeEnd(u).value;
    forall c | c in u ensures IsVisible(c) {
      var i :| 0 <= i < |u| && u[i] == c;
      if i < n { SchemeVisible(u, i); }
    }
  }

  lemma SchemeVisible(u: string, i: nat)
    requires SchemeEnd(u).Some? && i < SchemeEnd(u).value
    ensures i < |u| && IsVisible(u[i])
  {
    var n := SchemeEnd(u).value - 3;
    assert n <= i ==> u[i] == u[n..n + 3][i - n];
  }

  // ----- capabilities -----

  predicate RowHits(row: (string, string), texts: seq<string>, setting: Setting) {
    exists i :: 0 <= i < |texts| && setting.hits(row.0, texts[i])
  }

  /** The capability of the first table row any of the texts hits. */
  function FirstHit(table: seq<(string, string)>, texts: seq<string>, setting: Setting): Option<string>
    decreases table
  {
    if table == [] then None
    else if RowHits(table[0], texts, setting) then Some(table[0].1)
    else FirstHit(table[1..], texts, setting)
  }

  function MatchCapability(ruleId: Value, tags: seq<string>, setting: Setting): Option<string> {
    var byRule := if ruleId.Text? && ruleId.text != "" then FirstHit(setting.table, [ruleId.text], setting) else None;
    if byRule.Some? then byRule else FirstHit(setting.table, tags, setting)
  }

  /** `_match_capability`: the rule id in table order, then each row against every tag. */
  method FindCapability(ruleId: Value, tags: seq<string>, setting: Setting) returns (capability: Option<string>)
    ensures capability == MatchCapability(ruleId, tags, setting)
  {
    var table := setting.table;
    if ruleId.Text? && ruleId.text != "" {
      for i := 0 to |table|
        invariant FirstHit(table[i..], [ruleId.text], setting) == FirstHit(table, [ruleId.text], setting)
      {
        assert table[i..][0] == table[i] && table[i..][1..] == table[i + 1..];
        if setting.hits(table[i].0, ruleId.text) {
          assert [ruleId.text][0] == ruleId.text;
          return Some(table[i].1);
        }
      }
    }
    for i := 0 to |table|
      invariant FirstHit(table[i..], tags, setting) == FirstHit(table, tags, setting)
    {
      assert table[i..][0] == table[i] && table[i..][1..] == table[i + 1..];
      for j := 0 to |tags|
        invariant forall k :: 0 <= k < j ==> !setting.hits(table[i].0, tags[k])
      {
        if setting.hits(table[i].0, tags[j]) {
          return Some(table[i].1);
        }
      }
    }
    return None;
  }

  lemma {:induction false} SameTexts(table: seq<(string, string)>, a: seq<string>, b: seq<string>, setting: Setting)
    requires forall t :: t in a <==> t in b
    ensures FirstHit(table, a, setting) == FirstHit(table, b, setting)
    decreases table
  {
    if table != [] {
      SameRow(table[0], a, b, setting);
      SameRow(table[0], b, a, setting);
      SameTexts(table[1..], a, b, setting);
    }
  }

  lemma SameRow(row: (string, string), a: seq<string>, b: seq<string>, setting: Setting)
    requires forall t :: t in a ==> t in b
    ensures RowHits(row, a, setting) ==> RowHits(row, b, setting)
  {
    if RowHits(row, a, setting) {
      var i :| 0 <= i < |a| && setting.hits(row.0, a[i]);
      assert a[i] in a;
      var j :| 0 <= j < |b| && b[j] == a[i];
    }
  }

  /** The order and repetition of tags never change the capability, for any table and matcher. */
  lemma TagOrderIrrelevant(ruleId: Value, a: seq<string>, b: seq<string>, setting: Setting)
    requires forall t :: t in a <==> t in b
    ensures MatchCapability(ruleId, a, setting) == MatchCapability(ruleId, b, setting)
  {
    SameTexts(setting.table, a, b, setting);
  }

  /** Closed lookup: the winner is the earliest row hit, and nothing outside the table can come out. */
  lemma {:induction false} FirstHitMeaning(table: seq<(string, string)>, texts: seq<string>, setting: Setting)
    ensures var r := FirstHit(table, texts, setting);
      && (r.None? <==> forall k :: 0 <= k < |table| ==> !RowHits(table[k], texts, setting))
      && (r.Some? ==> exists k :: 0 <= k < |table| && table[k].1 == r.value && RowHits(table[k], texts, setting)
                                  && forall j :: 0 <= j < k ==> !RowHits(table[j], texts, setting))
    decreases table
  {
    if table != [] && !RowHits(table[0], texts, setting) {
      var rest := table[1..];
      FirstHitMeaning(rest, texts, setting);
      assert forall k :: 1 <= k < |table| ==> table[k] == rest[k - 1];
      var r := FirstHit(rest, texts, setting);
      if r.Some? {
        var k :| 0 <= k < |rest| && rest[k].1 == r.value && RowHits(rest[k], texts, setting)
                 && forall j :: 0 <= j < k ==> !RowHits(rest[j], texts, setting);
        assert table[k + 1] == rest[k];
        assert forall j :: 0 <= j < k + 1 ==> !RowHits(table[j], texts, setting) by {
          forall j | 0 <= j < k + 1 ensures !RowHits(table[j], texts, setting) {
            if j > 0 { assert table[j] == rest[j - 1]; }
          }
        }
      }
    }
  }

  // ----- primitives -----

  const LOCUS_MAX := 256

  /** `_rule_tags`. */
  function TagsOf(tags: seq<Value>): seq<string> {
    if tags == [] then []
    else (if tags[0].Text? && Strip(tags[0].text) != "" then [Strip(tags[0].text)] else []) + TagsOf(tags[1..])
  }

  function RuleTags(a: Accepted): seq<string>
    requires Sound(a)
  {
    if a.rule.None? then [] else TagsOf(a.rule.value.tags)
  }

  function CapabilityOf(a: Accepted, setting: Setting): Option<string>
    requires Sound(a)
  {
    MatchCapability(a.result.ruleId, RuleTags(a), setting)
  }

  function Locus(a: Accepted): string
    requires Sound(a)
  {
    var at := FirstLocation(a.result.locations);
    Cut(if at.Some? then LocusText(at.value)
        else if a.result.ruleId.Text? && a.result.ruleId.text != "" then a.result.ruleId.text
        else "unknown",
        LOCUS_MAX)
  }

  datatype Primitive = Primitive(kind: string, locus: string, findingRef: string)

  function PrimitiveOf(a: Accepted, id: string, setting: Setting): Option<Primitive>
    requires Sound(a)
  {
    var c := CapabilityOf(a, setting);
    if c.None? then None else Some(Primitive(c.value, Locus(a), id))
  }

  /** What each result yields, as far as the ids reach. */
  function Offers(found: seq<Accepted>, ids: seq<string>, setting: Setting): (r: seq<Option<Primitive>>)
    requires AllSound(found)
    ensures |r| == if |found| <= |ids| then |found| else |ids|
    decreases found
  {
    if found == [] || ids == [] then []
    else [PrimitiveOf(found[0], ids[0], setting)] + Offers(found[1..], ids[1..], setting)
  }

  lemma {:induction false} OfferAt(found: seq<Accepted>, ids: seq<string>, setting: Setting, i: nat)
    requires AllSound(found) && i < |found| && i < |ids|
    ensures Offers(found, ids, setting)[i] == PrimitiveOf(found[i], ids[i], setting)
    decreases found
  {
    if i > 0 { OfferAt(found[1..], ids[1..], setting, i - 1); }
  }

  /** `picked` holds what the first `n` choices offer, in order and none left out: entry `k` comes
      from choice `at[k]`. */
  ghost predicate Picked<T>(choices: seq<Option<T>>, picked: seq<T>, at: seq<nat>, n: nat) {
    && n <= |choices| && |at| == |picked|
    && (forall k :: 0 <= k < |at| ==> at[k] < n && choices[at[k]] == Some(picked[k]))
    && (forall j, k :: 0 <= j < k < |at| ==> at[j] < at[k])
    && (forall i :: 0 <= i < n && choices[i].Some? ==> i in at)
  }

  lemma PickTaken<T>(choices: seq<Option<T>>, picked: seq<T>, at: seq<nat>, n: nat)
    requires Picked(choices, picked, at, n) && n < |choices| && choices[n].Some?
    ensures Picked(choices, picked + [choices[n].value], at + [n], n + 1)
  {
    var more := at + [n];
    assert more[|at|] == n;
    assert forall i :: i in at ==> i in more;
  }

  lemma PickSkipped<T>(choices: seq<Option<T>>, picked: seq<T>, at: seq<nat>, n: nat)
    requires Picked(choices, picked, at, n) && n < |choices| && choices[n].None?
    ensures Picked(choices, picked, at, n + 1)
  {
    forall i | 0 <= i < n + 1 && choices[i].Some? ensures i in at {
      assert i < n;
    }
  }

  /** Taking what choice `n` offers, if anything, extends the selection by one choice. */
  lemma PickNext<T>(choices: seq<Option<T>>, picked: seq<T>, at: seq<nat>, n: nat)
    requires Picked(choices, picked, at, n) && n < |choices|
    ensures choices[n].Some? ==> Picked(choices, picked + [choices[n].value], at + [n], n + 1)
    ensures choices[n].None? ==> Picked(choices, picked, at, n + 1)
  {
    if choices[n].Some? {
      PickTaken(choices, picked, at, n);
    } else {
      PickSkipped(choices, picked, at, n);
    }
  }

  method BuildPrimitive(a: Accepted, id: string, setting: Setting) returns (p: Option<Primitive>)
    requires Sound(a)
    ensures p == PrimitiveOf(a, id, setting)
  {
    var capability := FindCapability(a.result.ruleId, RuleTags(a), setting);
    if capability.None? {
      return None;
    }
    return Some(Primitive(capability.value, Locus(a), id));
  }

  /** `sarif_to_primitives`: its own walk, stopping when the ids run out. */
  method ToPrimitives(runs: seq<Run>, ids: seq<string>, setting: Setting)
    returns (primitives: seq<Primitive>, ghost at: seq<nat>)
    ensures AllSound(AcceptedResults(runs, setting))
    ensures var offers := Offers(AcceptedResults(runs, setting), ids, setting);
      Picked(offers, primitives, at, |offers|)
    ensures var offers := Offers(AcceptedResults(runs, setting), ids, setting);
      exists where :: Picked(offers, primitives, where, |offers|)
  {
    var found := Accept(runs, setting);
    AcceptedAreRight(runs, setting);
    primitives, at := PickAll(found, ids, setting);
  }

  method PickAll(found: seq<Accepted>, ids: seq<string>, setting: Setting)
    returns (primitives: seq<Primitive>, ghost at: seq<nat>)
    requires AllSound(found)
    ensures Picked(Offers(found, ids, setting), primitives, at, |Offers(found, ids, setting)|)
  {
    ghost var offers := Offers(found, ids, setting);
    primitives, at := [], [];
    var i := 0;
    while i < |found| && i < |ids|
      invariant i <= |offers| && Picked(offers, primitives, at, i)
    {
      assert found[i] in found;
      var p := BuildPrimitive(found[i], ids[i], setting);
      OfferAt(found, ids, setting, i);
      PickNext(offers, primitives, at, i);
      if p.Some? {
        primitives, at := primitives + [p.value], at + [i];
      }
      i := i + 1;
    }
  }

  lemma OwnFinding(found: seq<Accepted>, start: nat, setting: Setting, ids: seq<string>,
                   primitives: seq<Primitive>, at: seq<nat>, k: nat)
    requires AllSound(found) && IdsListed(found, start, setting, ids) && k < |primitives|
    requires Picked(Offers(found, ids, setting), primitives, at, |found|)
    ensures at[k] < |found| && primitives[k].findingRef == ids[at[k]]
    ensures found[at[k]] in found && CapabilityOf(found[at[k]], setting) == Some(primitives[k].kind)
  {
    assert Offers(found, ids, setting)[at[k]] == Some(primitives[k]);
    OfferAt(found, ids, setting, at[k]);
  }

  lemma EveryOffer(found: seq<Accepted>, start: nat, setting: Setting, ids: seq<string>,
                   primitives: seq<Primitive>, at: seq<nat>, i: nat) returns (k: nat)
    requires AllSound(found) && IdsListed(found, start, setting, ids) && i < |found|
    requires CapabilityOf(found[i], setting).Some?
    requires Picked(Offers(found, ids, setting), primitives, at, |found|)
    ensures k < |primitives| && at[k] == i
  {
    OfferAt(found, ids, setting, i);
    assert i in at;
    k :| 0 <= k < |at| && at[k] == i;
  }

  /** `ids` lists the ids of the findings of these results. */
  predicate IdsListed(found: seq<Accepted>, start: nat, setting: Setting, ids: seq<string>)
    requires AllSound(found)
  {
    |ids| == |found| && forall i :: 0 <= i < |ids| ==> ids[i] == FindingsOf(found, start, setting)[i].id
  }

  /** The two walks agree: given the ids of the findings of the same document, every primitive
      points at the finding built from its own result, order is kept, no two primitives share a
      finding, and every result with a capability has its primitive. */
  lemma WalksAligned(found: seq<Accepted>, start: nat, setting: Setting, ids: seq<string>,
                     primitives: seq<Primitive>, at: seq<nat>)
    requires AllSound(found) && IdsListed(found, start, setting, ids)
    requires Picked(Offers(found, ids, setting), primitives, at, |found|)
    ensures forall k :: 0 <= k < |primitives| ==>
              at[k] < |found| && primitives[k].findingRef == FindingsOf(found, start, setting)[at[k]].id
              && CapabilityOf(found[at[k]], setting) == Some(primitives[k].kind)
    ensures forall j, k :: 0 <= j < k < |primitives| ==>
              at[j] < at[k] && primitives[j].findingRef != primitives[k].findingRef
    ensures forall i :: 0 <= i < |found| && CapabilityOf(found[i], setting).Some? ==> i in at
  {
    FindingIds(found, start, setting, ids);
    forall k | 0 <= k < |primitives|
      ensures at[k] < |found| && primitives[k].findingRef == ids[at[k]]
              && CapabilityOf(found[at[k]], setting) == Some(primitives[k].kind)
    {
      OwnFinding(found, start, setting, ids, primitives, at, k);
    }
    forall i | 0 <= i < |found| && CapabilityOf(found[i], setting).Some? ensures i in at {
      var k := EveryOffer(found, start, setting, ids, primitives, at, i);
    }
  }
}

/** Pulling the answer object out of a chatty reply: the brace scanner stops exactly at the
    closing brace of any printed JSON object, whatever surrounds it, and the first
    answer-shaped object wins. `json.loads` is a parameter. */
module JsonExtract {
  import opened Options

  // ----- JSON texts -----

  /** One unit of a string literal (section 7 of RFC 8259). */
  datatype Unit = Unescaped(c: char) | TwoChar(c: char) | UnicodeEscape(digits: string)

  predicate ValidUnit(u: Unit) {
    match u
    case Unescaped(c) => c >= ' ' && c != '"' && c != '\\'
    case TwoChar(c) => IsShortEscape(c)
    case UnicodeEscape(d) => |d| == 4 && forall c :: c in d ==> IsHexDigit(c)
  }

  predicate IsShortEscape(c: char) {
    c == '"' || c == '\\' || c == '/' || c == 'b' || c == 'f' || c == 'n' || c == 'r' || c == 't'
  }

  predicate IsHexDigit(c: char) { '0' <= c <= '9' || 'a' <= c <= 'f' || 'A' <= c <= 'F' }

  /** A JSON text. `lead`, `colon` and `trail` hold the whitespace, commas and colons between
      the tokens; a scalar is a number, `true`, `false` or `null`. */
  datatype Json = Scalar(text: string) | Str(units: seq<Unit>) | Arr(items: Items) | Obj(members: Members)
  datatype Items = NoItems(trail: string) | Item(lead: string, value: Json, rest: Items)
  datatype Members = NoMembers(trail: string) | Member(lead: string, key: seq<Unit>, colon: string, value: Json,
          rest: Members)

  /** Text outside strings that carries no structure the scanner reacts to. */
  predicate Plain(s: string) { forall c :: c in s ==> c != '{' && c != '}' && c != '"' }

  predicate ValidUnits(us: seq<Unit>) { forall u :: u in us ==> ValidUnit(u) }

  predicate Valid(j: Json) {
    match j
    case Scalar(t) => Plain(t)
    case Str(us) => ValidUnits(us)
    case Arr(items) => ValidItems(items)
    case Obj(members) => ValidMembers(members)
  }

  predicate ValidItems(items: Items) {
    match items
    case NoItems(trail) => Plain(trail)
    case Item(lead, v, rest) => Plain(lead) && Valid(v) && ValidItems(rest)
  }

  predicate ValidMembers(members: Members) {
    match members
    case NoMembers(trail) => Plain(trail)
    case Member(lead, key, colon, v, rest) =>
      Plain(lead) && ValidUnits(key) && Plain(colon) && Valid(v) && ValidMembers(rest)
  }

  function PrintUnit(u: Unit): string {
    match u
    case Unescaped(c) => [c]
    case TwoChar(c) => ['\\', c]
    case UnicodeEscape(d) => ['\\', 'u'] + d
  }

  function PrintUnits(us: seq<Unit>): string {
    if us == [] then "" else PrintUnit(us[0]) + PrintUnits(us[1..])
  }

  function Quote(us: seq<Unit>): string { ['"'] + PrintUnits(us) + ['"'] }

  function Print(j: Json): string {
    match j
    case Scalar(t) => t
    case Str(us) => Quote(us)
    case Arr(items) => ['['] + PrintItems(items) + [']']
    case Obj(members) => ['{'] + PrintMembers(members) + ['}']
  }

  function PrintItems(items: Items): string {
    match items
    case NoItems(trail) => trail
    case Item(lead, v, rest) => lead + Print(v) + PrintItems(rest)
  }

  function PrintMembers(members: Members): string {
    match members
    case NoMembers(trail) => trail
    case Member(lead, key, colon, v, rest) => lead + Quote(key) + colon + Print(v) + PrintMembers(rest)
  }

  // ----- the scanner -----

  datatype Scan = Scan(depth: int, inStr: bool, esc: bool)

  /** One character of the inner loop. */
  function Step(s: Scan, c: char): Scan {
    if s.inStr then
      if s.esc then s.(esc := false)
      else if c == '\\' then s.(esc := true)
      else if c == '"' then s.(inStr := false)
      else s
    else if c == '"' then s.(inStr := true)
    else if c == '{' then s.(depth := s.depth + 1)
    else if c == '}' then s.(depth := s.depth - 1)
    else s
  }

  predicate Closes(s: Scan, c: char) { !s.inStr && c == '}' && s.depth == 1 }

  /** The state after reading all of `t` without closing, if that happens. */
  function After(s: Scan, t: string): Option<Scan>
    decreases t
  {
    if t == [] then Some(s)
    else if Closes(s, t[0]) then None
    else After(Step(s, t[0]), t[1..])
  }

  /** Where the span opened before `i` closes. */
  function FindClose(text: string, i: nat, s: Scan): (r: Option<nat>)
    requires i <= |text|
    ensures r.Some? ==> i <= r.value < |text|
    decreases |text| - i
  {
    if i == |text| then None
    else if Closes(s, text[i]) then Some(i)
    else FindClose(text, i + 1, Step(s, text[i]))
  }

  const OUTSIDE: Scan := Scan(0, false, false)

  method ScanSpan(text: string, start: nat) returns (end: Option<nat>)
    requires start < |text|
    ensures end == FindClose(text, start, OUTSIDE)
  {
    var depth, inStr, esc := 0, false, false;
    for i := start to |text|
      invariant FindClose(text, i, Scan(depth, inStr, esc)) == FindClose(text, start, OUTSIDE)
    {
      var c := text[i];
      if inStr {
        if esc {
          esc := false;
        } else if c == '\\' {
          esc := true;
        } else if c == '"' {
          inStr := false;
        }
        continue;
      }
      if c == '"' {
        inStr := true;
      } else if c == '{' {
        depth := depth + 1;
      } else if c == '}' {
        depth := depth - 1;
        if depth == 0 {
          return Some(i);
        }
      }
    }
    end := None;
  }

  lemma {:induction false} AfterAppend(s: Scan, a: string, b: string)
    requires After(s, a).Some?
    ensures After(s, a + b) == After(After(s, a).value, b)
    decreases a
  {
    if a == [] {
      assert a + b == b;
    } else {
      assert (a + b)[1..] == a[1..] + b;
      AfterAppend(Step(s, a[0]), a[1..], b);
    }
  }

  /** Reading `t` from `s` never closes and ends in `s'`. */
  predicate Passes(s: Scan, t: string, s': Scan) { After(s, t) == Some(s') }

  lemma PassesAppend(s: Scan, a: string, m: Scan, b: string, e: Scan)
    requires Passes(s, a, m) && Passes(m, b, e)
    ensures Passes(s, a + b, e)
  {
    AfterAppend(s, a, b);
  }

  lemma PassesChar(s: Scan, c: char)
    requires !Closes(s, c)
    ensures Passes(s, [c], Step(s, c))
  {
    assert [c][1..] == [] && After(Step(s, c), []) == Some(Step(s, c));
  }

  lemma {:induction false} PlainPasses(s: Scan, t: string)
    requires Plain(t) && !s.inStr
    ensures Passes(s, t, s)
  {
    if t != [] {
      assert t[0] in t && forall c :: c in t[1..] ==> c in t;
      PlainPasses(s, t[1..]);
    }
  }

  lemma {:induction false} DigitsPass(d: int, t: string)
    requires forall c :: c in t ==> c != '"' && c != '\\'
    ensures Passes(Scan(d, true, false), t, Scan(d, true, false))
  {
    if t != [] {
      assert t[0] in t && forall c :: c in t[1..] ==> c in t;
      DigitsPass(d, t[1..]);
    }
  }

  /** A string unit leaves the scanner inside the string with no escape pending. */
  lemma UnitPasses(d: int, u: Unit)
    requires ValidUnit(u)
    ensures Passes(Scan(d, true, false), PrintUnit(u), Scan(d, true, false))
  {
    var s := Scan(d, true, false);
    match u
    case Unescaped(c) => PassesChar(s, c);
    case TwoChar(c) => EscapePasses(d, c);
    case UnicodeEscape(digits) =>
      EscapePasses(d, 'u');
      assert forall c :: c in digits ==> IsHexDigit(c);
      DigitsPass(d, digits);
      PassesAppend(s, ['\\', 'u'], s, digits, s);
  }

  lemma EscapePasses(d: int, c: char)
    ensures Passes(Scan(d, true, false), ['\\', c], Scan(d, true, false))
  {
    var s, e := Scan(d, true, false), Scan(d, true, true);
    PassesChar(s, '\\');
    PassesChar(e, c);
    PassesAppend(s, ['\\'], e, [c], s);
    assert ['\\'] + [c] == ['\\', c];
  }

  lemma {:induction false} UnitsPass(d: int, us: seq<Unit>)
    requires ValidUnits(us)
    ensures Passes(Scan(d, true, false), PrintUnits(us), Scan(d, true, false))
  {
    if us != [] {
      var s := Scan(d, true, false);
      UnitPasses(d, us[0]);
      UnitsPass(d, us[1..]);
      PassesAppend(s, PrintUnit(us[0]), s, PrintUnits(us[1..]), s);
    }
  }

  lemma QuotePasses(d: int, us: seq<Unit>)
    requires ValidUnits(us)
    ensures Passes(Scan(d, false, false), Quote(us), Scan(d, false, false))
  {
    var o, i := Scan(d, false, false), Scan(d, true, false);
    PassesChar(o, '"');
    UnitsPass(d, us);
    PassesAppend(o, ['"'], i, PrintUnits(us), i);
    PassesChar(i, '"');
    PassesAppend(o, ['"'] + PrintUnits(us), i, ['"'], o);
  }

  /** Inside an open object, any printed value is passed over without a trace. */
  lemma {:induction false} ValuePasses(d: nat, j: Json)
    requires d > 0 && Valid(j)
    ensures Passes(Scan(d, false, false), Print(j), Scan(d, false, false))
    decreases j
  {
    var s := Scan(d, false, false);
    match j
    case Scalar(t) => PlainPasses(s, t);
    case Str(us) => QuotePasses(d, us);
    case Arr(items) =>
      PassesChar(s, '[');
      ItemsPass(d, items);
      PassesAppend(s, ['['], s, PrintItems(items), s);
      PassesChar(s, ']');
      PassesAppend(s, ['['] + PrintItems(items), s, [']'], s);
    case Obj(members) =>
      var inner := Scan(d + 1, false, false);
      PassesChar(s, '{');
      MembersPass(d + 1, members);
      PassesAppend(s, ['{'], inner, PrintMembers(members), inner);
      PassesChar(inner, '}');
      PassesAppend(s, ['{'] + PrintMembers(members), inner, ['}'], s);
  }

  lemma {:induction false} ItemsPass(d: nat, items: Items)
    requires d > 0 && ValidItems(items)
    ensures Passes(Scan(d, false, false), PrintItems(items), Scan(d, false, false))
    decreases items
  {
    var s := Scan(d, false, false);
    match items
    case NoItems(trail) => PlainPasses(s, trail);
    case Item(lead, v, rest) =>
      PlainPasses(s, lead);
      ValuePasses(d, v);
      ItemsPass(d, rest);
      PassesAppend(s, lead, s, Print(v), s);
      PassesAppend(s, lead + Print(v), s, PrintItems(rest), s);
  }

  lemma {:induction false} MembersPass(d: nat, members: Members)
    requires d > 0 && ValidMembers(members)
    ensures Passes(Scan(d, false, false), PrintMembers(members), Scan(d, false, false))
    decreases members
  {
    var s := Scan(d, false, false);
    match members
    case NoMembers(trail) => PlainPasses(s, trail);
    case Member(lead, key, colon, v, rest) =>
      PlainPasses(s, lead);
      QuotePasses(d, key);
      PassesAppend(s, lead, s, Quote(key), s);
      PlainPasses(s, colon);
      PassesAppend(s, lead + Quote(key), s, colon, s);
      ValuePasses(d, v);
      PassesAppend(s, lead + Quote(key) + colon, s, Print(v), s);
      MembersPass(d, rest);
      PassesAppend(s, lead + Quote(key) + colon + Print(v), s, PrintMembers(rest), s);
  }

  lemma {:induction false} FindCloseSkips(text: string, i: nat, t: string, s: Scan, s': Scan)
    requires i + |t| <= |text| && text[i..i + |t|] == t && Passes(s, t, s')
    ensures FindClose(text, i, s) == FindClose(text, i + |t|, s')
    decreases t
  {
    if t != [] {
      assert text[i] == t[0];
      assert text[i + 1..i + |t|] == t[1..];
      FindCloseSkips(text, i + 1, t[1..], Step(s, t[0]), s');
    }
  }

  /** All of an object up to its closing brace. */
  lemma OpenPasses(members: Members)
    requires ValidMembers(members)
    ensures Passes(OUTSIDE, ['{'] + PrintMembers(members), Scan(1, false, false))
  {
    var inner := Scan(1, false, false);
    PassesChar(OUTSIDE, '{');
    MembersPass(1, members);
    PassesAppend(OUTSIDE, ['{'], inner, PrintMembers(members), inner);
  }

  lemma SpanCloses(text: string, i: nat, open: string, inner: Scan)
    requires i + |open| < |text| && text[i..i + |open|] == open && Passes(OUTSIDE, open, inner)
    requires Closes(inner, text[i + |open|])
    ensures FindClose(text, i, OUTSIDE) == Some(i + |open|)
  {
    FindCloseSkips(text, i, open, OUTSIDE, inner);
  }

  lemma Surrounded(before: string, printed: string, after: string, text: string)
    requires text == before + printed + after
    ensures |before| + |printed| <= |text| && text[|before|..|before| + |printed|] == printed
  {
  }

  /** A span that reads as `open` and a closing brace. */
  lemma SpanAt(text: string, i: nat, open: string, inner: Scan)
    requires i + |open| < |text| && text[i..i + |open| + 1] == open + ['}']
    requires Passes(OUTSIDE, open, inner) && Closes(inner, '}')
    ensures FindClose(text, i, OUTSIDE) == Some(i + |open|)
  {
    var printed := open + ['}'];
    assert text[i + |open|] == text[i..i + |open| + 1][|open|] == printed[|open|];
    assert text[i..i + |open|] == text[i..i + |open| + 1][..|open|] == printed[..|open|] == open;
    SpanCloses(text, i, open, inner);
  }

  lemma SpanOfPrinted(text: string, i: nat, members: Members)
    requires ValidMembers(members)
    requires i + |Print(Obj(members))| <= |text| && text[i..i + |Print(Obj(members))|] == Print(Obj(members))
    ensures FindClose(text, i, OUTSIDE) == Some(i + |Print(Obj(members))| - 1)
  {
    OpenPasses(members);
    SpanAt(text, i, ['{'] + PrintMembers(members), Scan(1, false, false));
  }

  /** The scan from a printed object's opening brace stops exactly at its closing brace,
      whatever text surrounds it. */
  lemma SpanIsObject(before: string, members: Members, after: string)
    requires ValidMembers(members)
    ensures var text, printed := before + Print(Obj(members)) + after, Print(Obj(members));
      FindClose(text, |before|, OUTSIDE) == Some(|before| + |printed| - 1)
      && text[|before|..|before| + |printed|] == printed
  {
    var text := before + Print(Obj(members)) + after;
    Surrounded(before, Print(Obj(members)), after, text);
    SpanOfPrinted(text, |before|, members);
  }

  // ----- extraction -----

  datatype Loaded = Invalid | Object(fields: map<string, string>) | OtherValue

  const ANSWER_KEY: string := "vulnerable_line"

  predicate AnswerShaped(fields: map<string, string>) { ANSWER_KEY in fields }

  /** The object a start position yields, if its span closes and parses to one. */
  function ObjectAt(text: string, start: nat, loads: string -> Loaded): Option<map<string, string>>
    requires start < |text|
  {
    if text[start] != '{' then None
    else
      match FindClose(text, start, OUTSIDE)
      case None => None
      case Some(end) =>
        match loads(text[start..end + 1])
        case Object(fields) => Some(fields)
        case _ => None
  }

  ghost predicate AnswerAt(text: string, i: nat, loads: string -> Loaded) {
    i < |text| && ObjectAt(text, i, loads).Some? && AnswerShaped(ObjectAt(text, i, loads).value)
  }

  /** What extraction returns: the first answer-shaped object by start position; failing
      that the first object; failing that nothing. */
  ghost predicate Extracted(text: string, loads: string -> Loaded, r: Option<map<string, string>>) {
    if exists i: nat :: AnswerAt(text, i, loads) then
      exists i: nat :: AnswerAt(text, i, loads) && r == ObjectAt(text, i, loads)
                       && forall k: nat :: k < i ==> !AnswerAt(text, k, loads)
    else if exists i: nat :: i < |text| && ObjectAt(text, i, loads).Some? then
      exists i: nat :: i < |text| && ObjectAt(text, i, loads).Some? && r == ObjectAt(text, i, loads)
                       && forall k: nat :: k < i ==> ObjectAt(text, k, loads).None?
    else r.None?
  }

  /** `_extract_json`. */
  method ExtractJson(text: string, loads: string -> Loaded) returns (r: Option<map<string, string>>)
    ensures Extracted(text, loads, r)
  {
    var first: Option<map<string, string>> := None;
    for start := 0 to |text|
      invariant forall k :: 0 <= k < start ==> !AnswerAt(text, k, loads)
      invariant first.None? ==> forall k :: 0 <= k < start ==> ObjectAt(text, k, loads).None?
      invariant first.Some? ==> exists i :: 0 <= i < start && first == ObjectAt(text, i, loads)
                                            && forall k :: 0 <= k < i ==> ObjectAt(text, k, loads).None?
    {
      if text[start] != '{' {
        continue;
      }
      var end := ScanSpan(text, start);
      if end.Some? {
        var obj := loads(text[start..end.value + 1]);
        if obj.Object? {
          assert ObjectAt(text, start, loads) == Some(obj.fields);
          if ANSWER_KEY in obj.fields {
            assert AnswerAt(text, start, loads);
            return Some(obj.fields);
          }
          if first.None? {
            first := Some(obj.fields);
          }
        }
      }
    }
    r := first;
  }

  /** An answer object printed anywhere in the reply is found from its own start. */
  lemma AnswerStands(before: string, members: Members, after: string, loads: string -> Loaded)
    requires ValidMembers(members)
    requires loads(Print(Obj(members))).Object? && "vulnerable_line" in loads(Print(Obj(members))).fields
    ensures AnswerAt(before + Print(Obj(members)) + after, |before|, loads)
  {
    var text := before + Print(Obj(members)) + after;
    SpanIsObject(before, members, after);
    assert text[|before|] == '{';
  }

  /** It is never lost: the result is answer-shaped, and starts no later than it. */
  lemma AnswerFound(before: string, members: Members, after: string, loads: string -> Loaded,
                    r: Option<map<string, string>>)
    requires ValidMembers(members)
    requires loads(Print(Obj(members))).Object? && "vulnerable_line" in loads(Print(Obj(members))).fields
    requires Extracted(before + Print(Obj(members)) + after, loads, r)
    ensures r.Some? && "vulnerable_line" in r.value
    ensures Within(before + Print(Obj(members)) + after, |before|, loads, r)
  {
    AnswerStands(before, members, after, loads);
  }

  /** The result is the answer at some start up to `last`. */
  ghost predicate Within(text: string, last: nat, loads: string -> Loaded, r: Option<map<string, string>>) {
    exists i: nat :: i <= last && AnswerAt(text, i, loads) && r == ObjectAt(text, i, loads)
  }

  // ----- what extraction means -----

  /** The span from `i` to `j` is balanced: the scan passes over it up to `j`, which closes it. */
  predicate Span(text: string, i: nat, j: nat, s: Scan)
    requires i <= j < |text|
  {
    var before := After(s, text[i..j]);
    before.Some? && !before.value.inStr && before.value.depth == 1 && text[j] == '}'
  }

  lemma {:induction false} CloseExactly(text: string, i: nat, j: nat, s: Scan)
    requires i <= j < |text|
    ensures FindClose(text, i, s) == Some(j) <==> Span(text, i, j, s)
    decreases j - i
  {
    if i < j {
      assert text[i..j][0] == text[i] && text[i..j][1..] == text[i + 1..j];
      if !Closes(s, text[i]) { CloseExactly(text, i + 1, j, Step(s, text[i])); }
    } else {
      assert text[i..j] == [];
      if !Closes(s, text[i]) { assert FindClose(text, i, s) == FindClose(text, i + 1, Step(s, text[i])); }
    }
  }

  /** An object with these fields is written from `i` on: a brace, and a balanced span that parses. */
  ghost predicate Written(text: string, i: nat, loads: string -> Loaded, fields: map<string, string>) {
    && i < |text| && text[i] == '{'
    && exists j :: i <= j < |text| && Span(text, i, j, Scan(0, false, false)) && loads(text[i..j + 1]) == Object(fields)
  }

  lemma WrittenExactly(text: string, i: nat, loads: string -> Loaded, fields: map<string, string>)
    ensures Written(text, i, loads, fields) <==> i < |text| && ObjectAt(text, i, loads) == Some(fields)
  {
    if i < |text| {
      forall j | i <= j < |text| ensures FindClose(text, i, OUTSIDE) == Some(j) <==> Span(text, i, j, OUTSIDE) {
        CloseExactly(text, i, j, OUTSIDE);
      }
    }
  }

  ghost predicate ChosenAt(text: string, i: nat, loads: string -> Loaded, fields: map<string, string>) {
    if "vulnerable_line" in fields then
      forall k: nat, g :: k < i && Written(text, k, loads, g) ==> "vulnerable_line" !in g
    else
      && (forall k: nat, g :: Written(text, k, loads, g) ==> "vulnerable_line" !in g)
      && (forall k: nat, g :: k < i ==> !Written(text, k, loads, g))
  }

  /** Extraction, on the objects written in the reply: nothing where there is none; otherwise the
      first that holds a vulnerable line, and where none does the first of all. */
  lemma ExtractedExactly(text: string, loads: string -> Loaded, r: Option<map<string, string>>)
    ensures Extracted(text, loads, r) <==>
      match r
      case None => forall i, g :: !Written(text, i, loads, g)
      case Some(fields) =>
        exists i :: Written(text, i, loads, fields) && ChosenAt(text, i, loads, fields)
  {
    forall i: nat, g ensures Written(text, i, loads, g) <==> i < |text| && ObjectAt(text, i, loads) == Some(g) {
      WrittenExactly(text, i, loads, g);
    }
    forall i: nat | i < |text| && ObjectAt(text, i, loads).Some?
      ensures Written(text, i, loads, ObjectAt(text, i, loads).value)
    {
    }
    if Extracted(text, loads, r) {
      if r.Some? { WrittenChosen(text, loads, r); }
    } else if r.Some? {
      if i :| Written(text, i, loads, r.value) && ChosenAt(text, i, loads, r.value) {
        ChosenExtracted(text, i, loads, r);
      }
    }
  }

  lemma WrittenChosen(text: string, loads: string -> Loaded, r: Option<map<string, string>>)
    requires Extracted(text, loads, r) && r.Some?
    requires forall i: nat, g :: Written(text, i, loads, g) <==> i < |text| && ObjectAt(text, i, loads) == Some(g)
    ensures exists i :: Written(text, i, loads, r.value) && ChosenAt(text, i, loads, r.value)
  {
    if exists i: nat :: AnswerAt(text, i, loads) {
      var i: nat :| AnswerAt(text, i, loads) && r == ObjectAt(text, i, loads)
                    && forall k: nat :: k < i ==> !AnswerAt(text, k, loads);
      forall k: nat, g | k < i && Written(text, k, loads, g) ensures "vulnerable_line" !in g {
        assert !AnswerAt(text, k, loads);
      }
      assert Written(text, i, loads, r.value) && ChosenAt(text, i, loads, r.value);
    } else {
      var i: nat :| i < |text| && ObjectAt(text, i, loads).Some? && r == ObjectAt(text, i, loads)
                    && forall k: nat :: k < i ==> ObjectAt(text, k, loads).None?;
      forall k: nat, g | Written(text, k, loads, g) ensures "vulnerable_line" !in g {
        assert !AnswerAt(text, k, loads);
      }
      assert Written(text, i, loads, r.value) && ChosenAt(text, i, loads, r.value);
    }
  }

  lemma ChosenExtracted(text: string, i: nat, loads: string -> Loaded, r: Option<map<string, string>>)
    requires r.Some? && Written(text, i, loads, r.value) && ChosenAt(text, i, loads, r.value)
    requires forall i: nat, g :: Written(text, i, loads, g) <==> i < |text| && ObjectAt(text, i, loads) == Some(g)
    ensures Extracted(text, loads, r)
  {
    forall k: nat | k < |text|
      ensures ObjectAt(text, k, loads).Some? ==> Written(text, k, loads, ObjectAt(text, k, loads).value)
    {
    }
    if "vulnerable_line" in r.value { assert AnswerAt(text, i, loads); }
  }
}

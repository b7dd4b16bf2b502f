/** What the note reader and printer do to any text, on the characters themselves. */
module NoteMeaning {
  import opened Options
  import opened PyText
  import opened MemoryNote

  // ----- reading -----

  predicate IsKey(s: string) {
    s != "" && forall i :: 0 <= i < |s| ==>
      65 <= s[i] as int <= 90 || s[i] as int == 95 || 97 <= s[i] as int <= 122
  }

  /** A line holds a key and a value: white space, the key in letters and underscores, a colon, and the
      value with white space around it. */
  ghost predicate Holds(line: string, key: string, value: string) {
    && IsKey(key) && value != ""
    && exists lead, rest :: line == lead + key + ":" + rest && Blank(lead) && value == Strip(rest)
  }

  lemma {:induction false} KeyLengthExactly(s: string, k: nat)
    requires k < |s| && !KeyChar(s[k])
    ensures KeyLength(s) == k <==> forall i :: 0 <= i < k ==> KeyChar(s[i])
  {
    if KeyChar(s[0]) {
      if k > 0 { KeyLengthExactly(s[1..], k - 1); }
      assert forall i :: 0 < i < k ==> s[i] == s[1..][i - 1];
    }
  }

  lemma StripSuffix(s: string, lead: string, core: string)
    requires s == lead + core && Blank(lead) && core != "" && !IsSpace(core[0])
    ensures StripLeft(s) == core
    decreases lead
  {
    if lead == "" {
      assert s == core;
    } else {
      assert s[0] in lead && s[1..] == lead[1..] + core;
      StripSuffix(s[1..], lead[1..], core);
    }
  }

  lemma StripBlank(s: string)
    ensures Strip(s) == "" <==> StripLeft(s) == ""
  {
    var i := LeftEnd(s);
    if StripLeft(s) != "" {
      var t := StripLeft(s);
      var j := RightEnd(t);
      assert t[0] in t && t[..j] + t[j..] == t;
    }
  }

  lemma KeyNotSpace(c: char)
    requires KeyChar(c)
    ensures !IsSpace(c) && c != ':'
  {
  }

  lemma LineStrip(s: string)
    ensures Strip(StripLeft(s)) == Strip(s)
  {
    var i := LeftEnd(s);
    StripTwice(s);
  }

  lemma StripTwice(s: string)
    ensures StripLeft(StripLeft(s)) == StripLeft(s)
  {
    var i := LeftEnd(s);
  }

  /** A line reads as a key and a value exactly when it holds them. */
  lemma LineMeaning(line: string, key: string, value: string)
    ensures ParseLine(line) == Some((key, value)) <==> Holds(line, key, value)
  {
    if ParseLine(line) == Some((key, value)) { LineHolds(line, key, value); }
    if Holds(line, key, value) {
      var lead, rest :| line == lead + key + ":" + rest && Blank(lead) && value == Strip(rest);
      HoldingLine(line, lead, key, rest);
    }
  }

  lemma LineHolds(line: string, key: string, value: string)
    requires ParseLine(line) == Some((key, value))
    ensures Holds(line, key, value)
  {
    var i := LeftEnd(line);
    var k := KeyLength(line[i..]);
    LinePieces(line, i, k);
    KeyPart(line[i..], k);
    HoldsFrom(line, line[..i], key, line[i + k + 1..], value) by { ValueRead(line[i..], k); }
  }

  lemma LinePieces(line: string, i: nat, k: nat)
    requires i + k < |line| && line[i + k] == ':'
    ensures line == line[..i] + line[i..][..k] + ":" + line[i + k + 1..]
  {
    assert line[i..][..k] == line[i..i + k] && line[i + k..i + k + 1] == ":";
  }

  lemma ValueRead(s: string, k: nat)
    requires k < |s|
    ensures Strip(StripLeft(s[k + 1..])) == Strip(s[k + 1..])
    ensures StripLeft(s[k + 1..]) != "" ==> Strip(s[k + 1..]) != ""
  {
    LineStrip(s[k + 1..]);
    StripBlank(s[k + 1..]);
  }

  lemma HoldsFrom(line: string, lead: string, key: string, rest: string, value: string)
    requires line == lead + key + ":" + rest && Blank(lead) && value == Strip(rest) && IsKey(key) && value != ""
    ensures Holds(line, key, value)
  {
  }

  lemma KeyPart(s: string, k: nat)
    requires k == KeyLength(s) && 0 < k < |s|
    ensures IsKey(s[..k])
  {
    KeyStops(s);
    KeyLengthExactly(s, k);
    assert forall i :: 0 <= i < k ==> KeyChar(s[i]) && s[..k][i] == s[i];
  }

  lemma {:induction false} KeyStops(s: string)
    ensures KeyLength(s) < |s| ==> !KeyChar(s[KeyLength(s)])
  {
    if s != "" && KeyChar(s[0]) { KeyStops(s[1..]); }
  }

  lemma HoldingLine(line: string, lead: string, key: string, rest: string)
    requires line == lead + key + ":" + rest && Blank(lead) && IsKey(key) && Strip(rest) != ""
    ensures ParseLine(line) == Some((key, Strip(rest)))
  {
    var s := key + ":" + rest;
    assert line == lead + s && s[0] == key[0] && KeyChar(key[0]);
    KeyNotSpace(s[0]);
    StripSuffix(line, lead, s);
    assert s[|key|] == ':' && forall i :: 0 <= i < |key| ==> s[i] == key[i];
    KeyLengthExactly(s, |key|);
    assert s[..|key|] == key && s[|key| + 1..] == rest;
    LineStrip(rest);
    StripBlank(rest);
  }

  /** The last line that holds a key gives its value; a key that no line holds has none. */
  lemma {:induction false} CollectMeaning(lines: seq<string>, fields: map<string, string>, key: string)
    ensures var all := Collect(lines, fields);
      if forall i, v :: 0 <= i < |lines| ==> !Holds(lines[i], key, v) then
        (key in all <==> key in fields) && (key in all ==> Get(all, key) == Get(fields, key))
      else
        key in all && exists i :: LastHeld(lines, i, key, all[key])
    decreases lines
  {
    if lines != [] {
      var parsed := ParseLine(lines[0]);
      forall v ensures parsed == Some((key, v)) <==> Holds(lines[0], key, v) { LineMeaning(lines[0], key, v); }
      var next := if parsed.Some? then fields[parsed.value.0 := parsed.value.1] else fields;
      var rest := lines[1..];
      CollectMeaning(rest, next, key);
      if forall i, v :: 0 <= i < |rest| ==> !Holds(rest[i], key, v) {
        if parsed.Some? && parsed.value.0 == key {
          assert LastHeld(lines, 0, key, parsed.value.1);
        }
      } else {
        var i :| LastHeld(rest, i, key, Collect(lines, fields)[key]);
        assert Holds(lines[i + 1], key, Collect(lines, fields)[key]);
        assert LastHeld(lines, i + 1, key, Collect(lines, fields)[key]);
      }
    }
  }

  ghost predicate LastHeld(lines: seq<string>, i: int, key: string, value: string) {
    && 0 <= i < |lines| && Holds(lines[i], key, value)
    && forall j, v :: i < j < |lines| ==> !Holds(lines[j], key, v)
  }

  predicate Opens(text: string) {
    |text| >= 4 && text[0] == '-' && text[1] == '-' && text[2] == '-' && text[3] == '\n'
  }

  predicate ClosesAt(text: string, i: nat) {
    && i + 5 <= |text| && text[i] == '\n' && text[i + 1] == '-' && text[i + 2] == '-' && text[i + 3] == '-'
    && text[i + 4] == '\n'
  }

  /** The header of a text: behind the opening fence, up to the first closing one. */
  ghost predicate HeaderOf(text: string, head: string) {
    && Opens(text) && ClosesAt(text, 4 + |head|) && text[4..4 + |head|] == head
    && forall i :: 4 <= i < 4 + |head| ==> !ClosesAt(text, i)
  }

  lemma {:induction false} FenceFound(text: string, i: nat)
    requires |text| >= 4
    ensures var r := FindFence(text[4..], i);
      && (r.Some? ==> ClosesAt(text, 4 + r.value) && forall j :: 4 + i <= j < 4 + r.value ==> !ClosesAt(text, j))
      && (r.None? ==> forall j :: 4 + i <= j ==> !ClosesAt(text, j))
    decreases |text| - i
  {
    FenceChars(text[4..], i);
    if i + 5 <= |text[4..]| && !FenceAt(text[4..], i) {
      FenceFound(text, i + 1);
    }
  }

  lemma OpensExactly(text: string)
    ensures Opens(text) <==> |text| >= 4 && text[..4] == "---\n"
  {
    if |text| >= 4 { assert text[..4] == [text[0], text[1], text[2], text[3]]; }
  }

  ghost predicate Listed(lines: seq<string>, key: string, value: string) {
    exists i :: LastHeld(lines, i, key, value)
  }

  /** A key has a value in the frontmatter of a text exactly when the text has a header and a line of it
      holds both, none after it holding that key. */
  lemma FrontmatterMeaning(text: string, key: string, value: string)
    ensures key in Frontmatter(text) && Frontmatter(text)[key] == value <==>
      exists head :: HeaderOf(text, head) && Listed(SplitLines(head), key, value)
  {
    OpensExactly(text);
    if Opens(text) {
      FenceFound(text, 0);
      var end := FindFence(text[4..], 0);
      if end.Some? {
        var head := text[4..4 + end.value];
        assert text[4..][..end.value] == head && HeaderOf(text, head);
        LastLine(SplitLines(head), key, value);
        forall other | HeaderOf(text, other) ensures other == head { OneHeader(text, head, other); }
      }
    }
  }

  lemma OneHeader(text: string, head: string, other: string)
    requires HeaderOf(text, head) && HeaderOf(text, other)
    ensures other == head
  {
    assert |head| == |other|;
  }

  lemma LastLine(lines: seq<string>, key: string, value: string)
    ensures key in Collect(lines, map[]) && Collect(lines, map[])[key] == value <==> Listed(lines, key, value)
  {
    CollectMeaning(lines, map[], key);
    if i :| LastHeld(lines, i, key, value) {
      var k :| LastHeld(lines, k, key, Collect(lines, map[])[key]);
      HeldOnce(lines, i, k, key, value, Collect(lines, map[])[key]);
    }
  }

  lemma HeldOnce(lines: seq<string>, i: int, k: int, key: string, v: string, w: string)
    requires LastHeld(lines, i, key, v) && LastHeld(lines, k, key, w)
    ensures v == w
  {
    assert i == k;
    LineMeaning(lines[i], key, v);
    LineMeaning(lines[i], key, w);
  }

  /** The tags of a text: each piece between commas, stripped, where anything is left of it. */
  lemma TagsMeaning(first: string, rest: string)
    requires ',' !in first
    ensures TagList(first) == if Strip(first) == "" then [] else [Strip(first)]
    ensures TagList(first + "," + rest) == TagList(first) + TagList(rest)
  {
    CommaAfter(first, "");
    assert first + "" == first && SplitComma(first) == [first] && [first][1..] == [];
    assert StripAll([first]) == (if Strip(first) == "" then [] else [Strip(first)]) + StripAll([]);
    TagsAfterComma(first, rest);
    assert first + ("," + rest) == first + "," + rest;
  }

  predicate Brackets(s: string) { forall i :: 0 <= i < |s| ==> s[i] == '[' || s[i] == ']' }

  lemma {:induction false} LeftBrackets(s: string) returns (i: nat)
    ensures i <= |s| && StripBracketsLeft(s) == s[i..] && Brackets(s[..i])
    ensures i < |s| ==> s[i] != '[' && s[i] != ']'
  {
    i := 0;
    if s != "" && (s[0] == '[' || s[0] == ']') {
      i := LeftBrackets(s[1..]);
      i := i + 1;
      assert s[..i] == [s[0]] + s[1..][..i - 1];
    }
  }

  lemma {:induction false} RightBrackets(s: string) returns (j: nat)
    ensures j <= |s| && StripBracketsRight(s) == s[..j] && Brackets(s[j..])
    ensures j > 0 ==> s[j - 1] != '[' && s[j - 1] != ']'
  {
    j := |s|;
    if s != "" && (s[|s| - 1] == '[' || s[|s| - 1] == ']') {
      j := RightBrackets(s[..|s| - 1]);
      assert s[j..] == s[..|s| - 1][j..] + [s[|s| - 1]];
    }
  }

  /** Taking the brackets off leaves a piece with brackets alone around it and none at its ends. */
  lemma BracketsMeaning(s: string) returns (i: nat, j: nat)
    ensures i <= j <= |s| && StripBrackets(s) == s[i..j] && Brackets(s[..i]) && Brackets(s[j..])
    ensures i < j ==> s[i] != '[' && s[i] != ']' && s[j - 1] != '[' && s[j - 1] != ']'
  {
    i := LeftBrackets(s);
    var k := RightBrackets(s[i..]);
    j := i + k;
    assert s[i..][..k] == s[i..j] && s[i..][k..] == s[j..];
  }

  // ----- printing -----

  function Lines(rows: seq<string>): string {
    if rows == [] then "" else "\n" + rows[0] + Lines(rows[1..])
  }

  lemma {:induction false} LinesJoined(rows: seq<string>)
    requires rows != []
    ensures "\n" + Join(rows, "\n") == Lines(rows)
  {
    if |rows| > 1 {
      var rest := Join(rows[1..], "\n");
      LinesJoined(rows[1..]);
      assert "\n" + (rows[0] + "\n" + rest) == "\n" + rows[0] + ("\n" + rest);
    } else {
      assert rows[1..] == [] && "\n" + rows[0] + "" == "\n" + rows[0];
    }
  }

  lemma {:induction false} LinesAppend(a: seq<string>, b: seq<string>)
    ensures Lines(a + b) == Lines(a) + Lines(b)
  {
    if a == [] {
      assert a + b == b;
    } else {
      assert (a + b)[1..] == a[1..] + b;
      LinesAppend(a[1..], b);
    }
  }

  /** A field that is left out where it has no value. */
  function Optional(field: string, value: string): string {
    if value == "" then "" else field + value
  }

  function TopText(n: Note): string { "\nname: " + n.slug + ("\ndescription: " + n.description) }

  function TagText(tags: seq<string>): string { if tags == [] then "" else "[" + Join(tags, ", ") + "]" }

  function ScopeText(n: Note): string {
    ("\n  type: " + n.kind) + Optional("\n  class: ", n.klass) + Optional("\n  tags: ", TagText(TagList(n.tags)))
  }

  /** The type and the date always, the class, the tags and the harness where there are any. */
  function MetaText(n: Note): string {
    ScopeText(n) + Optional("\n  harness: ", n.harness) + ("\n  updated: " + n.date)
  }

  lemma OneRow(pad: string, slot: Slot, field: string)
    requires field == "\n" + (pad + slot.key + ": ")
    ensures Lines(RowOf(pad, slot)) == if slot.always then field + slot.value else Optional(field, slot.value)
  {
    var row := Row(pad, slot.key, slot.value);
    assert [row][1..] == [] && Lines([row]) == "\n" + row + "";
    assert "\n" + row == field + slot.value;
  }

  lemma MoreRows(pad: string, slots: seq<Slot>, k: nat, field: string, before: string)
    requires k < |slots| && field == "\n" + (pad + slots[k].key + ": ") && Lines(Rows(pad, slots[..k])) == before
    ensures Lines(Rows(pad, slots[..k + 1])) ==
      before + if slots[k].always then field + slots[k].value else Optional(field, slots[k].value)
  {
    assert slots[..k] + [slots[k]] == slots[..k + 1];
    RowsPush(pad, slots[..k], slots[k]);
    LinesAppend(Rows(pad, slots[..k]), RowOf(pad, slots[k]));
    OneRow(pad, slots[k], field);
  }

  lemma FirstRow(pad: string, slots: seq<Slot>, field: string)
    requires slots != [] && slots[0].always && field == "\n" + (pad + slots[0].key + ": ")
    ensures Lines(Rows(pad, slots[..1])) == field + slots[0].value
  {
    assert Rows(pad, slots[..0]) == [] && "" + (field + slots[0].value) == field + slots[0].value;
    MoreRows(pad, slots, 0, field, "");
  }

  lemma TopPrinted(n: Note)
    ensures Lines(Rows("", TopSlots(n))) == TopText(n)
  {
    var s := TopSlots(n);
    FirstRow("", s, "\nname: ");
    MoreRows("", s, 1, "\ndescription: ", "\nname: " + n.slug);
    assert s[..2] == s;
  }

  lemma Labels()
    ensures "\n" + ("  " + "type" + ": ") == "\n  type: " && "\n" + ("  " + "class" + ": ") == "\n  class: "
    ensures "\n" + ("  " + "tags" + ": ") == "\n  tags: "
  {
  }

  lemma LateLabels()
    ensures "\n" + ("  " + "harness" + ": ") == "\n  harness: "
    ensures "\n" + ("  " + "updated" + ": ") == "\n  updated: "
  {
  }

  lemma FirstRows(n: Note, s: seq<Slot>)
    requires s == MetaSlots(n)
    ensures Lines(Rows("  ", s[..3])) == ScopeText(n)
  {
    assert TagsField(n) == TagText(TagList(n.tags));
    Labels();
    FirstRow("  ", s, "\n  type: ");
    MoreRows("  ", s, 1, "\n  class: ", "\n  type: " + n.kind);
    MoreRows("  ", s, 2, "\n  tags: ", ("\n  type: " + n.kind) + Optional("\n  class: ", n.klass));
  }

  lemma HarnessRow(n: Note, s: seq<Slot>, c: string)
    requires |s| == 5 && s[3] == Slot("harness", n.harness, false) && Lines(Rows("  ", s[..3])) == c
    ensures Lines(Rows("  ", s[..4])) == c + Optional("\n  harness: ", n.harness)
  {
    LateLabels();
    MoreRows("  ", s, 3, "\n  harness: ", c);
  }

  lemma DateRow(n: Note, s: seq<Slot>, c: string)
    requires |s| == 5 && s[4] == Slot("updated", n.date, true) && Lines(Rows("  ", s[..4])) == c
    ensures Lines(Rows("  ", s)) == c + ("\n  updated: " + n.date)
  {
    LateLabels();
    MoreRows("  ", s, 4, "\n  updated: ", c);
    assert s[..5] == s;
  }

  lemma MetaPrinted(n: Note)
    ensures Lines(Rows("  ", MetaSlots(n))) == MetaText(n)
  {
    var s := MetaSlots(n);
    FirstRows(n, s);
    HarnessRow(n, s, ScopeText(n));
    DateRow(n, s, ScopeText(n) + Optional("\n  harness: ", n.harness));
  }

  /** The whole text of a note. */
  lemma PrintMeaning(n: Note)
    ensures PrintNote(n) == "---" + (TopText(n) + ("\nmetadata:" + MetaText(n))) + "\n---\n"
                            + ("\n" + StripRight(n.body) + "\n")
  {
    var top, meta := Rows("", TopSlots(n)), Rows("  ", MetaSlots(n));
    var header := top + (["metadata:"] + meta);
    PrintedShape(n, header);
    TopPrinted(n);
    MetaPrinted(n);
    LinesAppend(top, ["metadata:"] + meta);
    MetadataLine(meta);
    LinesJoined(header);
    TextGlued(Join(header, "\n"), Lines(header), "\n" + StripRight(n.body) + "\n");
  }

  lemma MetadataLine(meta: seq<string>)
    ensures Lines(["metadata:"] + meta) == "\nmetadata:" + Lines(meta)
  {
    assert (["metadata:"] + meta)[1..] == meta && "\n" + "metadata:" == "\nmetadata:";
  }

  lemma TextGlued(joined: string, lines: string, tail: string)
    requires "\n" + joined == lines
    ensures "---\n" + (joined + FENCE + tail) == "---" + lines + "\n---\n" + tail
  {
    assert "---\n" == "---" + "\n";
    assert "---\n" + (joined + FENCE + tail) == "---" + ("\n" + joined) + FENCE + tail;
  }
}

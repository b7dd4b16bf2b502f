/** The memory note printer and its frontmatter readers round-trip: whatever the body, the
    readers recover exactly the fields that were printed. `str.lower` is a parameter. */
module MemoryNote {
  import opened Options
  import opened PyText

  // ----- lines -----

  function Join(parts: seq<string>, separator: string): string {
    if parts == [] then ""
    else if |parts| == 1 then parts[0]
    else parts[0] + separator + Join(parts[1..], separator)
  }

  /** Joining non-empty single lines and splitting the result gives the lines back. */
  lemma {:induction false} SplitJoin(lines: seq<string>)
    requires forall l :: l in lines ==> OneLine(l) && l != ""
    ensures SplitLines(Join(lines, "\n")) == lines
  {
    if |lines| == 1 {
      assert lines[0] in lines;
      LineStands(lines[0], "");
      assert lines[0] + "" == lines[0];
    } else if |lines| > 1 {
      var rest := "\n" + Join(lines[1..], "\n");
      assert lines[0] in lines;
      LineStands(lines[0], rest);
      var text := lines[0] + rest;
      assert Join(lines, "\n") == text;
      assert text[|lines[0]|] == '\n' && text[..|lines[0]|] == lines[0];
      assert text[|lines[0]| + 1..] == Join(lines[1..], "\n");
      SplitJoin(lines[1..]);
    }
  }

  // ----- the reader -----

  const FENCE: string := "\n---\n"

  predicate FenceAt(t: string, i: nat) { i + 5 <= |t| && t[i..i + 5] == FENCE }

  /** The first closing fence at or after `i`: where the non-greedy match ends. */
  function FindFence(t: string, i: nat): (r: Option<nat>)
    ensures r.Some? ==> i <= r.value && r.value + 5 <= |t|
    decreases |t| - i
  {
    if i + 5 > |t| then None else if FenceAt(t, i) then Some(i) else FindFence(t, i + 1)
  }

  predicate KeyChar(c: char) { 'A' <= c <= 'Z' || 'a' <= c <= 'z' || c == '_' }

  function KeyLength(s: string): (r: nat)
    ensures r <= |s|
  {
    if s == [] || !KeyChar(s[0]) then 0 else 1 + KeyLength(s[1..])
  }

  /** One frontmatter line: a key, a colon and a non-empty value. */
  function ParseLine(line: string): Option<(string, string)> {
    var s := StripLeft(line);
    var k := KeyLength(s);
    if k == 0 || k == |s| || s[k] != ':' then None
    else
      var value := StripLeft(s[k + 1..]);
      if value == "" then None else Some((s[..k], Strip(value)))
  }

  function Collect(lines: seq<string>, fields: map<string, string>): map<string, string>
    decreases lines
  {
    if lines == [] then fields
    else
      var parsed := ParseLine(lines[0]);
      Collect(lines[1..], if parsed.Some? then fields[parsed.value.0 := parsed.value.1] else fields)
  }

  function Frontmatter(text: string): map<string, string> {
    if |text| < 4 || text[..4] != "---\n" then map[]
    else
      match FindFence(text[4..], 0)
      case None => map[]
      case Some(end) => Collect(SplitLines(text[4..][..end]), map[])
  }

  /** `_fm`. */
  method ReadFrontmatter(text: string) returns (fields: map<string, string>)
    ensures fields == Frontmatter(text)
  {
    fields := map[];
    if |text| < 4 || text[..4] != "---\n" {
      return;
    }
    var end := FindFence(text[4..], 0);
    if end.None? {
      return;
    }
    var lines := SplitLines(text[4..][..end.value]);
    for i := 0 to |lines|
      invariant Collect(lines[i..], fields) == Frontmatter(text)
    {
      assert lines[i..][0] == lines[i] && lines[i..][1..] == lines[i + 1..];
      var parsed := ParseLine(lines[i]);
      if parsed.Some? {
        fields := fields[parsed.value.0 := parsed.value.1];
      }
    }
  }

  function SplitComma(s: string): (r: seq<string>)
    ensures r != []
    decreases |s|
  {
    var k := CommaAt(s);
    if k == |s| then [s] else [s[..k]] + SplitComma(s[k + 1..])
  }

  function CommaAt(s: string): (r: nat)
    ensures r <= |s| && (r < |s| ==> s[r] == ',')
    ensures forall i :: 0 <= i < r ==> s[i] != ','
  {
    if s == [] || s[0] == ',' then 0 else 1 + CommaAt(s[1..])
  }

  /** `[t.strip() for t in s.split(",") if t.strip()]`. */
  function TagList(s: string): seq<string> { StripAll(SplitComma(s)) }

  function StripAll(parts: seq<string>): seq<string> {
    if parts == [] then []
    else (if Strip(parts[0]) == "" then [] else [Strip(parts[0])]) + StripAll(parts[1..])
  }

  function StripBracketsLeft(s: string): string {
    if s != [] && (s[0] == '[' || s[0] == ']') then StripBracketsLeft(s[1..]) else s
  }

  function StripBracketsRight(s: string): string {
    if s != [] && (s[|s| - 1] == '[' || s[|s| - 1] == ']') then StripBracketsRight(s[..|s| - 1]) else s
  }

  /** `s.strip("[]")`. */
  function StripBrackets(s: string): string { StripBracketsRight(StripBracketsLeft(s)) }

  function Get(fields: map<string, string>, key: string): string {
    if key in fields then fields[key] else ""
  }

  datatype Meta = Meta(klass: string, tags: seq<string>, harness: string)

  function LowerAll(tags: seq<string>, lower: string -> string): seq<string> {
    seq(|tags|, i requires 0 <= i < |tags| => lower(tags[i]))
  }

  /** `_note_meta`. */
  function NoteMeta(fields: map<string, string>, lower: string -> string): Meta {
    Meta(Strip(Get(fields, "class")),
         LowerAll(TagList(StripBrackets(Get(fields, "tags"))), lower),
         lower(Strip(Get(fields, "harness"))))
  }

  // ----- the printer -----

  /** The arguments of `add`, with the slug already formed and the date filled in. */
  datatype Note = Note(slug: string, description: string, kind: string, klass: string, tags: string,
                       harness: string, date: string, body: string)

  function Row(pad: string, key: string, value: string): string { pad + key + ": " + value }

  function TagsValue(tags: seq<string>): string { "[" + Join(tags, ", ") + "]" }

  /** One frontmatter field; an optional one is printed only when it has a value. */
  datatype Slot = Slot(key: string, value: string, always: bool)

  function TagsField(n: Note): string {
    if TagList(n.tags) == [] then "" else TagsValue(TagList(n.tags))
  }

  function TopSlots(n: Note): seq<Slot> { [Slot("name", n.slug, true), Slot("description", n.description, true)] }

  function MetaSlots(n: Note): seq<Slot> {
    [Slot("type", n.kind, true), Slot("class", n.klass, false), Slot("tags", TagsField(n), false),
     Slot("harness", n.harness, false), Slot("updated", n.date, true)]
  }

  /** The rows of the slots that are printed. */
  function Rows(pad: string, slots: seq<Slot>): seq<string> {
    if slots == [] then []
    else RowOf(pad, slots[0]) + Rows(pad, slots[1..])
  }

  function RowOf(pad: string, slot: Slot): seq<string> {
    if slot.always || slot.value != "" then [Row(pad, slot.key, slot.value)] else []
  }

  function HeaderLines(n: Note): seq<string> {
    Rows("", TopSlots(n)) + (["metadata:"] + Rows("  ", MetaSlots(n)))
  }

  function PrintNote(n: Note): string {
    "---\n" + Join(HeaderLines(n), "\n") + FENCE + "\n" + StripRight(n.body) + "\n"
  }

  lemma {:induction false} RowsConcat(pad: string, a: seq<Slot>, b: seq<Slot>)
    ensures Rows(pad, a + b) == Rows(pad, a) + Rows(pad, b)
  {
    if a == [] {
      assert a + b == b;
    } else {
      assert (a + b)[1..] == a[1..] + b;
      RowsConcat(pad, a[1..], b);
    }
  }

  lemma RowsOfOne(pad: string, slot: Slot)
    ensures Rows(pad, [slot]) == RowOf(pad, slot)
  {
    assert [slot][1..] == [];
  }

  /** Adding one slot adds the row of that slot, if it is printed. */
  lemma RowsPush(pad: string, slots: seq<Slot>, slot: Slot)
    ensures Rows(pad, slots + [slot]) == Rows(pad, slots) + RowOf(pad, slot)
  {
    RowsConcat(pad, slots, [slot]);
    RowsOfOne(pad, slot);
  }

  function Scoped(n: Note): seq<Slot> {
    [Slot("type", n.kind, true)] + [Slot("class", n.klass, false)] + [Slot("tags", TagsField(n), false)]
  }

  /** The first metadata lines, added one by one as their fields are present. */
  method BuildScope(n: Note) returns (meta: seq<string>)
    ensures meta == Rows("  ", Scoped(n))
  {
    ghost var slots := [Slot("type", n.kind, true)];
    meta := [Row("  ", "type", n.kind)];
    RowsOfOne("  ", slots[0]);
    if n.klass != "" {
      meta := meta + [Row("  ", "class", n.klass)];
    }
    RowsPush("  ", slots, Slot("class", n.klass, false));
    slots := slots + [Slot("class", n.klass, false)];
    var tags := TagList(n.tags);
    if tags != [] {
      meta := meta + [Row("  ", "tags", TagsValue(tags))];
    }
    RowsPush("  ", slots, Slot("tags", TagsField(n), false));
  }

  method BuildMeta(n: Note) returns (meta: seq<string>)
    ensures meta == Rows("  ", MetaSlots(n))
  {
    meta := BuildScope(n);
    if n.harness != "" {
      meta := meta + [Row("  ", "harness", n.harness)];
    }
    meta := meta + [Row("  ", "updated", n.date)];
    ghost var harness, updated := Slot("harness", n.harness, false), Slot("updated", n.date, true);
    RowsPush("  ", Scoped(n), harness);
    RowsPush("  ", Scoped(n) + [harness], updated);
    assert MetaSlots(n) == Scoped(n) + [harness] + [updated];
  }

  /** The note text `cmd_add` builds. */
  method BuildNote(n: Note) returns (text: string)
    ensures text == PrintNote(n)
  {
    var meta := BuildMeta(n);
    var top := [Row("", "name", n.slug), Row("", "description", n.description)];
    TopRows(n);
    text := "---\n" + Join(top + (["metadata:"] + meta), "\n") + FENCE + "\n" + StripRight(n.body) + "\n";
  }

  lemma TopRows(n: Note)
    ensures Rows("", TopSlots(n)) == [Row("", "name", n.slug), Row("", "description", n.description)]
  {
    var slots := TopSlots(n);
    assert slots[1..] == [slots[1]] && slots[1..][1..] == [];
    assert Rows("", slots[1..]) == [Row("", "description", n.description)] + Rows("", []);
  }

  // ----- finding the fence -----

  predicate PlainLine(l: string) { OneLine(l) && l != "" && l != "---" }

  ghost predicate PlainLines(lines: seq<string>) {
    lines != [] && forall l :: l in lines ==> PlainLine(l)
  }

  /** What follows the first line of the joined text starts with a line feed. */
  lemma AfterFirst(lines: seq<string>, tail: string)
    requires lines != []
    ensures var t := Join(lines, "\n") + FENCE + tail; var n := |lines[0]|;
      n < |t| && t[..n] == lines[0] && t[n] == '\n'
      && (|lines| > 1 ==> t[n + 1..] == Join(lines[1..], "\n") + FENCE + tail
                          && |Join(lines, "\n")| == n + 1 + |Join(lines[1..], "\n")|)
      && (|lines| == 1 ==> |Join(lines, "\n")| == n)
  {
    var t, n := Join(lines, "\n") + FENCE + tail, |lines[0]|;
    if |lines| == 1 {
      assert t[n] == FENCE[0];
    } else {
      var rest := Join(lines[1..], "\n") + FENCE + tail;
      assert t == lines[0] + "\n" + rest;
      assert t[n + 1..] == rest;
    }
  }

  lemma FenceChars(t: string, i: nat)
    ensures FenceAt(t, i) <==>
      i + 5 <= |t| && t[i] == '\n' && t[i + 1] == '-' && t[i + 2] == '-' && t[i + 3] == '-' && t[i + 4] == '\n'
  {
    if i + 5 <= |t| {
      assert t[i..i + 5] == [t[i], t[i + 1], t[i + 2], t[i + 3], t[i + 4]];
      assert FENCE == ['\n', '-', '-', '-', '\n'];
    }
  }

  /** No header line reads as the rest of a fence. */
  lemma NotAFenceLine(lines: seq<string>, tail: string)
    requires PlainLines(lines)
    ensures var t := Join(lines, "\n") + FENCE + tail;
      |t| < 4 || t[0] != '-' || t[1] != '-' || t[2] != '-' || t[3] != '\n'
  {
    var line := lines[0];
    var t, n := Join(lines, "\n") + FENCE + tail, |line|;
    AfterFirst(lines, tail);
    assert line in lines;
    assert forall k :: 0 <= k < n ==> t[k] == line[k] by {
      assert forall k :: 0 <= k < n ==> t[..n][k] == t[k];
    }
    if n == 3 {
      assert line == [line[0], line[1], line[2]];
      assert "---" == ['-', '-', '-'];
    } else if n > 3 {
      assert line[3] in line;
    }
  }

  /** Inside the joined lines nothing reads as the closing fence. */
  lemma {:induction false} NoEarlierFence(lines: seq<string>, tail: string, i: nat)
    requires PlainLines(lines) && i < |Join(lines, "\n")|
    ensures !FenceAt(Join(lines, "\n") + FENCE + tail, i)
    decreases |lines|
  {
    var t, n := Join(lines, "\n") + FENCE + tail, |lines[0]|;
    AfterFirst(lines, tail);
    FenceChars(t, i);
    if i < n {
      assert t[i] == t[..n][i];
      assert lines[0][i] in lines[0] && lines[0] in lines;
    } else {
      var rest := t[n + 1..];
      if i == n {
        NotAFenceLine(lines[1..], tail);
        assert forall k :: 0 <= k < 4 && k < |rest| ==> t[n + 1 + k] == rest[k];
      } else {
        NoEarlierFence(lines[1..], tail, i - n - 1);
        FenceChars(rest, i - n - 1);
        assert forall k :: i <= k < i + 5 && k < |t| ==> t[k] == rest[k - n - 1];
      }
    }
  }

  lemma {:induction false} FenceFound(t: string, from: nat, at: nat)
    requires from <= at && FenceAt(t, at) && forall i :: from <= i < at ==> !FenceAt(t, i)
    ensures FindFence(t, from) == Some(at)
    decreases at - from
  {
    if from < at { FenceFound(t, from + 1, at); }
  }

  /** The closing fence is found right after the header lines, whatever follows it. */
  lemma FenceAfterHeader(lines: seq<string>, tail: string)
    requires PlainLines(lines)
    ensures FindFence(Join(lines, "\n") + FENCE + tail, 0) == Some(|Join(lines, "\n")|)
  {
    var head := Join(lines, "\n");
    var t := head + FENCE + tail;
    forall i | 0 <= i < |head| ensures !FenceAt(t, i) { NoEarlierFence(lines, tail, i); }
    assert t[|head|..|head| + 5] == FENCE;
    FenceFound(t, 0, |head|);
  }

  // ----- reading one row back -----

  predicate Key(s: string) { s != "" && forall c :: c in s ==> KeyChar(c) }

  lemma {:induction false} KeyLengthOf(key: string, rest: string)
    requires (forall c :: c in key ==> KeyChar(c)) && (rest == "" || !KeyChar(rest[0]))
    ensures KeyLength(key + rest) == |key|
  {
    if key == "" {
      assert key + rest == rest;
    } else {
      assert key[0] in key && (key + rest)[1..] == key[1..] + rest;
      assert forall c :: c in key[1..] ==> c in key;
      KeyLengthOf(key[1..], rest);
    }
  }

  /** A printed row reads back as its key and value, and one without a value as nothing. */
  lemma RowReadBack(pad: string, key: string, value: string)
    requires pad == "" || pad == "  "
    requires Key(key) && Trimmed(value)
    ensures ParseLine(Row(pad, key, value)) == if value == "" then None else Some((key, value))
  {
    var bare := key + (": " + value);
    assert Row(pad, key, value) == pad + bare;
    BareStripped(key, ": " + value);
    PadStripped(pad, bare);
    KeyLengthOf(key, ": " + value);
    ColonValue(key, value);
    BareRead(pad + bare, bare, key, value);
  }

  lemma BareStripped(key: string, rest: string)
    requires Key(key)
    ensures StripLeft(key + rest) == key + rest
  {
    assert key[0] in key && (key + rest)[0] == key[0];
  }

  lemma BareRead(line: string, bare: string, key: string, value: string)
    requires StripLeft(line) == bare && key != "" && Trimmed(value)
    requires |key| < |bare| && KeyLength(bare) == |key| && bare[|key|] == ':' && bare[..|key|] == key
    requires StripLeft(bare[|key| + 1..]) == value
    ensures ParseLine(line) == if value == "" then None else Some((key, value))
  {
    var after := bare[|key| + 1..];
    StripTrimmed(value);
    assert Strip(after) == value;
  }

  lemma ColonValue(key: string, value: string)
    requires Trimmed(value)
    ensures var bare := key + (": " + value); var k := |key|;
      k < |bare| && bare[k] == ':' && bare[..k] == key && StripLeft(bare[k + 1..]) == value
  {
    var bare := key + (": " + value);
    assert bare[|key| + 1..] == " " + value && (" " + value)[1..] == value;
    StripTrimmed(value);
  }

  lemma PadStripped(pad: string, bare: string)
    requires (pad == "" || pad == "  ") && StripLeft(bare) == bare
    ensures StripLeft(pad + bare) == bare
  {
    if pad == "" {
      assert pad + bare == bare;
    } else {
      assert (pad + bare)[1..] == " " + bare && (" " + bare)[1..] == bare;
    }
  }

  // ----- reading all rows back -----

  /** What the slots mean: the last non-empty value of each key. */
  function Store(fields: map<string, string>, slots: seq<Slot>): map<string, string>
    decreases slots
  {
    if slots == [] then fields else Store(StoreOne(fields, slots[0]), slots[1..])
  }

  function StoreOne(fields: map<string, string>, slot: Slot): map<string, string> {
    if slot.value == "" then fields else fields[slot.key := slot.value]
  }

  ghost predicate Printable(slots: seq<Slot>) {
    forall s :: s in slots ==> Key(s.key) && Trimmed(s.value) && OneLine(s.value)
  }

  lemma CollectOne(pad: string, slot: Slot, more: seq<string>, fields: map<string, string>)
    requires (pad == "" || pad == "  ") && Key(slot.key) && Trimmed(slot.value)
    ensures Collect(RowOf(pad, slot) + more, fields) == Collect(more, StoreOne(fields, slot))
  {
    var lines := RowOf(pad, slot) + more;
    RowReadBack(pad, slot.key, slot.value);
    if slot.always || slot.value != "" {
      assert lines[0] == Row(pad, slot.key, slot.value) && lines[1..] == more;
    } else {
      assert lines == more;
    }
  }

  lemma {:induction false} CollectRows(pad: string, slots: seq<Slot>, rest: seq<string>, fields: map<string, string>)
    requires (pad == "" || pad == "  ") && Printable(slots)
    ensures Collect(Rows(pad, slots) + rest, fields) == Collect(rest, Store(fields, slots))
    decreases slots
  {
    var lines := Rows(pad, slots) + rest;
    if slots == [] {
      assert lines == rest;
    } else {
      assert slots[0] in slots;
      var more := Rows(pad, slots[1..]) + rest;
      assert lines == RowOf(pad, slots[0]) + more;
      CollectOne(pad, slots[0], more, fields);
      CollectRows(pad, slots[1..], rest, StoreOne(fields, slots[0]));
    }
  }

  ghost predicate DistinctKeys(slots: seq<Slot>) {
    forall i, j :: 0 <= i < j < |slots| ==> slots[i].key != slots[j].key
  }

  lemma {:induction false} StoreKeeps(fields: map<string, string>, slots: seq<Slot>, key: string)
    requires forall s :: s in slots ==> s.key != key
    ensures Get(Store(fields, slots), key) == Get(fields, key)
    decreases slots
  {
    if slots != [] {
      assert slots[0] in slots;
      StoreKeeps(StoreOne(fields, slots[0]), slots[1..], key);
    }
  }

  lemma {:induction false} StoreFinds(fields: map<string, string>, slots: seq<Slot>, i: nat)
    requires DistinctKeys(slots) && i < |slots| && Get(fields, slots[i].key) == ""
    ensures Get(Store(fields, slots), slots[i].key) == slots[i].value
    decreases slots
  {
    var next := StoreOne(fields, slots[0]);
    if i == 0 {
      assert forall s :: s in slots[1..] ==> exists j :: 1 <= j < |slots| && slots[j] == s;
      StoreKeeps(next, slots[1..], slots[0].key);
    } else {
      assert slots[1..][i - 1] == slots[i];
      StoreFinds(next, slots[1..], i - 1);
    }
  }

  // ----- tags -----

  /** Text a tag may hold: one line, no bracket. */
  predicate Plain(s: string) { OneLine(s) && '[' !in s && ']' !in s }

  predicate Tag(s: string) { s != "" && Trimmed(s) && Plain(s) && ',' !in s }

  lemma {:induction false} StripShape(s: string)
    ensures Trimmed(Strip(s))
    ensures forall c :: c in Strip(s) ==> c in s
  {
    StripLeftShape(s);
    StripRightShape(StripLeft(s));
  }

  lemma {:induction false} StripLeftShape(s: string)
    ensures var r := StripLeft(s); (r == "" || !IsSpace(r[0])) && forall c :: c in r ==> c in s
  {
    if s != "" && IsSpace(s[0]) { StripLeftShape(s[1..]); }
  }

  lemma {:induction false} StripRightShape(s: string)
    ensures var r := StripRight(s);
      (r == "" || (!IsSpace(r[|r| - 1]) && r[0] == s[0])) && forall c :: c in r ==> c in s
  {
    if s != "" && IsSpace(s[|s| - 1]) { StripRightShape(s[..|s| - 1]); }
  }

  /** The pieces between commas hold no comma, and only characters of the text. */
  lemma {:induction false} PiecesShape(s: string)
    ensures forall p :: p in SplitComma(s) ==> ',' !in p && forall c :: c in p ==> c in s
    decreases |s|
  {
    var k := CommaAt(s);
    if k < |s| {
      PiecesShape(s[k + 1..]);
      assert forall p :: p in SplitComma(s) ==> p == s[..k] || p in SplitComma(s[k + 1..]);
      assert forall c :: c in s[k + 1..] ==> c in s;
    }
  }

  lemma {:induction false} StripAllTags(parts: seq<string>)
    requires forall p :: p in parts ==> ',' !in p && Plain(p)
    ensures forall t :: t in StripAll(parts) ==> Tag(t)
  {
    if parts != [] {
      assert parts[0] in parts;
      StripShape(parts[0]);
      StripAllTags(parts[1..]);
    }
  }

  /** Every tag taken from a plain argument is trimmed, non-empty and free of commas. */
  lemma TagListShape(s: string)
    requires Plain(s)
    ensures forall t :: t in TagList(s) ==> Tag(t)
  {
    PiecesShape(s);
    StripAllTags(SplitComma(s));
  }

  lemma {:induction false} CommaAfter(s: string, rest: string)
    requires ',' !in s && (rest == "" || rest[0] == ',')
    ensures CommaAt(s + rest) == |s|
  {
    if s == "" {
      assert s + rest == rest;
    } else {
      assert (s + rest)[1..] == s[1..] + rest;
      CommaAfter(s[1..], rest);
    }
  }

  lemma TagsAfterComma(first: string, rest: string)
    requires ',' !in first
    ensures TagList(first + ("," + rest)) == (if Strip(first) == "" then [] else [Strip(first)]) + TagList(rest)
  {
    var text := first + ("," + rest);
    CommaAfter(first, "," + rest);
    assert text[..|first|] == first && text[|first| + 1..] == rest;
    var more := SplitComma(rest);
    assert ([first] + more)[1..] == more;
  }

  /** Splitting the printed tags at the commas and trimming gives the tags back. */
  lemma {:induction false} TagsReadBack(pad: string, tags: seq<string>)
    requires (pad == "" || pad == " ") && tags != [] && forall t :: t in tags ==> Tag(t)
    ensures TagList(pad + Join(tags, ", ")) == tags
    decreases |tags|
  {
    var first := pad + tags[0];
    assert tags[0] in tags;
    FirstPiece(pad, tags[0]);
    if |tags| == 1 {
      CommaAfter(first, "");
      assert first + "" == first;
      assert SplitComma(first) == [first];
      assert StripAll([first]) == [tags[0]] + StripAll([]);
    } else {
      var rest := " " + Join(tags[1..], ", ");
      assert pad + Join(tags, ", ") == first + ("," + rest);
      TagsAfterComma(first, rest);
      TagsReadBack(" ", tags[1..]);
    }
  }

  lemma FirstPiece(pad: string, tag: string)
    requires (pad == "" || pad == " ") && Tag(tag)
    ensures Strip(pad + tag) == tag && ',' !in pad + tag
  {
    StripTrimmed(tag);
    if pad == "" {
      assert pad + tag == tag;
    } else {
      assert (pad + tag)[1..] == tag;
    }
  }

  lemma {:induction false} JoinPlain(tags: seq<string>)
    requires forall t :: t in tags ==> Plain(t)
    ensures Plain(Join(tags, ", "))
  {
    if |tags| > 0 {
      assert tags[0] in tags;
      JoinPlain(tags[1..]);
    }
  }

  lemma BracketsStripped(s: string)
    requires Plain(s)
    ensures StripBrackets("[" + s + "]") == s
  {
    var inner := s + "]";
    assert "[" + s + "]" == "[" + inner && ("[" + inner)[1..] == inner;
    if s == "" {
      assert inner == "]" && inner[1..] == "";
      assert StripBracketsLeft(inner) == "";
    } else {
      assert s[0] in s && s[|s| - 1] in s;
      assert StripBracketsLeft(inner) == inner;
      assert inner[..|inner| - 1] == s && StripBracketsRight(s) == s;
    }
  }

  // ----- the round trip -----

  predicate Field(s: string) { Trimmed(s) && OneLine(s) }

  /** What the printer is given in good order; nothing is asked of the body. */
  predicate GoodNote(n: Note) {
    && Field(n.slug) && Field(n.description) && Field(n.kind) && Field(n.klass)
    && Field(n.harness) && Field(n.date) && Plain(n.tags)
  }

  lemma TagsFieldGood(n: Note)
    requires GoodNote(n)
    ensures Field(TagsField(n))
  {
    TagListShape(n.tags);
    JoinPlain(TagList(n.tags));
    var joined := Join(TagList(n.tags), ", ");
    assert forall c :: c in "[" + joined + "]" ==> c == '[' || c == ']' || c in joined;
  }

  lemma KeysAreKeys()
    ensures Key("name") && Key("description") && Key("type") && Key("class") && Key("tags")
    ensures Key("harness") && Key("updated")
  {
  }

  lemma SlotKeys(n: Note)
    ensures forall i :: 0 <= i < 2 ==> Key(TopSlots(n)[i].key)
    ensures forall i :: 0 <= i < 5 ==> Key(MetaSlots(n)[i].key)
  {
    KeysAreKeys();
  }

  lemma SlotValues(n: Note)
    requires GoodNote(n)
    ensures forall i :: 0 <= i < 2 ==> Field(TopSlots(n)[i].value)
    ensures forall i :: 0 <= i < 5 ==> Field(MetaSlots(n)[i].value)
  {
    TagsFieldGood(n);
  }

  lemma SlotsPrintable(n: Note)
    requires GoodNote(n)
    ensures Printable(TopSlots(n)) && Printable(MetaSlots(n))
  {
    SlotKeys(n);
    SlotValues(n);
    GoodSlots(TopSlots(n));
    GoodSlots(MetaSlots(n));
  }

  lemma GoodSlots(slots: seq<Slot>)
    requires forall i :: 0 <= i < |slots| ==> Key(slots[i].key)
    requires forall i :: 0 <= i < |slots| ==> Field(slots[i].value)
    ensures Printable(slots)
  {
  }

  lemma FrontmatterOf(header: seq<string>, tail: string)
    requires PlainLines(header)
    ensures Frontmatter("---\n" + (Join(header, "\n") + FENCE + tail)) == Collect(header, map[])
  {
    var inner := Join(header, "\n") + FENCE + tail;
    var text := "---\n" + inner;
    FenceAfterHeader(header, tail);
    SplitJoin(header);
    assert text[..4] == "---\n" && text[4..] == inner;
    assert inner[..|Join(header, "\n")|] == Join(header, "\n");
  }

  function Slots(n: Note): seq<Slot> { TopSlots(n) + MetaSlots(n) }

  /** The whole frontmatter is read back, whatever the body. */
  lemma HeaderReadBack(n: Note)
    requires GoodNote(n)
    ensures Frontmatter(PrintNote(n)) == Store(map[], Slots(n))
  {
    HeaderPlain(n);
    CollectHeader(n);
    PrintedShape(n, HeaderLines(n));
    FrontmatterOf(HeaderLines(n), "\n" + StripRight(n.body) + "\n");
  }

  lemma PrintedShape(n: Note, header: seq<string>)
    requires header == HeaderLines(n)
    ensures PrintNote(n) == "---\n" + (Join(header, "\n") + FENCE + ("\n" + StripRight(n.body) + "\n"))
  {
    var block, body := Join(header, "\n"), StripRight(n.body);
    assert "---\n" + block + FENCE + "\n" + body + "\n" == "---\n" + (block + FENCE + ("\n" + body + "\n"));
  }

  lemma HeaderPlain(n: Note)
    requires GoodNote(n)
    ensures PlainLines(HeaderLines(n))
  {
    SlotsPrintable(n);
    RowsPlain("", TopSlots(n));
    RowsPlain("  ", MetaSlots(n));
    MetadataBetween(Rows("", TopSlots(n)), Rows("  ", MetaSlots(n)));
  }

  lemma MetadataBetween(top: seq<string>, meta: seq<string>)
    requires forall l :: l in top ==> PlainLine(l)
    requires forall l :: l in meta ==> PlainLine(l)
    ensures PlainLines(top + (["metadata:"] + meta))
  {
    var lines := top + (["metadata:"] + meta);
    assert lines[|top|] == "metadata:";
    assert PlainLine("metadata:");
    assert forall l :: l in lines ==> l in top || l == "metadata:" || l in meta;
  }

  lemma RowPlain(pad: string, slot: Slot)
    requires (pad == "" || pad == "  ") && Key(slot.key) && OneLine(slot.value)
    ensures PlainLine(Row(pad, slot.key, slot.value))
  {
    var l := Row(pad, slot.key, slot.value);
    assert l == pad + (slot.key + ": " + slot.value);
    assert l[|pad|] == slot.key[0] && slot.key[0] in slot.key;
  }

  lemma {:induction false} RowsPlain(pad: string, slots: seq<Slot>)
    requires (pad == "" || pad == "  ") && Printable(slots)
    ensures forall l :: l in Rows(pad, slots) ==> PlainLine(l)
  {
    if slots != [] {
      assert slots[0] in slots;
      RowPlain(pad, slots[0]);
      RowsPlain(pad, slots[1..]);
    }
  }

  lemma CollectHeader(n: Note)
    requires GoodNote(n)
    ensures Collect(HeaderLines(n), map[]) == Store(map[], Slots(n))
  {
    SlotsPrintable(n);
    var rest := Rows("  ", MetaSlots(n));
    CollectRows("", TopSlots(n), ["metadata:"] + rest, map[]);
    BareLine();
    assert (["metadata:"] + rest)[1..] == rest;
    CollectRows("  ", MetaSlots(n), [], Store(map[], TopSlots(n)));
    assert rest + [] == rest;
    StoreTwice(map[], TopSlots(n), MetaSlots(n));
  }

  /** The `metadata:` line itself carries no value and is not a field. */
  lemma BareLine()
    ensures ParseLine("metadata:") == None
  {
    var line := "metadata" + ":";
    assert line == "metadata:";
    KeyLengthOf("metadata", ":");
    assert StripLeft(line) == line;
    assert line[9..] == "";
  }

  lemma {:induction false} StoreTwice(fields: map<string, string>, a: seq<Slot>, b: seq<Slot>)
    ensures Store(Store(fields, a), b) == Store(fields, a + b)
    decreases a
  {
    if a == [] {
      assert a + b == b;
    } else {
      assert (a + b)[1..] == a[1..] + b;
      StoreTwice(StoreOne(fields, a[0]), a[1..], b);
    }
  }

  lemma KeysDiffer()
    ensures "name" != "description" && "name" != "type" && "name" != "class" && "name" != "tags"
    ensures "name" != "harness" && "name" != "updated" && "description" != "type" && "description" != "class"
    ensures "description" != "tags" && "description" != "harness" && "description" != "updated"
    ensures "type" != "class" && "type" != "tags" && "type" != "harness" && "type" != "updated"
    ensures "class" != "tags" && "class" != "harness" && "class" != "updated"
    ensures "tags" != "harness" && "tags" != "updated" && "harness" != "updated"
  {
    assert "name"[0] == 'n' && "description"[0] == 'd' && "class"[0] == 'c';
    assert "harness"[0] == 'h' && "updated"[0] == 'u';
    assert "type"[1] == 'y' && "tags"[1] == 'a' && "type"[0] == "tags"[0] == 't';
  }

  lemma SlotsDistinct(n: Note)
    ensures DistinctKeys(Slots(n))
  {
    KeysDistinct();
    assert forall i :: 0 <= i < 7 ==> Slots(n)[i].key == KEYS[i];
  }

  const KEYS: seq<string> := ["name", "description", "type", "class", "tags", "harness", "updated"]

  lemma KeysDistinct()
    ensures forall i, j :: 0 <= i < j < |KEYS| ==> KEYS[i] != KEYS[j]
  {
    KeysDiffer();
  }

  /** A field reads back as its value, and as "" when it was empty and so not printed. */
  lemma FieldReadBack(n: Note, i: nat)
    requires GoodNote(n) && i < |Slots(n)|
    ensures Get(Frontmatter(PrintNote(n)), Slots(n)[i].key) == Slots(n)[i].value
  {
    HeaderReadBack(n);
    SlotsDistinct(n);
    StoreFinds(map[], Slots(n), i);
  }

  lemma FieldsReadBack(n: Note)
    requires GoodNote(n)
    ensures var f := Frontmatter(PrintNote(n));
      && Get(f, "name") == n.slug && Get(f, "description") == n.description
      && Get(f, "type") == n.kind && Get(f, "class") == n.klass && Get(f, "tags") == TagsField(n)
      && Get(f, "harness") == n.harness && Get(f, "updated") == n.date
  {
    FieldReadBack(n, 0);
    FieldReadBack(n, 1);
    FieldReadBack(n, 2);
    FieldReadBack(n, 3);
    FieldReadBack(n, 4);
    FieldReadBack(n, 5);
    FieldReadBack(n, 6);
  }

  lemma TagsFieldReadBack(n: Note)
    requires GoodNote(n)
    ensures TagList(StripBrackets(TagsField(n))) == TagList(n.tags)
  {
    var tags := TagList(n.tags);
    TagListShape(n.tags);
    if tags == [] {
      assert TagList("") == [] by {
        assert SplitComma("") == [""];
        assert StripAll([""]) == [] + StripAll([]);
      }
    } else {
      JoinPlain(tags);
      BracketsStripped(Join(tags, ", "));
      TagsReadBack("", tags);
      assert "" + Join(tags, ", ") == Join(tags, ", ");
    }
  }

  /** Round trip: the readers recover every field the note was printed from, for any body. */
  lemma NoteRoundTrip(n: Note, lower: string -> string)
    requires GoodNote(n)
    ensures var f := Frontmatter(PrintNote(n));
      && Get(f, "name") == n.slug && Get(f, "description") == n.description
      && Get(f, "type") == n.kind && Get(f, "updated") == n.date
      && NoteMeta(f, lower) == Meta(n.klass, LowerAll(TagList(n.tags), lower), lower(n.harness))
  {
    FieldsReadBack(n);
    TagsFieldReadBack(n);
    StripTrimmed(n.klass);
    StripTrimmed(n.harness);
  }
}

/** The few text operations of Python the models share. */
module PyText {

  /** `str.isspace` on one character. */
  predicate IsSpace(c: char) {
    || '\t' <= c <= '\r' || '\U{1C}' <= c <= ' ' || c == '\U{85}' || c == '\U{A0}' || c == '\U{1680}'
    || '\U{2000}' <= c <= '\U{200A}' || c == '\U{2028}' || c == '\U{2029}' || c == '\U{202F}'
    || c == '\U{205F}' || c == '\U{3000}'
  }

  /** White space, by code point. */
  lemma SpaceExactly(c: char)
    ensures IsSpace(c) <==>
      || (c as int) in {9, 10, 11, 12, 13, 28, 29, 30, 31, 32, 133, 160, 5760, 8232, 8233, 8239, 8287, 12288}
      || (c as int) in {8192, 8193, 8194, 8195, 8196, 8197, 8198, 8199, 8200, 8201, 8202}
  {
  }

  function StripLeft(s: string): string {
    if s != [] && IsSpace(s[0]) then StripLeft(s[1..]) else s
  }

  function StripRight(s: string): string {
    if s != [] && IsSpace(s[|s| - 1]) then StripRight(s[..|s| - 1]) else s
  }

  /** `str.strip`. */
  function Strip(s: string): string { StripRight(StripLeft(s)) }

  predicate Trimmed(s: string) { s == [] || (!IsSpace(s[0]) && !IsSpace(s[|s| - 1])) }

  predicate Blank(s: string) { forall c :: c in s ==> IsSpace(c) }

  /** Stripping takes white space off both ends, all of it there and nothing else. */
  lemma StripExactly(s: string, t: string)
    ensures Strip(s) == t <==>
      Trimmed(t) && exists i, j :: 0 <= i <= j <= |s| && s[i..j] == t && Blank(s[..i]) && Blank(s[j..])
  {
    var i, j := StripEnds(s);
    if t != Strip(s) && Trimmed(t) {
      forall k, l | 0 <= k <= l <= |s| && s[k..l] == t ensures !(Blank(s[..k]) && Blank(s[l..])) {
        if Blank(s[..k]) && Blank(s[l..]) { SameCore(s, i, j, k, l); }
      }
    }
  }

  /** Where the stripped text stands. */
  lemma StripEnds(s: string) returns (i: nat, j: nat)
    ensures i <= j <= |s| && Strip(s) == s[i..j] && Blank(s[..i]) && Blank(s[j..]) && Trimmed(s[i..j])
  {
    i := LeftEnd(s);
    var k := RightEnd(s[i..]);
    j := i + k;
    assert s[i..][..k] == s[i..j] && s[i..][k..] == s[j..];
  }

  lemma {:induction false} LeftEnd(s: string) returns (i: nat)
    ensures i <= |s| && StripLeft(s) == s[i..] && Blank(s[..i]) && (i < |s| ==> !IsSpace(s[i]))
  {
    i := 0;
    if s != [] && IsSpace(s[0]) {
      var k := LeftEnd(s[1..]);
      i := k + 1;
      assert s[..i] == [s[0]] + s[1..][..k];
    }
  }

  lemma {:induction false} RightEnd(s: string) returns (j: nat)
    ensures j <= |s| && StripRight(s) == s[..j] && Blank(s[j..]) && (j > 0 ==> !IsSpace(s[j - 1]))
  {
    j := |s|;
    if s != [] && IsSpace(s[|s| - 1]) {
      var t := s[..|s| - 1];
      j := RightEnd(t);
      assert s[j..] == t[j..] + [s[|s| - 1]];
    }
  }

  /** With nothing but white space around a piece, every other character lies in it. */
  lemma CoreHolds(s: string, i: nat, j: nat)
    requires i <= j <= |s| && Blank(s[..i]) && Blank(s[j..])
    ensures forall p :: 0 <= p < |s| && !IsSpace(s[p]) ==> i <= p < j
  {
    forall p | 0 <= p < |s| && !(i <= p < j) ensures IsSpace(s[p]) {
      assert if p < i then s[..i][p] == s[p] else s[j..][p - j] == s[p];
    }
  }

  /** Two trimmed pieces with nothing but white space around them are the same text. */
  lemma SameCore(s: string, i: nat, j: nat, k: nat, l: nat)
    requires i <= j <= |s| && k <= l <= |s| && Trimmed(s[i..j]) && Trimmed(s[k..l])
    requires Blank(s[..i]) && Blank(s[j..]) && Blank(s[..k]) && Blank(s[l..])
    ensures s[i..j] == s[k..l]
  {
    CoreHolds(s, i, j);
    CoreHolds(s, k, l);
    assert i < j ==> s[i..j][0] == s[i] && s[i..j][j - i - 1] == s[j - 1];
    assert k < l ==> s[k..l][0] == s[k] && s[k..l][l - k - 1] == s[l - 1];
  }

  lemma StripTrimmed(s: string)
    requires Trimmed(s)
    ensures StripLeft(s) == s && StripRight(s) == s && Strip(s) == s
  {
  }

  /** The characters `str.splitlines` breaks at. */
  predicate IsBreak(c: char) {
    '\n' <= c <= '\r' || '\U{1C}' <= c <= '\U{1E}' || c == '\U{85}' || c == '\U{2028}' || c == '\U{2029}'
  }

  predicate OneLine(s: string) { forall c :: c in s ==> !IsBreak(c) }

  function LineEnd(s: string): (r: nat)
    ensures r <= |s|
  {
    if s == [] || IsBreak(s[0]) then 0 else 1 + LineEnd(s[1..])
  }

  /** A carriage return and line feed together are one break. */
  function BreakWidth(s: string, k: nat): (r: nat)
    requires k < |s|
    ensures 1 <= r && k + r <= |s|
  {
    if s[k] == '\r' && k + 1 < |s| && s[k + 1] == '\n' then 2 else 1
  }

  /** `str.splitlines`. */
  function SplitLines(s: string): seq<string>
    decreases |s|
  {
    if s == [] then []
    else
      var k := LineEnd(s);
      if k == |s| then [s] else [s[..k]] + SplitLines(s[k + BreakWidth(s, k)..])
  }

  /** Line breaks, by code point; each of them is white space. */
  lemma BreakExactly(c: char)
    ensures IsBreak(c) <==> (c as int) in {10, 11, 12, 13, 28, 29, 30, 133, 8232, 8233}
    ensures IsBreak(c) ==> IsSpace(c)
  {
  }

  /** What ends a line before `rest`: a carriage return and line feed, or any one break that is not
      the first half of such a pair. */
  predicate EndsLine(end: string, rest: string) {
    || end == "\r\n"
    || (&& |end| == 1 && (end[0] as int) in {10, 11, 12, 13, 28, 29, 30, 133, 8232, 8233}
        && !(end[0] == '\r' && rest != "" && rest[0] == '\n'))
  }

  /** How every text falls into lines: no text has none, a line without an end is one unless it is
      empty, and a line with its end comes before the lines of the rest. */
  lemma SplitMeaning(line: string, end: string, rest: string)
    requires OneLine(line)
    ensures SplitLines("") == []
    ensures line != "" ==> SplitLines(line) == [line]
    ensures EndsLine(end, rest) ==> SplitLines(line + end + rest) == [line] + SplitLines(rest)
  {
    LineStands(line, "");
    assert line + "" == line;
    if EndsLine(end, rest) {
      var s := line + end + rest;
      assert line + (end + rest) == s;
      BreakExactly(end[0]);
      LineStands(line, end + rest);
      assert s[|line|] == end[0] && (|line| + 1 < |s| ==> s[|line| + 1] == (end + rest)[1]);
      assert s[..|line|] == line && s[|line| + |end|..] == rest;
    }
  }

  lemma {:induction false} LineStands(line: string, rest: string)
    requires OneLine(line) && (rest == "" || IsBreak(rest[0]))
    ensures LineEnd(line + rest) == |line|
  {
    if line == "" {
      assert line + rest == rest;
    } else {
      assert (line + rest)[0] == line[0] && (line + rest)[1..] == line[1..] + rest;
      LineStands(line[1..], rest);
    }
  }

  lemma {:induction false} FirstLineIsOneLine(s: string)
    requires s != ""
    ensures SplitLines(s) != [] && OneLine(SplitLines(s)[0])
  {
    LineHasNoBreak(s);
  }

  lemma {:induction false} LineHasNoBreak(s: string)
    ensures OneLine(s[..LineEnd(s)])
  {
    if s != "" && !IsBreak(s[0]) {
      LineHasNoBreak(s[1..]);
      assert s[..LineEnd(s)] == [s[0]] + s[1..][..LineEnd(s[1..])];
    }
  }

  // ----- decimal numbers -----

  function Digit(d: nat): (c: char)
    requires d < 10
  {
    '0' + d as char
  }

  function Decimal(n: nat): (s: string)
    ensures s != ""
  {
    if n < 10 then [Digit(n)] else Decimal(n / 10) + [Digit(n % 10)]
  }

  function Zeros(k: nat): (s: string)
    ensures |s| == k
  {
    if k == 0 then "" else ['0'] + Zeros(k - 1)
  }

  /** `f"{n:04d}"`. */
  function Padded(n: nat): string {
    Zeros(if |Decimal(n)| < 4 then 4 - |Decimal(n)| else 0) + Decimal(n)
  }

  /** Reading digits back as a number. */
  function ReadDigits(s: string): int {
    if s == "" then 0 else 10 * ReadDigits(s[..|s| - 1]) + (s[|s| - 1] as int - '0' as int)
  }

  lemma {:induction false} DecimalReadBack(pad: string, n: nat)
    requires ReadDigits(pad) == 0
    ensures ReadDigits(pad + Decimal(n)) == n
    decreases n
  {
    var s := pad + Decimal(n);
    if n < 10 {
      assert s[..|s| - 1] == pad;
    } else {
      DecimalReadBack(pad, n / 10);
      assert s[..|s| - 1] == pad + Decimal(n / 10);
    }
  }

  lemma {:induction false} ZerosReadBack(k: nat)
    ensures ReadDigits(Zeros(k)) == 0
    ensures forall c :: c in Zeros(k) ==> c == '0'
  {
    if k > 0 {
      ZerosReadBack(k - 1);
      ZerosLast(k);
    }
  }

  lemma {:induction false} ZerosLast(k: nat)
    requires k > 0
    ensures Zeros(k) == Zeros(k - 1) + ['0']
  {
    if k > 1 { ZerosLast(k - 1); }
  }

  lemma PaddedReadBack(n: nat)
    ensures ReadDigits(Padded(n)) == n
  {
    var k: nat := if |Decimal(n)| < 4 then 4 - |Decimal(n)| else 0;
    ZerosReadBack(k);
    DecimalReadBack(Zeros(k), n);
  }

  predicate Digits(s: string) { forall i :: 0 <= i < |s| ==> '0' <= s[i] <= '9' }

  /** A padded number is the one text of its digits with at least four of them, and with no more
      than that if it starts with a zero. */
  lemma PaddedExactly(n: nat, t: string)
    ensures t == Padded(n) <==> Digits(t) && ReadDigits(t) == n && |t| >= 4 && (|t| == 4 || t[0] != '0')
  {
    PaddedReadBack(n);
    DecimalShape(n);
    ZerosDigits(|Padded(n)| - |Decimal(n)|);
    if Digits(t) && ReadDigits(t) == n && |t| >= 4 && (|t| == 4 || t[0] != '0') {
      var k := LeadingZeros(t);
      assert k > 0 ==> t[0] == Zeros(k)[0] == '0';
    }
  }

  lemma {:induction false} ZerosDigits(k: nat)
    ensures forall i :: 0 <= i < k ==> Zeros(k)[i] == '0'
  {
    if k > 0 { ZerosDigits(k - 1); }
  }

  lemma {:induction false} DecimalShape(n: nat)
    ensures Digits(Decimal(n)) && (n > 0 ==> Decimal(n)[0] != '0') && (n < 10 ==> |Decimal(n)| == 1)
    decreases n
  {
    if n >= 10 { DecimalShape(n / 10); }
  }

  /** A text of digits is the number it reads as, after zeros. */
  lemma {:induction false} LeadingZeros(t: string) returns (k: nat)
    requires t != "" && Digits(t)
    ensures ReadDigits(t) >= 0 && t == Zeros(k) + Decimal(ReadDigits(t))
    decreases t
  {
    k := 0;
    assert t == [t[0]] + t[1..];
    if t[0] != '0' || |t| == 1 {
      var n := Canonical(t);
    } else {
      k := LeadingZeros(t[1..]);
      k := k + 1;
      ReadAfterZero(t[1..]);
    }
  }

  lemma {:induction false} ReadAfterZero(t: string)
    ensures ReadDigits(['0'] + t) == ReadDigits(t)
  {
    var s := ['0'] + t;
    if t == "" {
      assert s[..|s| - 1] == "";
    } else {
      assert s[..|s| - 1] == ['0'] + t[..|t| - 1];
      ReadAfterZero(t[..|t| - 1]);
    }
  }

  lemma ReadAppend(front: string, d: nat)
    requires d < 10
    ensures ReadDigits(front + [Digit(d)]) == 10 * ReadDigits(front) + d
  {
    var t := front + [Digit(d)];
    assert t[..|t| - 1] == front && Digit(d) as int - '0' as int == d;
  }

  lemma DecimalAppend(n: nat, m: nat, d: nat)
    requires d < 10 && m > 0 && n == 10 * m + d
    ensures Decimal(n) == Decimal(m) + [Digit(d)]
  {
    assert n / 10 == m && n % 10 == d;
  }

  lemma {:induction false} Canonical(t: string) returns (n: nat)
    requires t != "" && Digits(t) && (t[0] != '0' || |t| == 1)
    ensures ReadDigits(t) == n && t == Decimal(n) && (t[0] != '0' ==> n > 0)
    decreases |t|
  {
    var front, d := t[..|t| - 1], t[|t| - 1] as int - '0' as int;
    assert t == front + [Digit(d)];
    ReadAppend(front, d);
    n := d;
    if front != "" {
      assert front[0] == t[0];
      var m := Canonical(front);
      n := 10 * m + d;
      DecimalAppend(n, m, d);
    }
  }
}

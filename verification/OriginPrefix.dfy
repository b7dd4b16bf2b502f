/** When a redirect target stays on its own origin. A browser reads a path that starts with
    one slash as internal, and two slashes, or a slash and a backslash, as naming another host. */
module OriginPrefix {

  predicate IsSeparator(c: char) { c == '/' || c == '\\' }

  /** The target stays on the origin. */
  predicate OnOrigin(t: string) { t != "" && t[0] == '/' && (|t| == 1 || !IsSeparator(t[1])) }

  /** `_has_internal_path_prefix`. */
  predicate InternalPrefix(t: string) { |t| > 1 && t[0] == '/' && !IsSeparator(t[1]) }

  /** The prefix rule is exact: a literal prefix keeps every text built on it on the origin,
      whatever follows, if and only if it passes the check. */
  lemma PrefixExactly(prefix: string)
    ensures (forall rest :: OnOrigin(prefix + rest)) <==> InternalPrefix(prefix)
  {
    if InternalPrefix(prefix) {
      forall rest ensures OnOrigin(prefix + rest) {
        assert (prefix + rest)[0] == prefix[0] && (prefix + rest)[1] == prefix[1];
      }
    } else if prefix == "" {
      assert !OnOrigin(prefix + "//");
    } else {
      var t := prefix + "//";
      assert t[0] == prefix[0] && t[1] == (if |prefix| > 1 then prefix[1] else '/');
      assert !OnOrigin(prefix + "//");
    }
  }

  function TrimLeft(t: string): string { if t != "" && t[0] == '/' then TrimLeft(t[1..]) else t }

  function TrimRight(t: string): string {
    if t != "" && t[|t| - 1] == '/' then TrimRight(t[..|t| - 1]) else t
  }

  /** `t.strip("/")`, or `t.lstrip("/")`. */
  function TrimSlashes(t: string, both: bool): string { if both then TrimRight(TrimLeft(t)) else TrimLeft(t) }

  lemma {:induction false} TrimLeftShape(t: string)
    ensures TrimLeft(t) == "" || TrimLeft(t)[0] != '/'
  {
    if t != "" && t[0] == '/' { TrimLeftShape(t[1..]); }
  }

  lemma {:induction false} TrimRightShape(t: string)
    ensures TrimRight(t) == "" || TrimRight(t)[0] == t[0]
  {
    if t != "" && t[|t| - 1] == '/' { TrimRightShape(t[..|t| - 1]); }
  }

  predicate Slashes(t: string) { forall i :: 0 <= i < |t| ==> t[i] == '/' }

  lemma {:induction false} LeftTrimmed(t: string) returns (i: nat)
    ensures i <= |t| && TrimLeft(t) == t[i..] && Slashes(t[..i]) && (i < |t| ==> t[i] != '/')
  {
    i := 0;
    if t != "" && t[0] == '/' {
      i := LeftTrimmed(t[1..]);
      i := i + 1;
      assert t[..i] == [t[0]] + t[1..][..i - 1];
    }
  }

  lemma {:induction false} RightTrimmed(t: string) returns (j: nat)
    ensures j <= |t| && TrimRight(t) == t[..j] && Slashes(t[j..]) && (j > 0 ==> t[j - 1] != '/')
  {
    j := |t|;
    if t != "" && t[|t| - 1] == '/' {
      j := RightTrimmed(t[..|t| - 1]);
      assert t[j..] == t[..|t| - 1][j..] + [t[|t| - 1]];
    }
  }

  /** Stripping takes the slashes off the start, and off the end only if asked to. */
  lemma TrimMeaning(t: string, both: bool) returns (i: nat, j: nat)
    ensures i <= j <= |t| && TrimSlashes(t, both) == t[i..j] && Slashes(t[..i]) && Slashes(t[j..])
    ensures i < j ==> t[i] != '/' && (both ==> t[j - 1] != '/')
    ensures !both ==> j == |t|
  {
    i := LeftTrimmed(t);
    j := |t|;
    if both {
      var k := RightTrimmed(t[i..]);
      j := i + k;
      assert t[i..][..k] == t[i..j] && t[i..][k..] == t[j..];
    }
  }

  /** The strip rule is not: a slash in front of a text stripped of slashes stays on the origin
      if and only if the stripped text does not begin with a backslash. */
  lemma TrimmedExactly(t: string, both: bool)
    ensures var trimmed := TrimSlashes(t, both);
      OnOrigin("/" + trimmed) <==> trimmed == "" || trimmed[0] != '\\'
  {
    TrimLeftShape(t);
    TrimRightShape(TrimLeft(t));
  }

  predicate Absolute(t: string) { t != "" && t[0] == '/' }

  /** `os.path.join` of two parts: an absolute second part replaces the first. */
  function PathJoined(a: string, b: string): string {
    if Absolute(b) then b else a + (if a == "" || a[|a| - 1] == '/' then "" else "/") + b
  }

  /** The rule for a path join behind an origin-fixing first part: the join stays on the origin if
      and only if the second part is not absolute, or stays on it by itself. */
  lemma PathExactly(prefix: string, t: string)
    requires InternalPrefix(prefix)
    ensures OnOrigin(PathJoined(prefix, t)) <==> !Absolute(t) || OnOrigin(t)
  {
    if !Absolute(t) {
      var path := PathJoined(prefix, t);
      assert path[0] == prefix[0] && path[1] == prefix[1];
    }
  }

  // ----- the literal prefix of a percent template -----

  /** The literal text from `i` to the first conversion, `%%` standing for one percent sign. */
  function PercentPrefix(t: string, i: nat): string
    decreases |t| - i
  {
    if i >= |t| then ""
    else if t[i] != '%' then [t[i]] + PercentPrefix(t, i + 1)
    else if i + 1 < |t| && t[i + 1] == '%' then ['%'] + PercentPrefix(t, i + 2)
    else ""
  }

  /** `_percent_literal_prefix`. */
  method PercentLiteralPrefix(template: string) returns (prefix: string)
    ensures prefix == PercentPrefix(template, 0)
  {
    prefix := "";
    var index := 0;
    while index < |template|
      invariant prefix + PercentPrefix(template, index) == PercentPrefix(template, 0)
    {
      if template[index] != '%' {
        prefix := prefix + [template[index]];
        index := index + 1;
        continue;
      }
      if index + 1 < |template| && template[index + 1] == '%' {
        prefix := prefix + ['%'];
        index := index + 2;
        continue;
      }
      break;
    }
  }

  /** A literal as it is written inside a percent template. */
  function Escaped(literal: string): string {
    if literal == "" then ""
    else (if literal[0] == '%' then "%%" else [literal[0]]) + Escaped(literal[1..])
  }

  /** The prefix read off a template is the text the formatting really starts with. */
  lemma {:induction false} PercentPrefixOf(front: string, literal: string, rest: string)
    requires rest == "" || (rest[0] == '%' && (|rest| == 1 || rest[1] != '%'))
    ensures PercentPrefix(front + Escaped(literal) + rest, |front|) == literal
    decreases literal
  {
    var t, i := front + Escaped(literal) + rest, |front|;
    if literal == "" {
      assert t == front + rest;
    } else {
      var step := if literal[0] == '%' then "%%" else [literal[0]];
      PercentPrefixOf(front + step, literal[1..], rest);
      assert t == (front + step) + Escaped(literal[1..]) + rest;
      assert t[i] == step[0] && (literal[0] == '%' ==> t[i + 1] == step[1]);
      assert literal == [literal[0]] + literal[1..];
    }
  }
}

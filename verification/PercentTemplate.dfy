/** How `literal % arguments` becomes a template: the escapes are undone, and every conversion is a
    hole for the next argument. */
module PercentTemplate {
  import opened OriginPrefix
  import opened OpenRedirect
  import opened BuiltTexts
  import Meaning = RedirectMeaning

  /** The type letter that ends a conversion; `h`, `l` and `L` are length modifiers. */
  predicate EndsConversion(c: char) {
    ('a' <= c <= 'z' || 'A' <= c <= 'Z') && c !in {'h', 'l', 'L'}
  }

  function ConversionEnd(t: string, i: nat): (r: nat)
    requires i <= |t|
    ensures i <= r <= |t|
    decreases |t| - i
  {
    if i == |t| then i else if EndsConversion(t[i]) then i + 1 else ConversionEnd(t, i + 1)
  }

  /** The first conversion from `i` on. */
  function NextConversion(t: string, i: nat): (r: nat)
    requires i <= |t|
    ensures i <= r <= |t| && (r < |t| ==> t[r] == '%') && (r + 1 < |t| ==> t[r + 1] != '%')
    decreases |t| - i
  {
    if i == |t| then i
    else if t[i] != '%' then NextConversion(t, i + 1)
    else if i + 1 < |t| && t[i + 1] == '%' then NextConversion(t, i + 2)
    else i
  }

  /** A plain `%s` gives the argument itself, any other conversion a text made of it. */
  function Converted(t: string, i: nat, e: Expr): Expr {
    if i < |t| && t[i] == 's' then e else Transform(e, Reshape(NoArgs))
  }

  /** The template from `i` on: the literal text in front of the next conversion, and the rest. */
  function Pieces(t: string, i: nat, args: seq<Expr>): Parts
    requires i <= |t|
    decreases |t| - i, 1
  {
    Front(PercentPrefix(t, i), FromConversion(t, NextConversion(t, i), args))
  }

  function FromConversion(t: string, i: nat, args: seq<Expr>): (r: Parts)
    requires i <= |t|
    ensures !r.Fixed?
    decreases |t| - i, 0
  {
    if i == |t| || args == [] then NoParts
    else Hole(Converted(t, i + 1, args[0]), Pieces(t, ConversionEnd(t, i + 1), args[1..]))
  }

  function Front(literal: string, rest: Parts): (r: Parts)
    ensures HoleCount(r) == HoleCount(rest)
  {
    if literal == "" then rest else Fixed(literal, rest)
  }

  /** The prefix the scanner reads off a percent template is the leading literal of the template
      it stands for, which the parser leaves well formed. */
  lemma {:induction false} PiecesLead(t: string, i: nat, args: seq<Expr>)
    requires i <= |t|
    ensures Lead(Pieces(t, i, args)) == PercentPrefix(t, i) && WellFormed(Pieces(t, i, args))
    decreases |t| - i
  {
    var stop := NextConversion(t, i);
    if stop < |t| && args != [] { PiecesLead(t, ConversionEnd(t, stop + 1), args[1..]); }
  }

  /** A conversion runs up to its type letter: any letter but `L`, `h` and `l`. */
  predicate IsType(c: char) {
    (65 <= c as int <= 90 || 97 <= c as int <= 122) && (c as int) != 76 && (c as int) != 104 && (c as int) != 108
  }

  lemma {:induction false} ConversionMeaning(t: string, i: nat, k: nat)
    requires i <= k < |t| && IsType(t[k]) && forall j :: i <= j < k ==> !IsType(t[j])
    ensures ConversionEnd(t, i) == k + 1
    decreases k - i
  {
    if i < k { ConversionMeaning(t, i + 1, k); }
  }

  /** At a conversion the template goes on with a hole for the next argument, the argument itself for
      `%s` alone. */
  lemma HoleMeaning(t: string, i: nat, args: seq<Expr>)
    requires i < |t| && t[i] == '%' && (i + 1 < |t| ==> t[i + 1] != '%') && args != []
    ensures var parts := Pieces(t, i, args);
      && parts.Hole?
      && parts.value == (if i + 1 < |t| && t[i + 1] == 's' then args[0] else Transform(args[0], Reshape(NoArgs)))
  {
    assert PercentPrefix(t, i) == "" && NextConversion(t, i) == i;
  }

  // ----- what is rendered -----

  /** What the formatting prints, one character of the template after another. */
  function Formatted(t: string, i: nat, texts: seq<string>): string
    requires i <= |t|
    decreases |t| - i
  {
    if i == |t| then ""
    else if t[i] != '%' then [t[i]] + Formatted(t, i + 1, texts)
    else if i + 1 < |t| && t[i + 1] == '%' then ['%'] + Formatted(t, i + 2, texts)
    else if texts == [] then ""
    else texts[0] + Formatted(t, ConversionEnd(t, i + 1), texts[1..])
  }

  function Texts(vals: seq<Value>): (r: seq<string>)
    ensures |r| == |vals|
  {
    seq(|vals|, i requires 0 <= i < |vals| => vals[i].text)
  }

  lemma FrontText(literal: string, rest: Parts, vals: seq<Value>)
    requires |vals| == HoleCount(rest)
    ensures Render(Front(literal, rest), vals).text == literal + Render(rest, vals).text
  {
  }

  /** Up to the next conversion, the literal text is printed. */
  lemma {:induction false} FormattedPrefix(t: string, i: nat, texts: seq<string>)
    requires i <= |t|
    ensures Formatted(t, i, texts) == PercentPrefix(t, i) + Formatted(t, NextConversion(t, i), texts)
    decreases |t| - i
  {
    if i < |t| && t[i] != '%' {
      FormattedPrefix(t, i + 1, texts);
    } else if i + 1 < |t| && t[i + 1] == '%' {
      FormattedPrefix(t, i + 2, texts);
    }
  }

  /** Rendering the template prints what the formatting prints. */
  lemma {:induction false} PiecesRender(t: string, i: nat, args: seq<Expr>, vals: seq<Value>)
    requires i <= |t| && |vals| == HoleCount(Pieces(t, i, args))
    ensures Render(Pieces(t, i, args), vals).text == Formatted(t, i, Texts(vals))
    decreases |t| - i
  {
    var stop := NextConversion(t, i);
    FrontText(PercentPrefix(t, i), FromConversion(t, stop, args), vals);
    FormattedPrefix(t, i, Texts(vals));
    if stop < |t| && args != [] { ConversionRender(t, stop, args, vals); }
  }

  lemma {:induction false} ConversionRender(t: string, i: nat, args: seq<Expr>, vals: seq<Value>)
    requires i < |t| && args != [] && |vals| == HoleCount(FromConversion(t, i, args))
    ensures Render(FromConversion(t, i, args), vals).text
         == vals[0].text + Formatted(t, ConversionEnd(t, i + 1), Texts(vals)[1..])
    decreases |t| - i, 0
  {
    PiecesRender(t, ConversionEnd(t, i + 1), args[1..], vals[1..]);
    assert Texts(vals)[1..] == Texts(vals[1..]);
  }

  // ----- what flows -----

  /** The program's rule for `%` on a literal: the right side is one expression or the join of a
      tuple. */
  function PercentFlow(t: string, right: Flow): Flow {
    if right.Tainted? && InternalPrefix(PercentPrefix(t, 0)) then Internal else JoinValues([Untainted, right])
  }

  lemma {:induction false} PiecesFlows(t: string, i: nat, args: seq<Expr>, st: State, names: Names)
    requires i <= |t| && HoleCount(Pieces(t, i, args)) == |args|
    ensures HoleFlows(Pieces(t, i, args), st, names) == Meaning.FlowsOf(args, st, names)
    decreases |t| - i
  {
    var stop := NextConversion(t, i);
    assert HoleFlows(Pieces(t, i, args), st, names) == HoleFlows(FromConversion(t, stop, args), st, names);
    if args != [] {
      PiecesFlows(t, ConversionEnd(t, stop + 1), args[1..], st, names);
      assert Meaning.FlowsOf(args, st, names) == [FlowOf(args[0], st, names)] + Meaning.FlowsOf(args[1..], st, names);
    }
  }

  /** With one argument for each conversion, the rule for `%` and the rule for templates agree. */
  lemma PercentAgrees(t: string, args: seq<Expr>, st: State, names: Names)
    requires HoleCount(Pieces(t, 0, args)) == |args|
    ensures FlowOf(Template(Pieces(t, 0, args)), st, names)
         == PercentFlow(t, JoinValues(Meaning.FlowsOf(args, st, names)))
  {
    PiecesLead(t, 0, args);
    PiecesFlows(t, 0, args, st, names);
    var r := JoinValues(Meaning.FlowsOf(args, st, names));
    assert [Untainted, r][1] == r;
  }
}

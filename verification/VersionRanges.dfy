/** OSV event ranges mapped to CVE version entries. Versions are compared through a `rank`
    of their tokens; `"*"` as an upper bound means no bound. */
module VersionRanges {
  import opened Options
  import opened PyText

  /** An event object: the keys it carries, with their values as text. */
  datatype Event = Event(introduced: Option<string>, fixed: Option<string>, lastAffected: Option<string>)

  datatype Range = Range(kind: string, events: seq<Event>)

  /** An upper bound, or `Only` for an entry that names a single version. */
  datatype Bound = LessThan(token: string) | LessThanOrEqual(token: string) | Only

  datatype Entry = Entry(version: string, bound: Bound, versionType: string)

  const VERSION_MAX: nat := 1024

  /** `_bounded`. */
  function Bounded(value: string): string {
    var s := Strip(value);
    if |s| > VERSION_MAX then s[..VERSION_MAX] else s
  }

  function Or(token: string, fallback: string): string { if token == "" then fallback else token }

  /** What an event says, by the precedence of its keys. */
  datatype Boundary = Introduced(token: string) | Fixed(token: string) | LastAffected(token: string) | Unhandled

  function Classify(e: Event): Boundary {
    if e.introduced.Some? then Introduced(Or(Bounded(e.introduced.value), "0"))
    else if e.fixed.Some? then Fixed(Or(Bounded(e.fixed.value), "*"))
    else if e.lastAffected.Some? then LastAffected(Or(Bounded(e.lastAffected.value), "*"))
    else Unhandled
  }

  /** The boundary that closes an interval with this bound. */
  function Closing(bound: Bound): Boundary
    requires !bound.Only?
  {
    match bound
    case LessThan(t) => Fixed(t)
    case LessThanOrEqual(t) => LastAffected(t)
  }

  function Boundaries(events: seq<Event>): seq<Boundary> {
    seq(|events|, i requires 0 <= i < |events| => Classify(events[i]))
  }

  function VersionType(kind: string): string {
    if kind == "SEMVER" then "semver" else if kind == "GIT" then "git" else "custom"
  }

  /** The entries still to come, with `intro` open; `saw` says an explicit introduced was met. */
  function Emit(bs: seq<Boundary>, intro: Option<string>, saw: bool, vtype: string): seq<Entry> {
    if bs == [] then
      if intro.Some? && saw then [Entry(intro.value, LessThan("*"), vtype)] else []
    else
      var rest := bs[1..];
      match bs[0]
      case Introduced(t) => Emit(rest, Some(t), true, vtype)
      case Fixed(t) =>
        if intro.Some? then [Entry(intro.value, LessThan(t), vtype)] + Emit(rest, None, saw, vtype)
        else Emit(rest, None, saw, vtype)
      case LastAffected(t) =>
        if intro.Some? then [Entry(intro.value, LessThanOrEqual(t), vtype)] + Emit(rest, None, saw, vtype)
        else Emit(rest, None, saw, vtype)
      case Unhandled => Emit(rest, intro, saw, vtype)
  }

  function RangeEntries(r: Range): seq<Entry> {
    Emit(Boundaries(r.events), Some("0"), false, VersionType(r.kind))
  }

  function AllEntries(ranges: seq<Range>): seq<Entry> {
    if ranges == [] then [] else AllEntries(ranges[..|ranges| - 1]) + RangeEntries(ranges[|ranges| - 1])
  }

  /** `_ranges_to_version_entries`. */
  method RangesToVersionEntries(ranges: seq<Range>) returns (entries: seq<Entry>)
    ensures entries == AllEntries(ranges)
  {
    entries := [];
    for n := 0 to |ranges|
      invariant entries == AllEntries(ranges[..n])
    {
      assert ranges[..n + 1][..n] == ranges[..n];
      var more := RangeToVersionEntries(ranges[n]);
      entries := entries + more;
    }
    assert ranges[..|ranges|] == ranges;
  }

  /** What the events before `i` have emitted, followed by what the rest still emits. */
  ghost predicate EmittedSoFar(r: Range, i: nat, entries: seq<Entry>, intro: Option<string>, saw: bool) {
    i <= |r.events| && entries + Emit(Boundaries(r.events)[i..], intro, saw, VersionType(r.kind)) == RangeEntries(r)
  }

  lemma OpenNext(r: Range, i: nat, entries: seq<Entry>, intro: Option<string>, saw: bool)
    requires EmittedSoFar(r, i, entries, intro, saw) && i < |r.events|
    ensures var b := Classify(r.events[i]);
      && (b.Introduced? ==> EmittedSoFar(r, i + 1, entries, Some(b.token), true))
      && (b.Unhandled? || (!b.Introduced? && intro.None?) ==> EmittedSoFar(r, i + 1, entries, intro, saw))
  {
    var bs := Boundaries(r.events);
    assert bs[i..][0] == Classify(r.events[i]) && bs[i..][1..] == bs[i + 1..];
  }

  lemma CloseNext(r: Range, i: nat, entries: seq<Entry>, intro: Option<string>, saw: bool, bound: Bound)
    requires EmittedSoFar(r, i, entries, intro, saw) && i < |r.events| && intro.Some?
    requires !bound.Only? && Classify(r.events[i]) == Closing(bound)
    ensures EmittedSoFar(r, i + 1, entries + [Entry(intro.value, bound, VersionType(r.kind))], None, saw)
  {
    var bs, e := Boundaries(r.events), Entry(intro.value, bound, VersionType(r.kind));
    assert bs[i..][0] == Classify(r.events[i]) && bs[i..][1..] == bs[i + 1..];
    var rest := Emit(bs[i + 1..], None, saw, VersionType(r.kind));
    assert entries + ([e] + rest) == (entries + [e]) + rest;
  }

  method RangeToVersionEntries(r: Range) returns (entries: seq<Entry>)
    ensures entries == RangeEntries(r)
  {
    entries := [];
    var intro, saw, vtype := Some("0"), false, VersionType(r.kind);
    for i := 0 to |r.events|
      invariant EmittedSoFar(r, i, entries, intro, saw)
    {
      OpenNext(r, i, entries, intro, saw);
      match Classify(r.events[i]) {
        case Introduced(t) => intro, saw := Some(t), true;
        case Fixed(t) =>
          if intro.Some? {
            CloseNext(r, i, entries, intro, saw, LessThan(t));
            entries := entries + [Entry(intro.value, LessThan(t), vtype)];
            intro := None;
          }
        case LastAffected(t) =>
          if intro.Some? {
            CloseNext(r, i, entries, intro, saw, LessThanOrEqual(t));
            entries := entries + [Entry(intro.value, LessThanOrEqual(t), vtype)];
            intro := None;
          }
        case Unhandled =>
      }
    }
    if intro.Some? && saw {
      entries := entries + [Entry(intro.value, LessThan("*"), vtype)];
    }
  }

  // ----- meanings -----

  type Rank = string -> int

  predicate InEntry(e: Entry, v: int, rank: Rank) {
    rank(e.version) <= v &&
    match e.bound
    case Only => v == rank(e.version)
    case LessThan(t) => t == "*" || v < rank(t)
    case LessThanOrEqual(t) => t == "*" || v <= rank(t)
  }

  ghost predicate Covered(entries: seq<Entry>, v: int, rank: Rank) {
    exists e :: e in entries && InEntry(e, v, rank)
  }

  /** The OSV evaluation of a version against ordered events, independent of the mapping. */
  predicate Vulnerable(bs: seq<Boundary>, now: bool, v: int, rank: Rank) {
    if bs == [] then now
    else
      var next :=
        match bs[0]
        case Introduced(t) => now || v >= rank(t)
        case Fixed(t) => now && (t == "*" || v < rank(t))
        case LastAffected(t) => now && (t == "*" || v <= rank(t))
        case Unhandled => now;
      Vulnerable(bs[1..], next, v, rank)
  }

  /** A range whose first boundary closes is open from the implicit version 0. */
  predicate StartsOpen(bs: seq<Boundary>) {
    bs != [] && (bs[0].Fixed? || bs[0].LastAffected? || (bs[0].Unhandled? && StartsOpen(bs[1..])))
  }

  predicate Affected(bs: seq<Boundary>, v: int, rank: Rank) {
    Vulnerable(bs, StartsOpen(bs), v, rank)
  }

  predicate NoBoundary(bs: seq<Boundary>) { forall b :: b in bs ==> b.Unhandled? }

  /** Boundaries in strictly increasing order, all above `low`; nothing follows "*". */
  predicate Ordered(bs: seq<Boundary>, low: int, rank: Rank) {
    bs == [] ||
    match bs[0]
    case Unhandled => Ordered(bs[1..], low, rank)
    case Introduced(t) => low < rank(t) && Ordered(bs[1..], rank(t), rank)
    case Fixed(t) => if t == "*" then NoBoundary(bs[1..]) else low < rank(t) && Ordered(bs[1..], rank(t), rank)
    case LastAffected(t) => if t == "*" then NoBoundary(bs[1..]) else low < rank(t) && Ordered(bs[1..], rank(t), rank)
  }

  /** Some introduced event arrives while an explicit introduced is still open. */
  predicate Reopens(bs: seq<Boundary>, open: bool) {
    bs != [] &&
    match bs[0]
    case Introduced(_) => open || Reopens(bs[1..], true)
    case Fixed(_) => Reopens(bs[1..], false)
    case LastAffected(_) => Reopens(bs[1..], false)
    case Unhandled => Reopens(bs[1..], open)
  }

  lemma {:induction false} NoBoundaryFacts(bs: seq<Boundary>, now: bool, v: int, rank: Rank, saw: bool,
          vtype: string, open: bool)
    requires NoBoundary(bs)
    ensures Vulnerable(bs, now, v, rank) == now && Emit(bs, None, saw, vtype) == [] && !Reopens(bs, open)
  {
    if bs != [] {
      assert bs[0] in bs && forall b :: b in bs[1..] ==> b in bs;
      NoBoundaryFacts(bs[1..], now, v, rank, saw, vtype, open);
    }
  }

  /** Later boundaries do not touch a version at or below `low`. */
  lemma {:induction false} BelowStays(bs: seq<Boundary>, now: bool, low: int, v: int, rank: Rank)
    requires Ordered(bs, low, rank) && v <= low
    ensures Vulnerable(bs, now, v, rank) == now
  {
    if bs != [] {
      match bs[0]
      case Unhandled => BelowStays(bs[1..], now, low, v, rank);
      case Introduced(t) => BelowStays(bs[1..], now, rank(t), v, rank);
      case Fixed(t) =>
        if t == "*" {
          NoBoundaryFacts(bs[1..], now, v, rank, true, "", false);
        } else {
          BelowStays(bs[1..], now, rank(t), v, rank);
        }
      case LastAffected(t) =>
        if t == "*" {
          NoBoundaryFacts(bs[1..], now, v, rank, true, "", false);
        } else {
          BelowStays(bs[1..], now, rank(t), v, rank);
        }
    }
  }

  lemma CoveredCons(e: Entry, rest: seq<Entry>, v: int, rank: Rank)
    ensures Covered([e] + rest, v, rank) <==> InEntry(e, v, rank) || Covered(rest, v, rank)
  {
    if InEntry(e, v, rank) { assert e in [e] + rest; }
    if Covered(rest, v, rank) {
      var x :| x in rest && InEntry(x, v, rank);
      assert x in [e] + rest;
    }
  }

  /** A version not yet passed by the closed intervals: it is vulnerable now exactly when an
      open interval has reached it. */
  predicate Tracks(intro: Option<string>, now: bool, v: int, rank: Rank) {
    now == (intro.Some? && rank(intro.value) <= v)
  }

  /** Without reopening, the entries still to come cover exactly the remaining versions. */
  lemma {:induction false} EmitMeaning(bs: seq<Boundary>, intro: Option<string>, now: bool, low: int, v: int,
          rank: Rank, vtype: string)
    requires Ordered(bs, low, rank) && !Reopens(bs, intro.Some?) && Tracks(intro, now, v, rank)
    ensures Covered(Emit(bs, intro, true, vtype), v, rank) <==> Vulnerable(bs, now, v, rank)
    decreases bs, 1
  {
    if bs == [] {
      if intro.Some? {
        CoveredCons(Entry(intro.value, LessThan("*"), vtype), [], v, rank);
        assert [Entry(intro.value, LessThan("*"), vtype)] + [] == Emit(bs, intro, true, vtype);
      }
    } else {
      var rest := bs[1..];
      match bs[0]
      case Unhandled => EmitMeaning(rest, intro, now, low, v, rank, vtype);
      case Introduced(t) => EmitMeaning(rest, Some(t), rank(t) <= v, rank(t), v, rank, vtype);
      case Fixed(t) => CloseMeaning(bs, intro, now, low, v, rank, vtype, LessThan(t));
      case LastAffected(t) => CloseMeaning(bs, intro, now, low, v, rank, vtype, LessThanOrEqual(t));
    }
  }

  lemma {:induction false} CloseMeaning(bs: seq<Boundary>, intro: Option<string>, now: bool, low: int, v: int,
          rank: Rank, vtype: string, bound: Bound)
    requires bs != [] && Ordered(bs, low, rank) && !Reopens(bs, intro.Some?) && Tracks(intro, now, v, rank)
    requires !bound.Only? && bs[0] == Closing(bound)
    ensures Covered(Emit(bs, intro, true, vtype), v, rank) <==> Vulnerable(bs, now, v, rank)
    decreases bs, 0
  {
    var rest, t := bs[1..], bound.token;
    if intro.None? {
      AfterClose(rest, t, v, rank, vtype);
    } else {
      var e := Entry(intro.value, bound, vtype);
      CoveredCons(e, Emit(rest, None, true, vtype), v, rank);
      if InEntry(e, v, rank) {
        if t == "*" {
          NoBoundaryFacts(rest, true, v, rank, true, vtype, false);
        } else {
          BelowStays(rest, true, rank(t), v, rank);
        }
      } else {
        AfterClose(rest, t, v, rank, vtype);
      }
    }
  }

  lemma {:induction false} AfterClose(rest: seq<Boundary>, t: string, v: int, rank: Rank, vtype: string)
    requires if t == "*" then NoBoundary(rest) else Ordered(rest, rank(t), rank)
    requires !Reopens(rest, false)
    ensures Covered(Emit(rest, None, true, vtype), v, rank) <==> Vulnerable(rest, false, v, rank)
    decreases rest, 2
  {
    if t == "*" {
      NoBoundaryFacts(rest, false, v, rank, true, vtype, false);
    } else {
      EmitMeaning(rest, None, false, rank(t), v, rank, vtype);
    }
  }

  /** With a reopening ahead, some version is vulnerable that no entry covers: the one where
      the forgotten interval began. */
  lemma {:induction false} ReopenMissed(bs: seq<Boundary>, intro: Option<string>, low: int, rank: Rank, vtype: string)
    returns (v: int)
    requires Ordered(bs, low, rank) && Reopens(bs, intro.Some?) && (intro.Some? ==> rank(intro.value) <= low)
    ensures low < v || (intro.Some? && v == rank(intro.value))
    ensures Vulnerable(bs, intro.Some?, v, rank) && !Covered(Emit(bs, intro, true, vtype), v, rank)
    decreases bs, 1
  {
    var rest := bs[1..];
    match bs[0]
    case Unhandled => v := ReopenMissed(rest, intro, low, rank, vtype);
    case Introduced(t) =>
      if intro.Some? {
        v := rank(intro.value);
        BelowStays(rest, true, rank(t), v, rank);
        EmitAbove(rest, Some(t), rank(t), v, rank, vtype);
      } else {
        v := ReopenMissed(rest, Some(t), rank(t), rank, vtype);
      }
    case Fixed(t) => v := ReopenPastClose(bs, intro, low, rank, vtype, LessThan(t));
    case LastAffected(t) => v := ReopenPastClose(bs, intro, low, rank, vtype, LessThanOrEqual(t));
  }

  lemma {:induction false} ReopenPastClose(bs: seq<Boundary>, intro: Option<string>, low: int, rank: Rank,
          vtype: string, bound: Bound)
    returns (v: int)
    requires bs != [] && Ordered(bs, low, rank) && Reopens(bs, intro.Some?)
    requires !bound.Only? && bs[0] == Closing(bound)
    ensures low < v
    ensures Vulnerable(bs, intro.Some?, v, rank) && !Covered(Emit(bs, intro, true, vtype), v, rank)
    decreases bs, 0
  {
    var rest, t := bs[1..], bound.token;
    StarEndsRange(rest, t);
    v := ReopenMissed(rest, None, rank(t), rank, vtype);
    if intro.Some? {
      CoveredCons(Entry(intro.value, bound, vtype), Emit(rest, None, true, vtype), v, rank);
    }
  }

  lemma StarEndsRange(rest: seq<Boundary>, t: string)
    ensures t == "*" && NoBoundary(rest) ==> !Reopens(rest, false)
  {
    if NoBoundary(rest) { NoBoundaryFacts(rest, false, 0, _ => 0, true, "", false); }
  }

  /** Entries still to come start above everything already passed. */
  lemma {:induction false} EmitAbove(bs: seq<Boundary>, intro: Option<string>, low: int, v: int, rank: Rank,
          vtype: string)
    requires Ordered(bs, low, rank) && v < low && (intro.Some? ==> v < rank(intro.value))
    ensures !Covered(Emit(bs, intro, true, vtype), v, rank)
    decreases bs, 1
  {
    if bs == [] {
      assert forall e :: e in Emit(bs, intro, true, vtype) ==> intro.Some? && e.version == intro.value;
    } else {
      var rest := bs[1..];
      match bs[0]
      case Unhandled => EmitAbove(rest, intro, low, v, rank, vtype);
      case Introduced(t) => EmitAbove(rest, Some(t), rank(t), v, rank, vtype);
      case Fixed(t) => EmitAbovePastClose(rest, intro, t, v, rank, vtype, LessThan(t), low);
      case LastAffected(t) => EmitAbovePastClose(rest, intro, t, v, rank, vtype, LessThanOrEqual(t), low);
    }
  }

  lemma {:induction false} EmitAbovePastClose(rest: seq<Boundary>, intro: Option<string>, t: string, v: int,
          rank: Rank, vtype: string, bound: Bound, low: int)
    requires if t == "*" then NoBoundary(rest) else low < rank(t) && Ordered(rest, rank(t), rank)
    requires v < low && (intro.Some? ==> v < rank(intro.value))
    ensures !Covered(Emit(rest, None, true, vtype), v, rank)
    ensures intro.Some? ==> !Covered([Entry(intro.value, bound, vtype)] + Emit(rest, None, true, vtype), v, rank)
    decreases rest, 2
  {
    if t == "*" {
      NoBoundaryFacts(rest, false, v, rank, true, vtype, false);
    } else {
      EmitAbove(rest, None, rank(t), v, rank, vtype);
    }
    if intro.Some? {
      CoveredCons(Entry(intro.value, bound, vtype), Emit(rest, None, true, vtype), v, rank);
    }
  }

  /** The entries of a range mean exactly its affected versions. */
  ghost predicate MeansTheSame(r: Range, rank: Rank) {
    forall v :: rank("0") <= v ==>
      (Covered(RangeEntries(r), v, rank) <==> Affected(Boundaries(r.events), v, rank))
  }

  /** How the implicit start at version 0 behaves: it is kept by a closing first boundary,
      replaced by an introduced one, and dropped when there is neither. */
  lemma {:induction false} ImplicitStart(bs: seq<Boundary>, rank: Rank, vtype: string)
    requires Ordered(bs, rank("0") - 1, rank)
    ensures !StartsOpen(bs) ==> Emit(bs, Some("0"), false, vtype) == Emit(bs, None, true, vtype)
    ensures StartsOpen(bs) ==> Emit(bs, Some("0"), false, vtype) == Emit(bs, Some("0"), true, vtype)
    ensures StartsOpen(bs) ==> (Reopens(bs, true) <==> Reopens(bs, false))
  {
    if bs != [] {
      match bs[0]
      case Unhandled => ImplicitStart(bs[1..], rank, vtype);
      case Introduced(_) =>
      case Fixed(t) => SawIrrelevant(bs[1..], vtype);
      case LastAffected(t) => SawIrrelevant(bs[1..], vtype);
    }
  }

  lemma {:induction false} SawIrrelevant(bs: seq<Boundary>, vtype: string)
    ensures Emit(bs, None, false, vtype) == Emit(bs, None, true, vtype)
  {
    if bs != [] && !bs[0].Introduced? { SawIrrelevant(bs[1..], vtype); }
  }

  /** The exact condition: for ordered events the mapping keeps the range's meaning if and
      only if no introduced event arrives while an explicit introduced is still open. */
  lemma RangeMeaning(r: Range, rank: Rank)
    requires Ordered(Boundaries(r.events), rank("0") - 1, rank)
    ensures MeansTheSame(r, rank) <==> !Reopens(Boundaries(r.events), false)
  {
    var bs, vtype := Boundaries(r.events), VersionType(r.kind);
    var intro := if StartsOpen(bs) then Some("0") else None;
    ImplicitStart(bs, rank, vtype);
    if Reopens(bs, false) {
      var v := Witness(bs, intro, rank, vtype);
      assert rank("0") <= v && Covered(RangeEntries(r), v, rank) != Affected(bs, v, rank);
    } else {
      forall v | rank("0") <= v ensures Covered(RangeEntries(r), v, rank) <==> Affected(bs, v, rank) {
        EmitMeaning(bs, intro, StartsOpen(bs), rank("0") - 1, v, rank, vtype);
      }
    }
  }

  /** Whatever opens the range, a reopening is missed at some version from 0 on. */
  lemma {:induction false} Witness(bs: seq<Boundary>, intro: Option<string>, rank: Rank, vtype: string)
    returns (v: int)
    requires Ordered(bs, rank("0") - 1, rank) && Reopens(bs, false)
    requires intro == if StartsOpen(bs) then Some("0") else None
    ensures rank("0") <= v && Affected(bs, v, rank) && !Covered(Emit(bs, intro, true, vtype), v, rank)
    decreases bs, 3
  {
    var low := rank("0") - 1;
    if !StartsOpen(bs) {
      v := ReopenMissed(bs, None, low, rank, vtype);
    } else {
      match bs[0]
      case Unhandled => v := Witness(bs[1..], intro, rank, vtype);
      case Fixed(t) => v := ReopenPastClose(bs, intro, low, rank, vtype, LessThan(t));
      case LastAffected(t) => v := ReopenPastClose(bs, intro, low, rank, vtype, LessThanOrEqual(t));
    }
  }

  lemma {:induction false} UnionOfRanges(ranges: seq<Range>, v: int, rank: Rank)
    ensures Covered(AllEntries(ranges), v, rank) <==> exists r :: r in ranges && Covered(RangeEntries(r), v, rank)
  {
    if ranges != [] {
      var front, last := ranges[..|ranges| - 1], ranges[|ranges| - 1];
      assert ranges == front + [last];
      UnionOfRanges(front, v, rank);
      var a, b := AllEntries(front), RangeEntries(last);
      CoveredAppend(a, b, v, rank);
    }
  }

  /** The entries of a package's ranges cover exactly the versions some range affects, when no
      range reopens. */
  lemma PackageMeaning(ranges: seq<Range>, v: int, rank: Rank)
    requires rank("0") <= v
    requires forall r :: r in ranges ==>
      Ordered(Boundaries(r.events), rank("0") - 1, rank) && !Reopens(Boundaries(r.events), false)
    ensures Covered(AllEntries(ranges), v, rank) <==>
      exists r :: r in ranges && Affected(Boundaries(r.events), v, rank)
  {
    UnionOfRanges(ranges, v, rank);
    forall r | r in ranges ensures Covered(RangeEntries(r), v, rank) <==> Affected(Boundaries(r.events), v, rank) {
      RangeMeaning(r, rank);
    }
  }

  // ----- one package -----

  /** The exact versions a package lists; blank ones are skipped. */
  function ExactEntries(versions: seq<string>): seq<Entry> {
    if versions == [] then []
    else
      var before, last := ExactEntries(versions[..|versions| - 1]), versions[|versions| - 1];
      if Strip(last) != "" then before + [Entry(Bounded(last), Only, "semver")] else before
  }

  /** Each entry once, where it first appears. */
  function Distinct(entries: seq<Entry>): seq<Entry> {
    if entries == [] then []
    else
      var front, last := entries[..|entries| - 1], entries[|entries| - 1];
      if last in front then Distinct(front) else Distinct(front) + [last]
  }

  lemma {:induction false} DistinctMeaning(entries: seq<Entry>)
    ensures forall e :: e in Distinct(entries) <==> e in entries
    ensures forall i, j :: 0 <= i < j < |Distinct(entries)| ==> Distinct(entries)[i] != Distinct(entries)[j]
  {
    if entries != [] {
      var front, last := entries[..|entries| - 1], entries[|entries| - 1];
      assert entries == front + [last];
      DistinctMeaning(front);
    }
  }

  /** An honest marker for a package that lists nothing. */
  const UNSPECIFIED: Entry := Entry("unspecified", Only, "custom")

  function PackageEntries(versions: seq<string>, ranges: seq<Range>): seq<Entry> {
    var all := ExactEntries(versions) + AllEntries(ranges);
    if all == [] then [UNSPECIFIED] else Distinct(all)
  }

  method CollectExact(versions: seq<string>) returns (exact: seq<Entry>)
    ensures exact == ExactEntries(versions)
  {
    exact := [];
    for i := 0 to |versions|
      invariant exact == ExactEntries(versions[..i])
    {
      assert versions[..i + 1][..i] == versions[..i];
      if Strip(versions[i]) != "" {
        exact := exact + [Entry(Bounded(versions[i]), Only, "semver")];
      }
    }
    assert versions[..|versions|] == versions;
  }

  method AddEach(all: seq<Entry>) returns (entries: seq<Entry>)
    ensures entries == Distinct(all)
  {
    entries := [];
    var seen: set<Entry> := {};
    for i := 0 to |all|
      invariant entries == Distinct(all[..i]) && forall e :: e in seen <==> e in all[..i]
    {
      assert all[..i + 1][..i] == all[..i] && all[..i + 1] == all[..i] + [all[i]];
      if all[i] !in seen {
        seen := seen + {all[i]};
        entries := entries + [all[i]];
      }
    }
    assert all[..|all|] == all;
  }

  /** `_affected` for one package: exact versions, then ranges, each entry once. */
  method PackageVersions(versions: seq<string>, ranges: seq<Range>) returns (entries: seq<Entry>)
    ensures entries == PackageEntries(versions, ranges)
  {
    var exact := CollectExact(versions);
    var more := RangesToVersionEntries(ranges);
    entries := AddEach(exact + more);
    DistinctMeaning(exact + more);
    assert exact + more == [] <==> entries == [] by {
      if exact + more != [] { assert (exact + more)[0] in entries; }
    }
    if entries == [] {
      entries := [UNSPECIFIED];
    }
  }

  lemma {:induction false} ExactMeaning(versions: seq<string>, v: int, rank: Rank)
    ensures Covered(ExactEntries(versions), v, rank) <==>
      exists x :: x in versions && Strip(x) != "" && v == rank(Bounded(x))
  {
    if versions != [] {
      var front, last := versions[..|versions| - 1], versions[|versions| - 1];
      assert versions == front + [last];
      ExactMeaning(front, v, rank);
      var e := Entry(Bounded(last), Only, "semver");
      CoveredAppend(ExactEntries(front), [e], v, rank);
      assert Covered([e], v, rank) <==> v == rank(e.version) by { assert e in [e]; }
    }
  }

  lemma CoveredAppend(a: seq<Entry>, b: seq<Entry>, v: int, rank: Rank)
    ensures Covered(a + b, v, rank) <==> Covered(a, v, rank) || Covered(b, v, rank)
  {
    assert forall e :: e in a + b <==> e in a || e in b;
  }

  /** No package lists an entry twice, and one that lists nothing gets the marker alone. */
  lemma PackageDistinct(versions: seq<string>, ranges: seq<Range>)
    ensures var entries := PackageEntries(versions, ranges);
      && (forall i, j :: 0 <= i < j < |entries| ==> entries[i] != entries[j])
      && (ExactEntries(versions) + AllEntries(ranges) == [] ==> entries == [UNSPECIFIED])
  {
    DistinctMeaning(ExactEntries(versions) + AllEntries(ranges));
  }

  /** A package that lists anything is affected at exactly its exact versions and the versions
      its ranges affect. */
  lemma PackageAffected(versions: seq<string>, ranges: seq<Range>, v: int, rank: Rank)
    requires rank("0") <= v && ExactEntries(versions) + AllEntries(ranges) != []
    requires forall r :: r in ranges ==>
      Ordered(Boundaries(r.events), rank("0") - 1, rank) && !Reopens(Boundaries(r.events), false)
    ensures Covered(PackageEntries(versions, ranges), v, rank) <==>
      (exists x :: x in versions && Strip(x) != "" && v == rank(Bounded(x)))
      || (exists r :: r in ranges && Affected(Boundaries(r.events), v, rank))
  {
    var all := ExactEntries(versions) + AllEntries(ranges);
    DistinctMeaning(all);
    CoveredAppend(ExactEntries(versions), AllEntries(ranges), v, rank);
    ExactMeaning(versions, v, rank);
    PackageMeaning(ranges, v, rank);
    assert Covered(Distinct(all), v, rank) <==> Covered(all, v, rank);
  }
}

/** The meaning of the mapping read off the events themselves: the OSV evaluation by the keys of each
    event, and the listing of a package entry by entry. */
module VersionMeaning {
  import opened Options
  import opened PyText
  import opened VersionRanges

  // ----- the OSV evaluation of events -----

  /** The version a key's value names: stripped, at most 1024 characters, a fallback for a blank. */
  function Token(value: string, fallback: string): string {
    var s := Strip(value);
    if s == "" then fallback else if |s| > 1024 then s[..1024] else s
  }

  /** Whether a version is vulnerable after an event; `introduced` outranks `fixed`, and that
      `last_affected`. A blank or starred upper bound excludes nothing. */
  predicate After(e: Event, now: bool, v: int, rank: Rank) {
    match e.introduced
    case Some(t) => now || rank(Token(t, "0")) <= v
    case None =>
      match e.fixed
      case Some(t) => now && (Token(t, "*") == "*" || v < rank(Token(t, "*")))
      case None =>
        match e.lastAffected
        case Some(t) => now && (Token(t, "*") == "*" || v <= rank(Token(t, "*")))
        case None => now
  }

  predicate OsvVulnerable(events: seq<Event>, now: bool, v: int, rank: Rank) {
    if events == [] then now else OsvVulnerable(events[1..], After(events[0], now, v, rank), v, rank)
  }

  predicate Silent(e: Event) { e.introduced.None? && e.fixed.None? && e.lastAffected.None? }

  predicate Closes(e: Event) { e.introduced.None? && (e.fixed.Some? || e.lastAffected.Some?) }

  /** The first event that says anything closes. */
  predicate ClosesFirst(events: seq<Event>) {
    exists i :: 0 <= i < |events| && Closes(events[i]) && forall j :: 0 <= j < i ==> Silent(events[j])
  }

  /** A range is vulnerable from 0 unless an introduced event says otherwise. */
  predicate OsvAffected(events: seq<Event>, v: int, rank: Rank) {
    OsvVulnerable(events, ClosesFirst(events), v, rank)
  }

  /** The upper bound of a closing event. */
  function Upper(e: Event): string
    requires Closes(e)
  {
    Token(if e.fixed.Some? then e.fixed.value else e.lastAffected.value, "*")
  }

  /** Events in strictly increasing order above `low`, nothing after an unbounded one. */
  predicate EventsOrdered(events: seq<Event>, low: int, rank: Rank) {
    events == [] ||
    var e, rest := events[0], events[1..];
    if Silent(e) then EventsOrdered(rest, low, rank)
    else if Closes(e) && Upper(e) == "*" then forall x :: x in rest ==> Silent(x)
    else
      var t := if Closes(e) then Upper(e) else Token(e.introduced.value, "0");
      low < rank(t) && EventsOrdered(rest, rank(t), rank)
  }

  /** Some introduced event comes while an explicit introduced is still open. */
  predicate EventsReopen(events: seq<Event>, open: bool) {
    events != [] &&
    if events[0].introduced.Some? then open || EventsReopen(events[1..], true)
    else EventsReopen(events[1..], open && Silent(events[0]))
  }

  lemma ClassifyMeaning(e: Event)
    ensures Classify(e) ==
      if e.introduced.Some? then Introduced(Token(e.introduced.value, "0"))
      else if e.fixed.Some? then Fixed(Token(e.fixed.value, "*"))
      else if e.lastAffected.Some? then LastAffected(Token(e.lastAffected.value, "*"))
      else Unhandled
  {
  }

  lemma BoundariesNext(events: seq<Event>)
    requires events != []
    ensures Boundaries(events)[0] == Classify(events[0]) && Boundaries(events)[1..] == Boundaries(events[1..])
  {
  }

  lemma {:induction false} SameVulnerable(events: seq<Event>, now: bool, v: int, rank: Rank)
    ensures Vulnerable(Boundaries(events), now, v, rank) == OsvVulnerable(events, now, v, rank)
  {
    if events != [] {
      BoundariesNext(events);
      ClassifyMeaning(events[0]);
      SameVulnerable(events[1..], After(events[0], now, v, rank), v, rank);
    }
  }

  lemma {:induction false} SameStart(events: seq<Event>)
    ensures StartsOpen(Boundaries(events)) == ClosesFirst(events)
  {
    if events != [] {
      BoundariesNext(events);
      SameStart(events[1..]);
      if Silent(events[0]) { SilentFirst(events); }
    }
  }

  lemma SilentFirst(events: seq<Event>)
    requires events != [] && Silent(events[0])
    ensures ClosesFirst(events) == ClosesFirst(events[1..])
  {
    var rest := events[1..];
    if i :| 0 <= i < |events| && Closes(events[i]) && forall j :: 0 <= j < i ==> Silent(events[j]) {
      assert Closes(rest[i - 1]) && forall j :: 0 <= j < i - 1 ==> Silent(rest[j]);
    }
    if i :| 0 <= i < |rest| && Closes(rest[i]) && forall j :: 0 <= j < i ==> Silent(rest[j]) {
      assert Closes(events[i + 1]) && forall j :: 0 <= j < i + 1 ==> Silent(events[j]) by {
        forall j | 0 <= j < i + 1 ensures Silent(events[j]) { if j > 0 { assert Silent(rest[j - 1]); } }
      }
    }
  }

  lemma {:induction false} SameOrder(events: seq<Event>, low: int, rank: Rank)
    ensures Ordered(Boundaries(events), low, rank) == EventsOrdered(events, low, rank)
  {
    if events != [] {
      var e, rest := events[0], events[1..];
      BoundariesNext(events);
      ClassifyMeaning(e);
      SameSilence(rest);
      if Silent(e) {
        SameOrder(rest, low, rank);
      } else {
        SameOrder(rest, rank(if Closes(e) then Upper(e) else Token(e.introduced.value, "0")), rank);
      }
    }
  }

  lemma SameSilence(events: seq<Event>)
    ensures NoBoundary(Boundaries(events)) <==> forall x :: x in events ==> Silent(x)
  {
    var bs := Boundaries(events);
    forall x | x in events ensures Classify(x) in bs {
      var i :| 0 <= i < |events| && events[i] == x;
      assert bs[i] == Classify(x);
    }
    forall b | b in bs ensures exists x :: x in events && b == Classify(x) {
      var i :| 0 <= i < |bs| && bs[i] == b;
      assert events[i] in events;
    }
  }

  lemma {:induction false} SameReopens(events: seq<Event>, open: bool)
    ensures Reopens(Boundaries(events), open) == EventsReopen(events, open)
  {
    if events != [] {
      BoundariesNext(events);
      SameReopens(events[1..], if events[0].introduced.Some? then true else open && Silent(events[0]));
    }
  }

  /** The exact condition, on the events: for ordered events the entries of a range cover exactly the
      versions the OSV evaluation finds vulnerable, from version 0 on, if and only if no introduced
      event comes while an explicit introduced is still open. */
  lemma RangeExactly(r: Range, rank: Rank)
    requires EventsOrdered(r.events, rank("0") - 1, rank)
    ensures (forall v :: rank("0") <= v ==> (Covered(RangeEntries(r), v, rank) <==> OsvAffected(r.events, v, rank)))
            <==> !EventsReopen(r.events, false)
  {
    SameOrder(r.events, rank("0") - 1, rank);
    SameReopens(r.events, false);
    RangeMeaning(r, rank);
    forall v ensures Affected(Boundaries(r.events), v, rank) == OsvAffected(r.events, v, rank) {
      SameStart(r.events);
      SameVulnerable(r.events, ClosesFirst(r.events), v, rank);
    }
  }

  // ----- the listing of a package -----

  function TypeOf(kind: string): string {
    match kind
    case "SEMVER" => "semver"
    case "GIT" => "git"
    case _ => "custom"
  }

  lemma {:induction false} EmitTypes(bs: seq<Boundary>, intro: Option<string>, saw: bool, vtype: string)
    ensures forall e :: e in Emit(bs, intro, saw, vtype) ==> e.versionType == vtype
  {
    if bs != [] {
      match bs[0]
      case Introduced(t) => EmitTypes(bs[1..], Some(t), true, vtype);
      case Unhandled => EmitTypes(bs[1..], intro, saw, vtype);
      case _ => EmitTypes(bs[1..], None, saw, vtype);
    }
  }

  /** Every entry of a range carries the version type of the range. */
  lemma RangeTypes(r: Range)
    ensures forall e :: e in RangeEntries(r) ==> e.versionType == TypeOf(r.kind)
  {
    EmitTypes(Boundaries(r.events), Some("0"), false, VersionType(r.kind));
  }

  lemma {:induction false} ExactListing(versions: seq<string>, e: Entry)
    ensures e in ExactEntries(versions) <==>
      exists x :: x in versions && Strip(x) != "" && e == Entry(Token(x, ""), Only, "semver")
  {
    if versions != [] {
      var front, last := versions[..|versions| - 1], versions[|versions| - 1];
      assert versions == front + [last];
      ExactListing(front, e);
    }
  }

  lemma {:induction false} RangesListing(ranges: seq<Range>, e: Entry)
    ensures e in AllEntries(ranges) <==> exists r :: r in ranges && e in RangeEntries(r)
  {
    if ranges != [] {
      var front, last := ranges[..|ranges| - 1], ranges[|ranges| - 1];
      assert ranges == front + [last];
      RangesListing(front, e);
    }
  }

  ghost predicate ListsNothing(versions: seq<string>, ranges: seq<Range>) {
    (forall x :: x in versions ==> Strip(x) == "") && forall r :: r in ranges ==> RangeEntries(r) == []
  }

  /** A package lists its non-blank exact versions and the entries of its ranges, and nothing else;
      one that has neither lists the marker alone. */
  lemma PackageListing(versions: seq<string>, ranges: seq<Range>, e: Entry)
    ensures e in PackageEntries(versions, ranges) <==>
      || (exists x :: x in versions && Strip(x) != "" && e == Entry(Token(x, ""), Only, "semver"))
      || (exists r :: r in ranges && e in RangeEntries(r))
      || (ListsNothing(versions, ranges) && e == Entry("unspecified", Only, "custom"))
  {
    var all := ExactEntries(versions) + AllEntries(ranges);
    DistinctMeaning(all);
    ExactListing(versions, e);
    RangesListing(ranges, e);
    NothingListed(versions, ranges);
  }

  lemma NothingListed(versions: seq<string>, ranges: seq<Range>)
    ensures ExactEntries(versions) + AllEntries(ranges) == [] <==> ListsNothing(versions, ranges)
  {
    var all := ExactEntries(versions) + AllEntries(ranges);
    if all == [] {
      forall x | x in versions ensures Strip(x) == "" {
        ExactListing(versions, Entry(Token(x, ""), Only, "semver"));
      }
      forall r | r in ranges ensures RangeEntries(r) == [] {
        if RangeEntries(r) != [] { RangesListing(ranges, RangeEntries(r)[0]); }
      }
    } else {
      assert all[0] in ExactEntries(versions) || all[0] in AllEntries(ranges);
      ExactListing(versions, all[0]);
      RangesListing(ranges, all[0]);
    }
  }

  /** Entries keep the order in which they first appear: exact versions before ranges. */
  lemma {:induction false} FirstPositions(all: seq<Entry>) returns (at: seq<nat>)
    ensures |at| == |Distinct(all)| && forall i, j :: 0 <= i < j < |at| ==> at[i] < at[j]
    ensures forall i :: 0 <= i < |at| ==> at[i] < |all| && Distinct(all)[i] == all[at[i]]
    ensures forall i :: 0 <= i < |at| ==> all[at[i]] !in all[..at[i]]
  {
    at := [];
    if all != [] {
      var n := |all| - 1;
      var front := all[..n];
      at := FirstPositions(front);
      forall i | 0 <= i < |at| ensures all[..at[i]] == front[..at[i]] {}
      if all[n] !in front { at := at + [n]; }
    }
  }

  /** The versions a package is affected at, on its events. */
  lemma PackageExactly(versions: seq<string>, ranges: seq<Range>, v: int, rank: Rank)
    requires rank("0") <= v && !ListsNothing(versions, ranges)
    requires forall r :: r in ranges ==>
      EventsOrdered(r.events, rank("0") - 1, rank) && !EventsReopen(r.events, false)
    ensures Covered(PackageEntries(versions, ranges), v, rank) <==>
      || (exists x :: x in versions && Strip(x) != "" && v == rank(Token(x, "")))
      || (exists r :: r in ranges && OsvAffected(r.events, v, rank))
  {
    NothingListed(versions, ranges);
    forall r | r in ranges
      ensures Ordered(Boundaries(r.events), rank("0") - 1, rank) && !Reopens(Boundaries(r.events), false)
      ensures Affected(Boundaries(r.events), v, rank) == OsvAffected(r.events, v, rank)
    {
      SameOrder(r.events, rank("0") - 1, rank);
      SameReopens(r.events, false);
      SameStart(r.events);
      SameVulnerable(r.events, ClosesFirst(r.events), v, rank);
    }
    PackageAffected(versions, ranges, v, rank);
    assert forall x :: Strip(x) != "" ==> Bounded(x) == Token(x, "");
  }

  /** The two bounds: a fixed version is not affected, a last affected one is. */
  lemma IntervalMeaning(kind: string, a: string, b: string, v: int, rank: Rank)
    requires Strip(a) == a != "" && Strip(b) == b != "" && b != "*" && |a| <= 1024 && |b| <= 1024
    ensures var begins := Event(Some(a), None, None);
      && (Covered(RangeEntries(Range(kind, [begins, Event(None, Some(b), None)])), v, rank) <==>
          rank(a) <= v < rank(b))
      && (Covered(RangeEntries(Range(kind, [begins, Event(None, None, Some(b))])), v, rank) <==>
          rank(a) <= v <= rank(b))
  {
    TwoEvents(Range(kind, [Event(Some(a), None, None), Event(None, Some(b), None)]), a, LessThan(b), v, rank);
    TwoEvents(Range(kind, [Event(Some(a), None, None), Event(None, None, Some(b))]), a, LessThanOrEqual(b), v, rank);
  }

  lemma TwoEvents(r: Range, a: string, bound: Bound, v: int, rank: Rank)
    requires |r.events| == 2 && Classify(r.events[0]) == Introduced(a)
    requires !bound.Only? && Classify(r.events[1]) == Closing(bound)
    ensures Covered(RangeEntries(r), v, rank) <==> InEntry(Entry(a, bound, ""), v, rank)
  {
    var bs, last, vtype := Boundaries(r.events), [Closing(bound)], VersionType(r.kind);
    assert bs == [Introduced(a)] + last;
    assert last[1..] == [] && Emit([], None, true, vtype) == [];
    assert Emit(last, Some(a), true, vtype) == [Entry(a, bound, vtype)] + [];
    assert bs[1..] == last && RangeEntries(r) == Emit(last, Some(a), true, vtype);
    CoveredCons(Entry(a, bound, vtype), [], v, rank);
  }
}

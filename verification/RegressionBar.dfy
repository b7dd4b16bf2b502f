/** The generalization log and its regression bar: a candidate snapshot is accepted only if
    no class of the latest snapshot is missing or has a lower exact rate. */
module RegressionBar {
  import opened Options

  datatype ClassRate = ClassRate(bugClass: string, rediscovered: nat, total: nat) {
    /** The unrounded rate; a class with nothing measured counts as zero. */
    function Exact(): real {
      if total == 0 then 0.0 else rediscovered as real / total as real
    }
  }

  datatype Rates = Rates(tag: string, rates: seq<ClassRate>) {
    ghost predicate Possible() {
      && (forall r :: r in rates ==> r.rediscovered <= r.total)
      && (forall i, j :: 0 <= i < j < |rates| ==> rates[i].bugClass != rates[j].bugClass)
    }
  }

  /** What the snapshot model's validators let through. */
  type Snapshot = s: Rates | s.Possible() witness Rates("", [])

  /** The first rate recorded for a class. */
  function RateFor(rates: seq<ClassRate>, bugClass: string): Option<ClassRate> {
    FirstKeyed(rates, (r: ClassRate) => r.bugClass, bugClass)
  }

  lemma RateForMember(rates: seq<ClassRate>, r: ClassRate)
    requires r in rates && forall i, j :: 0 <= i < j < |rates| ==> rates[i].bugClass != rates[j].bugClass
    ensures RateFor(rates, r.bugClass) == Some(r)
  {
    FirstIsOnly(rates, (x: ClassRate) => x.bugClass, r);
  }

  /** The rate is rediscovered over total, without rounding, and zero where nothing was measured. */
  lemma RateExactly(r: ClassRate, rate: real)
    ensures rate == r.Exact() <==>
      if r.total == 0 then rate == 0.0 else rate * r.total as real == r.rediscovered as real
  {
    if r.total > 0 && rate * r.total as real == r.rediscovered as real {
      assert rate == rate * r.total as real / r.total as real;
    }
  }

  /** A snapshot may hold exactly the lists that name no class twice and where no rate is above
      one and nothing was rediscovered out of nothing. */
  lemma PossibleExactly(s: Rates)
    ensures s.Possible() <==>
      && (forall r :: r in s.rates ==> r.Exact() <= 1.0 && (r.total == 0 ==> r.rediscovered == 0))
      && (forall i, j :: 0 <= i < |s.rates| && 0 <= j < |s.rates| && s.rates[i].bugClass == s.rates[j].bugClass
            ==> i == j)
  {
    forall r | r in s.rates
      ensures r.rediscovered <= r.total <==> r.Exact() <= 1.0 && (r.total == 0 ==> r.rediscovered == 0)
    {
      if r.total > 0 { BelowOne(r); }
    }
  }

  lemma BelowOne(r: ClassRate)
    requires r.total > 0
    ensures r.rediscovered <= r.total <==> r.Exact() <= 1.0
  {
  }

  datatype Violation = Regressed(bugClass: string) | Dropped(bugClass: string)

  /** The bar: every class of `base` is in `candidate` with a rate at least as large. */
  ghost predicate Holds(base: Snapshot, candidate: Snapshot) {
    forall r :: r in base.rates ==>
      exists c :: c in candidate.rates && c.bugClass == r.bugClass && r.Exact() <= c.Exact()
  }

  class GeneralizationLog {
    var snapshots: seq<Snapshot>

    constructor ()
      ensures snapshots == []
    {
      snapshots := [];
    }

    method Append(snapshot: Snapshot)
      modifies this
      ensures snapshots == old(snapshots) + [snapshot]
    {
      snapshots := snapshots + [snapshot];
    }

    /** `regressions`: exactly the candidate's lowered classes and the missing ones. */
    method Regressions(candidate: Snapshot) returns (out: seq<Violation>)
      ensures snapshots == [] ==> out == []
      ensures snapshots != [] ==> forall c :: Regressed(c) in out <==>
        exists r, b :: r in candidate.rates && b in snapshots[|snapshots| - 1].rates
          && r.bugClass == b.bugClass == c && r.Exact() < b.Exact()
      ensures snapshots != [] ==> forall c :: Dropped(c) in out <==>
        (exists b :: b in snapshots[|snapshots| - 1].rates && b.bugClass == c)
        && (forall r :: r in candidate.rates ==> r.bugClass != c)
    {
      out := [];
      if snapshots == [] {
        return;
      }
      var base: Snapshot := snapshots[|snapshots| - 1];
      out := Lowered(base, candidate);
      var missing := Missing(base, candidate);
      out := out + missing;
    }

    method Accepts(candidate: Snapshot) returns (ok: bool)
      ensures ok <==> snapshots == [] || Holds(snapshots[|snapshots| - 1], candidate)
    {
      var violations := Regressions(candidate);
      ok := violations == [];
      if snapshots != [] {
        BarFromViolations(snapshots[|snapshots| - 1], candidate, violations);
      }
    }

    /** The merge gate: append what is accepted, and only that. A log built by this method
        alone is gated. */
    method Merge(candidate: Snapshot) returns (ok: bool)
      modifies this
      ensures ok <==> old(snapshots) == [] || Holds(old(snapshots)[|old(snapshots)| - 1], candidate)
      ensures snapshots == if ok then old(snapshots) + [candidate] else old(snapshots)
      ensures Gated(old(snapshots)) ==> Gated(snapshots)
    {
      ok := Accepts(candidate);
      if ok {
        if Gated(snapshots) { AppendAccepted(snapshots, candidate); }
        Append(candidate);
      }
    }
  }

  method Lowered(base: Snapshot, candidate: Snapshot) returns (out: seq<Violation>)
    ensures forall v :: v in out ==> v.Regressed?
    ensures forall c :: Regressed(c) in out <==>
      exists r, b :: r in candidate.rates && b in base.rates && r.bugClass == b.bugClass == c && r.Exact() < b.Exact()
  {
    out := [];
    for i := 0 to |candidate.rates|
      invariant forall v :: v in out ==> v.Regressed?
      invariant forall c :: Regressed(c) in out <==>
        exists r, b :: r in candidate.rates[..i] && b in base.rates && r.bugClass == b.bugClass == c
            && r.Exact() < b.Exact()
    {
      var r := candidate.rates[i];
      var baseRate := RateFor(base.rates, r.bugClass);
      forall b | b in base.rates && b.bugClass == r.bugClass ensures baseRate == Some(b) {
        RateForMember(base.rates, b);
      }
      assert candidate.rates[..i + 1] == candidate.rates[..i] + [r];
      if baseRate.Some? && r.Exact() < baseRate.value.Exact() {
        out := out + [Regressed(r.bugClass)];
      }
    }
    assert candidate.rates[..|candidate.rates|] == candidate.rates;
  }

  method Missing(base: Snapshot, candidate: Snapshot) returns (out: seq<Violation>)
    ensures forall v :: v in out ==> v.Dropped?
    ensures forall c :: Dropped(c) in out <==>
      (exists b :: b in base.rates && b.bugClass == c) && (forall r :: r in candidate.rates ==> r.bugClass != c)
  {
    var candidateClasses := set r | r in candidate.rates :: r.bugClass;
    out := [];
    for i := 0 to |base.rates|
      invariant forall v :: v in out ==> v.Dropped?
      invariant forall c :: Dropped(c) in out <==>
        (exists b :: b in base.rates[..i] && b.bugClass == c) && c !in candidateClasses
    {
      assert base.rates[..i + 1] == base.rates[..i] + [base.rates[i]];
      if base.rates[i].bugClass !in candidateClasses {
        out := out + [Dropped(base.rates[i].bugClass)];
      }
    }
    assert base.rates[..|base.rates|] == base.rates;
  }

  lemma BarFromViolations(base: Snapshot, candidate: Snapshot, out: seq<Violation>)
    requires forall c :: Regressed(c) in out <==>
      exists r, b :: r in candidate.rates && b in base.rates && r.bugClass == b.bugClass == c && r.Exact() < b.Exact()
    requires forall c :: Dropped(c) in out <==>
      (exists b :: b in base.rates && b.bugClass == c) && (forall r :: r in candidate.rates ==> r.bugClass != c)
    ensures out == [] <==> Holds(base, candidate)
  {
    if out == [] {
      forall b | b in base.rates
        ensures exists c :: c in candidate.rates && c.bugClass == b.bugClass && b.Exact() <= c.Exact()
      {
        assert Dropped(b.bugClass) !in out && Regressed(b.bugClass) !in out;
      }
    } else {
      assert out[0] in out;
      match out[0]
      case Regressed(c) =>
        var r, b :| r in candidate.rates && b in base.rates && r.bugClass == b.bugClass == c && r.Exact() < b.Exact();
        RateForMember(candidate.rates, r);
        forall r' | r' in candidate.rates && r'.bugClass == c ensures r' == r {
          RateForMember(candidate.rates, r');
        }
      case Dropped(c) =>
        var b :| b in base.rates && b.bugClass == c;
    }
  }

  // ----- whole histories -----

  /** Every snapshot after the first was accepted against its predecessor. */
  ghost predicate Gated(log: seq<Snapshot>) {
    forall i, j :: 0 <= i && j == i + 1 && j < |log| ==> Holds(log[i], log[j])
  }

  lemma AppendAccepted(log: seq<Snapshot>, candidate: Snapshot)
    requires Gated(log) && (log == [] || Holds(log[|log| - 1], candidate))
    ensures Gated(log + [candidate])
  {
    var log' := log + [candidate];
    forall i, j | 0 <= i && j == i + 1 && j < |log'| ensures Holds(log'[i], log'[j]) {
      if j < |log| { assert Holds(log[i], log[j]); }
    }
  }

  /** The bar holds between any two snapshots of a gated history, however far apart. */
  lemma {:induction false} NeverRegresses(log: seq<Snapshot>, i: nat, j: nat)
    requires Gated(log) && i <= j < |log|
    ensures Holds(log[i], log[j])
    decreases j
  {
    if i < j {
      NeverRegresses(log, i, j - 1);
      assert Holds(log[j - 1], log[j]);
    }
  }

  function SumOver(classes: seq<ClassRate>, rates: seq<ClassRate>): real {
    if classes == [] then 0.0
    else
      (match RateFor(rates, classes[0].bugClass) case Some(r) => r.Exact() case None => 0.0)
      + SumOver(classes[1..], rates)
  }

  function Total(rates: seq<real>): real {
    if rates == [] then 0.0 else rates[0] + Total(rates[1..])
  }

  /** The sum adds up one number for each class: its rate in the snapshot, or zero without one. */
  lemma {:induction false} SumMeaning(classes: seq<ClassRate>, s: Snapshot, rates: seq<real>)
    requires |rates| == |classes|
    requires forall i, r :: 0 <= i < |classes| && r in s.rates && r.bugClass == classes[i].bugClass
               ==> rates[i] == r.Exact()
    requires forall i :: 0 <= i < |classes| && (forall r :: r in s.rates ==> r.bugClass != classes[i].bugClass)
               ==> rates[i] == 0.0
    ensures SumOver(classes, s.rates) == Total(rates)
  {
    if classes != [] {
      SumMeaning(classes[1..], s, rates[1..]);
      forall r | r in s.rates && r.bugClass == classes[0].bugClass
        ensures RateFor(s.rates, classes[0].bugClass) == Some(r)
      {
        RateForMember(s.rates, r);
      }
    }
  }

  lemma {:induction false} SumGrows(classes: seq<ClassRate>, base: Snapshot, later: Snapshot)
    requires Holds(base, later) && forall c :: c in classes ==> c in base.rates
    ensures SumOver(classes, base.rates) <= SumOver(classes, later.rates)
  {
    if classes != [] {
      var b := classes[0];
      RateForMember(base.rates, b);
      var r :| r in later.rates && r.bugClass == b.bugClass && b.Exact() <= r.Exact();
      RateForMember(later.rates, r);
      SumGrows(classes[1..], base, later);
    }
  }

  /** Over a gated history the summed rate of a snapshot's own classes never falls. */
  lemma SumNeverFalls(log: seq<Snapshot>, i: nat, j: nat)
    requires Gated(log) && i <= j < |log|
    ensures SumOver(log[i].rates, log[i].rates) <= SumOver(log[i].rates, log[j].rates)
  {
    NeverRegresses(log, i, j);
    SumGrows(log[i].rates, log[i], log[j]);
  }
}

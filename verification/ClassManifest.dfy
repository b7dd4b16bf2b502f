/** The aggregate class manifest: the set of classes behind the headline mean is committed
    and monotonic, so a clean certification fixes which results are averaged and how. */
module ClassManifest {
  import Chain = AppendOnlyChain
  import opened ContentHash
  import opened Options

  datatype Status = Active | Retired | Merged | Reclassed | NotApplicable

  datatype Entry = Entry(classId: string, headHistoryRoot: string, status: Status)

  /** `exits` are the committed authorizations to leave the mean at this version;
      `contentHash` is the sealed hash the manifest chain folds. */
  datatype RawManifest = Manifest(version: string, entries: seq<Entry>, exits: seq<string>, contentHash: string) {
    ghost predicate UniqueIds() {
      forall i, j :: 0 <= i < j < |entries| ==> entries[i].classId != entries[j].classId
    }

    function ClassIds(): set<string> { set e | e in entries :: e.classId }
    function ActiveIds(): set<string> { set e | e in entries && e.status.Active? :: e.classId }
    function ExitIds(): set<string> { set x | x in exits }
  }

  type Manifest = m: RawManifest | m.UniqueIds() witness RawManifest.Manifest("", [], [], "")

  datatype Recall = Recall(rediscovered: nat, total: nat) {
    function Rate(): real {
      if total > 0 then rediscovered as real / total as real else 0.0
    }
  }

  datatype Attestation = Attestation(historyRoot: string, reportHash: string, evaluatorId: string,
                                     root: string, signature: string)

  datatype ClassResult = ClassResult(classId: string, attestation: Attestation, recall: Recall)

  datatype Committed = Committed(manifestRoot: string, registry: map<string, string>, evaluatorId: string)

  /** The foreign parts: the signature check, the hash of a report and the rounding of an exact
      rational to a float. */
  datatype Oracle = Oracle(verify: (string, string) -> bool, reportHash: Recall -> string, toFloat: real -> real)

  datatype Aggregate = Aggregate(mean: real, classCount: nat)

  datatype Violation =
    | SilentlyDropped | AttestationMissing | AttestationInvalid | AggregateUnverified | ManifestTruncated

  const TOLERANCE: real := 0.000000001

  // ----- preservation -----

  /** Removed from the manifest, or kept with a status outside the mean. */
  function Departed(prev: Manifest, curr: Manifest): set<string> {
    (prev.ClassIds() - curr.ClassIds()) + (prev.ActiveIds() - curr.ActiveIds())
  }

  /** Every class that left at a version has an exit on that version. */
  ghost predicate PairAuthorized(prev: Manifest, curr: Manifest) {
    Departed(prev, curr) <= curr.ExitIds()
  }

  ghost predicate PairsAuthorized(history: seq<Manifest>) {
    var n := |history|;
    n < 2 || (PairsAuthorized(history[..n - 1]) && PairAuthorized(history[n - 2], history[n - 1]))
  }

  function EverInMean(history: seq<Manifest>): set<string> {
    set m: RawManifest, c | m in history && c in m.ActiveIds() :: c
  }

  function ExitsAnywhere(history: seq<Manifest>): set<string> {
    set m: RawManifest, c | m in history && c in m.ExitIds() :: c
  }

  ghost predicate HeadAuthorized(history: seq<Manifest>) {
    history != [] ==> EverInMean(history) - history[|history| - 1].ActiveIds() <= ExitsAnywhere(history)
  }

  lemma EverGrows(history: seq<Manifest>, n: nat)
    requires n < |history|
    ensures EverInMean(history[..n + 1]) == EverInMean(history[..n]) + history[n].ActiveIds()
    ensures ExitsAnywhere(history[..n + 1]) == ExitsAnywhere(history[..n]) + history[n].ExitIds()
  {
    assert history[..n + 1] == history[..n] + [history[n]];
  }

  /** The terminal-head guard adds nothing: the pairwise check implies it. */
  lemma {:induction false} PairsImplyHead(history: seq<Manifest>)
    requires PairsAuthorized(history)
    ensures HeadAuthorized(history)
  {
    var n := |history| - 1;
    if n >= 0 {
      var front := history[..n];
      EverGrows(history, n);
      assert history[..n + 1] == history;
      if n > 0 {
        PairsImplyHead(front);
      }
    }
  }

  /** `_check_manifest_preservation`: the pairwise check, then the terminal-head guard. */
  method CheckManifestPreservation(history: seq<Manifest>) returns (report: seq<Violation>)
    ensures report == [] <==> PairsAuthorized(history)
  {
    var pairs := CheckPairs(history);
    var head := CheckHead(history);
    if pairs == [] {
      PairsImplyHead(history);
    }
    report := pairs + head;
  }

  method CheckPairs(history: seq<Manifest>) returns (report: seq<Violation>)
    ensures report == [] <==> PairsAuthorized(history)
  {
    report := [];
    if history == [] {
      return;
    }
    for n := 1 to |history|
      invariant report == [] <==> PairsAuthorized(history[..n])
    {
      assert history[..n + 1][..n] == history[..n];
      var dropped := Unauthorized(history[n - 1], history[n]);
      report := report + seq(|dropped|, _ => SilentlyDropped);
    }
    assert history[..|history|] == history;
  }

  function Unauthorized(prev: Manifest, curr: Manifest): (r: set<string>)
    ensures |r| == 0 <==> PairAuthorized(prev, curr)
  {
    NothingLeft(Departed(prev, curr), curr.ExitIds());
    Departed(prev, curr) - curr.ExitIds()
  }

  lemma NothingLeft(departed: set<string>, exits: set<string>)
    ensures |departed - exits| == 0 <==> departed <= exits
  {
    if departed <= exits {
      assert departed - exits == {};
    } else {
      var x :| x in departed && x !in exits;
      assert x in departed - exits;
    }
  }

  method CheckHead(history: seq<Manifest>) returns (report: seq<Violation>)
    ensures report == [] <==> HeadAuthorized(history)
  {
    report := [];
    if history != [] {
      var everInMean, exitsAnywhere := {}, {};
      for i := 0 to |history|
        invariant everInMean == EverInMean(history[..i]) && exitsAnywhere == ExitsAnywhere(history[..i])
      {
        EverGrows(history, i);
        everInMean := everInMean + history[i].ActiveIds();
        exitsAnywhere := exitsAnywhere + history[i].ExitIds();
      }
      assert history[..|history|] == history;
      NothingLeft(everInMean - history[|history| - 1].ActiveIds(), exitsAnywhere);
      var lost := everInMean - history[|history| - 1].ActiveIds() - exitsAnywhere;
      report := seq(|lost|, _ => SilentlyDropped);
      assert |report| == |lost|;
    }
  }

  // ----- certification -----

  /** The in-mean class entries of a version, in manifest order. */
  function InMean(entries: seq<Entry>): (r: seq<Entry>)
    ensures forall e :: e in r <==> e in entries && e.status.Active?
  {
    if entries == [] then []
    else (if entries[0].status.Active? then [entries[0]] else []) + InMean(entries[1..])
  }

  ghost predicate DistinctClasses(entries: seq<Entry>) {
    forall i, j :: 0 <= i < j < |entries| ==> entries[i].classId != entries[j].classId
  }

  lemma {:induction false} InMeanDistinct(entries: seq<Entry>)
    requires DistinctClasses(entries)
    ensures DistinctClasses(InMean(entries))
  {
    if entries != [] {
      InMeanDistinct(entries[1..]);
    }
  }

  /** The first result presented for a class. */
  function ResultFor(results: seq<ClassResult>, classId: string): Option<ClassResult> {
    FirstKeyed(results, (r: ClassResult) => r.classId, classId)
  }

  predicate Pinned(e: Entry, committed: Committed) {
    e.classId in committed.registry && committed.registry[e.classId] == e.headHistoryRoot
  }

  predicate Attested(e: Entry, r: ClassResult, committed: Committed, oracle: Oracle) {
    && r.attestation.historyRoot == e.headHistoryRoot
    && r.attestation.reportHash == oracle.reportHash(r.recall)
    && r.attestation.evaluatorId == committed.evaluatorId
    && oracle.verify(r.attestation.root, r.attestation.signature)
  }

  /** The pin is mandatory once a committed baseline or a registry exists. */
  predicate PinRequired(committed: Committed, emptyRoot: string) {
    committed.manifestRoot != emptyRoot || committed.registry != map[]
  }

  ghost predicate DistinctResults(results: seq<ClassResult>) {
    forall i, j :: 0 <= i < j < |results| ==> results[i].classId != results[j].classId
  }

  ghost predicate DistinctRoots(active: seq<Entry>) {
    forall i, j :: 0 <= i < j < |active| ==> active[i].headHistoryRoot != active[j].headHistoryRoot
  }

  ghost predicate Bound(e: Entry, results: seq<ClassResult>, committed: Committed, oracle: Oracle, pin: bool) {
    && (pin ==> Pinned(e, committed))
    && ResultFor(results, e.classId).Some?
    && Attested(e, ResultFor(results, e.classId).value, committed, oracle)
  }

  function RateOf(results: seq<ClassResult>, classId: string): real {
    match ResultFor(results, classId)
    case Some(r) => r.recall.Rate()
    case None => 0.0
  }

  /** The sum behind the recomputed mean: one rate per in-mean class. */
  function RateSum(ids: seq<string>, results: seq<ClassResult>): real {
    if ids == [] then 0.0 else RateOf(results, ids[0]) + RateSum(ids[1..], results)
  }

  function Ids(active: seq<Entry>): seq<string> {
    seq(|active|, i requires 0 <= i < |active| => active[i].classId)
  }

  function Mean(sum: real, count: nat): real { if count == 0 then 0.0 else sum / count as real }

  predicate Near(x: real, y: real, tolerance: real) { -tolerance <= x - y <= tolerance }

  /** The float the reported mean is compared with; without classes it is zero itself. */
  function Headline(sum: real, count: nat, oracle: Oracle): real {
    if count == 0 then 0.0 else oracle.toFloat(Mean(sum, count))
  }

  /** The head version together with the presented results and headline passes. */
  ghost predicate HeadCertified(head: Manifest, results: seq<ClassResult>, aggregate: Aggregate,
                                committed: Committed, oracle: Oracle, pin: bool)
  {
    var active := InMean(head.entries);
    && DistinctResults(results)
    && (forall r :: r in results ==> r.classId in head.ActiveIds())
    && DistinctRoots(active)
    && (forall e :: e in active ==> Bound(e, results, committed, oracle, pin))
    && aggregate.classCount == |active|
    && Near(Headline(RateSum(Ids(active), results), |active|, oracle), aggregate.mean, TOLERANCE)
  }

  function ContentHashes(history: seq<Manifest>): seq<string> {
    seq(|history|, i requires 0 <= i < |history| => history[i].contentHash)
  }

  ghost predicate Certified(h: Hash, history: seq<Manifest>, results: seq<ClassResult>, aggregate: Aggregate,
                            committed: Committed, oracle: Oracle)
  {
    && Chain.Reproduces(h, ContentHashes(history), committed.manifestRoot)
    && PairsAuthorized(history)
    && history != []
    && HeadCertified(history[|history| - 1], results, aggregate, committed, oracle,
                     PinRequired(committed, ChainGenesis(h)))
  }

  /** `certify_aggregate`, from the committed state it loads itself. */
  method CertifyAggregate(h: Hash, history: seq<Manifest>, results: seq<ClassResult>, aggregate: Aggregate,
                          committed: Committed, oracle: Oracle)
    returns (report: seq<Violation>)
    ensures report == [] <==> Certified(h, history, results, aggregate, committed, oracle)
  {
    report := [];
    var reproduced := Chain.ReproducesCommitted(h, ContentHashes(history), committed.manifestRoot);
    if !reproduced {
      report := report + [ManifestTruncated];
    }
    var preservation := CheckManifestPreservation(history);
    report := report + preservation;
    if history == [] {
      report := report + [ManifestTruncated];
      return;
    }
    var head: Manifest := history[|history| - 1];
    var active := InMean(head.entries);
    var presented := CheckPresented(head, results);
    var roots := CheckRoots(active);
    var bound := CheckBound(active, results, committed, oracle, PinRequired(committed, ChainGenesis(h)));
    var headline := CheckHeadline(active, results, aggregate, oracle);
    report := report + presented + roots + bound + headline;
  }

  /** At most one result per class, and only for in-mean head classes. */
  method CheckPresented(head: Manifest, results: seq<ClassResult>) returns (report: seq<Violation>)
    ensures report == [] <==>
      DistinctResults(results) && forall r :: r in results ==> r.classId in head.ActiveIds()
  {
    report := [];
    var seen: set<string> := {};
    for i := 0 to |results|
      invariant seen == set r | r in results[..i] :: r.classId
      invariant report == [] <==>
        DistinctResults(results[..i]) && forall r :: r in results[..i] ==> r.classId in head.ActiveIds()
    {
      var r := results[i];
      assert results[..i + 1] == results[..i] + [r];
      if r.classId in seen {
        report := report + [AttestationInvalid];
        continue;
      }
      seen := seen + {r.classId};
      if r.classId !in head.ActiveIds() {
        report := report + [AttestationInvalid];
      }
    }
    assert results[..|results|] == results;
  }

  /** Two in-mean classes must not share a head history root. */
  method CheckRoots(active: seq<Entry>) returns (report: seq<Violation>)
    ensures report == [] <==> DistinctRoots(active)
  {
    report := [];
    var seen: set<string> := {};
    for i := 0 to |active|
      invariant forall c :: c in seen <==> exists j :: 0 <= j < i && active[j].headHistoryRoot == c
      invariant report == [] <==> DistinctRoots(active[..i])
    {
      if active[i].headHistoryRoot in seen {
        report := report + [AttestationInvalid];
      } else {
        seen := seen + {active[i].headHistoryRoot};
      }
    }
    assert active[..|active|] == active;
  }

  method CheckBound(active: seq<Entry>, results: seq<ClassResult>, committed: Committed, oracle: Oracle, pin: bool)
    returns (report: seq<Violation>)
    ensures report == [] <==> forall e :: e in active ==> Bound(e, results, committed, oracle, pin)
  {
    report := [];
    for i := 0 to |active|
      invariant report == [] <==> forall e :: e in active[..i] ==> Bound(e, results, committed, oracle, pin)
    {
      var e := active[i];
      assert active[..i + 1] == active[..i] + [e] && e in active[..i + 1];
      if pin && !Pinned(e, committed) {
        report := report + [AttestationInvalid];
      }
      var result := ResultFor(results, e.classId);
      if result.None? {
        report := report + [AttestationMissing];
        continue;
      }
      if !Attested(e, result.value, committed, oracle) {
        report := report + [AttestationInvalid];
      }
    }
    assert active[..|active|] == active;
  }

  /** The headline is recomputed; with a class result missing the mean is skipped (that class
      is already reported). */
  method CheckHeadline(active: seq<Entry>, results: seq<ClassResult>, aggregate: Aggregate, oracle: Oracle)
    returns (report: seq<Violation>)
    ensures report == [] <==>
      && aggregate.classCount == |active|
      && ((forall e :: e in active ==> ResultFor(results, e.classId).Some?) ==>
          Near(Headline(RateSum(Ids(active), results), |active|, oracle), aggregate.mean, TOLERANCE))
  {
    report := if aggregate.classCount != |active| then [AggregateUnverified] else [];
    if forall e :: e in active ==> ResultFor(results, e.classId).Some? {
      if !Near(Headline(RateSum(Ids(active), results), |active|, oracle), aggregate.mean, TOLERANCE) {
        report := report + [AggregateUnverified];
      }
    }
  }

  // ----- what a clean report means -----

  /** The same sum taken over the presented results, in the order they were presented. */
  function ResultSum(results: seq<ClassResult>): real {
    if results == [] then 0.0 else results[0].recall.Rate() + ResultSum(results[1..])
  }

  function Without(ids: seq<string>, k: nat): seq<string>
    requires k < |ids|
  {
    ids[..k] + ids[k + 1..]
  }

  lemma {:induction false} RateSumSplit(ids: seq<string>, results: seq<ClassResult>, k: nat)
    requires k < |ids|
    ensures RateSum(ids, results) == RateOf(results, ids[k]) + RateSum(Without(ids, k), results)
  {
    if k == 0 {
      assert Without(ids, 0) == ids[1..];
    } else {
      RateSumSplit(ids[1..], results, k - 1);
      assert Without(ids, k)[0] == ids[0] && Without(ids, k)[1..] == Without(ids[1..], k - 1);
    }
  }

  lemma {:induction false} RateSumSkips(ids: seq<string>, results: seq<ClassResult>)
    requires results != [] && results[0].classId !in ids
    ensures RateSum(ids, results) == RateSum(ids, results[1..])
  {
    if ids != [] { RateSumSkips(ids[1..], results); }
  }

  ghost predicate Distinct(ids: seq<string>) {
    forall i, j :: 0 <= i < j < |ids| ==> ids[i] != ids[j]
  }

  lemma WithoutRemoves(ids: seq<string>, k: nat)
    requires Distinct(ids) && k < |ids|
    ensures Distinct(Without(ids, k))
    ensures forall c :: c in Without(ids, k) <==> c in ids && c != ids[k]
  {
    var rest := Without(ids, k);
    forall i | 0 <= i < |rest| ensures rest[i] == ids[if i < k then i else i + 1] {}
    forall c | c in ids && c != ids[k] ensures c in rest {
      var i :| 0 <= i < |ids| && ids[i] == c;
      assert c == rest[if i < k then i else i - 1];
    }
  }

  function ResultClasses(results: seq<ClassResult>): set<string> { set r | r in results :: r.classId }

  lemma TailClasses(results: seq<ClassResult>)
    requires results != [] && DistinctResults(results)
    ensures ResultClasses(results[1..]) == ResultClasses(results) - {results[0].classId}
    ensures DistinctResults(results[1..])
  {
    assert results == [results[0]] + results[1..];
    assert forall r :: r in results[1..] ==> r.classId != results[0].classId;
  }

  lemma NoIds(ids: seq<string>)
    ensures ids == [] <==> forall c :: c !in ids
  {
    if ids != [] { assert ids[0] in ids; }
  }

  /** Distinct results for exactly the in-mean classes: as many, and the same sum. */
  lemma {:induction false} SumsAgree(ids: seq<string>, results: seq<ClassResult>)
    requires Distinct(ids) && DistinctResults(results)
    requires forall c :: c in ids <==> c in ResultClasses(results)
    ensures |ids| == |results| && RateSum(ids, results) == ResultSum(results)
  {
    if results == [] {
      NoIds(ids);
    } else {
      assert results[0] in results && results[0].classId in ids;
      var k :| 0 <= k < |ids| && ids[k] == results[0].classId;
      WithoutRemoves(ids, k);
      TailClasses(results);
      RateSumSplit(ids, results, k);
      RateSumSkips(Without(ids, k), results);
      SumsAgree(Without(ids, k), results[1..]);
    }
  }

  /** A clean report means: exactly one result per in-mean class, each under its own
      attestation; the class count is exact; the headline is within the tolerance, and the
      rounding error of one float, of the average of the presented rates; and no class ever
      left the mean without an exit. */
  lemma CleanAggregate(h: Hash, history: seq<Manifest>, results: seq<ClassResult>, aggregate: Aggregate,
                       committed: Committed, oracle: Oracle, rounding: real)
    requires Certified(h, history, results, aggregate, committed, oracle)
    requires rounding >= 0.0
    requires var mean := Mean(ResultSum(results), |results|); Near(oracle.toFloat(mean), mean, rounding)
    ensures |results| == aggregate.classCount == |InMean(history[|history| - 1].entries)|
    ensures OwnRoots(results)
    ensures Near(Mean(ResultSum(results), |results|), aggregate.mean, TOLERANCE + rounding)
    ensures EverInMean(history) - history[|history| - 1].ActiveIds() <= ExitsAnywhere(history)
  {
    HeadMeaning(history[|history| - 1], results, aggregate, committed, oracle, PinRequired(committed,
        ChainGenesis(h)));
    PairsImplyHead(history);
  }

  lemma HeadMeaning(head: Manifest, results: seq<ClassResult>, aggregate: Aggregate, committed: Committed,
                    oracle: Oracle, pin: bool)
    requires HeadCertified(head, results, aggregate, committed, oracle, pin)
    ensures |results| == aggregate.classCount == |InMean(head.entries)|
    ensures OwnRoots(results)
    ensures Near(Headline(ResultSum(results), |results|, oracle), aggregate.mean, TOLERANCE)
  {
    var active := InMean(head.entries);
    InMeanDistinct(head.entries);
    ResultsCoverActive(head, active, results, committed, oracle, pin);
    SumsAgree(Ids(active), results);
    OwnAttestations(active, results, committed, oracle, pin);
  }

  /** No two results rest on one certified history. */
  ghost predicate OwnRoots(results: seq<ClassResult>) {
    forall i, j :: 0 <= i < j < |results| ==>
      results[i].attestation.historyRoot != results[j].attestation.historyRoot
  }

  lemma ResultsCoverActive(head: Manifest, active: seq<Entry>, results: seq<ClassResult>, committed: Committed,
                           oracle: Oracle, pin: bool)
    requires active == InMean(head.entries)
    requires forall r :: r in results ==> r.classId in head.ActiveIds()
    requires forall e :: e in active ==> Bound(e, results, committed, oracle, pin)
    ensures forall r :: r in results ==> exists e :: e in active && e.classId == r.classId
    ensures forall c :: c in Ids(active) <==> c in ResultClasses(results)
  {
    forall c | c in Ids(active) ensures c in ResultClasses(results) {
      ActiveHasResult(active, results, committed, oracle, pin, c);
    }
    forall r | r in results ensures r.classId in Ids(active) {
      ResultIsActive(active, results, r);
    }
  }

  lemma ActiveHasResult(active: seq<Entry>, results: seq<ClassResult>, committed: Committed, oracle: Oracle,
                        pin: bool, c: string)
    requires c in Ids(active) && forall e :: e in active ==> Bound(e, results, committed, oracle, pin)
    ensures c in ResultClasses(results)
  {
    var i :| 0 <= i < |active| && active[i].classId == c;
    assert Bound(active[i], results, committed, oracle, pin);
  }

  lemma ResultIsActive(active: seq<Entry>, results: seq<ClassResult>, r: ClassResult)
    requires exists e :: e in active && e.classId == r.classId
    ensures r.classId in Ids(active)
  {
    var i :| 0 <= i < |active| && active[i].classId == r.classId;
    assert Ids(active)[i] == r.classId;
  }

  lemma OwnAttestations(active: seq<Entry>, results: seq<ClassResult>, committed: Committed, oracle: Oracle,
          pin: bool)
    requires DistinctResults(results) && DistinctRoots(active)
    requires forall e :: e in active ==> Bound(e, results, committed, oracle, pin)
    requires forall r :: r in results ==> exists e :: e in active && e.classId == r.classId
    ensures OwnRoots(results)
  {
    forall i, j | 0 <= i < j < |results|
      ensures results[i].attestation.historyRoot != results[j].attestation.historyRoot
    {
      var d := OwnEntry(active, results, committed, oracle, pin, i);
      var e := OwnEntry(active, results, committed, oracle, pin, j);
      RootsApart(active, d, e);
    }
  }

  lemma RootsApart(active: seq<Entry>, d: Entry, e: Entry)
    requires DistinctRoots(active) && d in active && e in active && d != e
    ensures d.headHistoryRoot != e.headHistoryRoot
  {
    var k :| 0 <= k < |active| && active[k] == d;
    var l :| 0 <= l < |active| && active[l] == e;
    assert k < l || l < k;
  }

  lemma OwnEntry(active: seq<Entry>, results: seq<ClassResult>, committed: Committed, oracle: Oracle, pin: bool,
          i: nat)
    returns (e: Entry)
    requires DistinctResults(results) && i < |results|
    requires forall e :: e in active ==> Bound(e, results, committed, oracle, pin)
    requires forall r :: r in results ==> exists e :: e in active && e.classId == r.classId
    ensures e in active && e.classId == results[i].classId
    ensures results[i].attestation.historyRoot == e.headHistoryRoot
  {
    assert results[i] in results;
    e :| e in active && e.classId == results[i].classId;
    var r := ResultFor(results, e.classId).value;
    var j :| 0 <= j < |results| && results[j] == r;
    assert i == j;
  }
}

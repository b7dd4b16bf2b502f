/** What a clean aggregate certification means, read off the manifest entries, the presented results
    and the committed state alone. */
module ClassManifestMeaning {
  import Chain = AppendOnlyChain
  import opened ClassManifest
  import opened ContentHash
  import opened Options

  // ----- exits -----

  ghost predicate Lists(m: Manifest, c: string) { exists e :: e in m.entries && e.classId == c }

  ghost predicate Averages(m: Manifest, c: string) {
    exists e :: e in m.entries && e.classId == c && e.status == Active
  }

  /** A class goes from the manifest, or from the mean. */
  ghost predicate Leaves(prev: Manifest, curr: Manifest, c: string) {
    (Lists(prev, c) && !Lists(curr, c)) || (Averages(prev, c) && !Averages(curr, c))
  }

  ghost predicate ExitsCommitted(history: seq<Manifest>) {
    forall m, n, c :: 0 <= m && n == m + 1 && n < |history| && Leaves(history[m], history[n], c) ==>
      c in history[n].exits
  }

  lemma DepartedMeaning(prev: Manifest, curr: Manifest, c: string)
    ensures c in Departed(prev, curr) <==> Leaves(prev, curr, c)
    ensures c in curr.ExitIds() <==> c in curr.exits
  {
  }

  lemma PairMeaning(prev: Manifest, curr: Manifest)
    ensures PairAuthorized(prev, curr) <==> forall c :: Leaves(prev, curr, c) ==> c in curr.exits
  {
    forall c
      ensures c in Departed(prev, curr) ==> c in curr.ExitIds() <==> (Leaves(prev, curr, c) ==> c in curr.exits)
    {
      DepartedMeaning(prev, curr, c);
    }
    if forall c :: Leaves(prev, curr, c) ==> c in curr.exits {
      forall c | c in Departed(prev, curr) ensures c in curr.ExitIds() { DepartedMeaning(prev, curr, c); }
    } else {
      var c :| Leaves(prev, curr, c) && c !in curr.exits;
      DepartedMeaning(prev, curr, c);
    }
  }

  /** The pairwise check passes exactly when every class that goes has an exit on that version. */
  lemma {:induction false} PairsExactly(history: seq<Manifest>)
    ensures PairsAuthorized(history) <==> ExitsCommitted(history)
  {
    var n := |history| - 1;
    if n >= 1 {
      var front := history[..n];
      PairsExactly(front);
      PairMeaning(history[n - 1], history[n]);
      ExitsGrow(history);
    }
  }

  lemma ExitsGrow(history: seq<Manifest>)
    requires |history| >= 2
    ensures var n := |history| - 1;
      ExitsCommitted(history) <==>
        ExitsCommitted(history[..n]) && forall c :: Leaves(history[n - 1], history[n], c) ==> c in history[n].exits
  {
    var n := |history| - 1;
    var front := history[..n];
    if ExitsCommitted(front) && forall c :: Leaves(history[n - 1], history[n], c) ==> c in history[n].exits {
      forall i, j, c | 0 <= i && j == i + 1 && j < |history| && Leaves(history[i], history[j], c)
        ensures c in history[j].exits
      {
        if j < n { assert Leaves(front[i], front[j], c); }
      }
    }
    if ExitsCommitted(history) {
      forall i, j, c | 0 <= i && j == i + 1 && j < n && Leaves(front[i], front[j], c) ensures c in front[j].exits {
        assert Leaves(history[i], history[j], c);
      }
    }
  }

  // ----- results -----

  /** What a presented result must show: it is for an in-mean class of the head, it rests on that
      class's certified history, its report and evaluator are the attested and committed ones, its
      signature verifies, and where a pin is required the registry holds that history. */
  ghost predicate Stands(r: ClassResult, e: Entry, committed: Committed, oracle: Oracle, pin: bool) {
    && e.status == Active && e.classId == r.classId && r.attestation.historyRoot == e.headHistoryRoot
    && r.attestation.reportHash == oracle.reportHash(r.recall)
    && r.attestation.evaluatorId == committed.evaluatorId
    && oracle.verify(r.attestation.root, r.attestation.signature)
    && (pin ==> r.classId in committed.registry && committed.registry[r.classId] == e.headHistoryRoot)
  }

  /** Results and in-mean classes match one to one, every result stands, and no certified history
      serves two classes. */
  ghost predicate ResultsStand(head: Manifest, results: seq<ClassResult>, committed: Committed, oracle: Oracle,
                               pin: bool)
  {
    && (forall i, j :: 0 <= i < j < |results| ==> results[i].classId != results[j].classId)
    && (forall r :: r in results ==> exists e :: e in head.entries && Stands(r, e, committed, oracle, pin))
    && (forall e :: e in head.entries && e.status == Active ==> exists r :: r in results && r.classId == e.classId)
    && OwnHistories(head)
  }

  ghost predicate OwnHistories(head: Manifest) {
    forall d, e :: d in head.entries && e in head.entries && d.status == Active && e.status == Active && d != e ==>
      d.headHistoryRoot != e.headHistoryRoot
  }

  /** The rate of a result, by what it multiplies back to. */
  predicate IsRate(q: real, recall: Recall) {
    if recall.total == 0 then q == 0.0 else q * recall.total as real == recall.rediscovered as real
  }

  lemma RateExactly(recall: Recall, q: real)
    ensures IsRate(q, recall) <==> q == recall.Rate()
  {
    if recall.total > 0 {
      var t := recall.total as real;
      assert recall.Rate() * t == recall.rediscovered as real;
      if q * t == recall.rediscovered as real { assert (q - recall.Rate()) * t == 0.0; }
    }
  }

  ghost predicate AreRates(rates: seq<real>, results: seq<ClassResult>) {
    |rates| == |results| && forall i :: 0 <= i < |rates| ==> IsRate(rates[i], results[i].recall)
  }

  function Total(rates: seq<real>): real { if rates == [] then 0.0 else rates[0] + Total(rates[1..]) }

  lemma {:induction false} TotalIsSum(rates: seq<real>, results: seq<ClassResult>)
    requires AreRates(rates, results)
    ensures Total(rates) == ResultSum(results)
  {
    if rates != [] {
      RateExactly(results[0].recall, rates[0]);
      TotalIsSum(rates[1..], results[1..]);
    }
  }

  /** The reported headline: as many classes as results, and a mean within the tolerance of the
      rounded average of the rates, of zero where there is none. */
  ghost predicate HeadlineStands(results: seq<ClassResult>, rates: seq<real>, aggregate: Aggregate, oracle: Oracle) {
    && aggregate.classCount == |results|
    && var mean := if results == [] then 0.0 else oracle.toFloat(Total(rates) / |results| as real);
       mean - 0.000000001 <= aggregate.mean <= mean + 0.000000001
  }

  ghost predicate PinNeeded(h: Hash, committed: Committed) {
    committed.manifestRoot != h(GENESIS_TEXT) || exists c :: c in committed.registry
  }

  /** A certification is clean exactly when the presented chain reproduces the committed root, every
      class that went has its exit, there is a head version, and the results and the headline over
      it stand. */
  lemma CertifiedExactly(h: Hash, history: seq<Manifest>, results: seq<ClassResult>, rates: seq<real>,
                         aggregate: Aggregate, committed: Committed, oracle: Oracle)
    requires AreRates(rates, results)
    ensures Certified(h, history, results, aggregate, committed, oracle) <==>
      && (exists k :: 0 <= k <= |history| && Chain.ChainRoot(h, ContentHashes(history)[..k]) == committed.manifestRoot)
      && ExitsCommitted(history) && history != []
      && ResultsStand(history[|history| - 1], results, committed, oracle, PinNeeded(h, committed))
      && HeadlineStands(results, rates, aggregate, oracle)
  {
    PairsExactly(history);
    TotalIsSum(rates, results);
    assert PinRequired(committed, ChainGenesis(h)) <==> PinNeeded(h, committed);
    if history != [] {
      HeadExactly(history[|history| - 1], results, aggregate, committed, oracle,
                  PinRequired(committed, ChainGenesis(h)), rates);
    }
  }

  lemma HeadExactly(head: Manifest, results: seq<ClassResult>, aggregate: Aggregate, committed: Committed,
                    oracle: Oracle, pin: bool, rates: seq<real>)
    requires AreRates(rates, results)
    ensures HeadCertified(head, results, aggregate, committed, oracle, pin) <==>
      ResultsStand(head, results, committed, oracle, pin) && HeadlineStands(results, rates, aggregate, oracle)
  {
    BindingExactly(head, results, committed, oracle, pin);
    if HeadBound(head, results, committed, oracle, pin) {
      HeadlineExactly(head, results, aggregate, committed, oracle, pin, rates);
    }
  }

  lemma HeadlineExactly(head: Manifest, results: seq<ClassResult>, aggregate: Aggregate, committed: Committed,
                        oracle: Oracle, pin: bool, rates: seq<real>)
    requires AreRates(rates, results) && HeadBound(head, results, committed, oracle, pin)
    ensures var active := InMean(head.entries);
      aggregate.classCount == |active|
      && Near(Headline(RateSum(Ids(active), results), |active|, oracle), aggregate.mean, TOLERANCE)
      <==> HeadlineStands(results, rates, aggregate, oracle)
  {
    var active := InMean(head.entries);
    InMeanDistinct(head.entries);
    ResultsCoverActive(head, active, results, committed, oracle, pin);
    SumsAgree(Ids(active), results);
    TotalIsSum(rates, results);
    NearMeaning(Total(rates), |results|, aggregate.mean, oracle);
  }

  lemma NearMeaning(total: real, count: nat, reported: real, oracle: Oracle)
    ensures Near(Headline(total, count, oracle), reported, TOLERANCE) <==>
      var mean := if count == 0 then 0.0 else oracle.toFloat(total / count as real);
      mean - 0.000000001 <= reported <= mean + 0.000000001
  {
  }

  /** The part of the head check that does not speak of the headline. */
  ghost predicate HeadBound(head: Manifest, results: seq<ClassResult>, committed: Committed, oracle: Oracle,
                            pin: bool) {
    && DistinctResults(results) && (forall r :: r in results ==> r.classId in head.ActiveIds())
    && DistinctRoots(InMean(head.entries))
    && (forall e :: e in InMean(head.entries) ==> Bound(e, results, committed, oracle, pin))
  }

  lemma BindingExactly(head: Manifest, results: seq<ClassResult>, committed: Committed, oracle: Oracle, pin: bool)
    ensures HeadBound(head, results, committed, oracle, pin) <==> ResultsStand(head, results, committed, oracle, pin)
  {
    if HeadBound(head, results, committed, oracle, pin) { BoundStands(head, results, committed, oracle, pin); }
    if ResultsStand(head, results, committed, oracle, pin) { StandsBound(head, results, committed, oracle, pin); }
  }

  lemma BoundStands(head: Manifest, results: seq<ClassResult>, committed: Committed, oracle: Oracle, pin: bool)
    requires HeadBound(head, results, committed, oracle, pin)
    ensures ResultsStand(head, results, committed, oracle, pin)
  {
    forall r | r in results ensures exists e :: e in head.entries && Stands(r, e, committed, oracle, pin) {
      var e :| e in head.entries && e.status.Active? && e.classId == r.classId;
      ResultIsOnly(results, r);
      assert Bound(e, results, committed, oracle, pin) && Stands(r, e, committed, oracle, pin);
    }
    forall e | e in head.entries && e.status == Active ensures exists r :: r in results && r.classId == e.classId {
      assert e in InMean(head.entries) && Bound(e, results, committed, oracle, pin);
    }
    forall d, e | d in head.entries && e in head.entries && d.status == Active && e.status == Active && d != e
      ensures d.headHistoryRoot != e.headHistoryRoot
    {
      RootsApart(InMean(head.entries), d, e);
    }
  }

  lemma StandsBound(head: Manifest, results: seq<ClassResult>, committed: Committed, oracle: Oracle, pin: bool)
    requires ResultsStand(head, results, committed, oracle, pin)
    ensures HeadBound(head, results, committed, oracle, pin)
  {
    RootsOwn(head);
    forall e | e in InMean(head.entries) ensures Bound(e, results, committed, oracle, pin) {
      var r :| r in results && r.classId == e.classId;
      var d :| d in head.entries && Stands(r, d, committed, oracle, pin);
      EachBound(head, results, committed, oracle, pin, r, d, e);
    }
  }

  lemma RootsOwn(head: Manifest)
    requires OwnHistories(head)
    ensures DistinctRoots(InMean(head.entries))
  {
    var active := InMean(head.entries);
    InMeanDistinct(head.entries);
    forall i, j | 0 <= i < j < |active| ensures active[i].headHistoryRoot != active[j].headHistoryRoot {
      assert active[i] in active && active[j] in active && active[i].classId != active[j].classId;
    }
  }

  lemma EachBound(head: Manifest, results: seq<ClassResult>, committed: Committed, oracle: Oracle, pin: bool,
                  r: ClassResult, d: Entry, e: Entry)
    requires DistinctResults(results) && r in results && r.classId == e.classId
    requires d in head.entries && e in head.entries && Stands(r, d, committed, oracle, pin)
    ensures Bound(e, results, committed, oracle, pin)
  {
    SameClass(head, d, e);
    ResultIsOnly(results, r);
  }

  lemma ResultIsOnly(results: seq<ClassResult>, r: ClassResult)
    requires DistinctResults(results) && r in results
    ensures ResultFor(results, r.classId) == Some(r)
  {
    FirstIsOnly(results, (x: ClassResult) => x.classId, r);
  }

  lemma SameClass(head: Manifest, d: Entry, e: Entry)
    requires d in head.entries && e in head.entries && d.classId == e.classId
    ensures d == e
  {
    var i :| 0 <= i < |head.entries| && head.entries[i] == d;
    var j :| 0 <= j < |head.entries| && head.entries[j] == e;
    assert !(i < j) && !(j < i);
  }

  /** Where the committed root is that of a certified chain, the presented chain extends that one, or
      two hashed texts collide. */
  lemma CertifiedExtends(h: Hash, older: seq<string>, history: seq<Manifest>, results: seq<ClassResult>,
                         aggregate: Aggregate, committed: Committed, oracle: Oracle)
    requires Certified(h, history, results, aggregate, committed, oracle)
    requires committed.manifestRoot == Chain.ChainRoot(h, older)
    ensures var newer := seq(|history|, i requires 0 <= i < |history| => history[i].contentHash);
      older <= newer || Collision(h, Chain.ChainTexts(h, older), Chain.ChainTexts(h, newer))
  {
    var newer := seq(|history|, i requires 0 <= i < |history| => history[i].contentHash);
    assert ContentHashes(history) == newer;
    Chain.ReproducesMeansExtends(h, older, newer);
  }
}

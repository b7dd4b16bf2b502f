/** Blind-access discipline, enforced twice: `attempt_evaluation` refuses bad attempts when
    they are made, `_check_blind_access` judges a finished list rebuilt from storage. The
    main result says exactly how the two relate. */
module EvaluationRun {
  import opened Options

  /** The phase is free text in storage; only two values are known. */
  const PRE_FREEZE: string := "pre_freeze"
  const POST_FREEZE: string := "post_freeze"

  datatype Attempt = Attempt(
    phase: string, producedResults: bool, artifactHash: string, envHash: string,
    logsIntact: bool, freezeHash: string, resultsHash: string)

  datatype Refusal = InfraRetryRequiresUnchanged | BlindAccessPreFreeze | UnknownPhase
                   | MissingFreeze | BlindAccessExceeded

  datatype Outcome = Recorded(attempt: Attempt) | Refused(reason: Refusal)

  datatype Violation = RunInvalid | PreFreezeAccess | AccessExceeded | RetryChanged

  function PostFreeze(attempts: seq<Attempt>): seq<Attempt> {
    if attempts == [] then []
    else
      var last := attempts[|attempts| - 1];
      var rest := PostFreeze(attempts[..|attempts| - 1]);
      if last.phase == POST_FREEZE then rest + [last] else rest
  }

  predicate AnyProduced(attempts: seq<Attempt>) {
    exists a :: a in attempts && a.producedResults
  }

  /** The decision of `attempt_evaluation`, check by check. */
  function Decide(freezeHash: Option<string>, attempts: seq<Attempt>, offer: Attempt): Outcome {
    var prior := PostFreeze(attempts);
    if !offer.producedResults && offer.resultsHash != "" then Refused(InfraRetryRequiresUnchanged)
    else if offer.phase == PRE_FREEZE then Refused(BlindAccessPreFreeze)
    else if offer.phase != POST_FREEZE then Refused(UnknownPhase)
    else if freezeHash.None? then Refused(MissingFreeze)
    else if prior != [] && AnyProduced(prior) then Refused(BlindAccessExceeded)
    else if prior != [] && !(offer.logsIntact && SameEnvironment(offer, prior[|prior| - 1])) then
      Refused(InfraRetryRequiresUnchanged)
    else Recorded(offer.(freezeHash := freezeHash.value))
  }

  predicate SameEnvironment(a: Attempt, b: Attempt) {
    a.artifactHash == b.artifactHash && a.envHash == b.envHash
  }

  class Run {
    const freezeHash: Option<string>
    var attempts: seq<Attempt>

    constructor (freezeHash: Option<string>)
      ensures this.freezeHash == freezeHash && attempts == []
      ensures Reachable(freezeHash, attempts)
    {
      this.freezeHash := freezeHash;
      attempts := [];
    }

    /** The caller's arguments travel in `offer`; its freezeHash field is ignored. Nothing
        is recorded on refusal. */
    method AttemptEvaluation(offer: Attempt) returns (outcome: Outcome)
      modifies this`attempts
      ensures outcome == Decide(freezeHash, old(attempts), offer)
      ensures outcome.Recorded? ==> attempts == old(attempts) + [outcome.attempt]
      ensures outcome.Refused? ==> attempts == old(attempts)
      ensures Reachable(freezeHash, old(attempts)) ==> Reachable(freezeHash, attempts)
    {
      if !offer.producedResults && offer.resultsHash != "" {
        return Refused(InfraRetryRequiresUnchanged);
      }
      if offer.phase == PRE_FREEZE {
        return Refused(BlindAccessPreFreeze);
      }
      if offer.phase != POST_FREEZE {
        return Refused(UnknownPhase);
      }
      if freezeHash.None? {
        return Refused(MissingFreeze);
      }
      var prior := PostFreeze(attempts);
      if prior != [] {
        if AnyProduced(prior) {
          return Refused(BlindAccessExceeded);
        }
        var last := prior[|prior| - 1];
        if !(offer.logsIntact && offer.artifactHash == last.artifactHash && offer.envHash == last.envHash) {
          return Refused(InfraRetryRequiresUnchanged);
        }
      }
      var attempt := offer.(freezeHash := freezeHash.value);
      assert (attempts + [attempt])[..|attempts|] == attempts;
      assert Decide(freezeHash, attempts, attempt) == Recorded(attempt);
      attempts := attempts + [attempt];
      outcome := Recorded(attempt);
    }
  }

  // ----- which call gets which answer -----

  /** A retry that claims no results and yet carries a hash of some. */
  predicate Concealed(offer: Attempt) { !offer.producedResults && offer.resultsHash != "" }

  ghost predicate LastPostFreeze(attempts: seq<Attempt>, k: int) {
    && 0 <= k < |attempts| && attempts[k].phase == "post_freeze"
    && forall j :: k < j < |attempts| ==> attempts[j].phase != "post_freeze"
  }

  /** The post-freeze attempts are those of that phase; the last of them is the latest one. */
  lemma PostFreezeMeaning(attempts: seq<Attempt>) returns (last: int)
    ensures forall a :: a in PostFreeze(attempts) <==> a in attempts && a.phase == "post_freeze"
    ensures PostFreeze(attempts) != [] ==>
      LastPostFreeze(attempts, last) && attempts[last] == PostFreeze(attempts)[|PostFreeze(attempts)| - 1]
    ensures forall k :: LastPostFreeze(attempts, k) ==> PostFreeze(attempts) != [] && k == last
  {
    PostFreezeMembers(attempts);
    last := FindLast(attempts);
    forall k | LastPostFreeze(attempts, k) ensures k == last && last >= 0 { OnlyLast(attempts, k, last); }
  }

  lemma OnlyLast(attempts: seq<Attempt>, k: int, last: int)
    requires forall a :: a in PostFreeze(attempts) <==> a in attempts && a.phase == "post_freeze"
    requires last >= 0 <==> PostFreeze(attempts) != []
    requires last >= 0 ==> LastPostFreeze(attempts, last)
    requires LastPostFreeze(attempts, k)
    ensures k == last
  {
    assert attempts[k] in PostFreeze(attempts);
  }

  lemma {:induction false} PostFreezeMembers(attempts: seq<Attempt>)
    ensures forall a :: a in PostFreeze(attempts) <==> a in attempts && a.phase == "post_freeze"
  {
    if attempts != [] {
      var n := |attempts| - 1;
      PostFreezeMembers(attempts[..n]);
      assert attempts == attempts[..n] + [attempts[n]];
    }
  }

  /** Where the latest post-freeze attempt stands, if there is one. */
  lemma {:induction false} FindLast(attempts: seq<Attempt>) returns (k: int)
    ensures k >= 0 <==> PostFreeze(attempts) != []
    ensures k >= 0 ==>
      LastPostFreeze(attempts, k) && attempts[k] == PostFreeze(attempts)[|PostFreeze(attempts)| - 1]
  {
    k := -1;
    if attempts != [] {
      var n := |attempts| - 1;
      if attempts[n].phase == "post_freeze" {
        k := n;
      } else {
        k := FindLast(attempts[..n]);
        assert PostFreeze(attempts) == PostFreeze(attempts[..n]);
      }
    }
  }

  /** The latest post-freeze attempt ran on another artifact or in another environment, or the logs of
      the retry are broken. */
  ghost predicate Changed(attempts: seq<Attempt>, offer: Attempt) {
    exists k :: LastPostFreeze(attempts, k)
                && !(offer.logsIntact && offer.artifactHash == attempts[k].artifactHash
                     && offer.envHash == attempts[k].envHash)
  }

  ghost predicate Evaluated(attempts: seq<Attempt>) {
    exists a :: a in attempts && a.phase == "post_freeze" && a.producedResults
  }

  /** Each answer, by the call that gets it: the refusals in their order, then the recorded attempt,
      bound to the freeze of the run. */
  lemma DecideExactly(freezeHash: Option<string>, attempts: seq<Attempt>, offer: Attempt)
    ensures var open := !Concealed(offer) && offer.phase == "post_freeze";
      var answer := Decide(freezeHash, attempts, offer);
      && (answer == Refused(BlindAccessPreFreeze) <==> !Concealed(offer) && offer.phase == "pre_freeze")
      && (answer == Refused(UnknownPhase) <==>
          !Concealed(offer) && offer.phase != "pre_freeze" && offer.phase != "post_freeze")
      && (answer == Refused(MissingFreeze) <==> open && freezeHash.None?)
      && (answer == Refused(BlindAccessExceeded) <==> open && freezeHash.Some? && Evaluated(attempts))
      && (answer == Refused(InfraRetryRequiresUnchanged) <==>
          Concealed(offer) || (open && freezeHash.Some? && !Evaluated(attempts) && Changed(attempts, offer)))
      && (answer.Recorded? ==> freezeHash.Some? && answer.attempt == offer.(freezeHash := freezeHash.value))
  {
    var last := PostFreezeMeaning(attempts);
    assert "pre_freeze" != "post_freeze" by { assert |"pre_freeze"| == 10 && |"post_freeze"| == 11; }
  }

  /** The attempt lists some sequence of accepted calls builds from an empty run. */
  ghost predicate Reachable(freezeHash: Option<string>, attempts: seq<Attempt>) {
    attempts == []
    || (var n := |attempts| - 1;
        Reachable(freezeHash, attempts[..n])
        && exists offer :: Decide(freezeHash, attempts[..n], offer) == Recorded(attempts[n]))
  }

  // ----- the validator -----

  ghost predicate ProducingIsLast(post: seq<Attempt>) {
    forall i :: 0 <= i < |post| - 1 ==> !post[i].producedResults
  }

  /** What `_check_blind_access` accepts, as a property of the list. */
  ghost predicate Clean(attempts: seq<Attempt>) {
    && (forall a :: a in attempts ==> a.phase == POST_FREEZE)
    && ProducingIsLast(attempts)
    && RetriesUnchanged(attempts)
  }

  /** Intact logs, one environment, and a results hash exactly on the producing attempts. */
  ghost predicate RetriesUnchanged(post: seq<Attempt>) {
    && (forall a :: a in post ==> a.logsIntact)
    && (forall a, b :: a in post && b in post ==> SameEnvironment(a, b))
    && (forall a :: a in post ==> (a.producedResults <==> a.resultsHash != ""))
  }

  /** `_check_blind_access`: the violations it adds, in order. */
  method CheckBlindAccess(attempts: seq<Attempt>) returns (report: seq<Violation>)
    ensures report == [] <==> Clean(attempts)
  {
    report := [];
    var preFreeze := false;
    for i := 0 to |attempts|
      invariant report == [] <==> forall a :: a in attempts[..i] ==> a.phase in {PRE_FREEZE, POST_FREEZE}
      invariant preFreeze <==> exists a :: a in attempts[..i] && a.phase == PRE_FREEZE
    {
      if attempts[i].phase !in {PRE_FREEZE, POST_FREEZE} {
        report := report + [RunInvalid];
      }
      preFreeze := preFreeze || attempts[i].phase == PRE_FREEZE;
    }
    assert attempts[..|attempts|] == attempts;
    if preFreeze {
      report := report + [PreFreezeAccess];
    }
    var post := PostFreeze(attempts);
    AllPostFreeze(attempts);
    assert report == [] <==> post == attempts;
    var order := CheckOrder(post);
    report := report + order;
    var retries := CheckRetries(post);
    report := report + retries;
  }

  lemma {:induction false} AllPostFreeze(attempts: seq<Attempt>)
    ensures PostFreeze(attempts) == attempts <==> forall a :: a in attempts ==> a.phase == POST_FREEZE
    ensures |PostFreeze(attempts)| <= |attempts|
  {
    if attempts != [] {
      var n := |attempts| - 1;
      assert attempts == attempts[..n] + [attempts[n]];
      AllPostFreeze(attempts[..n]);
    }
  }

  /** More than one producing attempt, or a producing attempt that is not the last. */
  method CheckOrder(post: seq<Attempt>) returns (report: seq<Violation>)
    ensures report == [] <==> ProducingIsLast(post)
  {
    report := [];
    var count, lastPosition := 0, -1;
    for i := 0 to |post|
      invariant -1 <= lastPosition < i
      invariant lastPosition >= 0 ==> post[lastPosition].producedResults
      invariant forall j :: lastPosition < j < i ==> !post[j].producedResults
      invariant count >= 0 && (count == 0 <==> lastPosition == -1)
      invariant count == 1 ==> forall j :: 0 <= j < i && j != lastPosition ==> !post[j].producedResults
      invariant count > 1 ==> exists j :: 0 <= j < lastPosition && post[j].producedResults
    {
      if post[i].producedResults {
        count, lastPosition := count + 1, i;
      }
    }
    if count > 1 {
      report := report + [AccessExceeded];
    }
    if count > 0 && lastPosition != |post| - 1 {
      report := report + [AccessExceeded];
    }
  }

  /** The infra-retry rules, anchored at the producing attempt if there is one. */
  method CheckRetries(post: seq<Attempt>) returns (report: seq<Violation>)
    ensures report == [] <==> RetriesUnchanged(post)
  {
    report := [];
    if post != [] {
      var anchor := 0;
      while anchor < |post| && !post[anchor].producedResults
        invariant 0 <= anchor <= |post|
      {
        anchor := anchor + 1;
      }
      anchor := if anchor < |post| then anchor else 0;
      if exists a :: a in post && !a.logsIntact {
        report := report + [RetryChanged];
      }
      if exists i :: 0 <= i < |post| && i != anchor && !SameEnvironment(post[i], post[anchor]) {
        report := report + [RetryChanged];
      }
      if exists a :: a in post && a.producedResults && a.resultsHash == "" {
        report := report + [RetryChanged];
      }
      if exists a :: a in post && !a.producedResults && a.resultsHash != "" {
        report := report + [RetryChanged];
      }
    }
  }

  // ----- recorder and validator -----

  ghost predicate BoundTo(freezeHash: Option<string>, attempts: seq<Attempt>) {
    forall a :: a in attempts ==> Some(a.freezeHash) == freezeHash
  }

  /** The two conditions the validator adds to what the recorder enforces. */
  predicate Sealed(attempts: seq<Attempt>) {
    && (attempts != [] ==> attempts[0].logsIntact)
    && (attempts != [] ==> attempts[|attempts| - 1].producedResults ==> attempts[|attempts| - 1].resultsHash != "")
  }

  /** What every accepted call keeps: only post-freeze attempts bound to the run's freeze,
      at most one producing attempt and that one last, one environment throughout, intact
      logs after the first, and no results hash on a retry. */
  ghost predicate Recordable(freezeHash: Option<string>, attempts: seq<Attempt>) {
    && BoundTo(freezeHash, attempts)
    && (forall a :: a in attempts ==> a.phase == POST_FREEZE)
    && ProducingIsLast(attempts)
    && (forall i :: 0 < i < |attempts| ==> attempts[i].logsIntact && SameEnvironment(attempts[i], attempts[i - 1]))
    && (forall a :: a in attempts ==> !a.producedResults ==> a.resultsHash == "")
  }

  /** An accepted call keeps a list recordable, and the last step of a recordable list is an
      accepted call. */
  lemma StepRecordable(freezeHash: Option<string>, front: seq<Attempt>, offer: Attempt, last: Attempt)
    requires Recordable(freezeHash, front) && Decide(freezeHash, front, offer) == Recorded(last)
    ensures Recordable(freezeHash, front + [last])
  {
    AllPostFreeze(front);
  }

  lemma FrontRecordable(freezeHash: Option<string>, front: seq<Attempt>, last: Attempt)
    requires Recordable(freezeHash, front + [last])
    ensures Recordable(freezeHash, front)
    ensures forall i :: 0 <= i < |front| ==> !front[i].producedResults
  {
    var all := front + [last];
    assert forall i :: 0 <= i < |front| ==> front[i] == all[i];
    assert forall a :: a in front ==> a in all;
  }

  lemma LastRecordable(freezeHash: Option<string>, front: seq<Attempt>, last: Attempt)
    requires Recordable(freezeHash, front + [last])
    ensures last.phase == POST_FREEZE && Some(last.freezeHash) == freezeHash
    ensures !last.producedResults ==> last.resultsHash == ""
    ensures front != [] ==> last.logsIntact && SameEnvironment(last, front[|front| - 1])
  {
    var all, n := front + [last], |front|;
    assert last in all && all[n] == last;
    if n > 0 {
      assert all[n - 1] == front[n - 1] && SameEnvironment(all[n], all[n - 1]);
    }
  }

  lemma UnstepRecordable(freezeHash: Option<string>, front: seq<Attempt>, last: Attempt)
    requires Recordable(freezeHash, front + [last])
    ensures Recordable(freezeHash, front)
    ensures Decide(freezeHash, front, last) == Recorded(last)
  {
    FrontRecordable(freezeHash, front, last);
    LastRecordable(freezeHash, front, last);
    AllPostFreeze(front);
  }

  /** The reachable lists are exactly the recordable ones. */
  lemma {:induction false} ReachableExactly(freezeHash: Option<string>, attempts: seq<Attempt>)
    ensures Reachable(freezeHash, attempts) <==> Recordable(freezeHash, attempts)
  {
    if attempts != [] {
      var n := |attempts| - 1;
      var front, last := attempts[..n], attempts[n];
      assert attempts == front + [last];
      ReachableExactly(freezeHash, front);
      if Recordable(freezeHash, attempts) {
        UnstepRecordable(freezeHash, front, last);
      }
      if Reachable(freezeHash, attempts) {
        var offer :| Decide(freezeHash, front, offer) == Recorded(last);
        StepRecordable(freezeHash, front, offer, last);
      }
    }
  }

  lemma {:induction false} OneEnvironment(attempts: seq<Attempt>, i: nat)
    requires forall k :: 0 < k < |attempts| ==> SameEnvironment(attempts[k], attempts[k - 1])
    requires i < |attempts|
    ensures SameEnvironment(attempts[i], attempts[0])
  {
    if i > 0 { OneEnvironment(attempts, i - 1); }
  }

  /** Recorder equals validator. A list whose attempts are all bound to the run's freeze
      passes the validator exactly when the recorder can build it AND its first attempt has
      intact logs AND a producing last attempt carries a results hash. */
  lemma RecorderEqualsValidator(freezeHash: Option<string>, attempts: seq<Attempt>)
    ensures Clean(attempts) && BoundTo(freezeHash, attempts) <==>
      Reachable(freezeHash, attempts) && Sealed(attempts)
  {
    ReachableExactly(freezeHash, attempts);
    if Recordable(freezeHash, attempts) && Sealed(attempts) {
      SealedIsClean(freezeHash, attempts);
    }
    if Clean(attempts) && BoundTo(freezeHash, attempts) {
      CleanIsSealed(freezeHash, attempts);
    }
  }

  lemma SealedIsClean(freezeHash: Option<string>, attempts: seq<Attempt>)
    requires Recordable(freezeHash, attempts) && Sealed(attempts)
    ensures Clean(attempts)
  {
    forall a, b | a in attempts && b in attempts ensures SameEnvironment(a, b) {
      var i :| 0 <= i < |attempts| && attempts[i] == a;
      var j :| 0 <= j < |attempts| && attempts[j] == b;
      OneEnvironment(attempts, i);
      OneEnvironment(attempts, j);
    }
    forall a | a in attempts ensures a.logsIntact && (a.producedResults ==> a.resultsHash != "") {
      var i :| 0 <= i < |attempts| && attempts[i] == a;
    }
  }

  lemma CleanIsSealed(freezeHash: Option<string>, attempts: seq<Attempt>)
    requires Clean(attempts) && BoundTo(freezeHash, attempts)
    ensures Recordable(freezeHash, attempts) && Sealed(attempts)
  {
    forall i | 0 < i < |attempts| ensures attempts[i].logsIntact && SameEnvironment(attempts[i], attempts[i - 1]) {
      assert attempts[i] in attempts && attempts[i - 1] in attempts;
    }
    if attempts != [] {
      assert attempts[0] in attempts && attempts[|attempts| - 1] in attempts;
    }
  }

  /** Each extra condition is needed: the recorder accepts a first attempt with broken logs,
      and a producing attempt with an empty results hash. */
  lemma RecorderGaps(freeze: string)
    ensures exists first: Attempt :: Reachable(Some(freeze), [first]) && !first.logsIntact && !Clean([first])
    ensures exists first: Attempt ::
              Reachable(Some(freeze), [first]) && first.producedResults && first.resultsHash == "" && !Clean([first])
  {
    var broken := Attempt(POST_FREEZE, false, "", "", false, freeze, "");
    var unbound := Attempt(POST_FREEZE, true, "", "", true, freeze, "");
    ReachableExactly(Some(freeze), [broken]);
    ReachableExactly(Some(freeze), [unbound]);
    assert broken in [broken] && unbound in [unbound];
  }

  /** At most one semantic evaluation per run, and nothing after it. */
  lemma AtMostOneProducing(freezeHash: Option<string>, attempts: seq<Attempt>, i: nat, j: nat)
    requires Reachable(freezeHash, attempts) && i < |attempts| && j < |attempts|
    requires attempts[i].producedResults && attempts[j].producedResults
    ensures i == j == |attempts| - 1
  {
    ReachableExactly(freezeHash, attempts);
  }
}

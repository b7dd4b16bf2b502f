/** The append-only chain roots and the committed anchor state of the evaluation contract.
    A certification must reproduce the committed root by some prefix of what it presents,
    and then the committed root advances. Over whole runs this forces every certified list
    to begin with every earlier one, or exhibits a hash collision. */
module AppendOnlyChain {
  import opened ContentHash
  import opened Options

  /** `chain_root`: fold `digest(running + entry)` from the genesis. */
  function ChainRoot(h: Hash, entries: seq<string>): string {
    if entries == [] then ChainGenesis(h)
    else h(ChainRoot(h, entries[..|entries| - 1]) + entries[|entries| - 1])
  }

  /** Every text `ChainRoot` feeds to the hash. */
  ghost function ChainTexts(h: Hash, entries: seq<string>): set<string> {
    if entries == [] then {GENESIS_TEXT}
    else
      var front := entries[..|entries| - 1];
      ChainTexts(h, front) + {ChainRoot(h, front) + entries[|entries| - 1]}
  }

  method ComputeChainRoot(h: Hash, entries: seq<string>) returns (root: string)
    ensures root == ChainRoot(h, entries)
  {
    root := ChainGenesis(h);
    for i := 0 to |entries|
      invariant root == ChainRoot(h, entries[..i])
    {
      assert entries[..i + 1][..i] == entries[..i];
      root := h(root + entries[i]);
    }
    assert entries[..|entries|] == entries;
  }

  /** Any list of running digests that starts at the genesis and mixes in one entry a step, in
      order, ends at the root. */
  lemma {:induction false} ChainMeaning(h: Hash, entries: seq<string>, running: seq<string>)
    requires |running| == |entries| + 1 && running[0] == h("deepthought/" + "evaluation-contract/chain-genesis/v1")
    requires forall i :: 0 <= i < |entries| ==> running[i + 1] == h(running[i] + entries[i])
    ensures ChainRoot(h, entries) == running[|entries|]
  {
    GenesisMeaning(h);
    if entries != [] {
      var last := |entries| - 1;
      ChainMeaning(h, entries[..last], running[..last + 1]);
    }
  }

  /** The last text hashed on the way to the root. */
  function LastText(h: Hash, entries: seq<string>): string {
    if entries == [] then GENESIS_TEXT
    else ChainRoot(h, entries[..|entries| - 1]) + entries[|entries| - 1]
  }

  lemma LastTextHashed(h: Hash, entries: seq<string>)
    ensures h(LastText(h, entries)) == ChainRoot(h, entries) && LastText(h, entries) in ChainTexts(h, entries)
  {
  }

  lemma LastTextShape(h: Hash, entries: seq<string>)
    ensures entries == [] <==> |LastText(h, entries)| < DIGEST_LENGTH
  {
    GenesisShape();
  }

  lemma SplitAlike(head: string, tail: string, head': string, tail': string)
    requires |head| == |head'| && head + tail == head' + tail'
    ensures head == head' && tail == tail'
  {
    assert head == (head + tail)[..|head|] && tail == (head + tail)[|head|..];
    assert head' == (head' + tail')[..|head|] && tail' == (head' + tail')[|head|..];
  }

  /** The same last text means the same last entry after chains with the same root. */
  lemma LastTextAlike(h: Hash, a: seq<string>, b: seq<string>)
    requires a != [] && b != [] && LastText(h, a) == LastText(h, b)
    ensures ChainRoot(h, a[..|a| - 1]) == ChainRoot(h, b[..|b| - 1]) && a[|a| - 1] == b[|b| - 1]
  {
    SplitAlike(ChainRoot(h, a[..|a| - 1]), a[|a| - 1], ChainRoot(h, b[..|b| - 1]), b[|b| - 1]);
  }

  lemma FrontsDiffer(a: seq<string>, b: seq<string>)
    requires a != [] && b != [] && a != b && a[|a| - 1] == b[|b| - 1]
    ensures a[..|a| - 1] != b[..|b| - 1]
  {
    assert a == a[..|a| - 1] + [a[|a| - 1]] && b == b[..|b| - 1] + [b[|b| - 1]];
  }

  /** Different chains with the same last text differ before their last entries. */
  lemma Peel(h: Hash, a: seq<string>, b: seq<string>)
    requires a != b && LastText(h, a) == LastText(h, b)
    ensures a != [] && b != [] && a[..|a| - 1] != b[..|b| - 1]
    ensures ChainRoot(h, a[..|a| - 1]) == ChainRoot(h, b[..|b| - 1])
  {
    LastTextShape(h, a);
    LastTextShape(h, b);
    LastTextAlike(h, a, b);
    FrontsDiffer(a, b);
  }

  lemma FrontTexts(h: Hash, a: seq<string>)
    requires a != []
    ensures ChainTexts(h, a[..|a| - 1]) <= ChainTexts(h, a)
  {
  }

  /** Dropping, reordering, rewriting or adding any entry changes the root, or two
      different texts `x` and `y` that were hashed on the way collide. */
  lemma {:induction false} ChainBinding(h: Hash, a: seq<string>, b: seq<string>) returns (x: string, y: string)
    requires ChainRoot(h, a) == ChainRoot(h, b) && a != b
    ensures x in ChainTexts(h, a) && y in ChainTexts(h, b) && Collides(h, x, y)
    decreases |a|
  {
    if LastText(h, a) == LastText(h, b) {
      Peel(h, a, b);
      x, y := ChainBinding(h, a[..|a| - 1], b[..|b| - 1]);
      FrontTexts(h, a);
      FrontTexts(h, b);
    } else {
      x, y := LastText(h, a), LastText(h, b);
      LastTextHashed(h, a);
      LastTextHashed(h, b);
    }
  }

  lemma {:induction false} PrefixTexts(h: Hash, entries: seq<string>, k: nat)
    requires k <= |entries|
    ensures ChainTexts(h, entries[..k]) <= ChainTexts(h, entries)
  {
    if k == |entries| {
      assert entries[..k] == entries;
    } else {
      var front := entries[..|entries| - 1];
      PrefixTexts(h, front, k);
      assert front[..k] == entries[..k];
    }
  }

  /** Some prefix of the presented chain has the committed root. */
  ghost predicate Reproduces(h: Hash, entries: seq<string>, committed: string) {
    exists k :: 0 <= k <= |entries| && ChainRoot(h, entries[..k]) == committed
  }

  /** `newer` begins with `older`, or the two chains exhibit a collision. */
  ghost predicate Extends(h: Hash, older: seq<string>, newer: seq<string>) {
    older <= newer || Collision(h, ChainTexts(h, older), ChainTexts(h, newer))
  }

  /** Reproducing a committed chain's root means extending that chain, and an extension
      always reproduces it. */
  lemma ReproducesMeansExtends(h: Hash, older: seq<string>, newer: seq<string>)
    ensures Reproduces(h, newer, ChainRoot(h, older)) ==> Extends(h, older, newer)
    ensures older <= newer ==> Reproduces(h, newer, ChainRoot(h, older))
  {
    if older <= newer {
      assert newer[..|older|] == older;
    } else if Reproduces(h, newer, ChainRoot(h, older)) {
      var k :| 0 <= k <= |newer| && ChainRoot(h, newer[..k]) == ChainRoot(h, older);
      var x, y := ChainBinding(h, older, newer[..k]);
      PrefixTexts(h, newer, k);
      assert y in ChainTexts(h, newer);
    }
  }

  /** `_history_reproduces_committed`, `_exposure_reproduces_committed` and
      `_manifest_reproduces_committed`: one loop over a running root. */
  method ReproducesCommitted(h: Hash, entries: seq<string>, committed: string) returns (ok: bool)
    ensures ok <==> Reproduces(h, entries, committed)
  {
    var running := ChainGenesis(h);
    assert entries[..0] == [];
    if running == committed {
      return true;
    }
    for i := 0 to |entries|
      invariant running == ChainRoot(h, entries[..i])
      invariant forall k :: 0 <= k <= i ==> ChainRoot(h, entries[..k]) != committed
    {
      assert entries[..i + 1][..i] == entries[..i];
      running := h(running + entries[i]);
      if running == committed {
        return true;
      }
    }
    return false;
  }

  /** What the evaluation ledger's rule accepts: with the committed root still at the
      genesis only an EMPTY ledger, otherwise any ledger that reproduces the root. */
  ghost predicate EvaluationReproduces(h: Hash, entries: seq<string>, committed: string) {
    if committed == ChainGenesis(h) then entries == [] else Reproduces(h, entries, committed)
  }

  method EvaluationReproducesCommitted(h: Hash, entries: seq<string>, committed: string) returns (ok: bool)
    ensures ok <==> EvaluationReproduces(h, entries, committed)
  {
    var running := ChainGenesis(h);
    assert entries[..0] == [];
    if running == committed {
      return entries == [];
    }
    for i := 0 to |entries|
      invariant running == ChainRoot(h, entries[..i])
      invariant forall k :: 0 <= k <= i ==> ChainRoot(h, entries[..k]) != committed
    {
      assert entries[..i + 1][..i] == entries[..i];
      running := h(running + entries[i]);
      if running == committed {
        return true;
      }
    }
    return false;
  }

  /** The bootstrap rules differ exactly there: against a genesis root the other ledgers
      accept everything, the evaluation ledger only the empty one; past the bootstrap the
      two rules agree. */
  lemma BootstrapRules(h: Hash, entries: seq<string>, committed: string)
    ensures EvaluationReproduces(h, entries, committed) <==>
      Reproduces(h, entries, committed) && (committed == ChainGenesis(h) ==> entries == [])
    ensures Reproduces(h, entries, ChainGenesis(h))
  {
    assert entries[..0] == [];
  }

  /** A record ledger is chained over the leaf hashes of its records' canonical texts. */
  function LeafHashes(h: Hash, records: seq<string>): (r: seq<string>)
    ensures |r| == |records|
  {
    seq(|records|, i requires 0 <= i < |records| => h(records[i]))
  }

  ghost function RecordTexts(records: seq<string>): set<string> { set r | r in records }

  /** Extending at the level of leaf hashes is extending at the level of records. */
  lemma LeavesMeanRecords(h: Hash, older: seq<string>, newer: seq<string>)
    requires LeafHashes(h, older) <= LeafHashes(h, newer)
    ensures older <= newer || Collision(h, RecordTexts(older), RecordTexts(newer))
  {
    if !(older <= newer) {
      var i :| 0 <= i < |older| && older[i] != newer[i];
      assert h(older[i]) == LeafHashes(h, older)[i] == LeafHashes(h, newer)[i] == h(newer[i]);
      assert Collides(h, older[i], newer[i]);
    }
  }

  /** The lists certified so far, newest outermost, above the committed baseline. */
  datatype Log = Baseline(entries: seq<string>) | Certified(earlier: Log, entries: seq<string>)

  /** Each certified list reproduced the root of the one before it. */
  ghost predicate ValidLog(h: Hash, log: Log) {
    log.Baseline? || (ValidLog(h, log.earlier) && Reproduces(h, log.entries, ChainRoot(h, log.earlier.entries)))
  }

  /** `older` is `log` as it stood at some earlier (or the same) moment of the run. */
  ghost predicate Since(older: Log, log: Log) {
    log == older || (log.Certified? && Since(older, log.earlier))
  }

  /** Some certification after `older`, up to `log`, collides with its predecessor. */
  ghost predicate CollisionSince(h: Hash, older: Log, log: Log) {
    && log != older
    && log.Certified?
    && (|| Collision(h, ChainTexts(h, log.earlier.entries), ChainTexts(h, log.entries))
        || CollisionSince(h, older, log.earlier))
  }

  /** Append-only over whole runs: at any two moments of a run, the earlier certified list
      is a prefix of the later one, unless two successive certifications between them
      exhibit a collision. */
  lemma {:induction false} WholeRunExtends(h: Hash, older: Log, log: Log)
    requires ValidLog(h, log) && Since(older, log)
    ensures older.entries <= log.entries || CollisionSince(h, older, log)
  {
    if log != older {
      WholeRunExtends(h, older, log.earlier);
      ReproducesMeansExtends(h, log.earlier.entries, log.entries);
    }
  }

  /** Appending to an accepted list keeps it reproducing the committed root. */
  lemma AppendReproduces(h: Hash, presented: seq<string>, appended: seq<string>, root: string)
    requires Reproduces(h, presented, root)
    ensures Reproduces(h, presented + appended, root)
  {
    var k :| 0 <= k <= |presented| && ChainRoot(h, presented[..k]) == root;
    assert (presented + appended)[..k] == presented[..k];
  }

  /** `root` is the chain root of the newest certified list. */
  ghost predicate Anchored(h: Hash, root: string, log: Log) {
    ValidLog(h, log) && root == ChainRoot(h, log.entries)
  }

  /** The advancing `latest` roots of the committed anchor file, under its fixed genesis. The
      ghost logs record what has been certified, above the lists the baseline was built from. */
  class CommittedState {
    const genesisRoot: string
    var historyRoot: string
    var attestationRoot: string
    var evaluationRoot: string
    var exposureRoot: string
    var manifestRoot: string
    ghost var histories: Log
    ghost var evaluations: Log
    ghost var exposures: Log
    ghost var manifests: Log

    ghost predicate Valid(h: Hash)
      reads this
    {
      && Anchored(h, historyRoot, histories)
      && Anchored(h, evaluationRoot, evaluations)
      && Anchored(h, exposureRoot, exposures)
      && Anchored(h, manifestRoot, manifests)
    }

    constructor (h: Hash, history: seq<string>, attestation: string)
      ensures Valid(h) && genesisRoot == historyRoot && attestationRoot == attestation
      ensures histories == Baseline(history)
      ensures evaluations == exposures == manifests == Baseline([])
    {
      var root := ChainRoot(h, history);
      genesisRoot, historyRoot, attestationRoot := root, root, attestation;
      evaluationRoot, exposureRoot, manifestRoot := ChainGenesis(h), ChainGenesis(h), ChainGenesis(h);
      histories, evaluations, exposures, manifests := Baseline(history), Baseline([]), Baseline([]), Baseline([]);
    }

    /** `advance_committed_root`: an omitted root is preserved. */
    method AdvanceCommittedRoot(history: Option<string>, attestation: Option<string>, evaluation: Option<string>,
                                exposure: Option<string>, manifest: Option<string>)
      modifies this`historyRoot, this`attestationRoot, this`evaluationRoot, this`exposureRoot, this`manifestRoot
      ensures historyRoot == history.GetOr(old(historyRoot))
      ensures attestationRoot == attestation.GetOr(old(attestationRoot))
      ensures evaluationRoot == evaluation.GetOr(old(evaluationRoot))
      ensures exposureRoot == exposure.GetOr(old(exposureRoot))
      ensures manifestRoot == manifest.GetOr(old(manifestRoot))
    {
      if history.Some? { historyRoot := history.value; }
      if attestation.Some? { attestationRoot := attestation.value; }
      if evaluation.Some? { evaluationRoot := evaluation.value; }
      if exposure.Some? { exposureRoot := exposure.value; }
      if manifest.Some? { manifestRoot := manifest.value; }
    }

    /** One strict certification: the presented version hashes, exposure leaves and prior
        evaluation leaves must reproduce the committed roots and the attestation must chain
        from the committed one; then the four roots advance, the evaluation ledger by the newly
        recorded leaves as well, and the class manifest stays. A refused certification changes
        nothing. */
    method Certify(h: Hash, versions: seq<string>, exposure: seq<string>, priorEvaluations: seq<string>,
                   newEvaluations: seq<string>, priorAttestation: string, attestation: string)
      returns (ok: bool)
      requires Valid(h)
      modifies this
      ensures Valid(h)
      ensures ok <==>
                && priorAttestation == old(attestationRoot)
                && Reproduces(h, versions, old(historyRoot))
                && EvaluationReproduces(h, priorEvaluations, old(evaluationRoot))
                && Reproduces(h, exposure, old(exposureRoot))
      ensures ok ==>
                && histories == Certified(old(histories), versions)
                && exposures == Certified(old(exposures), exposure)
                && evaluations == Certified(old(evaluations), priorEvaluations + newEvaluations)
                && attestationRoot == attestation
      ensures manifests == old(manifests) && manifestRoot == old(manifestRoot)
      ensures !ok ==> unchanged(this)
    {
      var history := ReproducesCommitted(h, versions, historyRoot);
      var evaluation := EvaluationReproducesCommitted(h, priorEvaluations, evaluationRoot);
      var exposed := ReproducesCommitted(h, exposure, exposureRoot);
      ok := priorAttestation == attestationRoot && history && evaluation && exposed;
      if ok {
        BootstrapRules(h, priorEvaluations, evaluationRoot);
        AppendReproduces(h, priorEvaluations, newEvaluations, evaluationRoot);
        assert ValidLog(h, Certified(histories, versions));
        assert ValidLog(h, Certified(exposures, exposure));
        assert ValidLog(h, Certified(evaluations, priorEvaluations + newEvaluations));
        var newHistory := ComputeChainRoot(h, versions);
        var newExposure := ComputeChainRoot(h, exposure);
        var newEvaluation := ComputeChainRoot(h, priorEvaluations + newEvaluations);
        Advance(newHistory, attestation, newEvaluation, newExposure,
                versions, priorEvaluations + newEvaluations, exposure);
      }
    }

    method Advance(history: string, attestation: string, evaluation: string, exposure: string,
                   ghost versions: seq<string>, ghost evaluated: seq<string>, ghost exposed: seq<string>)
      modifies this
      ensures historyRoot == history && histories == Certified(old(histories), versions)
      ensures evaluationRoot == evaluation && evaluations == Certified(old(evaluations), evaluated)
      ensures exposureRoot == exposure && exposures == Certified(old(exposures), exposed)
      ensures attestationRoot == attestation
      ensures manifestRoot == old(manifestRoot) && manifests == old(manifests)
    {
      AdvanceCommittedRoot(Some(history), Some(attestation), Some(evaluation), Some(exposure), None);
      histories := Certified(histories, versions);
      evaluations := Certified(evaluations, evaluated);
      exposures := Certified(exposures, exposed);
    }

    /** An aggregate certification of a manifest chain that reproduces the committed manifest
        root advances that root alone. */
    method CertifyManifest(h: Hash, versions: seq<string>) returns (ok: bool)
      requires Valid(h)
      modifies this
      ensures Valid(h)
      ensures ok <==> Reproduces(h, versions, old(manifestRoot))
      ensures ok ==> manifests == Certified(old(manifests), versions)
      ensures !ok ==> unchanged(this)
      ensures histories == old(histories) && evaluations == old(evaluations) && exposures == old(exposures)
      ensures attestationRoot == old(attestationRoot)
    {
      ok := ReproducesCommitted(h, versions, manifestRoot);
      if ok {
        assert ValidLog(h, Certified(manifests, versions));
        var root := ComputeChainRoot(h, versions);
        AdvanceManifest(root, versions);
      }
    }

    method AdvanceManifest(root: string, ghost versions: seq<string>)
      modifies this
      ensures manifestRoot == root && manifests == Certified(old(manifests), versions)
      ensures historyRoot == old(historyRoot) && histories == old(histories)
      ensures evaluationRoot == old(evaluationRoot) && evaluations == old(evaluations)
      ensures exposureRoot == old(exposureRoot) && exposures == old(exposures)
      ensures attestationRoot == old(attestationRoot)
    {
      AdvanceCommittedRoot(None, None, None, None, Some(root));
      manifests := Certified(manifests, versions);
    }
  }
}

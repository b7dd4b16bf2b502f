# DeepThought verification model

DeepThought runs governed, autonomous vulnerability research, and its benchmark harness measures it
against operators who would like a better number. This project models the parts of both that carry
hard promises, and proves the promises:

| module | what it models |
|---|---|
| `TextOrder`, `ContentHash` | sorted text order, and the digest every root is built from |
| `MerkleTree` | the domain-separated Merkle root of the evaluation contract (section 2.1 of RFC 6962) |
| `AppendOnlyChain` | chain roots, the committed-root reproduction checks, the advancing committed state |
| `Denominator`, `DenominatorMeaning` | cohort versions whose blind departures must be paid for by typed correction events |
| `EvaluationRun` | the evaluation-attempt recorder and the separate from-storage validator |
| `ClassManifest`, `ClassManifestMeaning` | the monotonic class manifest and the aggregate certification |
| `RegressionBar` | the generalization log and its exact-fraction regression bar |
| `OpenRedirect`, `RedirectScanner` | the open-redirect scanner as an abstract interpreter, the programs it reads, and its in-place form |
| `OriginPrefix`, `PercentTemplate`, `BuiltTexts` | when a target stays on its origin, percent templates, and the exact condition of each rule for built texts |
| `RedirectSoundness`, `RedirectMisses` | soundness of the redirect scanner, and one missed program for each way it fails |
| `RedirectMeaning`, `RedirectGuards` | what the redirect scan computes, read off the programs, and the exactness of its guards |
| `SqlFlow`, `SqlMeaning` | the flat, source-ordered SQL-injection pass |
| `LoopPolicy`, `LoopMeaning`, `LoopDriver` | the autonomous loop: selection policy and driver |
| `PrimitiveLedger` | the bounded recency ledger and the exploit graph over it |
| `JsonExtract` | the brace scanner that finds the answer object in a chatty reply |
| `VersionRanges`, `VersionMeaning` | OSV event ranges mapped to CVE version entries |
| `MemoryNote`, `NoteMeaning` | the memory-note printer and its frontmatter readers |
| `SarifIngest`, `SarifMeaning` | the two walks over a SARIF document |
| `Options`, `PyText` | optional values and keyed search; Python's text operations |

How the modelling choices read:

- **Hashing.** A `Hash` is any function from text to a 64-character digest; no hash is assumed
  injective. A binding theorem says "equal roots mean equal inputs, or here are two different texts,
  both hashed on the way, with one digest".
- **Form.** What the program computes by updating lists, dictionaries and objects in loops is written
  as methods and classes with loops, each proved equal to a specification function; what it computes by
  expressions and recursion is written as functions. The theorems are about the specification functions.
- **Meaning.** A `...Meaning` module says what the functions of its partner compute in terms of their
  inputs alone: the fields of entries and events, positions in a document, the characters of a text. Its
  laws do not speak through the functions they are about, and together they determine the result.
- **Scanners.** Each scanner gets a concrete semantics of the same small language in which the outcome
  of every validator, branch and foreign call is chosen by a `World`, and is proved to over-approximate
  it for every `World`, for the programs that meet a condition read off the scan.
- **Sessions.** The loop's session bodies, gate and clock are a `World` too. Convergence assumes that
  sessions proceed, close clean and have their stated effect (`Works`); `SomeWorldWorks` shows that the
  assumption can be met. Termination assumes only that no session turns a finding into a verified one.

What the proofs found about the code:

- The terminal-head guard of the manifest check reports nothing the adjacent-pair check has not already
  reported (`ClassManifest.PairsImplyHead`). The similar guard of the denominator check reports, past the
  pairwise check, exactly the split departures (`Denominator.HeadGuardExactly`), and there are such
  histories (`Denominator.HeadGuardAdds`).
- The recorder accepts two kinds of attempt its validator rejects: a first attempt with broken logs, and
  a producing attempt with no results hash (`EvaluationRun.RecorderGaps`). Those two conditions are all
  that separates them (`EvaluationRun.RecorderEqualsValidator`).
- A range that introduces a version again before closing the first interval loses the first interval.
  That is the only way the mapping changes the meaning of an ordered range (`VersionMeaning.RangeExactly`).
- The SQL pass sees a sink inside the right-hand side of an unconditional assignment after the
  assignment. It loses the sink exactly when the assignment replaces a name that makes the query unsafe
  by a value that name does not make unsafe (`SqlFlow.HiddenExactly`, `SqlFlow.AssignmentSoundExactly`),
  and every sink so hidden is really missed in some execution (`SqlFlow.HiddenMissed`):
  `rows = cur.execute(q)` and `q = execute(q)` are seen, `q = int(execute(q))` is not
  (`SqlFlow.Placements`, `SqlFlow.SinkInAssignmentMissed`). An unconditional bare annotation, `q: str`,
  makes the pass forget what `q` holds (`SqlFlow.DeclareExactly`, `SqlFlow.DeclaredMissed`).
- The redirect scanner takes a built text for safe when its flow comes out INTERNAL or UNTAINTED. Each
  rule is right, for all the values the flows allow, exactly under a condition the `...Exactly` lemmas of
  `BuiltTexts` give: a text that may hold request data must be anchored by a literal that fixes the
  origin, or be nothing but one validated piece. Outside it, some text that no validator accepted leaves
  the origin unreported (the `...Misses` lemmas), and `RedirectMisses` has a program for each rule:
  - `if ok(u): u += "/x"; redirect(u)`, where the on-origin `/` becomes `//x`, and
    `if ok(u): redirect(f"/{u}")`, where `/x` does (`ExtendedMissed`, `TemplateMissed`);
  - `redirect("/" + next.strip("/"))` on a text that begins with a backslash, against the detector's own
    account of backslashes (`StripMissed`, `OriginPrefix.TrimmedExactly`);
  - `redirect(os.path.join("/app", next))` on an absolute path (`PathMissed`, `OriginPrefix.PathExactly`);
  - `redirect(session.get("next", request.args["next"]))` and a foreign call's keyword arguments, which
    the flow ignores (`DefaultMissed`, `KeywordMissed`);
  - `u: str; redirect(u)`, where a bare annotation forgets the flow (`DeclaredMissed`).

`dafny verify dfyconfig.toml` checks the whole project.

## Model

| member | source | states |
|---|---|---|
| TextOrder.SortedUnique | benchmarks/harness/contract.py:143 | a multiset of strings has only one sorted arrangement |
| TextOrder.SortCanonical | benchmarks/harness/contract.py:133-143 | two leaf lists sort alike exactly when they hold the same leaves equally often |
| TextOrder.LeqMeaning | benchmarks/harness/contract.py:143 | one text is no greater than another exactly when it begins the other or has the smaller character where they first differ |
| MerkleTree.SplitPointExact | benchmarks/harness/contract.py:125-127 | the doubling loop stops at k exactly when k is the largest power of two below the leaf count |
| MerkleTree.TreeMeaning | benchmarks/harness/contract.py:117-130 | a single leaf is hashed behind a zero byte; more leaves are the hash of a one byte and the hashes of both parts, the first as long as the largest power of two that is too short |
| MerkleTree.MerkleTreeHash | benchmarks/harness/contract.py:117-130 | the recursive method with its doubling loop computes the tree hash whose binding is proved below |
| MerkleTree.TreeBinding | benchmarks/harness/contract.py:110-130 | ordered leaf lists of any two different lengths or contents with one tree hash exhibit two different hashed texts with the same digest |
| MerkleTree.ComputeMerkleRoot | benchmarks/harness/contract.py:133-146 | the root method, empty list included, computes the specified root |
| MerkleTree.RootMeaning | benchmarks/harness/contract.py:133-146 | the root of leaves in any order is the tree hash of the same leaves in order, and of none the digest of the genesis text |
| MerkleTree.RootOfMultiset | benchmarks/harness/contract.py:134-137 | the root does not depend on the order of the leaves |
| MerkleTree.RootBinding | benchmarks/harness/contract.py:133-146 | lists of any lengths with one root are equal as multisets, or a concrete collision among the hashed texts exists |
| MerkleTree.DuplicateLeafChangesRoot | benchmarks/harness/contract.py:139-142 | repeating a leaf never keeps the root without a collision |
| AppendOnlyChain.ComputeChainRoot | benchmarks/harness/contract.py:149-158 | the running fold computes the chain root of all entries |
| AppendOnlyChain.ChainMeaning | benchmarks/harness/contract.py:149-158 | any list of running digests that starts at the genesis digest and mixes in one entry a step ends at the root |
| AppendOnlyChain.ChainBinding | benchmarks/harness/contract.py:149-158 | dropping, reordering, rewriting or adding any entry changes the root, or two different texts hashed on the way collide |
| AppendOnlyChain.ReproducesCommitted | benchmarks/harness/contract.py:408-423 | the single-pass check answers yes exactly when some prefix of the presented list has the committed root |
| AppendOnlyChain.EvaluationReproducesCommitted | benchmarks/harness/contract.py:426-448 | the same for the evaluation ledger, with its stricter rule at an empty committed root |
| AppendOnlyChain.ReproducesMeansExtends | benchmarks/harness/contract.py:408-423 | reproducing the root of a committed list means beginning with that list, up to a collision, and every extension reproduces it |
| AppendOnlyChain.BootstrapRules | benchmarks/harness/contract.py:436-443 | the evaluation rule differs from the exposure and history rule only at the genesis root, where it accepts the empty ledger alone and the others accept everything |
| AppendOnlyChain.LeavesMeanRecords | benchmarks/harness/contract.py:451-471 | extending a ledger of leaf hashes means extending the ledger of records, up to a collision between two records |
| AppendOnlyChain.WholeRunExtends | benchmarks/harness/contract.py:408-423 | at any two moments of any run of certifications the earlier certified list is a prefix of the later one, unless two successive certifications in between collide |
| AppendOnlyChain.AppendReproduces | benchmarks/harness/contract.py:426-448 | appending to an accepted list keeps it reproducing the committed root |
| AppendOnlyChain.CommittedState.AdvanceCommittedRoot | benchmarks/harness/contract.py:373-405 | each of the five roots becomes the given one, or stays when omitted |
| AppendOnlyChain.CommittedState.Certify | benchmarks/harness/contract.py:3213-3275 | a certification passes exactly when the attestation chains and all three ledgers reproduce the committed roots; it then advances those roots so that the next run is again anchored to everything certified; a refusal and the class manifest change nothing |
| AppendOnlyChain.CommittedState.CertifyManifest | benchmarks/harness/contract.py:389-392 | an aggregate certification advances the manifest root alone, and only along a chain that reproduces it |
| Denominator.CorrectionsMeaning | benchmarks/harness/contract.py:1126-1135 | a transition is authorized exactly as often as logged cohort-correction events with an identity name it |
| Denominator.SpendEvents | benchmarks/harness/contract.py:2218-2244 | each departure consumes one event naming exactly its transition; the departures without one, and the paid downgrades that never guided a fix, are what is reported |
| Denominator.CheckTransition | benchmarks/harness/contract.py:2207-2244 | one adjacent pair of versions: what is left of the events, what stays unpaid, and which paid downgrades never guided a fix |
| Denominator.CheckDenominatorPreservation | benchmarks/harness/contract.py:2189-2277 | the unauthorized departures are exactly those the events of the whole log do not cover, the reported downgrades are exactly the paid unguided ones, the survivors exactly those of the head guard, and the report is clean exactly for preserved histories |
| DenominatorMeaning.ReasonMeaning | benchmarks/harness/contract.py:558-582 | which reasons are corrections, infrastructure failures, an analysis limitation and a refusal |
| DenominatorMeaning.DemandMeaning | benchmarks/harness/contract.py:2207-2220 | a transition has to be authorized once for every step at which an entry of any role goes or the last blind entry of an identity does |
| DenominatorMeaning.DowngradesMeaning | benchmarks/harness/contract.py:2218-2244 | a transition is reported as an unguided downgrade once for every such step where the corrections naming it outnumber the earlier ones and the blind entry never guided a fix |
| DenominatorMeaning.PreservedExactly | benchmarks/harness/contract.py:2189-2277 | a history is accepted exactly when every transition is named by as many corrections as it takes place, every softened identity guided a fix, and no unguided once-blind identity stays in the head under another role |
| DenominatorMeaning.SurvivorsMeaning | benchmarks/harness/contract.py:2259-2270 | what the head guard reports, by the entries of the versions |
| DenominatorMeaning.RemovalIsCorrected | benchmarks/harness/contract.py:2189-2277 | under a clean report an identity of any role that is in one version and absent from the next has a correction naming that very step |
| Denominator.PaidMeaning | benchmarks/harness/contract.py:2229-2244 | once every departure is paid for, no downgrade is reported exactly when every downgraded identity guided a fix |
| Denominator.CheckHead | benchmarks/harness/contract.py:2259-2270 | the two accumulating loops report exactly the once-blind, present, no longer blind and never guided identities |
| Denominator.EverBlindBounded | benchmarks/harness/contract.py:2198-2203 | everything ever blind that is no longer blind in the head is matched by a departure of the history |
| Denominator.LostIsDemanded | benchmarks/harness/contract.py:2207-2220 | a lost identity left the blind set at some transition, and that transition had to be authorized |
| Denominator.DenominatorConserved | benchmarks/harness/contract.py:2189-2277 | under a clean report, everything ever blind is bounded by what is blind in the head plus the logged corrections |
| Denominator.LostIsCorrected | benchmarks/harness/contract.py:1126-1135 | under a clean report, each lost identity has a correction event naming it and the very transition where it left |
| Denominator.SurvivorAccounted | benchmarks/harness/contract.py:2189-2277 | under a clean report, a once-blind identity in the head under another role left at a transition a correction names, and guided a fix in the version it left, or was removed there, re-added later and guided a fix in some blind version |
| Denominator.HeadGuardExactly | benchmarks/harness/contract.py:2246-2277 | past the pairwise check, the head guard reports an identity if and only if it is a split departure: blind, absent from the next version, in the head under another role, never guided |
| Denominator.HeadGuardAdds | benchmarks/harness/contract.py:2246-2258 | a removal with a matching correction and a later re-add passes the pairwise check and is reported by the head guard alone |
| Denominator.ReaddedSets | benchmarks/harness/contract.py:2249-2253 | histories of that shape exist |
| EvaluationRun.Run.AttemptEvaluation | benchmarks/harness/contract.py:1194-1253 | a call records exactly the decided attempt or, when refused, nothing, and keeps the run reachable |
| EvaluationRun.DecideExactly | benchmarks/harness/contract.py:1194-1253 | which call gets which refusal: concealed results, pre-freeze access, an unknown phase, a missing freeze, a second producing attempt, a changed or broken retry; and what is recorded otherwise |
| EvaluationRun.CheckBlindAccess | benchmarks/harness/contract.py:2352-2434 | the validator reports nothing exactly on clean lists: all post-freeze, a producing attempt only last, unchanged retries, a results hash exactly on producing attempts |
| EvaluationRun.CheckOrder | benchmarks/harness/contract.py:2368-2384 | the counter and the terminal-position rule together mean: nothing follows a producing attempt |
| EvaluationRun.CheckRetries | benchmarks/harness/contract.py:2391-2434 | the anchored comparison means one artifact and environment throughout, with intact logs and bound results hashes |
| EvaluationRun.ReachableExactly | benchmarks/harness/contract.py:1194-1253 | the lists that accepted calls can build, characterised without reference to calls |
| EvaluationRun.RecorderEqualsValidator | benchmarks/harness/contract.py:2385-2390 | a list bound to the run's freeze passes the validator if and only if the recorder can build it, its first attempt has intact logs and a producing last attempt has a results hash |
| EvaluationRun.RecorderGaps | benchmarks/harness/contract.py:1206-1250 | both extra conditions are needed: concrete recorded attempts the validator rejects |
| EvaluationRun.AtMostOneProducing | benchmarks/harness/contract.py:1225-1232 | a recorded run has at most one producing attempt, and nothing after it |
| ClassManifest.CheckPairs | benchmarks/harness/aggregate.py:228-238 | no report exactly when every class leaving at a version has an exit on that version |
| ClassManifest.CheckHead | benchmarks/harness/aggregate.py:239-254 | no report exactly when every class that ever was in the mean is still in it or has some exit |
| ClassManifest.PairsImplyHead | benchmarks/harness/aggregate.py:224-227 | the terminal-head guard is implied by the adjacent-pair check |
| ClassManifest.CheckManifestPreservation | benchmarks/harness/aggregate.py:221-254 | the whole check is clean exactly when the adjacent pairs are |
| ClassManifest.CertifyAggregate | benchmarks/harness/aggregate.py:257-393 | the report is clean exactly for certified aggregates |
| ClassManifestMeaning.PairsExactly | benchmarks/harness/aggregate.py:228-238 | the pairwise check passes exactly when every class that goes from the manifest or the mean has an exit on that version |
| ClassManifestMeaning.CertifiedExactly | benchmarks/harness/aggregate.py:257-393 | on the fields: a certification is clean exactly when the chain reproduces the committed root, exits are committed, results and in-mean classes match one to one, each result rests on its class history with the attested report, the committed evaluator, a verifying signature and the registry pin where one is needed, and count and mean stand |
| ClassManifestMeaning.CertifiedExtends | benchmarks/harness/aggregate.py:257-393 | a certified chain extends the one behind the committed root, or two hashed texts collide |
| ClassManifest.CheckPresented | benchmarks/harness/aggregate.py:302-310 | results are distinct and only for in-mean head classes |
| ClassManifest.CheckRoots | benchmarks/harness/aggregate.py:322-336 | no two in-mean classes share a head history root |
| ClassManifest.CheckBound | benchmarks/harness/aggregate.py:337-364 | every in-mean class is pinned where required and has a result attested for it |
| ClassManifest.CheckHeadline | benchmarks/harness/aggregate.py:366-391 | nothing is reported exactly when the count is right and, unless some in-mean class has no result, the mean is within 1e-9 of the float of the recomputed one |
| ClassManifest.SumsAgree | benchmarks/harness/aggregate.py:379-385 | with one result for each in-mean class the recomputed sum is the sum over the presented results, in whatever order |
| ClassManifest.CleanAggregate | benchmarks/harness/aggregate.py:257-278 | a clean report means one result and one attestation of its own per in-mean class, an exact count, a mean within 1e-9 and one float rounding of the average of the presented rates, and no class lost without an exit |
| RegressionBar.GeneralizationLog.Append | benchmarks/harness/roundrecord.py:323-324 | the snapshot becomes the newest, the others stay |
| RegressionBar.RateExactly | benchmarks/harness/roundrecord.py:254-256 | the rate is rediscovered over total without rounding, and zero where nothing was measured |
| RegressionBar.PossibleExactly | benchmarks/harness/roundrecord.py:239-278 | a snapshot may hold exactly the lists that name no class twice, with no rate above one and nothing rediscovered out of nothing |
| RegressionBar.GeneralizationLog.Regressions | benchmarks/harness/roundrecord.py:329-354 | exactly the classes with a lower exact rate and the missing ones are reported |
| RegressionBar.GeneralizationLog.Accepts | benchmarks/harness/roundrecord.py:356-359 | a candidate is accepted exactly when every class of the latest snapshot is in it with a rate at least as large |
| RegressionBar.GeneralizationLog.Merge | benchmarks/harness/roundrecord.py:356-359 | the merge gate appends exactly what is accepted, so a log it builds satisfies what the next rows assume |
| RegressionBar.BarFromViolations | benchmarks/harness/roundrecord.py:337-354 | no violations exactly when the bar holds, with unique class names making the first match the only one |
| RegressionBar.NeverRegresses | benchmarks/harness/roundrecord.py:224-227 | in a gated history the bar holds between any two snapshots, however far apart |
| RegressionBar.SumMeaning | benchmarks/harness/roundrecord.py:279-286 | the sum adds one number for each class: its rate in the snapshot, or zero without one |
| RegressionBar.SumNeverFalls | benchmarks/harness/roundrecord.py:279-286 | the summed exact rate of a snapshot's own classes never falls afterwards |
| OriginPrefix.PrefixExactly | benchmarks/openredirect_detector.py:129-136 | a literal prefix keeps every text built on it on the origin, whatever follows, if and only if it passes the check |
| OriginPrefix.TrimmedExactly | benchmarks/openredirect_detector.py:275-281 | a slash before a text stripped of slashes stays on the origin if and only if the stripped text does not begin with a backslash |
| OriginPrefix.TrimMeaning | benchmarks/openredirect_detector.py:121-126 | stripping takes the slashes off the start, and off the end only if asked to |
| OriginPrefix.PathExactly | benchmarks/openredirect_detector.py:307-331 | behind an origin-fixing first part a path join stays on the origin if and only if the second part is not absolute, or stays on it by itself |
| OriginPrefix.PercentLiteralPrefix | benchmarks/openredirect_detector.py:149-166 | the loop reads the literal text before the first conversion of a percent template |
| OriginPrefix.PercentPrefixOf | benchmarks/openredirect_detector.py:149-166 | escaping a literal into a template and reading its prefix back gives the literal |
| PercentTemplate.PiecesLead | benchmarks/openredirect_detector.py:149-166 | the prefix read off a percent template is the leading literal of the template it stands for |
| PercentTemplate.PiecesRender | benchmarks/openredirect_detector.py:284-290 | rendering that template prints what the formatting prints, for any arguments |
| PercentTemplate.PercentAgrees | benchmarks/openredirect_detector.py:284-290 | with one argument for each conversion the rule for `%` and the rule for templates give one flow |
| PercentTemplate.ConversionMeaning | benchmarks/openredirect_detector.py:284-290 | a conversion runs up to its type letter, any letter but the length modifiers |
| PercentTemplate.HoleMeaning | benchmarks/openredirect_detector.py:284-290 | at a conversion the template goes on with a hole for the next argument, itself for a bare `%s` and converted otherwise |
| OpenRedirect.JoinValues | benchmarks/openredirect_detector.py:219-226 | a join is flaggable exactly when one of its parts is, and untainted exactly when all are |
| RedirectMeaning.TargetMeaning | benchmarks/openredirect_detector.py:568-574 | a redirect goes to its first positional argument, and failing that to the first one named as a target |
| RedirectMeaning.CheckedMeaning | benchmarks/openredirect_detector.py:367-373 | a validator checks the first argument named as a target, and failing that its first positional one |
| RedirectMeaning.FlowMeaning | benchmarks/openredirect_detector.py:229-354 | the flow of any expression: internal exactly where a name is validated or a literal, slash or internal part fixes the origin, a suffix where request data is cut at a mark, otherwise the highest flow of the parts its value may hold |
| RedirectMeaning.ScanMeaning | benchmarks/openredirect_detector.py:576-616 | the scan of an expression reports exactly its calls to a redirect function whose target carries request data, those inside a call before it |
| RedirectMeaning.BindingMeaning | benchmarks/openredirect_detector.py:644-662 | what an assignment, annotation or augmented assignment binds, what it leaves alone, and what it reports |
| RedirectMeaning.PlainStatements | benchmarks/openredirect_detector.py:631-643 | what returns, raises and expression statements report, none of which binds a name |
| RedirectMeaning.DeadCode | benchmarks/openredirect_detector.py:631-643 | behind a return or raise nothing is scanned |
| RedirectMeaning.SequenceMeaning | benchmarks/openredirect_detector.py:618-626 | otherwise blocks one after the other are scanned one after the other |
| RedirectMeaning.ExitsMeaning | benchmarks/openredirect_detector.py:403-409 | a block always exits exactly when its last statement is a return or raise, or an if both of whose branches do |
| RedirectMeaning.IfMeaning | benchmarks/openredirect_detector.py:663-695 | an if: which states its branches are scanned in, what it reports, and that afterwards each name has the highest of its flows over the branches that go on and is validated if it is in all of them |
| RedirectMeaning.MergeMeaning | benchmarks/openredirect_detector.py:423-441 | one state stands for several: the highest flow of each name, validated if in all |
| OpenRedirect.AnchoredOnOrigin | benchmarks/openredirect_detector.py:129-136 | a text that begins with an origin-fixing literal stays on the origin |
| BuiltTexts.ConcatExactly | benchmarks/openredirect_detector.py:266-283 | the flow of a sum fits every sum of suiting values if and only if it is not INTERNAL, or the left side is anchored or an empty literal, or neither side carries request data |
| BuiltTexts.ConcatMisses | benchmarks/openredirect_detector.py:266-283 | in every other case some sum is a request text that no validator accepted and that leaves the origin, on a flow taken for safe |
| BuiltTexts.AugExactly | benchmarks/openredirect_detector.py:655-662 | the flow of an augmented assignment fits every value it can build if and only if it is not INTERNAL or nothing carries request data |
| BuiltTexts.AugMisses | benchmarks/openredirect_detector.py:655-662 | otherwise some built text is unaccepted request data off the origin |
| BuiltTexts.TemplateExactly | benchmarks/openredirect_detector.py:255-265 | the flow of a template fits every text it can render if and only if it is not INTERNAL, or a literal fixes the origin, or the template is one bare hole, or no hole carries request data |
| BuiltTexts.TemplateMisses | benchmarks/openredirect_detector.py:255-265 | otherwise some rendered text is unaccepted request data off the origin |
| BuiltTexts.JoinExactly | benchmarks/openredirect_detector.py:307-331 | the flow of a text or path join fits every join of suiting elements if and only if it is not INTERNAL, or there is one element, or nothing carries request data, or the first element is anchored and no request path can replace it |
| BuiltTexts.JoinMisses | benchmarks/openredirect_detector.py:307-331 | otherwise some join is unaccepted request data off the origin |
| BuiltTexts.TransformExactly | benchmarks/openredirect_detector.py:344-352 | the flow of a stripped, partitioned or otherwise transformed text fits every value it can become if and only if it is flaggable, or neither the receiver nor an argument it ignores carries request data |
| BuiltTexts.TransformMisses | benchmarks/openredirect_detector.py:344-352 | otherwise some transformed text is unaccepted request data off the origin |
| BuiltTexts.CallExactly | benchmarks/openredirect_detector.py:353 | the flow of a foreign call fits every text made of its arguments, keywords included, if and only if it is flaggable or no argument carries request data |
| BuiltTexts.DeclareExactly | benchmarks/openredirect_detector.py:644-654 | a bare annotation may forget a flow if and only if the name carries no request data |
| BuiltTexts.UnheldKept | benchmarks/openredirect_detector.py:229-353 | a text built without request data meets the condition of its rule, whatever its flow |
| RedirectSoundness.GuaranteedSound | benchmarks/openredirect_detector.py:376-400 | for every test under short-circuit evaluation, every name guaranteed for the outcome that occurred holds a value some validator call accepted |
| RedirectGuards.GuaranteedExactly | benchmarks/openredirect_detector.py:376-400 | on tests built from validator calls with not, and, or: a name is guaranteed for an outcome if and only if in every world and machine every way to that outcome has a validator call of the test accept its value |
| RedirectGuards.GuardPasses | benchmarks/openredirect_detector.py:663-695 | behind an early return whose fall-through guarantees a name, and inside a branch that does, nothing is reported for a redirect to it |
| RedirectSoundness.AnchoredEval | benchmarks/openredirect_detector.py:255-290 | an expression that begins with an origin-fixing literal evaluates to a text that does, in every world |
| RedirectSoundness.EvalSound | benchmarks/openredirect_detector.py:229-353 | every value an expression yields fits its flow and holds request data only if it may, and every bad redirect on the way is reported, as long as every text built meets the condition of its rule |
| RedirectSoundness.HolesSound | benchmarks/openredirect_detector.py:255-265 | the value of every hole of a template suits its expression, and bad redirects inside the holes are reported |
| RedirectSoundness.JoinSound | benchmarks/openredirect_detector.py:307-331 | the value of a join of any number of elements suits it, and bad redirects inside the elements are reported |
| RedirectSoundness.ReturnMatches | benchmarks/openredirect_detector.py:353 | a call that hands back one of its positional arguments is covered by the join of their flows |
| RedirectSoundness.MergeCovers | benchmarks/openredirect_detector.py:423-432 | the branch join keeps covering whatever any joined branch covered |
| RedirectSoundness.AlwaysExitsSound | benchmarks/openredirect_detector.py:403-409 | a block judged to always exit never completes normally |
| RedirectSoundness.BranchCovers | benchmarks/openredirect_detector.py:664-677 | entering a branch with its guaranteed names marked validated keeps covering the machine |
| RedirectSoundness.BlockSound | benchmarks/openredirect_detector.py:618-695 | under the same conditions along the scan, every site where some execution redirects to a request text no validator accepted and no literal prefix anchors is reported, and what is known afterwards covers every machine the block can leave behind |
| RedirectSoundness.FunctionSound | benchmarks/openredirect_detector.py:869-882 | the same for a whole function from its parameters, for every caller and world |
| RedirectSoundness.InitialMeaning | benchmarks/openredirect_detector.py:878-882 | a function scan starts with every parameter tainted but the receiver and the request object, and nothing validated |
| RedirectMisses.ExtendedMissed | benchmarks/openredirect_detector.py:655-662 | extending a validated text and redirecting to it is missed whenever the validator accepts, whatever the text |
| RedirectMisses.TemplateMissed | benchmarks/openredirect_detector.py:255-265 | a slash in a template before a validated text: missed whenever the validator accepts, and `/x` becomes `//x` |
| RedirectMisses.StripMissed | benchmarks/openredirect_detector.py:275-281 | a slash before a stripped request text that begins with a backslash leaves the origin, and in no state is anything reported |
| RedirectMisses.PathMissed | benchmarks/openredirect_detector.py:307-319 | an absolute request path replaces the literal prefix of a path join, and in no state is anything reported |
| RedirectMisses.DefaultMissed | benchmarks/openredirect_detector.py:351-352 | a request text passed as a transform's default is redirected to unreported |
| RedirectMisses.KeywordMissed | benchmarks/openredirect_detector.py:353 | request data in a keyword argument of a foreign call is redirected to, and in no state is anything reported |
| RedirectMisses.DeclaredMissed | benchmarks/openredirect_detector.py:644-654 | every request text in a parameter with a bare annotation is redirected to unreported |
| RedirectScanner.MutableState.BranchValidated | benchmarks/openredirect_detector.py:73-74 | a branch state is a fresh copy: scanning it does not touch the original |
| RedirectScanner.MutableState.Bind | benchmarks/openredirect_detector.py:649-662 | every target takes the flow and loses its validation |
| RedirectScanner.MergeStates | benchmarks/openredirect_detector.py:423-441 | the target becomes the join of the branches, and stays as it is when there are none |
| RedirectScanner.Scanner.ScanExpression | benchmarks/openredirect_detector.py:576-616 | results grow by exactly the sites the sound expression scan reports, arguments first |
| RedirectScanner.Scanner.CheckSink | benchmarks/openredirect_detector.py:598-613 | a site is added exactly for a redirect call with a flaggable target |
| RedirectScanner.Scanner.ScanReceiver | benchmarks/openredirect_detector.py:593-597 | a join or transform adds the sites of its receiver, then those of its arguments |
| RedirectScanner.Scanner.ScanPieces | benchmarks/openredirect_detector.py:615-616 | scanning the pieces of a template adds the sites of its holes in order |
| RedirectScanner.Scanner.ScanStatements | benchmarks/openredirect_detector.py:618-654 | the loop over statements, stopping at a return or raise, leaves the state and results of the scan proved sound |
| RedirectScanner.Scanner.ScanIf | benchmarks/openredirect_detector.py:663-695 | branching, scanning both sides and merging in place leaves that state and those results |
| RedirectScanner.MergeContinuing | benchmarks/openredirect_detector.py:686-694 | only the branches that can continue are merged, a missing else counting as the false state |
| SqlFlow.ScanScope | benchmarks/sqli_detector.py:219-257 | the one-pass loop reports exactly the flagged points of the flat pass, each once, in the order of the first nodes flagged there |
| SqlFlow.HitsMeaning | benchmarks/sqli_detector.py:242-257 | the pass reports exactly the points of the sinks whose query is unsafe in the environment of their place |
| SqlFlow.MentionsExactly | benchmarks/sqli_detector.py:124-126 | a member or call counts as a source exactly when some part of it is request data |
| SqlMeaning.FlowMeaning | benchmarks/sqli_detector.py:117-166 | each field of the flow of an expression, by the leaves that feed it: SQL text and request data, and names read as they are or through a numeric coercion, which drops the unsafe flag and the construction sites alone |
| SqlMeaning.AssignMeaning | benchmarks/sqli_detector.py:222-232 | an assignment binds its targets, joined with what they held under a conditional, and is a construction site where unsafe data meets SQL text; every other name keeps its flow |
| SqlMeaning.AugMeaning | benchmarks/sqli_detector.py:237-241 | an augmented assignment binds its target to what it held and the value together |
| SqlMeaning.FlattenOrdered | benchmarks/sqli_detector.py:213-219 | for a program written out in text the walked nodes are sorted by line and column |
| SqlFlow.FlowMonotone | benchmarks/sqli_detector.py:117-166 | a higher environment gives every expression a higher flow |
| SqlFlow.FlatInflates | benchmarks/sqli_detector.py:190-196 | under conditionals the pass never lowers the environment |
| SqlFlow.UnsafeMeaning | benchmarks/sqli_detector.py:117-166 | the unsafe flag of a flow is request data, at all in a member or call, or an unsafe name reaching it outside a numeric coercion |
| SqlFlow.HiddenExactly | benchmarks/sqli_detector.py:216-246 | an unsafe query seen after the assignment stays unsafe in every environment if and only if the assignment does not hide it |
| SqlFlow.AssignmentExactly | benchmarks/sqli_detector.py:216-246 | with distinct sink positions, the flat pass reports all that the analysis reports for an assignment, from every environment, if and only if it hides none of its sinks |
| SqlFlow.HiddenMissed | benchmarks/sqli_detector.py:216-257 | for every hidden sink there are a covered store and a world in which it receives raw untrusted text, and the pass does not flag it |
| SqlFlow.AssignmentSoundExactly | benchmarks/sqli_detector.py:216-257 | with distinct sink positions, the flat pass flags every raw sink call of an assignment in every covered store and world if and only if the assignment hides none of its sinks |
| SqlFlow.DeclareExactly | benchmarks/sqli_detector.py:226-232 | after a bare annotation the environment still covers every store it covered if and only if the annotation stands under a conditional |
| SqlFlow.DeclaredMissed | benchmarks/sqli_detector.py:226-232 | every run of `q: str; execute(q)` on an untrusted q passes it raw to the sink, and the pass reports nothing |
| SqlFlow.FlatCovers | benchmarks/sqli_detector.py:199-257 | for programs whose unconditional assignments hide no sink of their own and whose bare annotations are conditional, the flat pass ends at least as high as the branch-by-branch join and flags every sink that analysis flags |
| SqlFlow.FlatSound | benchmarks/sqli_detector.py:199-257 | for those programs, in every world each sink call that receives raw untrusted text is flagged, and the final environment covers the final store |
| SqlFlow.ScopeSound | benchmarks/sqli_detector.py:199-207 | the same for a whole function scope whose parameters are sources |
| SqlFlow.Placements | benchmarks/sqli_detector.py:216-225 | assigning a sink's result to another name, or to the query's own name, is allowed; only the coerced reassignment is not |
| SqlFlow.SinkInAssignmentMissed | benchmarks/sqli_detector.py:216-225 | every run of `q = int(execute(q))` on an untrusted q passes it raw to the sink, and the pass reports nothing |
| LoopPolicy.FirstOpen | src/deepthought/loop/policy.py:138-161 | a rung proposes a finding of its list that is still open and new in this run, and proposes nothing only if there is none |
| LoopPolicy.EscalationIsFirstPending | src/deepthought/loop/policy.py:61-74 | the selected escalation is the first of the pending ones, and there is none exactly when nothing is pending |
| LoopPolicy.PossibleCount | src/deepthought/loop/policy.py:89-148 | any set of possible keys has at most three plus two per verified finding |
| LoopMeaning.SelectExactly | src/deepthought/loop/policy.py:77-164 | the selector proposes the work of the highest rung that has any due and new in this run, on its first such finding, and nothing exactly when no rung has any: recon, hunts, drafts, sends, verifications |
| LoopMeaning.CurrentMeaning | src/deepthought/loop/policy.py:114-119 | discovery is current exactly when some completed discovery is at least as new as all coverage |
| LoopMeaning.PendingMeaning | src/deepthought/loop/policy.py:61-74 | an action is pending exactly when its escalation is due on some finding |
| LoopDriver.JournalBounded | src/deepthought/loop/driver.py:158-190 | after any number of dispatches the keys are as many as the sessions, and at most three plus two per verified finding |
| LoopDriver.JournalReflected | src/deepthought/loop/policy.py:77-148 | everything a run of working sessions dispatched is visible in its store and trace |
| LoopDriver.QuiescentAtStop | src/deepthought/loop/policy.py:126-148 | where nothing runnable is selected any more, a fresh run on the saved store finds nothing runnable either |
| LoopDriver.Drive | src/deepthought/loop/driver.py:138-207 | the loop ends without any budget; every dispatch was the policy's choice at its moment, within every set limit and behind sessions the gate let through; and the run that is returned, with its stop reason, spend, trace, notes and planned action, is determined by what comes next: a session the gate did not pass, nothing selected, the time limit, only escalations, the budget |
| LoopDriver.StopMeaning | src/deepthought/loop/driver.py:138-207 | a fixed point leaves nothing runnable and nothing pending, a hard stop nothing runnable and one note for each pending escalation, and the session cap is kept |
| LoopDriver.EscalationRows | src/deepthought/loop/driver.py:175-177 | one step and one note for each pending escalation, in order, no session behind the step |
| LoopDriver.RunProject | src/deepthought/loop/driver.py:138-212 | the same after the run is saved behind the earlier runs, with at most three sessions plus two per verified finding and within the session cap when there is one |
| LoopDriver.RunLoop | src/deepthought/loop/driver.py:93-212 | an unregistered project leaves the store alone, a gate that does not proceed saves an empty run, a quiescent store runs nothing, everything else is a run of the loop saved, and a run of working sessions that reaches a fixed point or hard stop leaves a quiescent store |
| LoopDriver.RunTwice | src/deepthought/loop/driver.py:93-212 | after such a run a second one on the saved store runs no session, whatever its budget and world |
| LoopDriver.SomeWorldWorks | src/deepthought/loop/policy.py:23-29 | for every project there are sessions meeting what convergence asks of them |
| LoopDriver.NextRunId | src/deepthought/loop/driver.py:34-50 | the new run id is one past the largest in use and equals no existing id |
| LoopDriver.MaxExactly | src/deepthought/loop/driver.py:34-50 | the largest number in use is carried by some id or is 0, and no id carries a larger one |
| PyText.PaddedExactly | src/deepthought/loop/driver.py:50 | a padded number is the one text of its digits with at least four of them and no more than that behind a leading zero |
| PrimitiveLedger.RecentMeaning | src/deepthought/orchestrator/ledger.py:62-64 | the specification lists the latest additions of the newest keys, in order, leaving out only what is older than a full list |
| PrimitiveLedger.RecentShape | src/deepthought/orchestrator/ledger.py:75-80 | at most the bound, distinct keys, only nodes ever added |
| PrimitiveLedger.RecentWithout | src/deepthought/orchestrator/ledger.py:75-80 | taking a key out of the recent nodes makes room for no older one |
| PrimitiveLedger.RecentStep | src/deepthought/orchestrator/ledger.py:75-80 | deleting, appending and evicting is one step of the whole-history specification |
| PrimitiveLedger.Ledger.AddPrimitive | src/deepthought/orchestrator/ledger.py:59-81 | after any call sequence the ledger holds the last distinct keys of the whole history; a negative bound empties it and fails |
| PrimitiveLedger.Ledger.Nodes | src/deepthought/orchestrator/ledger.py:83-84 | the nodes returned are those of the whole-history specification |
| PrimitiveLedger.EdgesMeaning | src/deepthought/orchestrator/ledger.py:89-101 | an edge is listed exactly when a grant of one live node is mentioned by a precondition of another, and no node composes with itself |
| PrimitiveLedger.Ledger.Compositions | src/deepthought/orchestrator/ledger.py:89-101 | the nested loops list those edges by source, grant and target |
| JsonExtract.ScanSpan | benchmarks/model_rediscovery_eval.py:130-148 | the inner loop with its three flags finds the close of the span as specified |
| JsonExtract.ValuePasses | benchmarks/model_rediscovery_eval.py:132-147 | inside an open object any JSON value, with any string escapes, is passed over without a trace |
| JsonExtract.SpanIsObject | benchmarks/model_rediscovery_eval.py:127-150 | from the opening brace of any printed object the scan stops exactly at its closing brace, whatever surrounds it |
| JsonExtract.ExtractJson | benchmarks/model_rediscovery_eval.py:115-158 | the result is the first answer-shaped object by start, failing that the first object, failing that nothing |
| JsonExtract.ExtractedExactly | benchmarks/model_rediscovery_eval.py:115-158 | on the objects written in the reply: nothing where there is none; otherwise the first that holds a vulnerable line, and where none does the first of all |
| JsonExtract.AnswerStands | benchmarks/model_rediscovery_eval.py:127-155 | an answer object printed anywhere in the reply is found from its own start |
| JsonExtract.AnswerFound | benchmarks/model_rediscovery_eval.py:121-123 | with one printed anywhere, the result carries the answer key and starts no later than it, so an echoed template without that key is never returned |
| VersionRanges.RangesToVersionEntries | src/deepthought/export/cve.py:137-180 | the loops over ranges and events compute the specified entries |
| VersionRanges.RangeMeaning | src/deepthought/export/cve.py:137-180 | for ordered events the emitted intervals hold exactly the affected versions if and only if no introduced event arrives while an explicit introduced is still open |
| VersionMeaning.RangeExactly | src/deepthought/export/cve.py:137-180 | on the events themselves: for ordered events the entries cover exactly the versions the OSV evaluation of introduced, fixed and last_affected finds vulnerable, if and only if no introduced event comes while an explicit introduced is open |
| VersionMeaning.IntervalMeaning | src/deepthought/export/cve.py:163-173 | introduced a and fixed b cover exactly a <= v < b, introduced a and last_affected b exactly a <= v <= b |
| VersionMeaning.RangeTypes | src/deepthought/export/cve.py:153-162 | every entry of a range carries the version type of the range |
| VersionRanges.ReopenMissed | src/deepthought/export/cve.py:163-165 | whenever one does, some vulnerable version is covered by no entry |
| VersionRanges.UnionOfRanges | src/deepthought/export/cve.py:153-180 | the entries of several ranges cover the union of what each covers |
| VersionRanges.PackageVersions | src/deepthought/export/cve.py:193-212 | the loops with their seen set compute the specified entries of a package |
| VersionRanges.PackageDistinct | src/deepthought/export/cve.py:195-212 | no entry of a package repeats, and a package listing nothing gets the marker alone |
| VersionRanges.PackageAffected | src/deepthought/export/cve.py:183-212 | a package that lists anything is affected at exactly its exact versions and the versions its ranges affect |
| VersionMeaning.PackageListing | src/deepthought/export/cve.py:193-212 | a package lists its non-blank exact versions and the entries of its ranges and nothing else, and the marker alone where there are neither |
| VersionMeaning.FirstPositions | src/deepthought/export/cve.py:187-206 | entries keep the order in which they first appear, exact versions before ranges |
| VersionMeaning.PackageExactly | src/deepthought/export/cve.py:183-212 | the versions a package is affected at, on its events |
| MemoryNote.SplitJoin | memory/mem.py:63-70 | joining non-empty single lines and splitting the result gives the lines back |
| MemoryNote.ReadFrontmatter | memory/mem.py:63-74 | the reader's loop collects the last value of every key of the frontmatter |
| MemoryNote.BuildNote | memory/mem.py:145-157 | the printer's conditional appends build the note text |
| MemoryNote.NoEarlierFence | memory/mem.py:66 | inside the header lines nothing reads as the closing fence |
| MemoryNote.FenceAfterHeader | memory/mem.py:66 | the closing fence is found right after the header, whatever the body holds |
| MemoryNote.RowReadBack | memory/mem.py:70-72 | a printed row reads back as its key and value, and one without a value as nothing |
| MemoryNote.TagListShape | memory/mem.py:148 | every tag taken from an argument without brackets is trimmed, non-empty and free of commas |
| MemoryNote.TagsReadBack | memory/mem.py:85 | splitting the printed tags at the commas and trimming gives the tags back |
| MemoryNote.HeaderReadBack | memory/mem.py:63-74 | the whole frontmatter of a printed note is read back, no key lost and none added |
| MemoryNote.NoteRoundTrip | memory/mem.py:80-157 | for every body the readers recover name, description, type, date, class, tags and harness as they were given |
| NoteMeaning.LineMeaning | memory/mem.py:70-72 | a line of any text reads as a key and a value exactly when it holds white space, a key in letters and underscores, a colon and a value that is not blank |
| NoteMeaning.FrontmatterMeaning | memory/mem.py:63-74 | a key has a value in any text exactly when the text has a header, up to the first closing fence, and the last line of it that holds the key holds that value |
| NoteMeaning.PrintMeaning | memory/mem.py:145-157 | the whole text of a printed note, with the class, tags and harness lines exactly where there are any |
| NoteMeaning.TagsMeaning | memory/mem.py:85 | the tags of a text are the pieces between commas, stripped, where anything is left |
| NoteMeaning.BracketsMeaning | memory/mem.py:85 | taking the brackets off leaves a piece with brackets alone around it and none at its ends |
| PyText.StripExactly | memory/mem.py:72 | stripping takes white space off both ends, all of it there and nothing else |
| PyText.SpaceExactly | memory/mem.py:70-72 | the characters that count as white space, by code point |
| PyText.SplitMeaning | memory/mem.py:69 | how every text falls into lines, break by break |
| SarifIngest.Accept | src/deepthought/ingest/sarif.py:389-417 | the generator's nested walk yields the accepted results in document order |
| SarifIngest.AcceptedAreRight | src/deepthought/ingest/sarif.py:392-416 | every accepted result has a usable message, lies in scope and carries a rule only if that rule bears its rule id |
| SarifMeaning.AcceptedExactly | src/deepthought/ingest/sarif.py:389-417 | at strictly increasing run and result positions the walk yields exactly the well-formed results with a message that is not blank and a first named location in scope, each once, with the last well-formed rule of its own run that it names, or none |
| SarifIngest.IdsDiffer | src/deepthought/ingest/sarif.py:506-507 | two different numbers never print as one finding id, however wide |
| SarifIngest.ToFindings | src/deepthought/ingest/sarif.py:423-519 | one finding per accepted result, in order, numbered on from the start |
| SarifMeaning.FindingMeaning | src/deepthought/ingest/sarif.py:423-519 | the parts of a finding from the fields of its result and rule |
| SarifMeaning.BodyMeaning | src/deepthought/ingest/sarif.py:496-502 | the body is the header, the message, the location and the weakness, and only the end of the message gives way to the bound of 4096 characters |
| SarifMeaning.SummaryMeaning | src/deepthought/ingest/sarif.py:453-462 | a summary is the first line of the message behind the first line of the rule id, cut at 200 characters |
| SarifMeaning.KnownMeaning | src/deepthought/ingest/sarif.py:290-309 | an identifier is recorded exactly when the property of the result, or failing that of its rule, is accepted as a whole once stripped and in upper case |
| SarifMeaning.CveMeaning | src/deepthought/ingest/sarif.py:178 | the accepted CVE identifiers |
| SarifMeaning.CweMeaning | src/deepthought/ingest/sarif.py:179 | the accepted CWE identifiers |
| SarifIngest.FindingIds | src/deepthought/ingest/sarif.py:433-434 | finding ids run on from the start and never repeat |
| SarifIngest.BodyKeepsItsLines | src/deepthought/ingest/sarif.py:496-502 | the bound cuts only the message: the location and weakness lines survive whole, and so does a message of up to 3522 characters |
| SarifIngest.ReferenceIsSafe | src/deepthought/ingest/sarif.py:461-473 | whatever a rule's help link holds, a finding has at most one reference, a bounded line without white space under an HTTP scheme and a host that is not empty |
| SarifMeaning.ReferenceMeaning | src/deepthought/ingest/sarif.py:461-473 | a finding refers to the stripped help link of its rule exactly when that is a web address of at most 2048 characters, and to nothing else |
| SarifMeaning.UrlMeaning | src/deepthought/ingest/sarif.py:165 | a web address is http or https in any case, `://`, a host, and visible characters alone |
| SarifIngest.SummaryIsOneLine | src/deepthought/ingest/sarif.py:453-462 | a summary is one bounded line, whatever breaks the message and rule id hold |
| SarifIngest.FindCapability | src/deepthought/ingest/sarif.py:525-554 | the nested search computes the specified lookup, the rule id taking precedence |
| SarifIngest.TagOrderIrrelevant | src/deepthought/ingest/sarif.py:546-554 | neither order nor repetition of tags changes the capability |
| SarifIngest.FirstHitMeaning | src/deepthought/ingest/sarif.py:525-532 | the lookup is closed: the earliest table row hit wins, and nothing outside the table can come out |
| SarifMeaning.CapabilityMeaning | src/deepthought/ingest/sarif.py:525-554 | the capability is that of the first table row the rule id hits, and failing that of the first row any stripped tag of the rule hits |
| SarifIngest.ToPrimitives | src/deepthought/ingest/sarif.py:557-601 | the second walk builds the primitives of exactly the results with a capability, in order, as far as the ids reach |
| SarifMeaning.PrimitiveMeaning | src/deepthought/ingest/sarif.py:557-601 | a primitive names the capability, the place of its result, or failing that its rule id, cut at 256 characters, and its finding |
| SarifIngest.WalksAligned | src/deepthought/ingest/sarif.py:423-601 | given the ids of the findings, every primitive points at the finding built from its own result, order is kept, no finding is shared and no capability is lost |

## Left out

- Foreign code: SHA-256 itself, ed25519 signing, canonical JSON, the target sampler and Python's number formats. A text stands for its UTF-8 bytes, and a digest prefix byte for one character.
- Network, files and clocks: fetching, backups, atomic writes, `json.loads`, `str.lower`, `str.upper` and the regular-expression engine are parameters or absent; the redirect and SQL models start from a syntax tree.
- The other checks of the strict certification (precision panel, exposure roles, verdicts, freeze binding) and the other detectors: heuristics over parsers or record building.
- AppendOnlyChain.CommittedState.Certify: models the four committed-anchor checks of certification and no other check of it, because the others do not touch the roots.
- Denominator.CheckDenominatorPreservation: states which transitions and identities are reported, not the order or wording of the messages.
- ClassManifest.CertifyAggregate: states when the report is clean, not the order, number or wording of the violations; the rounding of the exact mean to a float is a parameter.
- RegressionBar.GeneralizationLog.Merge: the program leaves it to the caller to consult the bar before appending; the method joins the two calls.
- EvaluationRun.Run.AttemptEvaluation: the caller's arguments arrive as one record, and a raised exception as a refusal value.
- RedirectSoundness.BlockSound: covers assignments, bare annotations, augmented assignments, ifs, returns, raises and expression statements over names, literals, sources, and/or/not, conditional expressions, calls, sums, templates, joins and string transforms. It asks `BlockBuilt`: every text built along the scan meets the condition that the exactness lemma of its rule proves necessary for some values the flows allow; an internal builder's sum with request data is outside it, because its flow is that of a validated value. Internal sources such as `request.path` hold no request data, as in the program. Loops, try, match and walrus expressions are scanned once or updated strongly by the program; containers are absent. A foreign call returns a truth value, hands back a positional argument, or, where its function builds texts, returns one made of its arguments.
- PercentTemplate.PiecesRender: mapping keys and starred widths are not read, and a formatting that runs out of arguments ends instead of raising.
- RedirectScanner.MergeStates: the module aliases a branch may drop are absent, because calls are already resolved to names.
- SqlFlow.FlatSound: asks `WellPlaced`: no unconditional assignment hides a sink of its own and no bare annotation is unconditional, where `SqlFlow.AssignmentSoundExactly` and `SqlFlow.DeclareExactly` show both conditions exact. Request data is recognised by the program in the source text of a member or call, string literals included; the model marks the parts that are request data. Loops, try, match and walrus expressions are absent, and so are comprehensions, starred, awaited and yielded expressions, for which the program takes the empty flow even when they hold tainted names; a walk in program order stands for the sort by position (`SqlMeaning.FlattenOrdered`), and construction sites are a set.
- LoopDriver.RunLoop: session ids are creation counters, scope areas are already stripped, and the teach-back text and time stamps are absent.
- PrimitiveLedger.Ledger.AddPrimitive: a node is its key, grants and preconditions; its other fields are one opaque text.
- JsonExtract.ExtractJson: the classification and aggregation of the extracted answers only read its result and are absent.
- VersionRanges.RangeMeaning: speaks of strictly increasing events; unordered events have no interval meaning to keep. The range type arrives in upper case, and the vendor and product fields are absent.
- MemoryNote.NoteRoundTrip: asks for trimmed single-line fields and tags without brackets; a class, tag list or harness left out reads back as empty. Forming the slug from the name is absent.
- SarifIngest.ToFindings: the fixed fields of a finding are absent; path containment is a parameter, a wrongly typed part of the document is one `Malformed` value, and a boolean line number is not distinguished.
- SarifIngest.FindCapability: proved for every ordered table and matcher; the rows of the program's own table are not listed.

# Verified model of the contract-intelligence evaluation and review cores

This project models, in Dafny 4.11, the self-contained algorithmic parts of the contract-intelligence repository and proves what they keep, over all inputs and all runs: the contract-graph evaluation, dependency invalidation, the consent rollout, the evaluation statistics and release gates, the parsers and printers around them, semantic duplicate admission, and the paged graph read. `dafny verify dfyconfig.toml` checks everything.

A class or a method with loops stands where the source updates state step by step; a function stands where it computes a value. Each method is proved against a specification function or relation, and the lemmas below state what the source promises about that specification. The small definitions that an operation and its specification share are tied down by a second statement in terms of the input fields alone.

| file | what it models |
|---|---|
| `EdgeMatching.dfy`, `EdgeTally.dfy` | two-phase pairing of gold and predicted edges, and the counts behind every rate |
| `Wilson.dfy`, `Bootstrap.dfy`, `Kappa.dfy` | score intervals, cluster bootstrap quantiles, Cohen's kappa, in exact reals |
| `Segmentation.dfy`, `Collapse.dfy`, `AddressContext.dfy` | the document tree, its fold to articles, and the line-by-line address reader that must agree with it |
| `HardWraps.dfy`, `Pagination.dfy` | joining wrapped lines; greedy page packing |
| `Invalidation.dfy` | staleness over an arbitrary, possibly cyclic dependency graph |
| `ConsentRollout.dfy` | rollout, rollback and user decisions over metadata and an append-only audit log |
| `UnitRegression.dfy`, `ReleaseGate.dfy`, `WorkflowGate.dfy` | unit and item regressions, the release verdict, workflow invariants |
| `Promotion.dfy`, `GoldenApproval.dfy` | moving reviewed cases into the golden corpus; approvals of generated content |
| `AmountNotation.dfy`, `ReviewMarkdown.dfy` | numbers and review files, printed and read back |
| `DuplicateAdmission.dfy` | which clause-frame pairs may be called DUPLICATE |
| `GraphPaging.dfy` | cursor paging while the database moves |
| `Basics.dfy`, `Strings.dfy`, `Decimal.dfy` | shared notions: sums over sets, stable sorting, splitting, text order, decimal text |

## Findings

Five places where the code does not do what its surroundings promise. Each has a lemma with the exact condition and one at a failing input.

- **Choices that leave no trace.** The consent endpoint logs a change only when the stored value differs (`backend/src/contract_intelligence/contract/interfaces/api/routers/dossier_consent_router.py:79-107`). A user who refuses while the dossier already holds a legacy `false` leaves no event, and a later rollout overrides the refusal (`ConsentRollout.RequestSurvivesRollout`, `ConsentRollout.UnloggedRefusalIsOverridden`). A user who confirms a `true` that a rollout wrote leaves no event either, and the rollback takes the consent away (`ConsentRollout.RequestSurvivesRollback`, `ConsentRollout.UnloggedConsentIsTakenBack`). `ConsentRollout.RequestIsSafeExactlyWhenSettled` says when a choice withstands every sequence of both commands.
- **The marker text is not restored.** A rollback cannot tell a stored text `__absent__` from an absent key, so it restores every row exactly when no replaced row held that text (`ConsentRollout.RollbackRestores`, `ConsentRollout.MarkerIsNotRestored`). Such a text can only come from outside the application, by a direct write to the database: `backend/src/contract_intelligence/contract/application/services/contract_service.py:110-114` and `:281-290` drop what clients send, and the endpoint writes booleans.
- **Three decimals are read as thousands.** A number that was accepted with a three-digit fraction changes when it is read again (`AmountNotation.ReadingTwice`; `AmountNotation.ThousandfoldOnSecondReading`, for instance "0.1250", then "0.125", then "125"), and a printed decimal number below one thousand with three decimals is read a thousandfold (`AmountNotation.DecimalReadsBack`).
- **Markers can hide a heading.** The gold extractor reads a body line as it stands, the segmenter after stripping note markers, so a marker inside an article or annex heading ("Điều 5[3]. Tên") hides the heading from the extractor alone (`AddressContext.AnchoredReadingsAgreeExactlyWhenMovedAlike`, `AddressContext.HiddenHeadingDiffers`).
- **DUPLICATE is not symmetric.** A PARAMETER frame that names no parameter may be paired with one whose parameter slot is present but unassessed, while the exchanged pair is refused (`DuplicateAdmission.AdmissionIsSymmetricExactlyWhenLevel`, `DuplicateAdmission.LopsidedPair`).

## Model

| member | source | states |
|---|---|---|
| `EdgeMatching.PairingIsOptimal` | evals/contract_graph/score.py:49-80 | over all one-to-one pairings of equal source addresses, the two-phase greedy pairing has the most pairs and, at once, the most pairs on the same given target, which are those of the first sweep |
| `EdgeMatching.SaturatedIsLargest` | evals/contract_graph/score.py:58-68 | a matching that leaves no free partner for an unpaired record is as large as any rival, by an injection from the rival |
| `EdgeMatching.PairingIsMatching` | evals/contract_graph/score.py:49-80 | the result is one-to-one and agrees on source addresses; the second sweep leaves exactly the exact pairs of the first; records of a class are served in order |
| `EdgeMatching.RunSweep` | evals/contract_graph/score.py:58-68 | one sweep with the `used` flags computes the specified sweep |
| `EdgeMatching.Match` | evals/contract_graph/score.py:49-80 | pairs, missed gold and unmatched slots are those of the specified pairing of the gold sorted by note number |
| `EdgeMatching.MatchConserves` | evals/contract_graph/score.py:49-80 | pairs and leftovers together are the gold records and the predictions given, none lost or repeated |
| `EdgeMatching.ServedInNoteOrder` | evals/contract_graph/score.py:49-68 | of two gold records with one source address the one with the smaller note number, or the earlier one of equal number, is served first and by an earlier slot |
| `EdgeTally.CountsAreSound` | evals/contract_graph/score.py:195-225 | for every operation agreeing and correct pairs are among the found ones, found ones among the gold, agreeing ones among the predictions |
| `EdgeTally.Tally` | evals/contract_graph/score.py:195-225 | the three counting loops yield, per operation, the sizes of the sets of gold records, slots and pairs they stand for |
| `EdgeTally.SetAsideSlots` | evals/contract_graph/score.py:198-203 | no more slots are set aside than there are gold records outside the scored operations |
| `EdgeTally.SlotBudget` | evals/contract_graph/score.py:83-92 | a prediction that lists n targets takes part in at most n pairs |
| `EdgeTally.Accumulate` | evals/contract_graph/score.py:232-246 | running totals stay sound, and every column of the totals is the sum of the two columns added |
| `EdgeTally.TotalsAreSound` | evals/contract_graph/score.py:248-271 | numerator is at most denominator for every rate of the "all" row, so its square root is defined |
| `EdgeTally.TallyCovers` | evals/contract_graph/score.py:195-225 | summed over operations each column counts what it stands for, told from records, slots and pairs alone: scored gold, found ones, ones whose slot names their operation, ones whose slot names their target, and scorable slots not set aside |
| `EdgeTally.CorrectIsExact` | evals/contract_graph/score.py:216-216 | the records counted as correct are exactly the scored ones the first sweep paired |
| `EdgeTally.SlotsOfPrediction` | evals/contract_graph/score.py:83-92 | a prediction gives one slot per listed target, or one for its single target, with its source and operation |
| `EdgeTally.Score` | evals/contract_graph/score.py:95-129 | over all documents every rate is defined and every column of the totals counts the records, pairs or slots it stands for |
| `Wilson.DiscriminantIsDefined` | evals/contract_graph/score.py:29-36 | the number under the square root is never negative for a count within its total |
| `Wilson.IntervalHoldsRate` | evals/unit_metrics.py:81-90 | 0 <= lower <= k/n <= upper <= 1 with both clamps redundant |
| `Wilson.IntervalReflects` | evals/contract_graph/score.py:29-36 | counting failures mirrors the interval: lower(k, n) = 1 - upper(n - k, n) |
| `Bootstrap.PooledBetween` | evals/unit_metrics.py:131-137 | mediant inequality: a pooled resample lies between bounds that hold for every cluster |
| `Bootstrap.InterpolationIsMonotone` | evals/unit_metrics.py:351-359 | linear interpolation between sorted values grows with the position |
| `Bootstrap.QuantileIsMonotone` | evals/unit_metrics.py:351-359 | a quantile lies within the bounds of the values and grows with its probability |
| `Bootstrap.QuantileHitsOrder` | evals/unit_metrics.py:351-359 | with n values the quantiles at k/(n-1) are the sorted values themselves |
| `Bootstrap.Group` | evals/unit_metrics.py:116-124 | grouping collects the outcomes of each cluster in order of first appearance |
| `Bootstrap.RateOfPlaces` | evals/unit_metrics.py:116-124 | a rate is the share of the values that are true |
| `Bootstrap.ClusterBootstrap` | evals/unit_metrics.py:103-140 | for all draws: errors exactly for no resample or an invalid confidence; both ends lie between the lowest and highest cluster rate, lower <= upper, and they are the two quantiles of the pooled rates |
| `Kappa.ChanceIsBounded` | evals/scripts/candidate_review.py:256-269 | 2 * sum of e_l * r_l <= n * (n + matches) |
| `Kappa.KappaIsBounded` | evals/scripts/candidate_review.py:256-269 | kappa lies in [-1, 1] and is 1 exactly when every label matches |
| `Kappa.AgreementOfPlaces` | evals/scripts/candidate_review.py:256-269 | observed agreement is the share of places that agree, and kappa the agreement beyond chance among what chance leaves open |
| `Kappa.ChanceOfLabels` | evals/scripts/candidate_review.py:256-269 | the chance sum adds over all labels the products of their multiplicities on both sides |
| `Kappa.FallbackIsUnreachable` | evals/scripts/candidate_review.py:256-269 | when chance agreement is total all labels match, so the 0.0 fallback is never taken |
| `Segmentation.Segment` | evals/contract_graph/segment.py:27-73 | the pass over the lines yields the tree the lines describe, well nested and labelled by level, with all their text |
| `Segmentation.TreeOfLines` | evals/contract_graph/segment.py:27-73 | each heading that opens a unit has its node, in text order: its label, the node of the heading around it, the rest of the heading and the text lines up to the next heading |
| `Segmentation.TextIsKept` | evals/contract_graph/segment.py:52-72 | the text of all nodes, in node order, is the non-empty heading rests and the text lines inside open units, in text order, each once |
| `Segmentation.Invariants` | evals/contract_graph/segment.py:27-73 | after every line of every text: parents precede children, all nodes between are descendants, only the rightmost units are open |
| `Segmentation.DepthIsAtMostThree` | evals/contract_graph/segment.py:27-73 | depth is at most 3; roots are articles and annexes, clauses are at depth 2 |
| `Collapse.DepthFirstIsDocumentOrder` | evals/contract_graph/segment.py:84-90 | descendants listed depth first are the following nodes up to the end of the subtree, in document order |
| `Collapse.RootEndsAtNextRoot` | evals/contract_graph/segment.py:76-95 | the subtree of a root ends where the next root begins |
| `Collapse.BlocksAreAllNodes` | evals/contract_graph/segment.py:76-95 | the blocks of the roots, in order, are all nodes, each exactly once |
| `Collapse.DescendantLines` | evals/contract_graph/segment.py:84-90 | the recursive fold yields the labelled texts of the descendants in walk order |
| `Collapse.CollapseToArticles` | evals/contract_graph/segment.py:76-95 | one text per root: its own text and the labelled texts of all nodes up to the next root, in document order |
| `Collapse.CollapsedLines` | evals/contract_graph/segment.py:76-95 | split at line breaks, the text of a root is its own lines and then those of every node up to the next root, each such node under its caption |
| `AddressContext.ReadingsAgreeExactlyWhenAnchored` | evals/contract_graph/gold.py:215-226 | where note markers hide no heading, the address context of the raw lines equals, after every line, the path to the unit the segmenter fills from the stripped lines, exactly when no clause or point heading is stray |
| `AddressContext.AnchoredReadingsAgreeExactlyWhenMovedAlike` | evals/contract_graph/segment.py:52-69 | with any note markers, a text without stray headings is read alike exactly when each raw line moves the context as its stripped form does |
| `AddressContext.HiddenHeadingDiffers` | evals/contract_graph/segment.py:52-56 | an article heading that only its stripped form shows makes the two readings differ |
| `AddressContext.StrayHeadingDiffers` | evals/contract_graph/gold.py:215-226 | a stray heading makes the two readings differ on that line |
| `AddressContext.AnchorTarget` | evals/contract_graph/gold.py:137-150 | the address is read at the first line that carries the marker, and there is none without one |
| `AddressContext.AnchoredAddressIsTreePath` | evals/contract_graph/gold.py:229-240 | in an anchored text whose markers hide no heading, the parts of a marker's address are the label path of the tree node its note means, at every asked level |
| `AddressContext.LowerLetters` | evals/contract_graph/gold.py:219-219 | lower-casing an annex number changes the capital letters and nothing else |
| `HardWraps.JoinHardWraps` | evals/contract_graph/normalize.py:176-188 | looking at the end of the growing line comes to the same joins as judging neighbouring source lines alone |
| `HardWraps.ContinuesOfText` | evals/contract_graph/normalize.py:176-188 | a line goes on from the one before exactly when it starts in lower case, the one before does not end in a full stop, semicolon or colon, and it reads as no point or clause label |
| `HardWraps.TextIsConserved` | evals/contract_graph/normalize.py:176-188 | joining turns some line breaks into blanks and changes no other character |
| `HardWraps.JoiningTwice` | evals/contract_graph/normalize.py:176-188 | joining the result again changes nothing |
| `Pagination.Paginate` | ai-service/fixtures/full_contract.py:29-41 | the loop over paragraphs yields the greedy pages |
| `Pagination.GreedyIsAllowed` | ai-service/fixtures/full_contract.py:29-41 | the pages hold all paragraphs in order, and each fits the size unless it is a single paragraph |
| `Pagination.GreedyIsMinimal` | ai-service/fixtures/full_contract.py:29-41 | no ordered way of paging under the same rule uses fewer pages |
| `Invalidation.DependencyGraph.Invalidate` | ai-service/app/contracts/canonical.py:150-170 | terminates on any graph; returns and flags exactly the non-input artifacts reachable from the seeds |
| `Invalidation.DependencyGraph.Close` | ai-service/app/contracts/canonical.py:150-163 | the repeated passes end in the least set closed under dependants |
| `Invalidation.ClosureIsReachability` | ai-service/app/contracts/canonical.py:150-163 | a closed set of reachable ids is exactly what a chain of dependants reaches |
| `Invalidation.AffectedArtifacts` | ai-service/app/contracts/canonical.py:150-170 | stale artifacts are those of another kind than input at the end of a chain of dependants that starts with a seed |
| `Invalidation.AI2Run.MarkEdit` | ai-service/app/contracts/canonical.py:198-223 | refuses unknown kinds, ignores annotations, otherwise files the target and flags what is reachable from it or the current generation |
| `Invalidation.TargetsDiffer` | ai-service/app/contracts/canonical.py:209-211 | edits that invalidate have the same target only when kind and artifact agree |
| `Invalidation.FiledTarget` | ai-service/app/contracts/canonical.py:209-215 | filing a target adds one artifact without dependencies unless it is there, and leaves the others |
| `Invalidation.EditsFlagExactlyTheReachable` | ai-service/app/contracts/canonical.py:198-223 | after any sequence of edits the flags are the initial ones plus the derived part of everything reachable from the edited targets and the generation |
| `ConsentRollout.EveryRunIsExplainedByItsLog` | backend/scripts/backfill_ai2_content_sharing_consent.py:52-156 | in every interleaving of rollouts, rollbacks, user decisions, deletions and purges each value is what its audit trail replays to, unless a purge cleared it, and then it is absent and out of the commands' reach; rollouts run once per dossier and record the value they replaced, rollbacks follow the rollout they compensate |
| `ConsentRollout.UserDecisionHolds` | backend/scripts/backfill_ai2_content_sharing_consent.py:52-156 | in every run a dossier whose latest consent event is a user change holds that value if and only if no purge has cleared it since |
| `ConsentRollout.PurgeOutlivesItsTrail` | backend/src/contract_intelligence/contract/infrastructure/persistence/dossier_deletion_service.py:194-208 | a user turns sharing on, the dossier is deleted and purged: the user change stays the latest event and the value is gone |
| `ConsentRollout.DeletionOfRows` | backend/src/contract_intelligence/contract/infrastructure/persistence/dossier_deletion_service.py:85-208 | a deletion takes a dossier out of the commands' reach, a purge empties only such a dossier, and neither writes on the consent log |
| `ConsentRollout.UserDecisionIsFinalForOperators` | backend/scripts/backfill_ai2_content_sharing_consent.py:70-84 | after a logged user decision neither rollout nor rollback touches the dossier |
| `ConsentRollout.RequestSurvivesRollout` | backend/src/contract_intelligence/contract/interfaces/api/routers/dossier_consent_router.py:79-107 | a user's choice survives a rollout exactly under a condition readable before the rollout |
| `ConsentRollout.UnloggedRefusalIsOverridden` | backend/src/contract_intelligence/contract/interfaces/api/routers/dossier_consent_router.py:81-107 | a refusal on a legacy false leaves no event and is overridden |
| `ConsentRollout.RequestSurvivesRollback` | backend/src/contract_intelligence/contract/interfaces/api/routers/dossier_consent_router.py:79-107 | a refusal survives every rollback, and a choice to share survives one exactly when the rollback does not find its own rollout as the latest event |
| `ConsentRollout.UnloggedConsentIsTakenBack` | backend/src/contract_intelligence/contract/interfaces/api/routers/dossier_consent_router.py:81-107 | confirming what a rollout has set leaves no event, and the rollback takes it away |
| `ConsentRollout.RequestIsSafeExactlyWhenSettled` | backend/scripts/backfill_ai2_content_sharing_consent.py:52-156 | a user's choice withstands every sequence of rollouts and rollbacks exactly when its dossier is out of their reach, or its latest event is a user change, or it shares with no consent event at all |
| `ConsentRollout.RolloutOfRows` | backend/scripts/backfill_ai2_content_sharing_consent.py:52-106 | in terms of rows and log alone: a rollout turns consent on where the dossier is within reach, holds no consent and was not written on before, a stored false counting as none unless the last consent event is a user change; every other row stays |
| `ConsentRollout.RolloutIsLogged` | backend/scripts/backfill_ai2_content_sharing_consent.py:89-105 | it appends one event for each row it turns on, with the value it replaced, and nothing else |
| `ConsentRollout.RollbackOfRows` | backend/scripts/backfill_ai2_content_sharing_consent.py:109-156 | a rollback gives the recorded value back where sharing is still on, this rollout is the last consent event and no rollback was written; every other row stays |
| `ConsentRollout.RollbackIsLogged` | backend/scripts/backfill_ai2_content_sharing_consent.py:141-155 | it appends one event for each row it restores and nothing else |
| `ConsentRollout.CountsOfRows` | backend/scripts/backfill_ai2_content_sharing_consent.py:55-106 | eligible and updated are the numbers of rows within reach and of rows turned on |
| `ConsentRollout.RollbackCountsOfRows` | backend/scripts/backfill_ai2_content_sharing_consent.py:112-156 | restored and skipped are the numbers of rows taken back and of the other rows the rollout wrote on |
| `ConsentRollout.RollbackRestores` | backend/scripts/backfill_ai2_content_sharing_consent.py:109-156 | rolling back a fresh rollout restores every row exactly when no replaced row held the marker text |
| `ConsentRollout.MarkerIsNotRestored` | backend/scripts/backfill_ai2_content_sharing_consent.py:58-100 | a stored marker text is absent after a rollout and its rollback |
| `ConsentRollout.ApplyTwice` | backend/scripts/backfill_ai2_content_sharing_consent.py:52-106 | a second rollout under the same id updates nothing |
| `ConsentRollout.UndoTwice` | backend/scripts/backfill_ai2_content_sharing_consent.py:109-156 | a second rollback under the same id restores nothing |
| `ConsentRollout.ConsentStore.ApplyRollout` | backend/scripts/backfill_ai2_content_sharing_consent.py:52-106 | dry run and apply report the same counts of the state found; only apply changes it |
| `ConsentRollout.ConsentStore.RollbackRollout` | backend/scripts/backfill_ai2_content_sharing_consent.py:109-156 | restores exactly the rows whose latest event is this rollout, and counts them |
| `ConsentRollout.ConsentStore.PreviewRollback` | backend/scripts/backfill_ai2_content_sharing_consent.py:159-186 | reports the counts a rollback would report and changes nothing |
| `ConsentRollout.ConsentStore.UpdateConsent` | backend/src/contract_intelligence/contract/interfaces/api/routers/dossier_consent_router.py:74-107 | an unknown or deleted dossier is refused; a change is logged only when the value differs |
| `UnitRegression.Index` | evals/clause_frame_scoring.py:109-116 | indexes by identity and refuses exactly the lists that repeat one |
| `UnitRegression.CompareUnits` | evals/clause_frame_scoring.py:119-134 | the insertion-ordered regressions are the lost units of the baseline followed by the tripwire failures it did not report |
| `UnitRegression.ReportedUnits` | evals/clause_frame_scoring.py:119-134 | a unit is reported exactly when it stands for one that passed and is failing or gone, or is a failing one of a metric without tolerance that the baseline does not know |
| `UnitRegression.ReportedItems` | evals/unit_metrics.py:185-221 | a unit is reported exactly when it fails under the last specification of its metric and either did not fail before, where no error is allowed, or belongs to an item that passed and has no passing unit now |
| `UnitRegression.MetricsInOrder` | evals/unit_metrics.py:199-204 | metrics are compared in the order in which they are first specified |
| `UnitRegression.DiffItems` | evals/unit_metrics.py:212-220 | per metric: the failing units of items that passed before and have no passing unit any more |
| `UnitRegression.DiffRegressions` | evals/unit_metrics.py:185-221 | refuses version drift, otherwise lists the regressions metric by metric, the last specification of a metric deciding |
| `UnitRegression.VersionsAgree` | evals/unit_metrics.py:195-198 | a comparison goes through exactly when each version the baseline names is the current one |
| `UnitRegression.UnitGate` | evals/clause_frame_scoring.py:119-134 | no regression exactly when every passing unit still passes and no tripwire failure is new |
| `UnitRegression.UnitGateImpliesItemGate` | evals/unit_metrics.py:185-221 | whatever the unit comparison lets through, the item comparison lets through, for every baseline and current set |
| `UnitRegression.UnitGateIsItemGateAndKeptPasses` | evals/unit_metrics.py:185-221 | the unit comparison is the item comparison plus: every unit that passed still passes |
| `ReleaseGate.MorePassesHigherStatus` | evals/unit_metrics.py:166-175 | more passes of as many units never lower a metric's status |
| `ReleaseGate.MetricRows` | evals/clause_frame_release.py:837-861 | one overall row, one per profile and one per dossier, strata held to their own floor |
| `ReleaseGate.RowOfUnits` | evals/clause_frame_release.py:837-861 | a row counts the units of its metric and scope and the passing ones among them, and is judged by the floor of its scope |
| `ReleaseGate.StatusOfCounts` | evals/unit_metrics.py:158-168 | when a metric is not measured, underpowered or passing, in terms of its counts |
| `ReleaseGate.ScopesOfReport` | evals/clause_frame_release.py:837-861 | the scopes of a report are overall, each of the six profiles and each listed dossier |
| `ReleaseGate.AggregateOfRows` | evals/clause_frame_release.py:805-809 | any failing row fails the whole, then any unmeasured one leaves it unmeasured; it passes exactly when all rows pass |
| `ReleaseGate.RanksDiffer` | evals/clause_frame_release.py:805-809 | the four verdicts are ordered FAIL, NOT_MEASURED, UNDERPOWERED, PASS(point) |
| `ReleaseGate.PairsOfUnits` | evals/clause_frame_release.py:868-872 | the pair floor counts the baseline units that compare pairs |
| `ReleaseGate.HeldOutOfUnits` | evals/clause_frame_release.py:812-836 | accepted units are held out, of a profiled dossier and of a specified metric |
| `ReleaseGate.EvaluateRelease` | evals/clause_frame_release.py:812-881 | refuses exactly inputs that are not held out, profiled, declared and uniquely identified; otherwise computes the rows and the verdict |
| `ReleaseGate.VerdictIsMonotone` | evals/clause_frame_release.py:812-881 | turning failing current units into passing ones never lowers the verdict in the order FAIL, NOT_MEASURED, UNDERPOWERED, PASS(point), and never makes the evaluation refuse |
| `ReleaseGate.PassingVerdict` | evals/clause_frame_release.py:805-881 | the verdict passes exactly when all rows pass, the baseline compares 120 pairs or more, passes are kept and tripwires hold |
| `ReleaseGate.PassingReleaseHasNoItemRegression` | evals/clause_frame_release.py:836-881 | a verdict other than FAIL also passes the item comparison |
| `ReleaseGate.ScoreUnits` | evals/clause_frame_scoring.py:137-154 | refuses repeated units, missing or repeated specifications and undeclared metrics; otherwise aggregates the overall rows |
| `ReleaseGate.ReleaseIsStricter` | evals/clause_frame_scoring.py:137-154 | a release verdict is never better than the plain score of the same units |
| `ReleaseGate.ReleaseSpecs` | evals/clause_frame_release.py:768-802 | accepts exactly the policies whose rows meet the release demands, and turns each row into its specification |
| `ReleaseGate.PolicyOfMetric` | evals/clause_frame_release.py:768-802 | metric by metric, which policy rows a release accepts and which specification each becomes |
| `ReleaseGate.ErrorBudget` | evals/clause_frame_release.py:787-800 | zero-error and hard metrics are tripwires that pass exactly with enough units and no failure; error rates pass exactly within the frozen share |
| `WorkflowGate.OrderingOk` | evals/workflow_gate.py:124-134 | exactly when there are events and each run's sequence numbers count 1, 2, 3 and on |
| `WorkflowGate.OrderedInPlace` | evals/workflow_gate.py:124-134 | a stream is ordered exactly when each event's number is one more than the number of earlier events of its run |
| `WorkflowGate.ReplayOk` | evals/workflow_gate.py:137-151 | the one-pass fold holds exactly when no event denies it and any two events of one run and id have the same content |
| `WorkflowGate.IdempotencyOk` | evals/workflow_gate.py:154-171 | exactly when no event denies it and any two events of one idempotency key did the same work |
| `WorkflowGate.SecurityOk` | evals/workflow_gate.py:188-197 | exactly when no event denies it and any two events of one run share tenant and dossier |
| `WorkflowGate.ScoreWorkflow` | evals/workflow_gate.py:200-219 | five verdicts and their count; entries that are no events fail every one |
| `WorkflowGate.PointsCountVerdicts` | evals/workflow_gate.py:206-219 | the score counts the verdicts that hold, each as one |
| `WorkflowGate.ValuesOfEvents` | evals/workflow_gate.py:203-206 | of entries that are all events the checks see each one, in order |
| `WorkflowGate.InterleavingDoesNotMatter` | evals/workflow_gate.py:124-219 | however the runs interleave, every verdict and the score come out the same |
| `Promotion.ValidateCorpusSeparation` | evals/release_verification.py:60-111 | accepts exactly the manifests with distinct, non-blank, disjoint ids, unreviewed candidates and reviewed golden cases |
| `Promotion.Manifests.Promote` | evals/scripts/candidate_review.py:156-253 | succeeds exactly for promotable decisions outside CI and then replaces both manifests; otherwise returns 2 and changes nothing |
| `Promotion.PromotableOfFields` | evals/scripts/candidate_review.py:156-222 | in terms of the fields: decisions and case ids all differ, verdicts are known, and each approval is signed, labelled, justified, and either of a never reviewed candidate with source and digest or recorded already |
| `Promotion.CasesAfter` | evals/scripts/candidate_review.py:211-253 | candidates stay as they are unless a decision approves them, golden cases stay, approved candidates are found among the golden ones, which are sorted by id |
| `Promotion.CasesAreConserved` | evals/scripts/candidate_review.py:156-253 | the union of the ids and the number of cases stay what they were |
| `Promotion.IdsAreKept` | evals/scripts/candidate_review.py:156-253 | the manifests stay disjoint and duplicate-free; exactly the approved candidates move |
| `Promotion.MovedCase` | evals/scripts/candidate_review.py:226-240 | a moved case keeps its provenance and carries the approval that moved it |
| `Promotion.SeparationIsKept` | evals/release_verification.py:60-111 | promotion keeps everything the separately written validator checks |
| `Promotion.RerunChangesNothing` | evals/scripts/candidate_review.py:211-222 | the same decisions and reviewer, at any later time, succeed again and change nothing |
| `GoldenApproval.GoldenDirectory.Build` | evals/golden/build_golden.py:138-186 | a build succeeds or is refused as specified; a refused one writes nothing |
| `GoldenApproval.GoldenDirectory.Approve` | evals/golden/build_golden.py:246-277 | an approval is recorded only over a directory that holds the generator's content |
| `GoldenApproval.ReturnsAreDropped` | evals/golden/build_golden.py:46-47 | wherever a carriage return stands before a line feed it does not count for the content |
| `GoldenApproval.OtherTextIsKept` | evals/golden/build_golden.py:46-47 | content without such pairs is compared as it is |
| `GoldenApproval.ApprovalsAreHonest` | evals/golden/build_golden.py:138-277 | over every run of builds, approvals, hand edits and new generators, an approval was given to exactly the content that lay there, which still lies there unless a file was edited since |
| `AmountNotation.AmountReadsBack` | evals/golden/render_snapshot.py:37-38 | every integer amount, printed with grouping, reads back as its plain decimal text |
| `AmountNotation.GroupedReadsBack` | evals/value_normalize.py:51-80 | a grouped integer of either separator reads as its digits |
| `AmountNotation.DecimalReadsBack` | evals/value_normalize.py:51-80 | a printed decimal number of either style reads as its value exactly when it is not below one thousand with three decimals |
| `AmountNotation.ThreeDigitsAreAGroup` | evals/value_normalize.py:70-75 | three digits after the only separator are read as a group of thousands |
| `AmountNotation.AcceptedSpelling` | evals/value_normalize.py:51-80 | accepted numbers are spelled without leading zeros and with a trimmed fraction |
| `AmountNotation.ReadingTwice` | evals/value_normalize.py:51-80 | reading an accepted number again changes nothing exactly when it has no three-digit fraction |
| `AmountNotation.ThousandfoldOnSecondReading` | evals/value_normalize.py:70-80 | every number printed with three decimals and a trailing zero is accepted with the three decimals, and read again as a thousandfold whole number |
| `Strings.SplitRejoins` | evals/value_normalize.py:70-70 | splitting at a separator is undone by joining, and no piece holds the separator |
| `Strings.StripTakesSpace` | evals/golden/build_golden.py:268-268 | stripping takes white space off both ends and nothing else |
| `Strings.SpacesByCodePoint` | ai-service/scripts/ground_truth_review.py:27-28 | which characters count as white space |
| `Strings.OrderOfTexts` | ai-service/app/api/contract_graph_router.py:241-241 | texts are ordered by the first place where they differ, a beginning first |
| `ReviewMarkdown.Export` | ai-service/scripts/ground_truth_review.py:38-72 | prints header and pages as specified |
| `ReviewMarkdown.Import` | ai-service/scripts/ground_truth_review.py:75-89 | parses section by section; a section without a closed fence fails the import |
| `ReviewMarkdown.ImportSucceeds` | ai-service/scripts/ground_truth_review.py:75-89 | an import succeeds exactly when every section title is followed, before the next one, by an opened and closed fence |
| `ReviewMarkdown.PatternsOfText` | ai-service/scripts/ground_truth_review.py:27-28 | which lines read as section titles and as bare fences |
| `ReviewMarkdown.FileInLines` | ai-service/scripts/ground_truth_review.py:47-68 | how the head and a page of the file look, line by line |
| `ReviewMarkdown.PageComesBack` | ai-service/scripts/ground_truth_review.py:75-89 | a page text survives its fence, trailing line breaks removed, exactly when no line of it reads as a bare fence |
| `ReviewMarkdown.RoundTripExactlyWhenPlain` | ai-service/scripts/ground_truth_review.py:38-89 | importing an export returns every page, trailing line breaks removed, exactly when no page line reads as a section title or bare fence |
| `DuplicateAdmission.SameAssessment` | ai-service/app/contracts/models.py:945-980 | admission forces both frames to the same assessed slots, which are exactly the required ones |
| `DuplicateAdmission.AdmissionIsTransitive` | ai-service/app/contracts/models.py:914-980 | the admitted relation is transitive |
| `DuplicateAdmission.AdmissionIsSymmetricExactlyWhenLevel` | ai-service/app/contracts/models.py:927-936 | an admitted pair may be exchanged exactly when it is not lopsided |
| `DuplicateAdmission.LopsidedPair` | ai-service/app/contracts/models.py:927-936 | two frames admitted one way only |
| `DuplicateAdmission.AgreementIsGrounded` | ai-service/app/contracts/models.py:682-703 | required slots of an admitted pair carry evidence on both sides and are both stated or both recorded as absent |
| `DuplicateAdmission.CheckDuplicate` | ai-service/app/contracts/models.py:914-980 | the step-by-step check raises the first fault and none exactly for admitted pairs |
| `DuplicateAdmission.FaultOfFields` | ai-service/app/contracts/models.py:914-980 | in terms of the fields: a pair is refused as not assessed exactly when the clauses differ or a required slot is undecided on a side, and a settled pair of one clause exactly when a decided slot outside the key differs in state, type, number or text |
| `DuplicateAdmission.ValidSlots` | ai-service/app/contracts/models.py:682-703 | a slot passes exactly when type, value, state and evidence fit together |
| `DuplicateAdmission.References` | ai-service/app/contracts/models.py:881-985 | the validator returns the first fault of rows, dossier, alias pins, pairs and pair ids, in that order |
| `DuplicateAdmission.AcceptedOfFields` | ai-service/app/contracts/models.py:881-985 | an extension is accepted exactly when its rows name its frames, the frames belong to its dossier and alias snapshot, every pair joins two of them with their evidence and is admitted if called DUPLICATE, and pair ids differ |
| `DuplicateAdmission.ChainEndsAreAdmitted` | ai-service/app/contracts/models.py:899-985 | in an accepted extension the ends of every chain of DUPLICATE pairs may themselves be called DUPLICATE |
| `DuplicateAdmission.ImpliedPairIsAccepted` | ai-service/app/contracts/models.py:899-985 | writing that pair down keeps the extension accepted |
| `GraphPaging.RowsOnlyWhenServed` | ai-service/app/api/contract_graph_router.py:183-256 | rows come only from the newest finished job, for the current snapshot, with a committed receipt whose count matches; every other answer carries no edges and no cursor |
| `GraphPaging.ReadyRowsOfTable` | ai-service/app/api/contract_graph_router.py:224-256 | the rows of a READY answer lie in the table of the asked kind and carry the tenant, dossier, job and digest of the request; the total is the number of such rows there |
| `GraphPaging.ServesOfTables` | ai-service/app/api/contract_graph_router.py:183-235 | rows are served exactly when the job finished, no finished one of the dossier overtakes it, the snapshot is current, and the receipt of the request counts the rows now stored |
| `GraphPaging.AnswersBeforeReceipt` | ai-service/app/api/contract_graph_router.py:160-193 | which requests are refused with 400, 401 and 404, and what is answered without a database |
| `GraphPaging.CursorsOfKinds` | ai-service/app/tools/contract_graph_read_model.py:23-29 | a cursor names its kind in front, and none is accepted for both kinds |
| `GraphPaging.AnswersOfJob` | ai-service/app/api/contract_graph_router.py:194-235 | what a read answers by the state of its job, the newest job, the snapshot and the receipt |
| `GraphPaging.NewerJobStops` | ai-service/app/api/contract_graph_router.py:197-205 | a newer finished job of the dossier stops the walk |
| `GraphPaging.RestOfTheRows` | ai-service/app/api/contract_graph_router.py:240-256 | the rows after a cursor, sorted, are the rest of the sorted rows |
| `GraphPaging.ServedRowsAreComplete` | ai-service/app/api/contract_graph_router.py:229-235 | while rows can only be deleted, the count check lets rows through only when all committed ones are there |
| `GraphPaging.WalkCollectsABeginning` | ai-service/app/api/contract_graph_router.py:183-256 | whatever jobs, snapshots, receipts and deletions happen in between, a walk collects a beginning of the sorted committed rows and ends |
| `GraphPaging.WalkIsTheSortedRows` | ai-service/app/api/contract_graph_router.py:240-256 | a walk served to its end collects the committed rows sorted by id, each exactly once, for every page size |
| `GraphPaging.ServedWalkGoesOn` | ai-service/app/api/contract_graph_router.py:240-256 | a served answer names a next cursor exactly when rows are left |
| `GraphPaging.WalkEndsWithService` | ai-service/app/api/contract_graph_router.py:183-235 | the first answer that is not served ends the walk and adds nothing |
| `GraphPaging.SupersededWalkEnds` | ai-service/app/api/contract_graph_router.py:197-211 | a walk that meets a newer finished job or another snapshot of the dossier ends with that answer and keeps what it has |
| `GraphPaging.WalkNeverRepeats` | ai-service/app/api/contract_graph_router.py:229-256 | whatever happens to the stored rows in between, exchanged ones included, a walk collects rows in increasing order of their ids, none twice |
| `GraphPaging.WalkReadsStoredRows` | ai-service/app/api/contract_graph_router.py:183-256 | every row of a walk was stored, in a state that served, when its page was read |

## Left out

- Regular expressions, Unicode digits, normalisation and case folding: lines arrive classified, once as they stand and once without note markers; digits are ASCII, `HardWraps` takes the lower-case test as a parameter.
- Floating-point rounding and the four-decimal display values: all statistics are exact reals; square roots, random draws, clocks and reviewers' time stamps are parameters.
- `zero_failure_upper_bound`, `_z_value` and the report renderers: single expressions or formatting.
- AddressContext.AnchorTarget: gives the parts of the address; the `canonical_address` call that spells them, and may still reject them, is left out.
- AddressContext.AnchoredAddressIsTreePath: speaks of the same parts, before `canonical_address` spells them.
- `canonical_address`, `_canonical_value`, `citations`, `note_op` and `_pick` in `evals/contract_graph/gold.py`: spelling and pattern work around the address reader, which is modelled.
- Invalidation.DependencyGraph.Invalidate: returns the ids as a set, where the source sorts them into a list. `Valid()` there says that artifacts are keyed by their own id.
- EdgeTally.Score: leaves out the rate of `_marker_tally`, a count of one flag, and the row lists of the report.
- Universal newlines: `ReviewMarkdown` reads text without carriage returns, as `read_text` delivers it.
- Images in review files: an optional path, printed as it is; a path with a line break in it is outside the round trip.
- DuplicateAdmission.References: leaves out the timeline loop at the end of `SemanticExtension.references` and the validators of keys, frames and profiles other than `typed_value`, which are pointwise checks.
- Evidence spans are numbers with a verified flag; profiles, dossiers, tenants, digests and run ids are numbers wherever they are only compared.
- ReleaseGate.ReleaseSpecs: takes the checks of `validate_policy` on approval, pins, time stamps and required names as one truth value.
- ReleaseGate.EvaluateRelease: leaves out the exclusions report and the list of reasons, which do not touch the verdict; pair units are counted directly, since the per-dossier counts are only summed.
- `paired_ablation`, `measure`, `run_mutation_matrix`, `_stable_projection`, `_percentile` and the ground-truth comparison in `evals/release_verification.py`: file handling, subprocesses or single expressions.
- JSON shape errors of manifests and decisions: they end like any refused run.
- GoldenApproval.GoldenDirectory.Build: a manifest that is valid JSON but no object raises out of the command, which is not modelled.
- Partial writes: a successful `promote`, build or approval is one step.
- Digests are injective: the digest of the golden content is the content with its line endings normalised.
- SQL, envelopes and HTTP wiring: `GraphPaging` sees the tables as sequences, the verified tenant as an optional number, and orders ids by code point. Projected rows keep one opaque body.
- `read_contract_graph_evidence`, the freeze and verify steps of `evals/contract_graph/dataset.py`, `operative_body`, `split_notes`, the catalog builders of `ai-service/fixtures/catalog.py` and the `score_case` part of `evals/workflow_gate.py`.
- WorkflowGate.ReplayOk: stable texts are numbers, so a command text that happens to equal another event's fallback text is whatever the caller's numbering says.
- GraphPaging.WalkCollectsABeginning: assumes that the rows of a job are deleted or kept, never exchanged under the same receipt, and that row ids have the form the graph stages issue.
- GraphPaging.WalkIsTheSortedRows: under the same assumption. When a rerun of the job exchanges its rows under an equal count, only `GraphPaging.WalkNeverRepeats` and `GraphPaging.WalkReadsStoredRows` hold.
- GraphPaging.ServedWalkGoesOn: under the same assumption.

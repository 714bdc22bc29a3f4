# A verified model of the promotion core

The repository is a loop in which language models read a paper, write a plan and a port, and search for better
settings. What decides whether any of that is promoted is deliberately plain, deterministic code. This project models
that code in Dafny and proves what it keeps for every reply a model may give, every build outcome and every run.

`dafny verify dfyconfig.toml` checks everything. A model reply, a build, a simulator run, a schema check or a
deterministic spec check is an argument: a sequence of replies, or a function nothing is assumed about.

| Area | Modules |
|---|---|
| Plan revision, the plan store, the runner and the gate | `PlanGuard`, `PlanStore`, `PlanRunner`, `Gate`, `GateMonotone`, `Replan` |
| Spec review | `JsonPointer`, `PointerSteps`, `PatchMerge`, `Patches`, `SharedValues`, `FirstApplication`, `RecordPaths`, `Reapplication`, `PlacedValues`, `OrderlyRounds`, `SpecSchema`, `ReviewGates`, `DropPasses`, `FailingRound`, `ReviewLoop`, `QuestionClusters`, `QuestionPruning`, `Partition` |
| The search's candidates | `Formula`, `Header`, `HeaderPatterns`, `CostModel`, `EnumRange`, `CandidateKey`, `Evaluator`, `Finalists` |
| The gem5 and cbp2025 hosts | `RunDirInstall`, `Baseline`, `BuildState` |
| Source scanners | `Walkers`, `Annotate` |
| Shared | `Json`, `Strings`, `Wrappers` |

The main results:

- **The bar never drops.** `GateMonotone.ChainNeverLoosens`: over any chain of plan revisions the guard accepts, a
  port that passes the last test plan passes the first one on the same measurements. `PlanStore.StoreIsSafe`: in every
  reachable state of commits, crashes between the two writes, restarts and re-plans, what `latest` returns is the last
  committed pair, and stage 2's pair allows it.
- **Verdicts are what they say.** `PlanRunner.HoldsIffMet`, `PlanRunner.PerformanceIff`, `Formula.EvaluatesIffYields`:
  when a condition holds, when a performance entry blocks and what a formula costs, over the measurements and the tree
  themselves.
- **Review never regresses.** `ReviewLoop.ReviewSpec`: in every run the error keys of the returned spec are among the
  initial ones, and every round stops, goes on or retries as its own findings say. The three drop passes repair their own gate's complaint or drop nothing (`DropPasses`), on the records
  as earlier attempts left them; `OrderlyRounds.AttemptOfLinked` says exactly when one more attempt at the same patches
  shows the same document, and that it otherwise only repeats elements, which the spec's schema does not see.
- **Questions and units.** `QuestionClusters.Clusters` and `Partition.Group`: the groups are exactly the connected
  components, by union-find with path halving and by folding slots.
- **The header is a faithful channel.** `Header.HeaderRoundTrip`, `CandidateKey.SameKeySameVerdict`,
  `CostModel.PrintedHeaderCosts`: printing and parsing, the memo key, and the printed cost model all agree.
- **The host protocols.** `RunDirInstall.History`: over every sequence of installs, deaths at any file operation and
  outside edits, an install that reports ok left exactly its payload. `Baseline.History`: every recorded number is of
  the document's revision and fingerprints.
- **Scanners are their definitions.** `Walkers.WalkPseudocode`, `Walkers.GuardChains`, `Annotate.Annotate`.

Where the code falls short of what its text promises, the code is modelled as it is. Each case has a lemma that shows
it, and the condition under which the promise does hold:

| What happens | Shown by | Holds exactly when |
|---|---|---|
| A smoke section with only `trace_list` can be given a lighter `traces` | `GateMonotone.SmokeKeptIff` | the original lists `traces`, or the revision lists none |
| Of two entries under one id the second can be removed unseen | `GateMonotone.DuplicateIdGoesUnseen`, `GateMonotone.ProtectedIff` | the entry has an id and agrees in every frozen field with the first under it (so under unique ids, which `ChainNeverLoosens` assumes) |
| A companion measured against a baseline of 0 raises instead of being judged | `PlanRunner.CompanionOverZeroCrashes` | no companion measured on both sides has a baseline of 0, or one that is no number, where the metric's own is usable |
| `names_in` misses a variable that is also called | `Formula.NamesInIsVariables` | nothing is both read and called |
| A knob named like a called function captures the call | `Formula.CapturedCallFails`, `Formula.RenamingPreservesIff` | no called name is renamed, of a formula that evaluates |
| Structures under one name are charged once and printed twice | `Formula.DuplicateNameChargedOnce`, `Formula.PrintedModelIsStorage` | the overwritten charges sum to 0: names are distinct, when every charge is positive |
| A name the spec and the plan share prints the plan's macro into the feature's formulas | `CostModel.SharedNameCostsTheHosts`, `CostModel.PrintedIsTheShadowedCost` | every feature name bound to a number agrees with the host knob of that name (`CostModel.CostsAsPrintedIff`) |
| A line boundary inside a comment defines a knob | `Header.BoundaryInCommentDefines`, `Header.HeaderRoundTripIff` | no line after the first of any printed text defines an SR_ or HOST_ macro |
| An empty choice in an enum's range shifts what the checker counts | `EnumRange.EnumReadsBack`, `EnumRange.EveryIndexAcceptedIff` | the value is a choice with no empty one written before it; every index is accepted when none is empty |
| An enum value that is no choice is accepted as another choice's index | `EnumRange.UnknownBecomesFirst` | it is a number the checker refuses, or writing it raises, or there is no choice |
| Writing an enum value such as `--5` raises | `EnumRange.TwoDashesRaise` | it is a choice, or does not begin with two dashes, or something other than digits follows its dashes (`EnumRange.UnknownIsWritten`) |
| The partition raises | `Partition.MergeToCap` | the cap is at least 1, or the units already fit |
| Re-applying a round repeats a write inside a value another patch placed | `SharedValues.AppendInsideDoubles` | no append that lands is inner in the round's tree (`PlacedValues.SecondApplicationIff`, for replaces at distinct exact places and appends; on lists of the spec, none lies inside a replace: `OrderlyRounds.InnerIffInside`); for patches of any kind, every entered write is a no-op, and then no record ever changes (`SharedValues.ValuesStayIffQuiet`) |
| Dropping such a patch does not undo it | `SharedValues.DroppingInnerPatches` | no record left in the document reads other than its patch says; for one such patch, its write leaves the value it went into as it read (`FirstApplication.DroppingOneInnerPatch`) |
| The schema drop returns one more attempt than it tested, which can fail a schema that counts elements | `FailingRound.SchemaDropFails` | the same document: no append kept is inner (`DropPasses.NextAttemptIff`); passing: also whenever the schema ignores repeats, as the spec's own does (`SpecSchema.SchemaIgnoresRepeats`) |
| A place vanishes without a finding | `ReviewGates.KindChangeGoesUnseen` | no patch names it or its list on its path, and no container on its path changes kind (`ReviewGates.MissingIffGoneUnseen`) |
| Two accepted rounds together cut a text by more than one round may | `ReviewGates.LossCompounds` | the last text is at least `LeastKept` of the first in length; two rounds reach exactly the lengths from `LeastKept` of `LeastKept` up (`ReviewGates.TwoRoundsReachIff`) |
| A payload with a __pycache__ reinstalls every time | `RunDirInstall.RestsIffNoCache` | the payload carries none |
| A revision change during a recording mislabels its numbers | `Baseline.SourcedIffSteady` | the checkout stays put while it records |
| A command runs although the rebuild for its state failed | `BuildState.Executor.Shell` | the tree was in that state, or the rebuild worked |
| Guards that cover an arm only together go unreported | `Walkers.TogetherGoesUnseen` | no earlier guard on the variable looks below the arm's own bit (`Walkers.ReportedIffUnreachable`); in general, some value at the finest bit is left (`Walkers.UnreachableIff`) |

Two comments in the source say less or more than the code does. `review_spec` says a rejected round is discarded; the
round's refused cuts have by then added open questions to the spec itself, so the model lets a round change
`open_questions` in place (`ReviewLoop.Reviewed.noted`). `_apply_to` is described as working on a fresh copy; the
patches' values are not copied (`SharedValues`).

## Model

| member | source | states |
|---|---|---|
| `PlanGuard.CollectEntries` | loop/plan_revision.py:189-199 | A collection becomes a table from key to entry; the first entry of a key wins, one without a key is skipped. |
| `PlanGuard.CheckCollection` | loop/plan_revision.py:202-234 | Reports exactly the deleted entries and, of the kept ones, exactly the changed fields that are not revisable. |
| `PlanGuard.CheckFrozenTop` | loop/plan_revision.py:253-267 | Refuses exactly when a frozen top-level field of either document changed, and names the document and the field. |
| `PlanGuard.CheckMetricKeys` | loop/plan_revision.py:270-285 | Refuses exactly when a metric key was dropped. |
| `PlanGuard.CheckTolerance` | loop/plan_revision.py:288-297 | Refuses exactly when the baseline tolerance changed. |
| `PlanGuard.CheckSmoke` | loop/plan_revision.py:300-318 | Refuses exactly when the smoke section lost a trace or its trace list changed. |
| `PlanGuard.CheckHostStorage` | loop/plan_revision.py:321-337 | Refuses exactly when declared host storage was dropped. |
| `PlanGuard.CheckFeatureEnable` | loop/plan_revision.py:340-371 | Refuses exactly on a changed name or macro of the enabling knob; a restated off path is recorded as a warning exactly when it happened; each names the field. |
| `PlanGuard.CheckPerformanceRun` | loop/plan_revision.py:374-426 | Refuses exactly when an entry with a recorded baseline changed its `run`, and points at the entry's place in the revision. |
| `PlanGuard.CheckRejectedAlternatives` | loop/plan_revision.py:429-456 | Refuses exactly when a rejected alternative is no longer on record, or is reworded there. |
| `PlanGuard.CheckFidelity` | loop/plan_revision.py:459-479 | Warns, and never refuses, exactly when some resolution was downgraded, and names it. |
| `PlanGuard.Guard` | loop/plan_revision.py:482-503 | It reports exactly the findings of its rules, each at its place in the documents. None of them blocks if and only if the revision keeps everything it must; the two recorded-only findings never block. |
| `PlanGuard.SourceFrozen` | loop/plan_revision.py:374-426 | A kept entry cannot move between the two cases of the `run` rule. |
| `PlanGuard.AllowsReflexive` | loop/plan_revision.py:482-503 | Every plan pair may replace itself. |
| `PlanGuard.AllowsTransitive` | loop/plan_revision.py:482-503 | A revision of an allowed revision is allowed: the guard is a preorder on plan pairs. |
| `PlanGuard.ChainAllows` | loop/adopt_a_paper_loop.py:743-784 | After any number of accepted revisions the last pair is still allowed against the first. |
| `Gate.MetricDifferences` | loop/gate.py:58-81 | The loop's list is the specification's, key by key and in order. |
| `Gate.KeyAgrees` | loop/gate.py:58-81 | A key is not listed exactly when both sides have a number and they are equal within the relative tolerance, written without the division. |
| `Gate.NoDifferenceIffAgree` | loop/gate.py:58-81 | The list is empty exactly when every declared key agrees. |
| `Gate.CheckGate` | loop/gate.py:95-153 | Passes exactly on G1 to G5 and exactly when it gives no reason; the reasons are those of every failing entry, rule by rule and in order, the warnings those of the entries that warn; a warning never blocks. |
| `PlanRunner.Measure` | loop/plan_runner.py:254-286 | Traces are failed or measured, never both; ok exactly when there is a trace and all completed; of the metrics all completed traces carry it reports the number their values' distances from cancel out. |
| `PlanRunner.Means` | loop/plan_runner.py:254-286 | The key intersection, and for each key the number the rows' distances from cancel out. |
| `PlanRunner.ImprovementBeatsFloor` | loop/plan_runner.py:303-305 | The relative improvement exceeds a floor exactly when the metric moved by more than that share of the baseline, in the declared direction. |
| `PlanRunner.JudgeCompanions` | loop/plan_runner.py:400-503 | Companions pass exactly when each is within its allowance; the loop raises exactly when one divides by zero or is not a number. |
| `PlanRunner.CompanionOverZeroCrashes` | loop/plan_runner.py:400-503 | Whether the comparison point is recorded or the feature-off side: a measured entry raises instead of being judged exactly when its metric's baseline is no number, or is a usable one while some companion measured on both sides has a baseline of 0 or none that is a number. |
| `PlanRunner.PerformanceIff` | loop/plan_runner.py:400-503 | For an entry with traces, numeric thresholds and a usable baseline: it blocks unless the measured value improves on the baseline by more than the floor's share and every companion is measured on both sides and moves the wrong way by no more than its band; it warns if and only if the target's share is missed; written by multiplication over the measurements. An unmeasured entry warns of nothing. |
| `PlanRunner.ResultsAre` | loop/plan_runner.py:331-397 | What a run of the plan reports on given measurements, entry by entry: each condition on the entry's own runs, each performance entry on its own feature-on and feature-off side, and the smoke section if and only if it names workloads and all complete. |
| `PlanRunner.ShellCache.RunOnce` | loop/plan_runner.py:347-354 | A (command, state, environment) already run is not run again; otherwise the entry's own run is made and remembered. |
| `PlanRunner.HoldsIffMet` | loop/plan_runner.py:173-248 | When a condition holds, over the command's outcome and the entry's fields: never after a timeout; `exit_zero` on exit 0; a search on an allowed exit and what it finds; a clean tree on the recorded exit and summary; a threshold on the metric and the comparison it names; a baseline when every key is near the recorded one; no other kind. It raises exactly when it cannot be judged. |
| `PlanRunner.RunCorrectness` | loop/plan_runner.py:331-397 | At most one shell run per (command, state, environment). It raises if and only if a condition of some entry cannot be judged; else each entry has one result, which passed if and only if its condition is met in every state the entry names, whose runs it is judged on; and when shared runs agree the results are those without the cache. |
| `PlanRunner.CorrectnessIff` | loop/plan_runner.py:331-397 | Of one entry: it passed if and only if its condition is met in each of the states that `off`, `on` or `both` names, and raises if and only if it cannot be judged in one it comes to. |
| `PlanRunner.WhenSharedRunsAgree` | loop/plan_runner.py:342-372 | Shared runs agree when the shell ignores its timeout, or when entries that share a run declare one timeout. |
| `GateMonotone.GateIff` | loop/gate.py:95-153 | The gate passes a plan if and only if the build works, nothing raises, a feature-off baseline entry is declared, every run a correctness entry asks for meets its condition, the smoke section completes, and every performance entry improves beyond its floor with its companions in their bands and no trace failed. |
| `GateMonotone.ConditionKept` | loop/plan_runner.py:173-248 | A pass condition that holds under an accepted revision holds under the original, on the same run. |
| `GateMonotone.CorrectnessKept` | loop/plan_runner.py:331-397 | A correctness entry that passes revised passes as it was. |
| `GateMonotone.PerformanceKept` | loop/plan_runner.py:400-503 | A performance entry's result, which `PlanRunner.PerformanceIff` says when it passes, is the same revised and as it was. |
| `GateMonotone.SmokeKeptIff` | loop/plan_revision.py:300-318 | The smoke rule keeps the smoke section's strength exactly when the original listed `traces`, or the revision lists none: a gap in the guard for a plan with only `trace_list`. |
| `GateMonotone.GateOnlyTightens` | loop/plan_revision.py:482-503 | If the gate passes the revised plan, it passes the original on the same measurements if and only if the original declares a feature-off baseline entry and its own smoke section completes. |
| `GateMonotone.ChainNeverLoosens` | loop/gate.py:95-153 | Over any chain of accepted revisions, a pass of the last plan is a pass of the first. |
| `GateMonotone.ProtectedIff` | loop/plan_revision.py:189-234 | Every accepted revision of a collection still has an entry that is this one in all but its revisable fields if and only if this one has a key and agrees in every frozen field with the first entry under it. |
| `GateMonotone.KeysAreFrozen` | loop/plan_revision.py:122-180 | No rule of the tables lets an entry's own key be revised. |
| `GateMonotone.UniqueKeysProtect` | loop/plan_revision.py:189-234 | Under unique keys every entry is so protected. |
| `PlanStore.Store.Count` | loop/plan_revision.py:627-640 | The number of complete revisions in a row from 1. |
| `PlanStore.Store.Latest` | loop/plan_revision.py:725-736 | The pair of the last complete revision, or stage 2's own. |
| `PlanStore.Store.Commit` | loop/plan_revision.py:739-761 | Writes the pair, and only the port plan when a crash falls between the two writes. |
| `PlanStore.Store.Retire` | loop/plan_revision.py:696-722 | Moves every file from index 1 to the first index with no file. |
| `PlanStore.RetireKeepsFiles` | loop/plan_revision.py:696-722 | Retiring deletes nothing: each file is found under its stamped name, or where it was when past the first gap. |
| `PlanStore.RetireKeepsSuperseded` | loop/plan_revision.py:696-722 | What other retirements filed is untouched. |
| `PlanStore.Store.RecordEscalation` | loop/plan_revision.py:654-663 | Appends one open escalation and changes nothing else. |
| `PlanStore.Store.OpenEscalations` | loop/plan_revision.py:666-673 | Exactly the unanswered entries, in order. |
| `PlanStore.Store.ClearEscalations` | loop/plan_revision.py:676-693 | Marks every open escalation answered with this stamp; answered ones keep theirs. |
| `PlanStore.Store.Replan` | loop/plan_node.py:240-257 | Stage 2's write: the new base pair, every revision retired, every open escalation answered. |
| `PlanStore.Store.ConsiderRevision` | loop/adopt_a_paper_loop.py:713-784 | A revision is committed, once, if and only if the budget is not spent and some reply passes the guard and the other checks after replies that each proposed a pair that did not; it is that reply's pair. It escalates if and only if a repair turn it comes to does. |
| `PlanStore.StoreIsSafe` | loop/adopt_a_paper_loop.py:743-784 | In every reachable state `latest` is the last committed pair, stage 2's pair allows it, revisions stay within the budget, and open escalations are those raised since stage 2 last wrote. |
| `QuestionClusters.Find` | loop/spec_review.py:1616-1620 | Path halving ends at the root it promises, changes no node's root and keeps the parent array an acyclic forest. |
| `QuestionClusters.Hang` | loop/spec_review.py:1622-1625 | Hanging a root under another merges exactly their two trees and keeps the forest, without ranks. |
| `QuestionClusters.Unite` | loop/spec_review.py:1614-1625 | After the loops two questions share a root if and only if a chain of links connects them. |
| `QuestionClusters.Gather` | loop/spec_review.py:1627-1629 | Every question is grouped under its root, in order. |
| `QuestionClusters.Head` | loop/spec_review.py:1630-1633 | The most informative member, the earlier one on a tie. |
| `QuestionClusters.Clusters` | loop/spec_review.py:1529-1633 | The clusters partition the questions into the connected components of `linked`, each under its most informative member. |
| `QuestionPruning.TagReadsBack` | loop/spec_review.py:1227-1229 | A question written with its pointer tag reads back as that pointer and its text. |
| `QuestionPruning.LiveAt` | loop/spec_review.py:1636-1660 | A question that is not stale keeps its place but for the stale ones before it. |
| `QuestionPruning.Survivor` | loop/spec_review.py:1636-1680 | A cluster's entry asks its head's question, under the first pointer of its members and with the others named after it in the order they appear. |
| `QuestionPruning.MergeClusters` | loop/spec_review.py:1636-1680 | One entry per cluster, at its head's rank and asking its question; merged and kept add up; every pointer survives. |
| `QuestionPruning.PruneOpenQuestions` | loop/spec_review.py:1636-1680 | One entry per connected component of the live questions, asking its head's question, in the order of their heads; the live questions are the ones not stale, in order; before = stale + merged + after; every pointer of a live question is in its own component's entry, which is tagged. |
| `Partition.MergeUnits` | loop/spec_review.py:303-318 | The union of the two units' elements, each once and in the order they come, and of their append scopes. |
| `Partition.FoldWriters` | loop/spec_review.py:386-395 | One state's writers folded together: units and labels follow the components of the states seen so far. |
| `Partition.FoldKeepsLabels` | loop/spec_review.py:386-395 | Relabelling the writers of one more state keeps labels equal exactly on connected algorithms. |
| `Partition.MergeToCap` | loop/spec_review.py:416-421 | As long as there are too many units the two smallest of them become one, which goes last; it raises exactly for a cap below one with too many units. |
| `Partition.SortBySizeIs` | loop/spec_review.py:416-418 | The units by size, those of one size in the order they were. |
| `Partition.Group` | loop/spec_review.py:321-414 | Each algorithm in one unit, with everything it mentions and the tests that exercise it; two share a unit if and only if shared writes connect them; everything reviewed is owned; some unit holds all the sections and may append an algorithm. |
| `Partition.Partition` | loop/spec_review.py:321-421 | The same after the cap, which merges the two smallest units at a time, except that capped units may also join unconnected algorithms; at most the cap. `grouped`, the count the cap is compared with, is one per component of shared writers, and one each for the sections and the orphans there are. |
| `JsonPointer.UnescapeEscape` | loop/spec_review.py:53-54 | Reading a token undoes the escaping of section 3 of RFC 6901. |
| `JsonPointer.SplitInvertsRender` | loop/spec_review.py:57-62 | Splitting inverts writing a pointer if and only if it is not the single empty token. |
| `JsonPointer.ReadersAgree` | loop/spec_review.py:65-81 | On a path the document has, the strict reader and plan_runner's tolerant one find the same value. |
| `JsonPointer.ReplaceReadsBack` | loop/spec_review.py:89-109 | A replace at an existing path succeeds and reads back. |
| `JsonPointer.ReplaceFrame` | loop/spec_review.py:89-109 | It leaves every disjoint path and its value as they were. |
| `JsonPointer.ReplacesCommute` | loop/spec_review.py:89-109 | Replaces at disjoint paths commute. |
| `JsonPointer.AppendKeepsNames` | loop/spec_review.py:89-109 | An append (section 4.1 of RFC 6902) leaves every path naming the element it named. |
| `JsonPointer.AppendLandsAtEnd` | loop/spec_review.py:89-109 | The appended value is one past the old end and nothing else in the array moved. |
| `JsonPointer.InsertRenumbers` | loop/spec_review.py:89-109 | An `add` that names an index does move the element that was there. |
| `PointerSteps.AppliesIff` | loop/spec_review.py:89-109 | A patch applies if and only if all its tokens but the last lead to a container in which the last can be set. |
| `PointerSteps.EditsItsContainer` | loop/spec_review.py:89-109 | On a path the document has, a patch of either kind makes of its container what the last token makes of it, and leaves every path that does not meet it. |
| `PointerSteps.BecomesIff` | loop/spec_review.py:89-109 | What the last token makes of a container: a field set, an append for `-`, a value inserted or replaced where Python's index points, or an error. |
| `PointerSteps.FoundIff` | loop/spec_review.py:65-81 | The strict reader finds a value if and only if each token names the next container's child: a key, or a list index as Python counts, without a plus sign. |
| `PointerSteps.LenientReadsBack` | loop/plan_runner.py:147-170 | It reads a written pointer as its tokens without the empty ones. |
| `PointerSteps.ResolveIff` | loop/plan_runner.py:147-170 | The tolerant reader finds what the path yields step by step, list indices in plain digits, and nothing where it yields nothing. |
| `Patches.ApplyPatchList` | loop/spec_review.py:769-784 | The loop applies the patches in sorted order and sets aside those that raise, changing nothing for them. |
| `Patches.SortIsOrdered` | loop/spec_review.py:769-784 | Replaces come before adds, and each kind is in pointer order. |
| `Patches.SortByFields` | loop/spec_review.py:769-784 | By the patches' own fields: replaces first, then smaller pointers, and those of one kind and pointer in the order they came. |
| `Patches.AncestorsFirst` | loop/spec_review.py:769-784 | A replace is applied before every replace below it and before every add. |
| `Patches.ReplacesReadBack` | loop/spec_review.py:769-784 | A round of pairwise disjoint replaces: all land, and each reads back. |
| `Patches.ReplacesKeepTheRest` | loop/spec_review.py:769-784 | ... and every path none of them meets keeps its value. |
| `Patches.OrderOfReplacesIsFree` | loop/spec_review.py:769-784 | ... and any permutation of them gives the same document. |
| `Patches.AppendsRenumberNothing` | loop/spec_review.py:769-784 | A round of appends: none fails, and every pointer into the old spec still names its element. |
| `SharedValues.ApplyRecords` | loop/spec_review.py:769-784 | The loop applies the records in sorted order through the objects the document holds, sets aside those that raise, and leaves in the records what was written into them. |
| `SharedValues.PutIsApply` | loop/spec_review.py:89-109 | Within one object a write is the value operation on what a reader sees, raising in the same cases. |
| `SharedValues.TreeIsFixed` | loop/spec_review.py:769-784 | Whatever the records hold, every application of a list of patches builds one tree: only what the records in it hold can differ. |
| `SharedValues.ValuesStayIffQuiet` | loop/spec_review.py:769-784 | For any number of patches, from any records: the placed values never change if and only if every write into one is a no-op. |
| `SharedValues.QuietRunIsPlain` | loop/spec_review.py:769-784 | Then the run is the value model's: the same document seen, the same patches set aside. |
| `SharedValues.SameDocumentIff` | loop/spec_review.py:769-784 | Whatever was applied in between, two applications of one list give one document if and only if every record in it reads alike after both. |
| `SharedValues.DroppingInnerPatches` | loop/spec_review.py:769-784 | For any round: re-applying it without the patches that wrote into records gives the same document and changes no record; it is the plain run of what is left if and only if no record in the document reads other than its patch says. |
| `SharedValues.ApartIsPlain` | loop/spec_review.py:769-784 | When no patch's pointer can lead through another's place, whatever list index either ends up at, every application of every part of the round is the value model's and leaves the records alone. |
| `FirstApplication.FirstApplicationIsPlain` | loop/spec_review.py:769-784 | The first application of every round is the value model's, whatever its patches write into each other: the same document, and the same patches set aside. |
| `FirstApplication.DroppingOneInnerPatch` | loop/spec_review.py:769-784 | In a round of any length with one inner patch: re-applying it without that patch is the plain run of the others if and only if the patch's write leaves the value it went into as it read, or that value is not in the document. |
| `PlacedValues.FirstLinks` | loop/spec_review.py:769-784 | What the first application leaves of a round of replaces at distinct exact places and of appends: each replace that landed below another lies where its pointer says inside the other's value. |
| `PlacedValues.FirstLists` | loop/spec_review.py:769-784 | ... and each append that landed is in the list its path leads to inside every placed value above it. |
| `PlacedValues.SecondApplicationIff` | loop/spec_review.py:769-784 | The second application of such a round, when its replaces landed and no inner append meets an object (whose field `-` it would set), is the value model's if and only if none of its appends finds its list, in the document the first one left, inside a value another patch placed; of appends that all landed, if and only if none is inner in the round's tree, which does not depend on the records. |
| `Reapplication.NextIsSameIff` | loop/spec_review.py:769-784 | The same of every later attempt, from any records in which the replaces are linked and no inner append meets an object: it shows what was there before it, and leaves the records as they are, if and only if no append finds its list inside a placed value. |
| `OrderlyRounds.InnerIffInside` | loop/spec_review.py:769-784 | Whatever the records hold: an append to a list of the spec goes inside a placed value if and only if its list lies at or below the place of a replace of its round. |
| `OrderlyRounds.FirstIsLinkable` | loop/spec_review.py:769-784 | What landed of a round of replaces at distinct canonical pointers and of appends is linked once the round was applied. |
| `OrderlyRounds.AttemptOfLinked` | loop/spec_review.py:846-888 | One more attempt at any part of a linked round leaves it linked. When the part's appends find their lists, it shows what was there before if and only if none of them is inner in the tree of the patches before it, which does not depend on the records, and they have landed after it; when they had landed before it, it only repeats elements of lists. |
| `OrderlyRounds.FirstIsOrderly` | loop/spec_review.py:769-784 | Such a round whose appends all land, none named past the end of one of the spec's lists, is orderly once it was applied: linked, and each append in the list its path leads to inside every placed value above it. |
| `OrderlyRounds.AttemptOfOrderly` | loop/spec_review.py:846-888 | One more attempt at any part of an orderly round leaves it orderly, its appends found; when one of them is inner, it shows what was there before with elements of lists repeated. |
| `SpecSchema.SchemaIgnoresRepeats` | spec/feature_spec.schema.json:1-136 | A schema in the keywords this one uses finds nothing wrong with a document that repeats elements of one it found nothing wrong with. |
| `SharedValues.AppendInsideDoubles` | loop/spec_review.py:769-784 | A concrete round: a rewrite of `/a` and an append to `/a/l` leave the element twice after the second application. |
| `ReviewGates.NewErrors` | loop/spec_checks.py:2354-2371 | One finding for each error key present after and absent before, and no other. |
| `ReviewGates.NotWorseIsPreorder` | loop/spec_checks.py:2374-2392 | Over any rounds that are not worse no error key appears and the counts do not rise. |
| `ReviewGates.WorseIff` | loop/spec_checks.py:2374-2392 | Worse is: an error finding no earlier error names by its code and pointer, or more errors, or as many errors and more warnings. |
| `ReviewGates.RegressionsAreLosses` | loop/spec_review.py:2044-2074 | The differ reports exactly what some place common to both documents lost. |
| `ReviewGates.NothingLostInPlace` | loop/spec_review.py:2044-2074 | A document loses nothing against itself. |
| `ReviewGates.MissingIffGoneUnseen` | loop/spec_review.py:2077-2091 | With nothing uncovered, a place of the old document is missing from the new one if and only if, where the two part on the way to it, a patch named the key or the list that lost it, or a container became something of another kind. |
| `ReviewGates.AcceptedKeepsDetail` | loop/spec_review.py:2077-2091 | ... and whatever a place both documents share lost of its keys, elements or text, a patch named exactly. |
| `ReviewGates.KindChangeGoesUnseen` | loop/spec_review.py:2044-2074 | A concrete pair of rounds: an object becomes text and an object again, and its key is gone without a finding. |
| `ReviewGates.TwoRoundsReachIff` | loop/spec_review.py:2044-2074 | Two accepted rounds can bring a text down to a given one if and only if it is no shorter than two least cuts leave it; together they lose what is refused at once exactly when it is also shorter than one least cut leaves. |
| `ReviewGates.OverlapsIsOnOnePath` | loop/spec_review.py:738-741 | On written pointers, overlapping is lying on one path, in either direction. |
| `ReviewGates.IsTestTextIff` | loop/spec_review.py:196-204 | The texts that may shrink are a unit test by its number, its expectation and its setup. |
| `ReviewGates.EnclosingObjectIs` | loop/spec_review.py:726-735 | On written pointers: what holds the place, when that is an object other than the whole document; else the place. |
| `DropPasses.FindBest` | loop/spec_review.py:870-887 | The first patch whose absence leaves the fewest schema errors, if any absence helps, each absence tried on the records the last trial left. |
| `DropPasses.DropSchemaBreaking` | loop/spec_review.py:846-888 | In every round: the kept patches passed the schema when last tried, or nothing or everything was dropped, and the document is one more attempt at them. Of a round its first attempt leaves linked: when its kept appends find their lists, that is the tested document if and only if none of them goes inside a value another kept patch placed, and when they landed in the test, it passes a schema that ignores repeats whenever the tested document did, or every patch went. Of a round it leaves orderly they did land. In a calm round (its patches stay apart, or it is orderly and no append lies inside a replace) it is the tested document, and each drop lowered the error count. |
| `DropPasses.NextAttemptIff` | loop/spec_review.py:846-888 | Of a linked round whose appends land, that one more attempt shows the tested document if and only if no kept append is inner in the tree of the kept patches before it; in an orderly one, of appends to lists of the spec, that is when none lies inside a kept replace, and it only ever repeats elements. Of any round, if and only if every record in the document reads as when it was tested. |
| `FailingRound.SchemaDropFails` | loop/spec_review.py:846-888 | A round of three patches and a schema that counts elements, attempt by attempt through the drop: it leaves out one patch, finds nothing wrong with the rest, and returns it applied once more, with an error. From the fresh records, and from those `apply_patches` comes to the drop with. |
| `FailingRound.RunFails` | loop/spec_review.py:846-888 | The method's own run of it: no error in the document it tested, one in the document it returns. |
| `FailingRound.RoundIsOrderly` | loop/spec_review.py:846-888 | From its first application on that round is orderly, so the exact condition applies to it. |
| `DropPasses.DropLaundering` | loop/spec_review.py:891-934 | In every round: patches are taken out one after another, each the first to answer for a loss that the round as it then stands names nowhere, until nothing is lost, or nobody answers and all go back in. So the document has no uncovered loss, or nothing was dropped. |
| `DropPasses.BlamedIsAtOrBelow` | loop/spec_review.py:916-924 | On written pointers, a patch answers for a loss at its own place or below it. |
| `DropPasses.Attribute` | loop/spec_review.py:976-998 | Blames exactly the landed patches whose pointer overlaps the region of an introduced error. |
| `DropPasses.SettledIff` | loop/spec_review.py:969-981 | The coupled document is taken if and only if it has no such error. |
| `DropPasses.CulpritIff` | loop/spec_review.py:984-990 | A patch is to blame if and only if its pointer overlaps the enclosing object of an error finding that no earlier error names by its code and pointer. |
| `DropPasses.DropRegressing` | loop/spec_review.py:937-998 | In every round: the blamed patches are dropped if and only if there are introduced errors, somebody is to blame, and the others alone show strictly fewer; else nothing is dropped and the tree of the given document is back. In an orderly round the tree then shows that document with elements of lists repeated, in a calm one the document itself. |
| `PatchMerge.Merge` | loop/spec_review.py:1115-1154 | Every candidate, by its own fields. At a place it goes in if and only if it is the first to say what it says there and either all say it or the reviewers' agreed wording is it; of appends that say the same, the first by unit, claim and arrival. What else is appended or disputed is refused, places disputed without agreement are reported, and what goes in stands by pointer, then appends by pointer, unit, claim and arrival. |
| `PatchMerge.AppliedOnce` | loop/spec_review.py:1115-1154 | Two applied patches never share a pointer unless both append, and then they differ. |
| `PatchMerge.TwinIsApplied` | loop/spec_review.py:1115-1154 | A patch that is neither applied nor refused, or is a refused append, says what an applied one says at its place. |
| `PatchMerge.PlaceDecided` | loop/spec_review.py:1125-1144 | A place gets a patch if and only if its values are one or the reviewers agree. |
| `PatchMerge.KeptAppendIsFirst` | loop/spec_review.py:1146-1154 | Of appends that say the same, none comes before the one kept by unit and claim. |
| `DropPasses.ApplyPatches` | loop/spec_review.py:1156-1189 | In every round: what is set aside first is what the value model sets aside, kept and dropped split the round, and without a baseline the document has no uncovered loss or nothing was dropped for one. When the patches stay apart it is the kept ones applied (and settled against the checks). Of a tidy round whose appends all land it is, with or without a baseline, what the kept patches' tree shows on the records the first application left, with elements repeated; exactly that when no append lies inside a replace. Without a baseline and without a patch dropped for a lost detail it passes a schema that ignores repeats, or none was dropped for the schema either. |
| `ReviewLoop.ReviewSpec` | loop/spec_review.py:2263-2475 | Every run, round by round, over what the round found. It stops converged if and only if the round is sound, quota is left, nothing landed, no parameter was minted and no unit failed; it stops for quota if and only if it is sound and the quota is gone; it goes on after every other sound round below the limit, the next one full where something landed or was minted and the failed units' retry otherwise; a refused round names the first of the four rules it broke. The errors of the spec it returns, by code and pointer, are among those it started with. |
| `ReviewLoop.EveryRoundIsSafe` | loop/spec_review.py:2385-2450 | In every run an accepted round is sound, and a refused one leaves the spec as it was but for open questions. |
| `ReviewLoop.RunIsNeverWorse` | loop/spec_review.py:2263-2475 | The checks of the spec a run leaves are never worse than at its start. |
| `ReviewLoop.DeadReviewerIsRetried` | loop/spec_review.py:2419-2461 | An idle round with a failed unit is never taken for convergence; the next round is that unit's retry. |
| `Formula.RenamingPreserves` | loop/dse.py:155-164 | Evaluating a renamed formula under the macros equals evaluating the original under the names, faults included, when it calls no renamed name. |
| `Formula.RenamingPreservesIff` | loop/dse.py:155-164 | For every formula that evaluates, at any depth: the renamed formula has its value if no called name is renamed, and is refused if one is. |
| `Formula.NamesInIsVariables` | loop/constraints.py:95-102 | `names_in` is the variables a formula reads if and only if none is also called. |
| `Formula.EvaluatesIffYields` | loop/constraints.py:105-145 | A formula's value, apart from the evaluator: a constant's own, a variable's binding, and of an operator or a call what it makes of its operands' values, left to right. It evaluates to a value if and only if it yields it. |
| `Formula.DependsOnNamesIn` | loop/constraints.py:105-145 | Then evaluation depends on `names_in` alone; what it computes is `Formula.EvaluatesIffYields`. |
| `Formula.NamesInMissesACalledVariable` | loop/constraints.py:95-102 | `min + min(1)` reads a variable `names_in` does not list. |
| `Formula.EvaluatedIsBound` | loop/constraints.py:105-145 | A formula that evaluates had every variable bound to a number. |
| `Formula.BreakdownLists` | loop/constraints.py:289-301 | Distinct structure names give one charge per structure. |
| `Formula.TableCosts` | loop/constraints.py:289-316 | A concrete structure: `2**n * w - 2**(n - 2)` costs what the powers say, for every n from 2 to 64 and every w. |
| `Formula.StorageIsSum` | loop/constraints.py:289-316 | With distinct names `storage_bits` is a total if and only if the structures yield values that sum to it. |
| `Formula.PrintedIsStoragePlusOverwritten` | loop/dse.py:198-217 | The printed cost model, on the header's own values, sums to `storage_bits` plus what structures under one name overwrite of each other, faults included. |
| `Formula.PrintedModelIsStorage` | loop/dse.py:198-217 | So the two agree if and only if `storage_bits` faults or nothing is overwritten; when every structure costs something, if and only if structure names are distinct. |
| `Formula.NothingOverwrittenIffDistinct` | loop/constraints.py:289-316 | When every charge is positive, the overwritten charges sum to nothing if and only if the names are distinct. |
| `Formula.PrintedModelIffNoneCalled` | loop/dse.py:198-217 | Of a candidate whose storage evaluates and whose numbers stand under their macros, the two agree if and only if no formula calls a renamed name and nothing is overwritten. |
| `CostModel.ParsedMacrosHold` | loop/constraints.py:255-277 | What `knob_values` reads is what the printed formulas name, if and only if names the spec and the plan share stand for equal values. |
| `CostModel.CandidateCostsWhatItPrints` | loop/dse.py:175-218 | For every header, printed or mutated, whose shared numbers agree and that the evaluator can cost: its printed cost model gives that cost if and only if no formula calls a knob's name and nothing is overwritten. |
| `CostModel.CostsAsPrintedIff` | loop/dse.py:175-218 | For every header: over all arithmetic and all structures that can be costed, call no knob's name and overwrite nothing, the printed cost is the candidate's if and only if every feature name bound to a number agrees with the host knob of that name. |
| `CostModel.PrintedIsTheShadowedCost` | loop/dse.py:175-218 | Where they differ: the printed cost is the cost of the feature's formulas over the host's values of the names they share, and what that overwrites. |
| `CostModel.SharedNameCostsTheHosts` | loop/dse.py:175-218 | A concrete header: `SR_N` of 1 and `HOST_N` of 2, both named `n`; a feature structure of `n` costs 1 and prints 2. |
| `CostModel.CandidateFaultsAsItPrints` | loop/dse.py:175-218 | The same with faults, for formulas that evaluate or read only names of their own side. |
| `CostModel.PrintedHeaderCosts` | loop/dse.py:175-218 | From printing to cost: each knob's printed value reads back under its name; the printed model costs every cost model as the evaluator does if and only if no feature knob that prints a number shares its name with a host knob that prints another value; and then each one if and only if no formula calls a knob's name and nothing is overwritten. |
| `Header.SplitJoined` | loop/constraints.py:232-252 | Splitting printed single lines gives them back. |
| `Header.SpelledReadsBack` | loop/constraints.py:221-229 | A spelled int, bool or decimal reads back as itself. |
| `HeaderPatterns.LiteralIff` | loop/constraints.py:217-229 | What a value may be: `true` or `false`; decimal digits or `0x` and hexadecimal ones under a sign, worth what their places say; or a decimal, with a point or an exponent or a trailing f, kept as it is. |
| `Header.ParseHeader` | loop/constraints.py:232-252 | The loop's values and errors are those of the line-by-line reading. |
| `HeaderPatterns.DefineIff` | loop/constraints.py:216 | Which lines define what: white space, `#`, `define`, the longest name, and the shortest body that leaves only white space and a comment. |
| `Header.DefinitionReadsBack` | loop/dse.py:136-152 | A printed definition reads back as its macro and value whatever its comment holds. |
| `Header.HeaderRoundTripIff` | loop/dse.py:175-218 | Parsing a printed header gives exactly the printed values and no error if and only if no line after the first of any printed text defines a knob. |
| `Header.HeaderRoundTrip` | loop/dse.py:175-218 | In particular when every text is on one line, whatever it says. |
| `EnumRange.ParsedAreTheNonEmpty` | loop/spec_checks.py:135-157 | Of a `choices:` range the checker reads the choices the header numbers, without the empty ones. |
| `EnumRange.EnumReadsBack` | loop/dse.py:129-152 | For every value: it is written, its index accepted, and that index the checker's own of it, if it is a choice with no empty choice written before it, and with distinct choices only then. |
| `EnumRange.EveryIndexAcceptedIff` | loop/constraints.py:183-211 | `range_error` accepts every index the header writes if and only if no choice is empty. |
| `EnumRange.TwoDashesRaise` | loop/dse.py:140-152 | A concrete value: `--5` is taken for a number and is none, so writing it raises. |
| `EnumRange.UnknownBecomesFirst` | loop/dse.py:140-152 | It passes `range_error` as another choice's index if and only if it is no number and there is a choice, or it is a number below their count. |
| `CandidateKey.Key` | loop/sr_evaluator.py:101-117 | The line loop computes the code of each non-empty line, joined. |
| `CandidateKey.DefineOfCut` | loop/sr_evaluator.py:101-117 | The parser reads nothing past a comment mark. |
| `CandidateKey.DefineOfSqueezed` | loop/constraints.py:232-252 | Squeezing whitespace does not change what a comment-free line defines. |
| `CandidateKey.CodeReadsAlike` | loop/sr_evaluator.py:101-117 | A line and its code define the same literal. |
| `CandidateKey.SameKeySameValues` | loop/sr_evaluator.py:101-117 | Two headers with one key parse to the same values, with as many errors. |
| `CandidateKey.KnobValues` | loop/constraints.py:255-277 | No error exactly for a legal candidate: every knob defined once, in range, nothing unknown; each side's values are the parsed ones by name, the later of two knobs of one name. |
| `CandidateKey.SameKeySameVerdict` | loop/constraints.py:255-277 | Two headers with one key are both legal or both not. |
| `Evaluator.ScreeningEvaluator.EvaluateProgram` | loop/sr_evaluator.py:177-211 | A key already screened is not built again; otherwise one build, remembered exactly when it screened. The log gains the one line that says which. |
| `Evaluator.ScreeningEvaluator.Record` | loop/sr_evaluator.py:213-226 | One line more, or a lost line. |
| `Evaluator.ScreeningEvaluator.ReadLog` | loop/dse.py:444-465 | Exactly the fully screened lines, in order, one per key of the memo when no line was lost. |
| `Evaluator.Search` | loop/sr_evaluator.py:177-226 | Over every run no screened key is built again, and the log's screened lines are one-to-one with the memo. |
| `Evaluator.RepeatIsSameCandidate` | loop/sr_evaluator.py:177-211 | A repeat is skipped only for a header that parses alike. |
| `Finalists.SelectFinalists` | loop/dse.py:701-734 | The population is accounted for by reason and surviving setting; finalists have distinct settings, none the defaults. On the candidates' own fields: their screening values do not decrease, no qualifying program of a setting left out has a smaller one than a finalist, each is least of its setting, and on equal values the earlier found, then the earlier evaluated, goes first. |
| `Finalists.OrderOnlyBreaksTies` | loop/dse.py:701-734 | Shuffling the population leaves the finalists' ranks as they are, place by place. |
| `Finalists.NoTiesOneChoice` | loop/dse.py:701-734 | Without ties the finalists are one and the same. |
| `Replan.DesignChanges` | loop/replan.py:90-96 | Empty exactly when the six design projections agree. |
| `Replan.ChangesAre` | loop/replan.py:90-96 | Which parts it names: exactly those whose entries are not matched both ways in the fields that make up the design, and the statuses by each pointer's last entry. |
| `Replan.IntegrateWithReplans` | loop/replan.py:99-172 | The loop's rounds form the chain its rules describe, end for one of the stated reasons, and each round's port is saved. |
| `Replan.NeedsReplanSpendsBudget` | loop/replan.py:126-172 | At most budget+1 rounds and budget re-plans; a final `needs_replan` means the whole budget went, every re-plan having produced a plan. |
| `Replan.TreeFitsDesign` | loop/replan.py:126-172 | In every round the plan has the same design as the plan its tree was laid for. |
| `Replan.RoundsWriteApart` | loop/helpers.py:21-26 | Two re-plan rounds never write one file, whatever they call their artifacts. |
| `Replan.FirstRoundWritesApart` | loop/helpers.py:21-26 | The first round meets a later one's file only by naming it with that round's prefix. |
| `RunDirInstall.RunDir.PurgeCaches` | hosts/gem5/adapter.py:462-478 | Removes exactly the files below a __pycache__ outside runs/ and install scratch. |
| `RunDirInstall.RunDir.Extract` | hosts/gem5/adapter.py:529-634 | Stages every payload file and touches nothing else. |
| `RunDirInstall.RunDir.Swap` | hosts/gem5/adapter.py:529-634 | Rename by rename, the directory becomes the payload; at any cut runs/ is as it was. |
| `RunDirInstall.RunDir.Install` | hosts/gem5/adapter.py:529-634 | Under any fault at any operation: runs/ untouched, a marker is genuine, ok means the directory equals the payload, and the no-op path is taken exactly when nothing drifted. It dies if and only if an operation did, an install that reports no failure had none, and while the old marker stands after a failed one nothing of the directory but caches and scratch is other than before; a finished one leaves no scratch; with no fault it succeeds. |
| `RunDirInstall.NoDriftIsEqual` | hosts/gem5/adapter.py:501-515 | No drift from a genuine marker means the directory equals the payload. |
| `RunDirInstall.PrivateIff` | hosts/gem5/adapter.py:451-459 | The top-level names no payload owns. |
| `RunDirInstall.RestsIffNoCache` | hosts/gem5/adapter.py:462-478 | A second install of the same payload rests if and only if the payload carries no __pycache__ of its own. |
| `RunDirInstall.History` | hosts/gem5/adapter.py:529-634 | Over every sequence of installs, deaths at any file operation and outside edits, every install that reports ok leaves exactly its payload. |
| `Baseline.RecordBaseline` | hosts/gem5/adapter.py:1731-1831 | What lands on disk: nothing after a recording during which a workload failed or changed, else the measured entries and, of the others, exactly those recorded on the revision, build and files of now. |
| `Baseline.SourcedIffSteady` | hosts/gem5/adapter.py:1771-1830 | A recording writes a document whose numbers are all of its revision and fingerprints if and only if the checkout did not change under it. |
| `Baseline.ChangeUnderneathMislabels` | hosts/gem5/adapter.py:1784-1800 | A concrete recording whose document names a revision its numbers are not of. |
| `Baseline.History` | hosts/gem5/adapter.py:1731-1831 | Over every sequence of edits, revision changes and recordings the document on disk stays sourced. |
| `Baseline.BaselineWorkloads` | hosts/gem5/adapter.py:1520-1535 | Exactly the workloads some baseline pointer of the test plan reads. |
| `Baseline.BaselineProblems` | hosts/gem5/adapter.py:1538-1565 | Exactly the problems there are. |
| `Baseline.NoProblemIsCurrent` | hosts/gem5/adapter.py:1538-1565 | With no problem, every compared number the manifest knows was measured on the current revision and files. |
| `BuildState.Executor.Build` | hosts/gem5/adapter.py:1229-1268 | A hit only while the tree holds that build; a success leaves tree, record and binary on the key asked for, with the bytes and the log its compile gave; a failure forgets the tree and holds what it held; one compile at most. |
| `BuildState.Executor.EnsureTreeState` | hosts/gem5/adapter.py:1270-1281 | The tree is in the state asked for if and only if it was already or the next compile succeeds. |
| `BuildState.Executor.BinaryFor` | hosts/gem5/adapter.py:1283-1294 | The binary held under the key asked for, else the one the next compile makes, or none if it fails; no compile when one is held. |
| `BuildState.Executor.Shell` | hosts/gem5/adapter.py:1329-1353 | The command runs in the state asked for if and only if the rebuild did not fail; else in what the failed compile left. |
| `BuildState.Executor.RunTraces` | hosts/gem5/adapter.py:1359-1399 | All traces on the binary of the requested state, or all reported failed, which is exactly when there is no binary with bytes or the host refuses to run nothing; it compiles nothing for that. |
| `BuildState.Session` | hosts/cbp2025/adapter.py:351-472 | Over every sequence of calls nothing is measured on a binary of the other state. |
| `BuildState.FailedRebuildStillRuns` | hosts/cbp2025/adapter.py:377-425 | A per-state port that fails to build with the feature on: its `on` command still runs, in the tree's off state. |
| `Walkers.WalkPseudocode` | loop/spec_checks.py:2466-2483 | A line is conditional if and only if some earlier if, elif or else is shallower than every line from there to it. |
| `Walkers.KindIs` | loop/spec_checks.py:2763-2764 | What a line is, by the word it begins with: `elif`, and `else` and `if` with white space between, continue a chain. |
| `Walkers.GuardChains` | loop/spec_checks.py:2767-2792 | Every `if` heads exactly one chain, and it is the if/else-if chain its indentation declares. |
| `Walkers.ImpliedIff` | loop/spec_checks.py:2805-2858 | For all naturals: one shift-equality guard implies another if and only if its shift is no larger and its constant continues the other's. |
| `Walkers.CheckBranchGuards` | loop/spec_checks.py:2805-2858 | An arm is reported, once, if and only if an earlier guard on its variable is implied by it. |
| `Walkers.UnreachableIff` | loop/spec_checks.py:2805-2858 | When an arm can never run: at the finest bit any of the guards looks at, each of the finitely many values that continue its constant is taken by an earlier guard. |
| `Walkers.ReportedIffUnreachable` | loop/spec_checks.py:2805-2858 | Where no earlier guard on the variable looks below the arm's own bit, the arm can never run if and only if it is reported. |
| `Annotate.Annotate` | loop/paper_markers.py:307-360 | Before filtering the spans tile the whole text with the label of every line under them; the notes are those of the hedged paragraphs, in order. |
| `Annotate.SpanOfLine` | loop/paper_markers.py:180-184 | Every character lies in a span, and every span it lies in has its line's label. |
| `Annotate.SpanAt` | loop/paper_markers.py:180-184 | A span that holds the offset, or none does. |
| `Annotate.TierAt` | loop/paper_markers.py:186-188 | After filtering, the tier of every offset is the one the scan gave its line. |
| `Annotate.LabelIs` | loop/paper_markers.py:307-360 | What label a line has, read off the lines above it: the block opened last and not closed since, its last section, and the last marker since anything opened, closed or sectioned; a closing line belongs to what it closes. |
| `Annotate.NumbersAreConsecutive` | loop/paper_markers.py:327-334 | Note numbers are consecutive per tier, and there is one note per hedged paragraph. |
| `Annotate.NoteIsOneParagraph` | loop/paper_markers.py:327-334 | A note's text is one paragraph: every line under it has its tier and place. |
| `Annotate.NormalizeWithMap` | loop/paper_markers.py:281-304 | The squeezed text with a strictly increasing map, each character standing for its source character. |
| `Annotate.Locate` | loop/paper_markers.py:190-205 | The span of the source character that the quote's first occurrence begins with, or its first in another case when there is none: graded as that character's line is, and none where that line is not graded. |
| `Strings.SqueezeIsJoinedWords` | loop/paper_markers.py:277-278 | The squeeze is the words joined by single spaces. |

## Left out

- LLM calls, prompts, Ray dispatch, git, scons and make, the HTTP gateway, timestamps and printing: replies and outcomes are arguments.
- The deterministic spec checks' prose heuristics and `_couple_param_ranges`: the checks are an arbitrary function of the spec that ignores `open_questions`, the coupling an arbitrary function of the spec.
- The conditions under which `apply_patches` admits one record (verdict, evidence, unit scope, append shape) and `promote_unsupported`: the model starts from the admitted patches, and a round's candidate is arbitrary.
- Message texts of findings and reasons: findings carry their code, pointer and severity.
- `linked`, the gist lengths and the stale-question rules are arbitrary; the lists of what an algorithm mentions and writes are given.
- Python's `==` between a bool and a number, NaN, and `.get` on a value of the wrong type raising: documents follow their schemas. Numbers are reals.
- Python's `int()` beyond ASCII digits with a sign (underscores, blanks, other digits).
- Hashes are injective: a digest stands for what it was taken of.
- JSON object key order: where a loop over a dict is order-sensitive only in what it lists first, the order is arbitrary.
- `range_error` beyond an enum's index: in `CandidateKey` range membership is an arbitrary predicate, and in `Header` a knob's value is the literal printed. `EnumRange` takes a range on one line that begins with `choices:`. How Python reads a decimal is an argument of `CostModel`.
- Applying patches to the document in place is on values in `JsonPointer` and `Patches`; `SharedValues` has the objects, as a tree with references to the records, and `FirstApplication` says why the first application needs only values.
- DropPasses.DropSchemaBreaking: of a round with an `add` that names an index or a field, or a pointer with a non-canonical index or the token `-` above its end, only what holds in every round is said, and `SharedValues.SameDocumentIff`; that appends landed in the last test is only shown of rounds that name none past the end of one of the spec's lists. A schema that counts equal elements can refuse what its test passed, in the rounds `DropPasses.NextAttemptIff` names.
- DropPasses.ApplyPatches: the open questions appended to the new spec afterwards for conflicts and unlanded corrections.
- `_agreeing_value` is an arbitrary function that prefers one of the values it is given.
- `unreviewed` and the other summary fields of a review; the retry scoping of units is kept as the set of failed units.
- Directories without files, symbolic links, and a failing clean-up in `install_run_dir`: files are where directories are. A crash inside a directory removal is not modelled: a removal is one operation.
- RunDirInstall.RunDir.Install: concurrent installs, which the code relies on not happening.
- `per_trace_stats` and the suite aggregate of a baseline, and reading the workload list.
- Baseline.NoProblemIsCurrent: `scons_args` and `scons_env` are recorded beside the numbers and not compared when numbers are carried forward, so a number's record leaves them out and the result is silent on them.
- BuildState.Executor.Shell: a command that rebuilds the tree itself, the environment it is given, and the timeouts.
- `retire` interrupted between two renames, and stage 2 interrupted between its write and its retire: the code does not claim to survive these.
- PlanStore.Store.ConsiderRevision: the pair in force is what `latest` returned to the session, as `integrate` passes it on.
- `_is_test_text` on a pointer that ends in a newline.
- Annotate.Locate: lower-casing, in its second search, is taken to keep every character's place; `corroborates`, `render_notes` and the patterns that classify a source line.
- `strip_comments` before the two walkers, and the pattern that reads one guard.
- The finalists' promotion runs themselves, and loading a population from checkpoints.
- SpecSchema.SchemaIgnoresRepeats: how many errors the validator finds, and its messages: only whether it finds any.

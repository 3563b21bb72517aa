# Verified models of TheForge

TheForge routes software stories to language-model agents, reviews what they produce and
keeps records of both. This project models the parts of it that decide something over
unbounded inputs or unbounded runs, and proves what they promise.

| file | models |
|---|---|
| `ImportCycles.dfy` | the circular-import check: a recursive depth-first search that changes its stack, visited set and cycle list in place |
| `AdvisoryArtifact.dfy`, `AdvisoryWorkers.dfy` | the shared advisory file: what one update does, and any number of workers updating it under two nested locks |
| `Agents.dfy`, `Reviewers.dfy`, `Budget.dfy`, `BudgetCost.dfy`, `DevExploration.dfy`, `Assignment.dfy` | the router: role pools, reviewer panels, dev fallbacks, exploration override and the per-story cost target |
| `Exploration.dfy`, `ChallengerRotation.dfy` | winner selection, the exploration decision, and how long a model can go without a race |
| `FindingBuckets.dfy`, `FindingRegistry.dfy` | grouping of review findings and the disposition record that decides blocking |
| `DiagnosisSection.dfy`, `DiagnosisUpsert.dfy`, `BaselineMetadata.dfy`, `BaselineGrammar.dfy` | landing a diagnosis in an issue body, and reading its baseline back |
| `CriterionCohort.dfy`, `CriterionGaming.dfy` | the criterion-gaming measurement: cohort, facts, drift check, refresh and roll-up |
| `Receipts.dfy` | knowledge receipts: which debrief answer counts for each injected claim |
| `ChangelogText.dfy`, `ChangelogGuard.dfy` | the forward-port guard for the changelog |
| `DaemonQueue.dfy` | the daemon's sprint queue |
| `Common.dfy`, `StringOrder.dfy`, `TextLines.dfy` | shared vocabulary: options, filters, string order, lines of text |

Code that changes state step by step is modelled as classes and methods with loops
(`CycleSearch`, `CoordinatorState`, `DaemonServer`, the merge, sweep, budget, parsing and
counting loops). Each is proved equal to a function on values, or to the property itself, and
the laws are proved of that function. Concurrency is a transition relation over the steps
between two awaits or two lock operations. `dafny verify dfyconfig.toml` checks everything.

## Where the code and its promises differ

- The docstring of `choose_challenger` says every eligible model is raced within as many
  cadence hits as there are eligible models. That holds exactly when all run counts are equal
  (`FullRotationIffEqual`); `RotationClaimFails` shows a failing run, and
  `StarvationBoundIsExact` gives the true bound.
- Landing a diagnosis twice is not always the same as landing it once: `LandingAgain` gives the
  exact condition and `LandingAgainCanShrink` a failing body.
- A baseline round trip can lose the file list when the commit or timestamp text carries the
  inspected-files header followed by `##` (`RoundTripIff`, `HijackedTimestamp`).
- A refreshed adjudication row can drift on an unchanged corpus when two attempts of an issue
  share a run id (`NoDriftIffTwinAgrees`, `SharedRunIdDrifts`).
- The changelog guard's self-check rejects its own rewrite when the text would end in a blank
  line or two carried sections share a key and differ (`AcceptedIff`; `TrailingBlankIsRefused`
  and `TwinSectionsAreRefused` are failing texts).
- A daemon sprint whose crash report raises is never recorded, and its slug stays refused until
  the next sprint begins (`ExactlyOnceInOrder`, `UnrecordedCrashStaysRefused`).
- A budget downgrade need not lower the cost, because a lower tier may be dearer. It always does
  exactly when the policy's lower tiers are cheaper (`DowngradesSaveIff`). A whole enforcement can
  end dearer than it began (`EnforcementRaisesCost`); one that finishes never does exactly when no
  agent comes to rest on a dearer one (`FinishedNeverDearerIff`). What always decreases is the sum
  of tier ranks and panel sizes (`PassBooks`).
- A match nested in another's span ends the replacement early, so lines of the outer old section
  come back after the landed one (`NestedMatchBringsLinesBack`, `OthersSurvive`).

## Model

| member | source | states |
|---|---|---|
| `ImportCycles.BestMatch` | src/theforge/conventions.py:311-318 | The import resolves to the longest dotted prefix of its name that is a known module, and to nothing exactly when no dotted prefix is known. |
| `ImportCycles.JoinPrefixIsDotted` | src/theforge/conventions.py:311-318 | Every name the loop tries, a join of leading parts, is the import itself or the import cut before one of its dots. |
| `ImportCycles.DottedPrefixIsJoin` | src/theforge/conventions.py:311-318 | Conversely every dotted prefix is one of the names tried, so the loop misses none. |
| `ImportCycles.CycleSearch.Dfs` | src/theforge/conventions.py:262-284 | One recursive visit keeps the search invariant (the stack is a simple walk, everything visited is on it or finished, and an edge out of a finished vertex leads to an earlier one or is a back edge whose own vertex set is recorded), finishes its node, and only adds to what was recorded; it terminates on the unvisited modules. |
| `ImportCycles.CycleSearch.CloseCycle` | src/theforge/conventions.py:275-282 | A back edge closes the walk from its target up the stack, a simple cycle; that walk's vertex set is recorded afterwards, by adding exactly that walk or because it already was. |
| `ImportCycles.BackEdgeCloses` | src/theforge/conventions.py:275-282 | The stack from a back edge's target up, closed by that edge, is a closed walk of real edges that repeats no vertex before closing. |
| `ImportCycles.ClosedWalksAreCovered` | src/theforge/conventions.py:257-288 | In a finished search no closed walk of the resolved graph avoids the recorded cycles: some step of it lies inside one. |
| `ImportCycles.ReportIsComplete` | src/theforge/conventions.py:257-288 | When every module is visited, every import cycle meets the report and the report is empty exactly when the graph is acyclic. |
| `ImportCycles.GraphHolds` | src/theforge/conventions.py:247-255 | The graph searched has every scanned module as a vertex, importing nothing or not, with the imports of the last file of that name. |
| `ImportCycles.CheckCircularImports` | src/theforge/conventions.py:238-308 | The whole check: the graph has exactly the scanned modules as vertices, each with the imports of its last occurrence; each reported cycle is a simple closed walk of resolved imports, no vertex set is reported twice, in the order the search left the modules every back edge's own vertex set is reported, no cycle escapes the report, and nothing is reported if and only if the graph is acyclic. |
| `AdvisoryArtifact.MergeObservations` | src/theforge/advisory_conventions.py:225-277 | The merge, key by key: the last violation of each key writes its measured values, run id, story and time over whatever was there and keeps the first sighting and issue on record; an unobserved entry stays unchanged while last seen less than a day ago; nothing else is left. |
| `AdvisoryArtifact.MergeFollowsRule` | src/theforge/advisory_conventions.py:225-295 | The merge function, on which the worker results rest, meets that same key-by-key rule. |
| `AdvisoryArtifact.ScanRemovesExactlyTheStale` | src/theforge/advisory_conventions.py:225-295 | A key is in the merged file exactly when the scan observed it, or it was there and still inside the retention window. |
| `AdvisoryArtifact.AttachIssues` | src/theforge/advisory_conventions.py:203-215 | The filing loop puts each filed issue on the entry now in the file, or on the worker's own copy when the key is gone, changes no other field of it, and leaves every other key alone. |
| `AdvisoryArtifact.NothingGoesStale` | src/theforge/advisory_conventions.py:280-295 | If all stamps of a run lie inside the retention window, no entry is ever stale for any scan of the run. |
| `AdvisoryArtifact.NoLostObservation` | src/theforge/advisory_conventions.py:182-215 | Under that condition the keys after any number of commits are exactly the initial keys plus every key a committed scan observed. |
| `AdvisoryArtifact.IdentityIsStable` | src/theforge/advisory_conventions.py:225-277 | While a key stays present its first sighting never changes and its issue block never disappears; a later filing is the only thing that can replace it. |
| `AdvisoryWorkers.StepKeepsInv` | src/theforge/advisory_conventions.py:182-215 | Every step of every worker, failures included, keeps the protocol invariant: mutual exclusion on both locks, local copies equal to the file they will overwrite, and the mirror in step with the history. |
| `AdvisoryWorkers.Serializable` | src/theforge/advisory_conventions.py:182-215 | In every interleaving the file equals the committed critical sections replayed in lock order, and the mirror equals the file whenever the artifact lock is free and no mirror write failed. |
| `AdvisoryWorkers.SomeoneCanStep` | src/theforge/advisory_conventions.py:312-333 | While some worker is unfinished some worker has an enabled step that is not a failure: the nested locks cannot deadlock. |
| `AdvisoryWorkers.RunsAreShort` | src/theforge/advisory_conventions.py:152-222 | No interleaving is longer than fifteen steps per worker, so every run ends. |
| `AdvisoryWorkers.AllObservationsSurvive` | src/theforge/advisory_conventions.py:182-215 | When all workers are done inside the retention window, the file holds exactly the initial keys and the keys observed by any worker. |
| `AdvisoryWorkers.FindingsKeepTheirIdentity` | src/theforge/advisory_conventions.py:203-277 | Across any run inside the window a recorded finding stays, keeps its first sighting, and keeps its issue unless a later filing replaced it. |
| `AdvisoryWorkers.EveryFilingLands` | src/theforge/advisory_conventions.py:182-222 | No filed issue is lost: in every interleaving a worker that is done filed on its way, and the history the file replays holds every issue it filed, each with the entry its own scan wrote. |
| `AdvisoryWorkers.FilesOnce` | src/theforge/advisory_conventions.py:196-215 | A worker files at one step of a run only. |
| `ChallengerRotation.NoStarvation` | src/theforge/exploration.py:438-475 | Whatever the random tie-breaks, more cadence hits than the lag (the sum over the others of max(0, runs_x - runs_j + 1)) include model x. |
| `ChallengerRotation.StarvationWitness` | src/theforge/exploration.py:438-475 | The bound is tight: for every number of hits up to the lag there are tie-breaks that never race x. |
| `ChallengerRotation.StarvationBoundIsExact` | src/theforge/exploration.py:454-458 | A model is raced within n hits under all tie-breaks if and only if n exceeds its lag. |
| `ChallengerRotation.FullRotationIffEqual` | src/theforge/exploration.py:454-458 | The docstring's claim, everyone raced within as many hits as there are eligible models, holds if and only if all run counts are equal. |
| `ChallengerRotation.RotationClaimFails` | src/theforge/exploration.py:454-458 | A concrete schedule on which that claim fails: counts 0 and 1, two hits, both to the first model. |
| `ChallengerRotation.RotationFromEqual` | src/theforge/exploration.py:438-475 | From equal counts one full rotation races every eligible model exactly once. |
| `ChallengerRotation.SpreadStaysBounded` | src/theforge/exploration.py:438-475 | The spread of run counts never exceeds the larger of one and the initial spread. |
| `ChallengerRotation.StoriesReachEveryone` | src/theforge/exploration.py:601-623 | With one race every n stories, x is raced within n times its lag plus the wait for the first cadence run. |
| `Exploration.RankedIsTheSort` | src/theforge/exploration.py:314-334 | The ranking is a permutation of the measured candidates, ordered by the five-part winner key. |
| `Exploration.SortIsUnique` | src/theforge/exploration.py:314-334 | Two key-sorted listings of the same candidates are equal, because the id makes the key total. |
| `Exploration.WinnerIsCheapestQualified` | src/theforge/exploration.py:357-411 | A winner exists exactly when some candidate clears all three gates, and it is then the first of those in the winner order, so cheapest to completion. |
| `Exploration.WinnerIgnoresMapOrder` | src/theforge/exploration.py:357-411 | Winner, reason and the whole qualified ranking do not depend on the order of the aggregates map. |
| `Exploration.WinnerRule` | src/theforge/exploration.py:314-411 | On runs, rates and prices alone: there is a winner exactly when some model has enough runs, meets the floor and has a measured cost, and it is then the one of least cost per success (compared by cross-multiplication), then higher rate, fewer iterations, shorter time, smaller id. |
| `Exploration.ReasonRule` | src/theforge/exploration.py:357-411 | The reason names the first gate that nobody passes, or cost qualified. |
| `Exploration.DrawSpaceNonempty` | src/theforge/exploration.py:464-475 | The random draw is never made from an empty list while an eligible model exists, in either rotation mode. |
| `Exploration.DecisionIsBounded` | src/theforge/exploration.py:562-623 | A model other than the winner is selected exactly on a cadence run with budget left and an eligible alternative; a slot is consumed exactly in challenger mode and never on an exhausted budget; mode, selected model and reason are given case by case. |
| `Exploration.DrawsAreLeast` | src/theforge/exploration.py:464-475 | The least-sampled draw space is exactly the eligible models of least run count, which ties the code to the rotation results. |
| `Exploration.DrawRule` | src/theforge/exploration.py:438-475 | A model can be drawn exactly when it is in the pool, is not the winner and, in least-sampled mode with any evidence, no other such model has fewer runs. |
| `Exploration.RunsAre` | src/theforge/exploration.py:464-475 | A model's run count is that of its aggregate, and zero without one. |
| `Exploration.TotalRunsAre` | src/theforge/exploration.py:433-435 | The cadence counter adds up the runs of all aggregates. |
| `Exploration.EveryoneGetsEvidence` | src/theforge/exploration.py:438-475 | Lower bound on evidence for the real decision function: in any fixed-winner run of stories each eligible model is picked within cadence times lag plus the wait for the first race. |
| `FindingBuckets.AssignBuckets` | src/theforge/finding_classifier.py:246-267 | The single pass puts each finding in the first bucket it joins, by equal file and severity, a reviewer not yet in it and half the tokens shared: together the buckets hold exactly the findings, each bucket is uniform in file and severity, and no reviewer appears twice in one. |
| `FindingBuckets.JoinsFollowsRule` | src/theforge/finding_classifier.py:156-180 | A finding joins a bucket exactly when its reviewer is not in it, file and severity are the head's, and at least half of the tokens of both together are shared. |
| `FindingBuckets.NearFollowsRule` | src/theforge/finding_classifier.py:183-214 | The proximity test, on lines, files, severities and reviewers alone. |
| `FindingBuckets.GrowingStaysFar` | src/theforge/finding_classifier.py:183-214 | A bucket that fails the proximity test against another still fails it after the other grows. |
| `FindingBuckets.MergingStaysUniform` | src/theforge/finding_classifier.py:183-214 | Merging two buckets that pass the proximity test keeps file and severity uniform. |
| `FindingBuckets.MergeSweep` | src/theforge/finding_classifier.py:269-281 | The one i/j sweep loses nothing, keeps buckets uniform, absorbs the first near bucket each time, and reaches a fixpoint: no two remaining buckets pass the test. |
| `FindingRegistry.LastBucketIsKept` | src/theforge/finding_classifier.py:283-294 | Of buckets that share a head fingerprint exactly the last survives, and each fingerprint is kept once; with distinct fingerprints nothing is replaced. |
| `FindingRegistry.CoordinatorState.UpdateFindingRegistry` | src/theforge/finding_classifier.py:217-404 | The whole update on the coordinator's state, by rule: each finding joins the first bucket that fits; each bucket's head, unless it is resolution commentary, lands on the first record of its file and severity that shares half its tokens (regression if that was fixed, unresolved otherwise), or downgrades one of another severity, or is recorded as new; and open P1 records nobody mentioned lapse to fixed. |
| `FindingRegistry.CoordinatorState.ClassifyAll` | src/theforge/finding_classifier.py:296-389 | The classification loop processes the buckets one by one against the records from before the cycle. |
| `FindingRegistry.CoordinatorState.Lapse` | src/theforge/finding_classifier.py:391-402 | The closing loop marks fixed exactly the open P1 records the cycle did not see. |
| `FindingRegistry.UpdateFollowsRule` | src/theforge/finding_classifier.py:296-404 | The cycle rule, on token sets, files, lines and severities: which record each bucket lands on, with which disposition, and what lapses. |
| `FindingRegistry.CommentaryTouchesNothing` | src/theforge/finding_classifier.py:66-130 | A bucket whose head is resolution commentary changes no prior record and is never recorded as a regression or as unresolved. |
| `FindingRegistry.KeptInOrderMet` | src/theforge/finding_classifier.py:283-294 | The kept buckets stand in the order their fingerprints were first met. |
| `FindingRegistry.ReportsAre` | src/theforge/finding_classifier.py:246-249 | The findings are taken reviewer by reviewer and in each reviewer's own order. |
| `FindingRegistry.VerdictIs` | src/theforge/finding_classifier.py:407-416 | Blocking means a P1 that is unresolved, a regression, corroborated new or blocking by acceptance criteria. |
| `FindingRegistry.UpdateVerdict` | src/theforge/finding_classifier.py:296-416 | After an update the blocking verdict on the cycle's own list equals the verdict on the whole registry; the registry only grows and records keep id, severity, file and first cycle. |
| `FindingRegistry.LastHitDecides` | src/theforge/finding_classifier.py:303-366 | The disposition of a prior record after the cycle is decided by the last bucket about it alone. |
| `FindingRegistry.PriorP1BlocksIffMatched` | src/theforge/finding_classifier.py:303-366 | A prior P1 record blocks after the cycle if and only if the last bucket about it matched it exactly, whatever its earlier disposition. |
| `FindingRegistry.ReportedAgainBlocks` | src/theforge/finding_classifier.py:303-366 | A P1 that heads a bucket and exactly matches a prior P1 record leaves it blocking, provided no later bucket downgrades the record. |
| `FindingRegistry.NewFindingBlocks` | src/theforge/finding_classifier.py:367-389 | A finding that matches nothing is recorded with its own identity, and blocks exactly when it is a P1 with two reviewers behind it or reintroduces a fixed record. |
| `FindingRegistry.VerdictThroughoutHistory` | src/theforge/finding_classifier.py:407-416 | The two verdicts agree right after every cycle of every history of increasing cycles, with dispositions re-stamped in between. |
| `FindingRegistry.RecordsThroughoutHistory` | src/theforge/finding_classifier.py:296-404 | Through any number of cycles no record is dropped and each keeps its identity. |
| `Agents.ByTierProps` | src/theforge/assignment.py:941-958 | A tier listing holds exactly the agents of that tier, cheapest first. |
| `Reviewers.Rerank` | src/theforge/assignment.py:1403-1435 | The row loop and sort put the flagged reviewers after all others, lose none, and list each kind in its old order. |
| `Reviewers.LowLastIsPermutation` | src/theforge/assignment.py:1500-1538 | A rerank neither loses nor adds a candidate. |
| `Reviewers.LowLastOrder` | src/theforge/assignment.py:1500-1538 | No unflagged candidate stands behind a flagged one, and each kind keeps its order. |
| `Reviewers.StackedRerankOrder` | src/theforge/assignment.py:1655-1681 | Completion rerank then value rerank is the order by low value, low completion, original position. |
| `Reviewers.BuildLadder` | src/theforge/assignment.py:1607-1624 | The candidate list holds each eligible agent of a known tier once, stronger tiers first and cheapest first inside a tier. |
| `Reviewers.ExcludeModel` | src/theforge/assignment.py:1629-1641 | The candidates become exactly the other-model ones of the list, else the ready other-model agents of the role, else any other-model agents, else the list itself, each case stated by membership; so the reviewed model is excluded while any other model exists anywhere in the pool, and the pool is never emptied. |
| `Reviewers.DropUnhealthy` | src/theforge/assignment.py:1643-1649 | Exactly the healthy candidates remain, in order, or all of them when none is healthy. |
| `Reviewers.PickDiverse` | src/theforge/assignment.py:1686-1709 | The two greedy passes seat min(n, candidates) of them in one fixed order, the first of every provider and then the others, each in the given order, and so reach min(n, providers) distinct providers. |
| `Reviewers.GreedyRespectsRank` | src/theforge/assignment.py:1686-1709 | Whoever ranks first is seated, and a candidate is passed over for a later one only when the later one is the first of its provider and it is not. |
| `Reviewers.GreedyIsOptimal` | src/theforge/assignment.py:1686-1709 | No panel of n candidates from the pool has more distinct providers than that. |
| `Reviewers.SelectReviewers` | src/theforge/assignment.py:1557-1709 | The whole selection over the code's own candidate list (the tier ladder without the reviewed model and the unhealthy): min(n, list) distinct agents of it, a prefix of the reranked order, or of the reranked order with the first of every provider in front and then provider-optimal; no self-review while another model exists, no unhealthy model while a healthy candidate remains. |
| `Budget.NextCheaperProps` | src/theforge/assignment.py:1971-1992 | A cheaper profile comes from the role's own pool and always has a lower tier rank, a profile from outside the pool ranking above every tier. |
| `Budget.NextCheaperRule` | src/theforge/assignment.py:1971-1992 | Which agent: for an agent of the pool's configuration, one of the highest known tier below its own that the role's pool holds, the cheapest there, and none exactly when the pool has no lower tier; for a profile from outside, the cheapest of the pool below its price, and none exactly when there is none. |
| `Budget.ReplacementRule` | src/theforge/assignment.py:2003-2059 | That agent is seated unless the role is locked or it is below the dev or planner floor. |
| `Budget.TotalIs` | src/theforge/assignment.py:930-938 | The total is the sum of the budgets of all seats. |
| `Budget.FindDowngrade` | src/theforge/assignment.py:2003-2059 | The seat found is the dearest one that has a permitted replacement, the first listed of equals, and none is found exactly when no permitted downgrade exists. |
| `Budget.OnePass` | src/theforge/assignment.py:1995-2098 | A pass makes the downgrade, else drops the last code reviewer, else the last plan reviewer, and reports nothing only when all of that is impossible. |
| `Budget.PassBooks` | src/theforge/assignment.py:1995-2098 | Each pass books exactly the change of the total, up or down, and strictly lowers the sum of tier ranks and panel sizes. |
| `Budget.PassKeeps` | src/theforge/assignment.py:1995-2098 | Each pass keeps preflight, locked roles, non-empty panels, floors and eligibility. |
| `Budget.EnforceBudget` | src/theforge/assignment.py:1911-2100 | The loop makes at most ten passes, keeps all of the above, its ledger accounts for initial minus final total, and stopping over target early means nothing permitted is left; what each pass seats is given by `NextCheaperRule` and `ReplacementRule`. |
| `Budget.KeptMeans` | src/theforge/assignment.py:2016-2059 | Spelled out: locked roles and preflight unchanged, panels non-empty, a replaced dev or planner comes from its role's pool and is not below its floor (and the dev is dev capable), and every replaced reviewer comes from its role's pool. |
| `BudgetCost.DowngradesSaveIff` | src/theforge/assignment.py:1971-2059 | Every downgrade from a decision seated from the pools, or from outside the agents, lowers the total if and only if in each unlocked role's pool the permitted nearest-lower-tier pick is cheaper than every agent it can replace. |
| `BudgetCost.EnforcementNeverRaisesCost` | src/theforge/assignment.py:1994-2098 | Under that condition and without negative prices no enforcement, even one cut off after ten passes, returns a dearer decision than it got. |
| `BudgetCost.FinishedNeverDearerIff` | src/theforge/assignment.py:1994-2098 | Enforcements that end in fewer than ten passes never return a dearer decision, whatever the target and the seated decision, if and only if in each unlocked role no agent of the pool comes to rest, down the permitted lower picks, on a dearer one. |
| `BudgetCost.EnforcementRaisesCost` | src/theforge/assignment.py:1994-2098 | Without it enforcement can return a dearer decision: in a two-agent policy whose mid tier costs more than its strong tier, every enforcement below the first total ends one dollar dearer. |
| `BudgetCost.EnforcementRaisesCostHappens` | src/theforge/assignment.py:1994-2098 | That enforcement exists: one permitted pass leads to the dearer decision, where nothing permitted is left. |
| `DevExploration.RouteStaysInPool` | src/theforge/assignment.py:3862-3871 | An exploration override always routes to another agent of the dev pool. |
| `DevExploration.CandidatesAre` | src/theforge/assignment.py:3862-3866 | The candidates are the ready agents of the pool and the incumbent. |
| `DevExploration.NeighboursAre` | src/theforge/assignment.py:3915-3920 | Which tiers count as neighbours of each declared tier, one off the ladder counting as cheap. |
| `DevExploration.EmpiricalWinnerRule` | src/theforge/assignment.py:3915-3948 | No winner unless a neighbour clears the gates; otherwise it is the best of them in the winner order, withheld exactly when it is of another tier and the incumbent has no comparable evidence. |
| `DevExploration.RouteRule` | src/theforge/assignment.py:3862-3972 | The override is a given agent exactly when the sprint has a cap and budget, the decision names that agent, and it is a ready agent other than the incumbent. |
| `DevExploration.WinnerIsCostQualified` | src/theforge/assignment.py:3906-3948 | The empirical winner is the cheapest-to-completion reliable, measured candidate within one tier of the declared tier. |
| `DevExploration.LeavesTierOnlyOnEvidence` | src/theforge/assignment.py:3873-3972 | The route leaves the incumbent's tier only for the challenger drawn from the draw space in a cadence race with sprint budget left, which is not the winner, or for the cost-qualified winner when the incumbent itself has enough measured runs. |
| `DevExploration.EmpiricalWinnerIgnoresOrder` | src/theforge/assignment.py:3915-3948 | The empirical winner is the same whatever order the candidates are listed in. |
| `Assignment.PoolsAreNonempty` | src/theforge/assignment.py:4137-4227 | Past the refusals no role left to selection has an empty pool, so no pick indexes an empty list. |
| `Assignment.RefuseIs` | src/theforge/assignment.py:4137-4250 | On the request's own fields: which condition each refusal and its role stand for, in their order, and none exactly when the story may be routed. |
| `Assignment.RolePoolIs` | src/theforge/assignment.py:4137-4187 | A role's pool holds exactly the agents no record and no account check rules out, and for dev only those declared fit. |
| `Assignment.PoliciesAre` | src/theforge/assignment.py:1971-1973 | The budget pass draws from those same pools, with the pins locked and the floors as seated. |
| `Assignment.PromoteIs` | src/theforge/assignment.py:1250-1253 | Promotion is one tier up, and the strongest tier stays; a tier off the ladder goes to the top. |
| `Assignment.PickAgent` | src/theforge/assignment.py:1175-1247 | The pick is a ready agent of the tier that no other such agent is preferred to (reliability, score, budget), and is missing exactly when the tier has no ready agent. |
| `Assignment.ChooseDev` | src/theforge/assignment.py:4304-4384 | Each dev fallback, in order: effective tier, cheapest ready at the floor, cheapest unready at the floor, highest ready tier, cheapest. |
| `Assignment.DevPickHoldsFloor` | src/theforge/assignment.py:4344-4384 | Whichever fallback applies, the pick is below the declared floor only when the pool has nothing at it, and unready only when nothing ready meets it. |
| `Assignment.ChooseSingle` | src/theforge/assignment.py:4453-4509 | Preflight and planner take the tier's preferred pick, else the cheapest or dearest ready agent, else of the pool. |
| `Assignment.SeatDev` | src/theforge/assignment.py:4304-4431 | The dev seat holds its pin, or the fallback pick, or the agent exploration routes to in its place; the budget floor is the declared tier, or the challenger's own in a challenger race. |
| `Assignment.SeatPanel` | src/theforge/assignment.py:4549-4626 | A panel is the pin, or the full selection from the role's filtered pool: as many seats as asked for or as there are candidates, in reranked order or with every provider's best-ranked candidate in front, without the model it reviews while another exists. |
| `Assignment.BudgetKeepsEligibility` | src/theforge/assignment.py:1971-2059 | Budget downgrades never seat an agent outside the role's filtered pool and leave pins alone. |
| `Assignment.AssignModels` | src/theforge/assignment.py:3999-4772 | A story is routed exactly when there are agents, no account check empties a role, no pin names an unreachable identity, no capability record empties an unpinned role, an unpinned dev has a fit agent and no dev pin is declared unfit; otherwise the first of these that fails is the refusal, with its role. The first decision seats each role by its own rule (pick, fallback, exploration, panel selection without self-review), every unpinned seat holds an agent of its role's filtered pool before and after the budget pass, and that pass is a legal sequence with an exact ledger. |
| `DiagnosisSection.IterHeadingLines` | src/theforge/diagnose_types.py:959-981 | The scan lists exactly the headings that no open fence covers, in order, with level and text; a fence is open from an unfenced fence line to the next bare one of its mark that is no shorter. |
| `DiagnosisSection.SectionEndOf` | src/theforge/diagnose_types.py:1032-1037 | A section ends at the next unfenced heading of its level or above, or at the end of the text. |
| `DiagnosisSection.FenceLaw` | src/theforge/diagnose_types.py:959-981 | The scanning state is inside a fence exactly on lines behind an unfenced fence line that no bare line of its mark, at least as long, has closed. |
| `DiagnosisSection.TargetsAre` | src/theforge/diagnose_types.py:984-1026 | The headings replaced are exactly the unfenced ones whose text is that of the section's opening heading, which only blank lines may precede. |
| `DiagnosisSection.LandedIs` | src/theforge/diagnose_types.py:1015-1015 | What lands is the section without its trailing blank lines. |
| `DiagnosisSection.UpsertDiagnosisSection` | src/theforge/diagnose_types.py:994-1045 | The upsert loop computes the span-replacing function the lemmas below are about; with nothing to replace the trimmed section stands alone in a blank body, or follows the unchanged body and a blank line. |
| `DiagnosisUpsert.ExactlyOneSection` | src/theforge/diagnose_types.py:994-1045 | Landing a well-formed section in a fence-balanced body, or in any body that already has a match, leaves exactly one matching heading. |
| `DiagnosisUpsert.LandingAgain` | src/theforge/diagnose_types.py:994-1045 | Landing the same section again changes nothing if and only if nothing follows it or what follows is at its level or above. |
| `DiagnosisUpsert.LandingIsIdempotent` | src/theforge/diagnose_types.py:994-1045 | It is idempotent whenever no existing match is deeper than the section. |
| `DiagnosisUpsert.LandingAgainCanShrink` | src/theforge/diagnose_types.py:994-1045 | A concrete body with a deeper match where the second landing removes a line. |
| `DiagnosisUpsert.OthersSurvive` | src/theforge/diagnose_types.py:1023-1045 | Exactly which lines survive: everything before the first match, the section, and then, in order and up to trailing blank lines, each line at or past the end of the span of the nearest match at or before it. |
| `DiagnosisUpsert.UnNestedSurvivors` | src/theforge/diagnose_types.py:1032-1045 | When no match lies in another's span, these are exactly the lines outside every replaced span. |
| `DiagnosisUpsert.NestedMatchBringsLinesBack` | src/theforge/diagnose_types.py:1038-1045 | A concrete body with a nested match: lines inside the outer span come back after the landed section. |
| `BaselineMetadata.RenderBaseline` | src/theforge/diagnose_types.py:640-650 | The rendering loop writes the baseline line, the header and one bullet per inspected file, each part only when there is something to write. |
| `BaselineMetadata.ParseBaselineMetadata` | src/theforge/diagnose_types.py:1070-1111 | The parsing loop computes the parse function, which `BaselineGrammar.ParserFollowsGrammar` describes by the patterns alone. |
| `BaselineGrammar.ParserFollowsGrammar` | src/theforge/diagnose_types.py:1051-1111 | For every text: metadata is found exactly when the baseline pattern matches somewhere, its fields are those of the first match, trimmed, and its files are the first run of bullets behind the first header unless a heading comes before it. |
| `BaselineGrammar.BaselineIs` | src/theforge/diagnose_types.py:1051-1054 | The scanner matches exactly the texts that can be cut into the pattern's pieces, with those fields. |
| `BaselineGrammar.BulletIs` | src/theforge/diagnose_types.py:1056-1058 | The same for the bullet pattern. |
| `BaselineGrammar.FilesAre` | src/theforge/diagnose_types.py:1089-1106 | Which lines form the block of files, and what each gives. |
| `BaselineMetadata.BulletReads` | src/theforge/diagnose_types.py:1056-1058 | A rendered bullet matches the bullet pattern and gives back path and digest, an empty digest as `unknown`. |
| `BaselineMetadata.FilesRead` | src/theforge/diagnose_types.py:1089-1106 | Rendered bullets followed by a blank line or nothing parse to exactly the file list. |
| `BaselineMetadata.RoundTripIff` | src/theforge/diagnose_types.py:1070-1111 | Parsing a rendered diagnosis gives back commit, timestamp and the whole file list if and only if neither field contains the inspected-files header with `##` right after it. |
| `BaselineMetadata.RoundTrip` | src/theforge/diagnose_types.py:1070-1111 | In particular always for fields without asterisks. |
| `BaselineMetadata.HijackedTimestamp` | src/theforge/diagnose_types.py:1086-1096 | Concrete fields for which the round trip fails. |
| `CriterionCohort.SelectCohort` | scripts/measure_criterion_gaming.py:205-293 | Each exclusion counter is the number of attempts its clause names, the issues listed are exactly those with a qualifying attempt, each list holds the issue's qualifying attempts once, by start text and then by place in the corpus, phase counts are the numbers of windowed attempts per phase (an empty one as UNKNOWN), and both window issue sets are exact. |
| `CriterionCohort.ClausesAre` | scripts/measure_criterion_gaming.py:247-282 | Which attempts each of the eight clauses names, and that an attempt is named by none exactly when it qualifies. |
| `CriterionCohort.ListIsInOrder` | scripts/measure_criterion_gaming.py:281-285 | An issue's list is its qualifying attempts, each once, by start text and then by place in the corpus. |
| `CriterionCohort.AttemptsAreConserved` | scripts/measure_criterion_gaming.py:205-293 | Every attempt is counted under exactly one exclusion clause or listed under its issue: the eight counters and the list lengths add up to the corpus. |
| `CriterionCohort.ByStartIsStableSort` | scripts/measure_criterion_gaming.py:284-285 | The per-issue sort loses nothing, orders by start text and keeps the corpus order of equal starts. |
| `CriterionCohort.SelectionGoverns` | scripts/measure_criterion_gaming.py:311-346 | The body decides exactly when one attempt's criterion is in it; otherwise the latest attempt is chosen, the first of equals; all others are skipped in order with the reason that fits. |
| `CriterionGaming.JoinIsUnique` | scripts/measure_criterion_gaming.py:398-427 | A commit is attached exactly when one indexed commit carries the title, whatever the issue state says. |
| `CriterionGaming.JoinFollowsRule` | scripts/measure_criterion_gaming.py:398-427 | Outcome, commit and reason from the index alone: the one commit under the title; nothing landed when there is none and the state says OPEN in any case; unresolved when there is none and it does not, or when several share the title. |
| `CriterionGaming.RefreshedFollowsRule` | scripts/measure_criterion_gaming.py:553-611 | Each refreshed fact, field by field, from the governing attempt and the fetched issue. |
| `CriterionGaming.RederivedFollowsRule` | scripts/measure_criterion_gaming.py:553-611 | Each re-derived fact from the recorded attempt and the cached issue, and when derivation fails. |
| `CriterionGaming.DeriveFacts` | scripts/measure_criterion_gaming.py:526-611 | Both modes cover the cohort issue by issue. Refreshed facts are about the governing attempt and the issue as fetched, re-derived ones about the first attempt with the recorded run id and the cached issue; verify mode stops at the smallest issue, for a run id no attempt has or else a missing basis. |
| `CriterionGaming.NoFaultsIffAdjudicated` | scripts/measure_criterion_gaming.py:640-663 | A row has no judgment problem exactly when it carries an answer, its justification, a class, and a source for the classes that need one. |
| `CriterionGaming.FaultsAre` | scripts/measure_criterion_gaming.py:640-663 | When each of the six judgment faults is found; an unset answer hides the others. |
| `CriterionGaming.CheckDrift` | scripts/measure_criterion_gaming.py:617-637 | The problem list holds exactly the missing rows, extra rows, drifted fields and judgment faults. |
| `CriterionGaming.NoDriftIffAgrees` | scripts/measure_criterion_gaming.py:614-637 | No field drifts exactly when the row has the derived run id, digest, commit, title and state. |
| `CriterionGaming.CrossCheckClassification` | scripts/measure_criterion_gaming.py:666-690 | The problem list holds exactly the rows whose classification contradicts the join outcome. |
| `CriterionGaming.RefreshFactsDocument` | scripts/measure_criterion_gaming.py:1077-1124 | The refreshed document has one row per cohort issue, each mechanical field that of the derived facts, with the prior judgments or a stub. |
| `CriterionGaming.RefreshThenVerify` | scripts/measure_criterion_gaming.py:1077-1124 | With unique run ids per issue, verification of a refreshed document on an unchanged corpus derives the very facts that were written, finds nothing but the faults the judgments already had, and a second refresh writes the same rows. |
| `CriterionGaming.NoDriftIffTwinAgrees` | scripts/measure_criterion_gaming.py:555-590 | Without that assumption: a refreshed row never stops verification, and shows no drift if and only if the first attempt with the chosen run id has the chosen one's criterion digest and normalized title. |
| `CriterionGaming.SharedRunIdDrifts` | scripts/measure_criterion_gaming.py:555-590 | Two attempts with one run id on which the refreshed row drifts at once. |
| `CriterionGaming.CleanRowsLanded` | scripts/measure_criterion_gaming.py:617-690 | When both checks pass, a row is classified symptom-only or cause-addressing if and only if its commit is the one commit carrying the recorded attempt's own title; the other classes have no commit. |
| `CriterionGaming.RollUpMeans` | scripts/measure_criterion_gaming.py:696-716 | Each list of the roll-up holds exactly its issues, and admitting issues split into unconfirmed, unresolved and resolved. |
| `CriterionGaming.Measure` | scripts/measure_criterion_gaming.py:1255-1264 | A run stops at the smallest issue whose row cannot be verified; otherwise it is rejected exactly when a drift or cross-check problem exists, with exactly those problems; otherwise rows are complete for exactly the cohort and agree with the facts on run, digest, commit, title and state, each roll-up list is given by the judgments themselves, every issue counted in M has a uniquely joined commit, and without an override the decision is to act exactly when a realised issue exists. |
| `Receipts.ExposureByPhase` | src/theforge/knowledge_receipts.py:303-342 | The exposure holds exactly the phases with prior-run context and the claims with a reference and a text shown in them, each with the record at its first place in manifest, group and claim order. |
| `Receipts.ShownKeysAre` | src/theforge/knowledge_receipts.py:303-342 | A phase and reference count as shown exactly when some manifest with prior-run context lists a claim of that reference with a text. |
| `Receipts.ClassifyEntries` | src/theforge/knowledge_receipts.py:620-670 | Every well-formed answer is classified once, in submission order, and nothing else is. |
| `Receipts.Collapse` | src/theforge/knowledge_receipts.py:687-703 | For every claim answered in a phase, the table holds an entry no other answer outranks. |
| `Receipts.CollapseIgnoresOrder` | src/theforge/knowledge_receipts.py:673-703 | Listing the same entries in any other order collapses to the same table. |
| `Receipts.DisagreementNeverBecomesUse` | src/theforge/knowledge_receipts.py:112-125 | A shown claim is counted as non-use if and only if some answer reported a non-use, as a use only when none did, and as unrecognised only when no answer came from the closed set. |
| `Receipts.LeadFollowsRule` | src/theforge/knowledge_receipts.py:673-703 | The answer that counts: stale if anybody said so, then irrelevant, already known, confirmed, prompted, changed, and words outside the set last; of equal weight the least role, then the earliest. |
| `Receipts.Unaddressed` | src/theforge/knowledge_receipts.py:748-764 | Exactly the shown claims nobody addressed are listed, by phase and reference. |
| `Receipts.ClaimsInjected` | src/theforge/knowledge_receipts.py:788-788 | The phase-by-phase sum is the number of distinct phase and claim pairs. |
| `Receipts.ClaimsAreConserved` | src/theforge/knowledge_receipts.py:767-797 | Shown claims equal uses, non-uses, unrecognised and unaddressed together, and what else the table holds are exactly the unmatched citations. |
| `Receipts.BuildReport` | src/theforge/knowledge_receipts.py:569-617 | From manifests and debriefs to counts: the report is withheld exactly when capture is missing; otherwise its counts are those of its own table and each is the number of shown claims its statement holds of: every non-use name by strongest answer, corroborated and uncorroborated uses by whether the leading answer's evidence all resolves; they balance, and the counted entry of every claim is its leading answer, word by word in the order of precedence, then by role and place, decided by its own word and evidence. |
| `Receipts.ReportIgnoresEntryOrder` | src/theforge/knowledge_receipts.py:620-703 | The collapsed table of a run, and so every count, is the same whatever order its entries are listed in. |
| `ChangelogText.ParseChangelog` | scripts/forward_port_guard.py:192-207 | The parsing loop computes the parse function the two lemmas below are about. |
| `ChangelogText.ParseRenders` | scripts/forward_port_guard.py:192-215 | Parsing loses no line, and puts headings and only headings at the head of sections. |
| `ChangelogText.RenderParses` | scripts/forward_port_guard.py:210-215 | Parsing a rendered changelog gives back its preamble and sections. |
| `ChangelogText.SplitJoin` | scripts/forward_port_guard.py:321-325 | Joining and splitting again is exact except that one trailing blank line is lost. |
| `ChangelogGuard.ProtectChangelog` | scripts/forward_port_guard.py:217-278 | The guard's loop, insertion, rendering and self-check compute the guard function the lemmas below are about. |
| `ChangelogGuard.RefusalIs` | scripts/forward_port_guard.py:228-260 | Which refusal comes when: no unreleased section in main first, then the first section that is neither unreleased, nor main's, nor a version, then the self-check. |
| `ChangelogGuard.RestoredFollowsRule` | scripts/forward_port_guard.py:235-257 | The rewritten sections are the carried ones in file order, with main's unreleased section where the merge first had one, or at the top. |
| `ChangelogGuard.ByKeyIsLast` | scripts/forward_port_guard.py:228-228 | Of main's sections with one key the last counts. |
| `ChangelogGuard.AcceptedIff` | scripts/forward_port_guard.py:217-313 | A port is let through if and only if main has an unreleased section, every merged section is classifiable, the rewritten text does not end in a blank line, and sections sharing a carried key are equal; the text then reads back as the merge with the roll taken out. |
| `ChangelogGuard.CheckOfWhole` | scripts/forward_port_guard.py:280-313 | On a text that reads back whole the self-check passes exactly when sections sharing a carried key are equal. |
| `ChangelogGuard.CheckOfTrimmed` | scripts/forward_port_guard.py:280-313 | A section that lost its trailing blank line always fails the self-check. |
| `ChangelogGuard.ProtectIsIdempotent` | scripts/forward_port_guard.py:217-278 | Guarding an accepted result once more is accepted and returns the same text. |
| `ChangelogGuard.TrailingBlankIsRefused` | scripts/forward_port_guard.py:280-325 | A concrete failing input: main and merge are the same text, whose unreleased section ends in a blank line, and the guard refuses its own rewrite. |
| `ChangelogGuard.TwinSectionsAreRefused` | scripts/forward_port_guard.py:280-313 | A concrete merge that repeats a carried key with another body is refused by the self-check. |
| `DaemonQueue.DaemonServer.HandleSubmit` | src/theforge/daemon.py:123-145 | A submission is refused exactly when its slug is running or queued; otherwise it goes last in the queue, the specs, the slugs and the shown queue, at the position returned. |
| `DaemonQueue.DaemonServer.TakeNext` | src/theforge/daemon.py:157-165 | The waiting loop takes the head of the queue and nothing else changes; its slug still counts as queued. |
| `DaemonQueue.DaemonServer.BeginSprint` | src/theforge/daemon.py:167-189 | Starting a sprint names it running and takes its slug out of the queued specs and slugs. |
| `DaemonQueue.DaemonServer.EndSprint` | src/theforge/daemon.py:260-272 | Ending a sprint appends it to the completed list, cut to the last twenty, and frees the running name; a crash whose report raises does neither. |
| `DaemonQueue.StepKeepsInv` | src/theforge/daemon.py:157-272 | Every step keeps the books: accepted jobs are the ended ones, the one in hand and the queue, in order, and specs, slugs and shown queue all describe the jobs not yet begun. |
| `DaemonQueue.ExactlyOnceInOrder` | src/theforge/daemon.py:123-272 | Over every interleaving: sprints end in acceptance order, each accepted job once; no two live jobs share a slug; a slug is refused exactly when it is live or the last sprint crashed under it unrecorded; the completed list, and the shown one, are the last twenty recorded sprints in the order they ended. |
| `DaemonQueue.UnrecordedCrashStaysRefused` | src/theforge/daemon.py:236-275 | A concrete failing run: after one job whose crash report raises nothing is live and nothing was recorded, its slug is still refused, and is accepted again once another sprint begins. |
| `DaemonQueue.EverythingAcceptedEnds` | src/theforge/daemon.py:157-272 | From every reachable state the loop alone can bring every accepted job to its end. |

## Left out

- File, git, `gh`, socket, fork and launchd operations, clocks and random generators: their results are parameters, and a file write is one atomic step.
- Regular-expression, YAML, TOML and AST engines, Unicode normalization and SHA-256: heading keys, version keys, token sets, normal forms and digests are given functions or fields; the finding fingerprint is taken as injective. The baseline patterns are modelled character by character, with letter case in ASCII; white space is ASCII throughout.
- `protect_pyproject` and `resolve` of the forward-port guard, and its report lines: they rest on the TOML parser and on `git merge-file`.
- Line breaks other than `\n`, which Python's `splitlines` also honours.
- Rationale strings, audit blocks, rendered reports, prompt builders, ideation, the indexer and knowledge-effectiveness metrics: stringy or reporting only.
- The modules that supply profile signals, capability records, account availability, authentication and reviewer value: their answers are arbitrary inputs of the router.
- Floating-point rounding: costs and rates are exact reals.
- AdvisoryArtifact.MergeObservations: an unreadable file counts as an empty artifact before the merge, and that read error is not modelled; failing writes and locks are, as worker failures.
- AdvisoryWorkers.SomeoneCanStep: says that some worker can step, not that each one eventually does; lock fairness is the operating system's.
- AdvisoryWorkers.AllObservationsSurvive: assumes the retention window covers the run, because the code drops older unobserved entries by design.
- FindingRegistry.UpdateVerdict: assumes cycle numbers increase, as the coordinator's do.
- Exploration.EveryoneGetsEvidence: fixes the winner, the least-sampled mode and an open budget, and takes every model to have an aggregate, because the bound is about that regime.
- Assignment.AssignModels: agent names are distinct and the declared dev tier is on the ladder, as the configuration guarantees; the dev profile rerank is one score per agent; of several refused pins the first in role order is named.
- Reviewers.SelectReviewers: agents of one tier with equal budget and price are listed in either order; the self-review and health guarantees are about selection; the later budget pass may seat a reviewer they would have avoided.
- BudgetCost.EnforcementNeverRaisesCost: one direction only; whether an enforcement that the ten-pass limit cuts off ends dearer depends on how its passes add up, and only finished ones have the exact condition (`FinishedNeverDearerIff`).
- DiagnosisUpsert.OthersSurvive: trailing white space of the text is its trailing blank lines.
- BaselineMetadata.RoundTripIff: fields are single-line, as commit ids, timestamps and paths are, and what is rendered before the baseline has no asterisk, as in the renderer.
- CriterionGaming.Measure: the window checks of the command line and the rendering of the measurement are not modelled; the order of the problem list is not stated.
- Receipts.BuildReport: the per-phase status blocks and evidence-pointer resolution are not modelled; fields are taken after trimming and lower-casing.
- DaemonQueue.ExactlyOnceInOrder: shutdown is not modelled, and the hand-over from queue to loop may be interrupted by submissions, which allows at least every order the event loop does.
- Acyclicity of decomposition slices: the code checks only undeclared and self dependencies, so nothing is claimed.

# Verified model of the LoomGraph evaluation pipelines

LoomGraph's `evals/` directory holds two pipelines whose results are only worth something if their bookkeeping is
right. This project models both and proves what they promise.

**The preregistered pilot and its auditor** (V9, with V3, V5, V6 and V7 as reference forms). A pilot freezes a matrix
of cells (task, replicate, arm), runs them one after the other in a counterbalanced order, writes every artifact
exclusively, gates after each cell and ends in a stop record or a results record (`Pilot`). Before it, a calibration
fixes the fingerprints of the command surfaces its cells must show (`Surface`, `Fingerprints`, `Calibration`). The
auditor accepts or refuses what a run left (`PilotAudit`), rebuilds the truth from retained event streams (`Stream`,
`RawResponse`), resolves answers against a syntax tree (`Resolver`), re-evaluates them (`Evaluator`), passes its verdict
on every cell (`CellAudit`) and decides whether a larger cohort may be requested (`Gate`). `Quartiles` holds the
interpolating quartile rule, definition 7 of Hyndman and Fan (1996).

**The DeepSWE cohort**: select tasks from a dataset (`Patch`, `Selection`, `Manifest`), plan their runs (`Plan`),
discover and read what the runs left (`Discovery`, `Inference`, `Candidates`), pair and summarise it (`Pairing`), and
the whole way from plan to pairs (`Cohort`).

`Common`, `Decimal`, `Sorting`, `Grouping`, `Sequences`, `Paths` and `Json` are shared vocabulary.

Code that works step by step is a method with its loops, proved against a function or a property that does not mention
the loop; the laws are lemmas about those functions. Task lists, replicate counts, record lists and event streams have
arbitrary length; the two-by-two-by-two matrix of the pilot appears nowhere. What lies outside is a parameter: the JSON decoder, the
digest, the printed form of a dictionary key, the shuffle (any permutation), each cell's outcome (any value), and the
parsed source files. Durations and quartiles are exact reals.

Places where the code promises less than its surroundings suggest, each with its exact condition or an input:

- a completed run is read from `output/run.json`, which names no replicate, so the replicate comes from the path; a
  match in the output root, a task id or a stratum is found first and replaces it (`Cohort.CompletedReadsOwnIff`,
  `Cohort.MarkedTaskId`);
- run directories of different tasks coincide on disk exactly when the tasks' directories do, which an absolute stratum
  or one that steps upwards can bring about (`Plan.RunDirsDistinctIff`), and pair keys coincide exactly when the texts of
  task id, colon and stratum do (`Plan.PairKeyEqualIff`);
- a path headed twice in a patch, as new and as existing, is listed under both kinds (`Patch.KindsDisjointIff`);
- the expansion gate depends on record order exactly when a pair with a valid record in each arm also has an invalid one
  (`Gate.ReportOrderFreeIff`); the auditor's own records are never of that kind;
- a run with a runner record but no orientation is summarised twice (`Discovery.OneRowIff`); the runner writes its
  orientation first, so only outside interference leaves this state;
- surface normalisation is not always idempotent (`Surface.IdempotentIff`);
- taken alone, the normaliser cannot tell certain binaries apart that read like markers
  (`Fingerprints.NormalFormsAgreeIff`); the runner reads its binary as the operand of an option, its argument parser
  refuses such texts there, and for operands the fingerprint does pin the binary (`Fingerprints.NormalFormPinsTheSetting`).

Check everything with `dafny verify dfyconfig.toml` (Dafny 4.11).

## Model

| member | source | states |
|---|---|---|
| Quartiles.QuartilesOrdered | evals/audit_temporal_review_v3_pilot.py:250-261 | min ≤ q1 ≤ median ≤ q3 ≤ max, for all values and any bounds on them |
| Quartiles.QuartilesPermutationInvariant | evals/audit_temporal_review_v3_pilot.py:251-254 | the summary of a permuted list is the same |
| Quartiles.QuartilesMonotone | evals/audit_temporal_review_v3_pilot.py:250-261 | if every delta grows, position by position, so do all three quartiles |
| Quartiles.QuartilesNegated | evals/audit_temporal_review_v3_pilot.py:250-261 | swapping the arms negates the median, sends q1 to -q3 and q3 to -q1, and keeps the spread |
| Quartiles.SummariserMatchesAuditor | evals/deepswe/summarize_claude_target_cohort.py:527-535 | the summariser's median and inclusive quantiles equal the auditor's hand-written rule on every input, with the right count |
| Quartiles.QuartilesAreRanks | evals/audit_temporal_review_v3_pilot.py:250-261 | with 4k + 1 values the three quartiles are the values of ranks k, 2k and 3k |
| Quartiles.QuartilesOfTwo | evals/audit_temporal_review_v3_pilot.py:250-261 | between two values they lie a quarter, a half and three quarters of the way |
| Pairing.CollectArms | evals/deepswe/summarize_claude_target_cohort.py:471-483 | the dictionary loop holds, for every identity in order of appearance, exactly the rows of each arm |
| Pairing.PairEfficiency | evals/deepswe/summarize_claude_target_cohort.py:471-524 | the loop yields the specified pairs, in the order of the printed identities |
| Pairing.OnePairPerIdentity | evals/deepswe/summarize_claude_target_cohort.py:484-488 | one pair for each identity with rows in both arms, and no other |
| Pairing.PairsAscend | evals/deepswe/summarize_claude_target_cohort.py:485-488 | pairs come in ascending order of their printed identities |
| Sorting.SortByTextIs | evals/deepswe/summarize_claude_target_cohort.py:485 | sorting by a text ascends in it and keeps the order of elements with the same text |
| Sorting.TextLeIff | evals/deepswe/summarize_claude_target_cohort.py:485 | the order of texts: a start of the other, or smaller at the first difference |
| Pairing.DeltaIffClean | evals/deepswe/summarize_claude_target_cohort.py:489-524 | a pair is eligible and carries treatment minus baseline exactly when each arm has one valid row with a finite time; a duplicated arm never yields a delta |
| Pairing.PairReadsItsRows | evals/deepswe/summarize_claude_target_cohort.py:471-524 | a pair read off the rows: it names the first row of each arm of its identity, gives each of the five reasons exactly when it applies, and carries treatment minus baseline exactly when none does |
| Pairing.RowsMakeAPair | evals/deepswe/summarize_claude_target_cohort.py:471-488 | rows of both arms that agree in task, stratum, mode, runtime and replicate make a pair of that identity |
| Pairing.PairingIgnoresRowOrder | evals/deepswe/summarize_claude_target_cohort.py:471-524 | identity, eligibility and delta of every pair survive any permutation of the rows, duplicates included |
| Pairing.SummariseGroup | evals/deepswe/summarize_claude_target_cohort.py:545-567 | the walk over a group's members computes its counts and its deltas |
| Pairing.CollectGroups | evals/deepswe/summarize_claude_target_cohort.py:538-544 | the grouping loop, against order-preserving grouping |
| Pairing.SummarizeGroups | evals/deepswe/summarize_claude_target_cohort.py:538-568 | the group report, against its specification |
| Pairing.GroupsAscend | evals/deepswe/summarize_claude_target_cohort.py:546 | one group for each key, in ascending order of the printed keys |
| Pairing.GroupingConservesPairs | evals/deepswe/summarize_claude_target_cohort.py:538-568 | the groups partition the pairs: their multisets add up and `n_pairs` sums to the number of pairs |
| Pairing.GroupsAreHomogeneous | evals/deepswe/summarize_claude_target_cohort.py:540-544 | a group holds exactly the pairs with its task, stratum, runtime and mode, in input order; no key has two groups |
| Pairing.SameGroupIff | evals/deepswe/summarize_claude_target_cohort.py:540-544 | two pairs are in one group if and only if task, stratum, runtime and mode agree, whatever their replicates |
| Pairing.QuartileCountIsEligibleCount | evals/deepswe/summarize_claude_target_cohort.py:503-509 | for pairs from `pair_efficiency` the quartile count of a group is its eligible count |
| Pairing.SummaryIgnoresRowOrder | evals/deepswe/summarize_claude_target_cohort.py:471-568 | rows to statistics: any permutation of the rows reports the same groups, counts and quartiles in the same order |
| Plan.BuildRuns | evals/deepswe/run_claude_target_cohort.py:360-404 | the innermost loop appends one run per arm, in the replicate's order, with its directories and metadata |
| Plan.BuildReplicates | evals/deepswe/run_claude_target_cohort.py:355-404 | the replicate loop, against the specified replicate plans |
| Plan.BuildTasks | evals/deepswe/run_claude_target_cohort.py:349-404 | the task loop, against the specified task plans |
| Plan.BuildPlan | evals/deepswe/run_claude_target_cohort.py:331-425 | refuses unknown modes, fewer than one replicate and a tool budget below two, in that order; otherwise builds the nested plan |
| Plan.PlanRunsAreThePlannedRuns | evals/deepswe/run_claude_target_cohort.py:349-404 | executing the nested plan runs exactly the planned runs in order |
| Plan.PlanIsCounterbalanced | evals/deepswe/run_claude_target_cohort.py:349-404 | task i, replicate r takes places 2(i · replicates + r − 1) and the next, baseline first when r is odd and treatment first when it is even; each run on its fields, directory by directory |
| Plan.PlanHeads | evals/deepswe/run_claude_target_cohort.py:349-404 | per task its fields, per replicate its label, its order by parity and its pair key |
| Plan.RunDirsDistinctIff | evals/deepswe/run_claude_target_cohort.py:174-182 | no two runs share a directory of the file system, upward steps resolved, if and only if no two tasks' directories coincide |
| Plan.RelativeStrataSuffice | evals/deepswe/run_claude_target_cohort.py:174-182 | distinct task names with strata that are relative and never step upwards give distinct run directories |
| Plan.PlaceableIff | evals/deepswe/run_claude_target_cohort.py:174-182 | which task ids are one path component and which strata stay below a directory, on their texts |
| Plan.AbsoluteStratumCollides | evals/deepswe/run_claude_target_cohort.py:174-182 | with an absolute stratum they do not |
| Plan.UpwardStratumCollides | evals/deepswe/run_claude_target_cohort.py:174-182 | with a stratum that steps upwards into another task's directory they do not either |
| Plan.PairKeyEqualIff | evals/deepswe/run_claude_target_cohort.py:354 | two pair keys are one text if and only if the replicates agree and the texts of task id, colon and stratum do |
| Plan.PlanKeysDistinctIff | evals/deepswe/run_claude_target_cohort.py:349-404 | the pair keys of a plan are pairwise different if and only if its task labels are |
| Plan.ColonFreeIdsSuffice | evals/deepswe/run_claude_target_cohort.py:349-404 | distinct task ids without a colon give distinct pair keys, whatever the strata |
| Plan.ColonCollision | evals/deepswe/run_claude_target_cohort.py:354 | two tasks whose labels are one text, so that the keys of a plan are not distinct |
| Decimal.LabelRoundTrip | evals/deepswe/summarize_claude_target_cohort.py:183-188 | the two-digit label of a replicate reads back to that replicate, for every replicate |
| Decimal.LabelText | evals/deepswe/run_claude_target_cohort.py:174-182 | a label below one hundred is its two digits; a longer one has no leading zero |
| Decimal.LabelInjective | evals/deepswe/run_claude_target_cohort.py:174-182 | different replicates have different labels |
| Cohort.RowReadsBack | evals/deepswe/summarize_claude_target_cohort.py:308-345 | a planned run is read back as a pairable row of its own task and arm, under the replicate its record or its path gives |
| Cohort.Study.RowReads | evals/deepswe/summarize_claude_target_cohort.py:308-345 | a row, field by field: the record speaks before the packet and both before the path; stratum of the task, outcome of the root |
| Cohort.PlannedArm | evals/deepswe/summarize_claude_target_cohort.py:461-488 | where every run reads its own replicate, each arm of a planned identity holds exactly the row of its one run |
| Cohort.PlanSurvivesTheRoundTrip | evals/deepswe/summarize_claude_target_cohort.py:398-524 | end to end, from discovered files: pairing yields the tasks × replicates planned identities, one pair each, if and only if every run reads its own replicate; each pair then joins the two arms of one planned pair |
| Cohort.ReadsOwnIff | evals/deepswe/summarize_claude_target_cohort.py:183-197 | a run reads its own replicate if and only if it left no runner record, or nothing in output root, task id and stratum names another replicate |
| Cohort.CompletedReadsOwnIff | evals/deepswe/summarize_claude_target_cohort.py:183-197 | with every run completed and at least two replicates: if and only if output root, task ids and strata match neither path pattern |
| Cohort.MisreadLosesItsPair | evals/deepswe/summarize_claude_target_cohort.py:461-488 | a misread run costs its planned identity the pair |
| Cohort.MarkedTaskId | evals/deepswe/summarize_claude_target_cohort.py:195-197 | task id "fix-rep-2": every replicate is read as the second |
| Cohort.DiscoveredRows | evals/deepswe/summarize_claude_target_cohort.py:398-458 | however the discovered directories are listed, the rows are those of the planned runs, one each |
| Cohort.OutputIsPlanned | evals/deepswe/run_claude_target_cohort.py:360-362 | what discovery takes for a run's output is the plan's output directory; which rows a run leaves, on its paths |
| Cohort.DirsAreSeparate | evals/deepswe/run_claude_target_cohort.py:174-182 | no planned run directory is, or lies inside, another run's directory or output |
| Cohort.OrientedSource | evals/deepswe/summarize_claude_target_cohort.py:417-444 | the row of a run with a packet is read from the runner's record if there is one, else from the driver's |
| Inference.PlannedPath | evals/deepswe/summarize_claude_target_cohort.py:189-197 | the replicate a planned run's path names: the leftmost match before its own directory, by arm pattern first, and its own replicate if there is none |
| Inference.PathReplicateIff | evals/deepswe/summarize_claude_target_cohort.py:189-197 | for every path: the number behind the first arm and mode in it, or, where there is none, behind the first `rep` or `replicate`, each word, separator and digit spelled out |
| Inference.TaskIsInferred | evals/deepswe/summarize_claude_target_cohort.py:200-208 | the record's task, else the longest target that a part of the path contains, the earlier of equally long ones |
| Inference.InferredFromFields | evals/deepswe/summarize_claude_target_cohort.py:165-198 | condition, mode and replicate from record, packet and path: the record first, then the packet, and for an unknown value the first such word of the path; a positive numeral before the path |
| Discovery.Discover | evals/deepswe/summarize_claude_target_cohort.py:398-415 | one row per orientation root and per metadata directory with no orientation at or below it; the packet or metadata file of each; never two rows for one directory |
| Discovery.ReadRecord | evals/deepswe/summarize_claude_target_cohort.py:422-430 | the record of an orientation row is the first of `run.json`, `driver-run.json` and the driver's record one level up that can be read |
| Discovery.CollectOrientations | evals/deepswe/summarize_claude_target_cohort.py:401-404 | every orientation file's run root is a key, and the last file of a root is the one kept |
| Discovery.CollectMetadata | evals/deepswe/summarize_claude_target_cohort.py:408-414 | one pass of the metadata loop: the uncovered directories of one file name, the first entry staying |
| Discovery.NothingIsLost | evals/deepswe/summarize_claude_target_cohort.py:398-415 | of the two dictionaries: every orientation file's root is a key; a metadata file's directory is a key exactly when no orientation root is at or below it, and its entry is that file unless it is a driver record beside a runner's; every entry is one of the files |
| Discovery.DiscoveredOnPaths | evals/deepswe/summarize_claude_target_cohort.py:161-162 | the two dictionaries on their paths, the `artifacts` directory and both metadata names spelled out |
| Discovery.RecordOnPaths | evals/deepswe/summarize_claude_target_cohort.py:422-430 | which of the three record files is read, by path, and what is read when none can be |
| Discovery.RowSourceOnPaths | evals/deepswe/summarize_claude_target_cohort.py:417-444 | what a row is read from: record and packet of an orientation root, the metadata file alone otherwise |
| Discovery.RowsOfTheCohort | evals/deepswe/summarize_claude_target_cohort.py:398-415 | for the files that runs of separate directories leave, the rows are exactly those of the runs |
| Discovery.OneRowIff | evals/deepswe/summarize_claude_target_cohort.py:405-414 | a run directory has exactly one row at or below it if and only if the run left an orientation or just one metadata file; two if and only if it left both metadata files alone |
| Candidates.CandidatePaths | evals/deepswe/summarize_claude_target_cohort.py:238-255 | the loop keeps the first five usable paths in order and each kind of complaint once |
| Candidates.CleanIffAllUsable | evals/deepswe/summarize_claude_target_cohort.py:238-255 | no complaint if and only if there is a candidate and every candidate is a relative path |
| Candidates.ReasonsMean | evals/deepswe/summarize_claude_target_cohort.py:238-255 | what each complaint of a packet says about its candidates |
| Candidates.UsableIff | evals/deepswe/summarize_claude_target_cohort.py:101-103 | a usable candidate, on its path text: no leading slash, no upward segment, some proper segment |
| Candidates.ScoredPaths | evals/deepswe/summarize_claude_target_cohort.py:101-103 | what is scored is the path of a listed candidate, relative and free of upward steps |
| Paths.SegmentsOfText | evals/deepswe/summarize_claude_target_cohort.py:101-103 | how a path reads from its text, segment by segment |
| Patch.PatchPaths | evals/deepswe/build-target-manifest.py:49-60 | the header targets in order, each once, or the first malformed header |
| Patch.ProductionPaths | evals/deepswe/build-target-manifest.py:63-68 | their production part, with the same failures |
| Patch.SectionsOnLines | evals/deepswe/build-target-manifest.py:71-95 | a patch line by line: a well-formed header opens a section, new if a "new file mode" line stands before the next header |
| Patch.HeaderOnText | evals/deepswe/build-target-manifest.py:49-60 | a header is a line that starts with "diff --git a/"; its target is what follows the first " b/" |
| Patch.FirstMalformedIs | evals/deepswe/build-target-manifest.py:49-60 | the line a patch is refused for: its first header without any " b/" |
| Patch.ProductionIff | evals/deepswe/build-target-manifest.py:42-68 | a production path: none of its segments is one of the five names |
| Patch.ProductionPathsByKind | evals/deepswe/build-target-manifest.py:71-95 | the line state machine files exactly the sections of the patch under their kind, with the same failures |
| Patch.KindsCoverProduction | evals/deepswe/build-target-manifest.py:63-95 | on every line sequence existing and new together are the production paths, and neither list repeats a path |
| Patch.KindsDisjointIff | evals/deepswe/build-target-manifest.py:71-95 | the lists are disjoint if and only if no production path is headed both ways |
| Patch.KindsAreFilters | evals/deepswe/build-target-manifest.py:71-95 | then each list is the production list filtered by kind, in order |
| Patch.DistinctHeadersNeverMix | evals/deepswe/build-target-manifest.py:71-95 | headers that repeat no path never mix kinds |
| Patch.RepeatedHeaderIsInBothLists | evals/deepswe/build-target-manifest.py:71-95 | a path headed as new and again as existing is in both lists |
| Patch.RepeatedHeaderExists | evals/deepswe/build-target-manifest.py:71-95 | such a patch exists |
| Selection.EligibleTasks | evals/deepswe/build-target-manifest.py:106-135 | each entry of the right size is filed, in order, under the first stratum of its language; a malformed patch fails the whole, with the first malformed header of the first such patch |
| Selection.EligibleOnFields | evals/deepswe/build-target-manifest.py:106-135 | who is eligible where: each stratum by name and languages, each candidate by the fields of its entry, one to six targets, the excluded task left out |
| Selection.BrokenIff | evals/deepswe/build-target-manifest.py:106-119 | which entry breaks the build, on its fields and lines |
| Selection.SelectStratum | evals/deepswe/build-target-manifest.py:144-151 | the walk with skip and break takes the first candidates of new repositories, at most four |
| Selection.Select | evals/deepswe/build-target-manifest.py:138-154 | the strata in order, or the first stratum that falls short |
| Selection.SelectionSucceedsIff | evals/deepswe/build-target-manifest.py:138-154 | for every shuffle, success if and only if each stratum has at least four repositories |
| Selection.ShortageIsTheFirst | evals/deepswe/build-target-manifest.py:152-153 | the reported stratum is the first that falls short, with its number of repositories |
| Selection.PicksAreFirst | evals/deepswe/build-target-manifest.py:144-151 | exactly four picks per stratum, from four repositories, each the first candidate of its repository in the walk |
| Selection.PicksFollowTheWalk | evals/deepswe/build-target-manifest.py:144-151 | picks keep the order of the walk |
| Selection.SelectionShape | evals/deepswe/build-target-manifest.py:138-154 | four picks per stratum, strata in order |
| Manifest.BuildManifest | evals/deepswe/build-target-manifest.py:157-196 | eligible, select and describe: the manifest rows, or the first malformed header of the first malformed patch, the first short stratum, or the first task the dataset does not list |
| Manifest.Describe | evals/deepswe/build-target-manifest.py:160-180 | one row per pick in order, or the first pick without a dataset digest |
| Manifest.WalkIs | evals/deepswe/build-target-manifest.py:138-142 | a stratum's walk: its candidates in ascending task id, one id's duplicates in dataset order, then shuffled |
| Manifest.BuiltRowsDescribeEntries | evals/deepswe/build-target-manifest.py:160-180 | every row describes an entry of the dataset, field by field; there are twelve, four of each of the three strata |
| Manifest.CountStrata | evals/deepswe/run_claude_target_cohort.py:55-85 | the counting dictionary holds each stratum's number of rows |
| Manifest.LoadFrozen | evals/deepswe/run_claude_target_cohort.py:55-85 | accepts the rows exactly when none of the frozen checks complains, and reports the first complaint |
| Manifest.FrozenIff | evals/deepswe/run_claude_target_cohort.py:55-85 | what the frozen check accepts, on the rows |
| Manifest.FrozenAcceptsIff | evals/deepswe/run_claude_target_cohort.py:55-85 | a built manifest passes the frozen twelve-row, three-by-four check if and only if its ids are present and unique |
| Manifest.UniqueDatasetIsAccepted | evals/deepswe/build-target-manifest.py:157-196 | a dataset with present, unique ids builds an accepted manifest whenever its strata can be filled |
| Manifest.FallbackScoresAlike | evals/deepswe/summarize_claude_target_cohort.py:69-92 | scoring against the production list or against the union of existing and new paths gives the same hits |
| RawResponse.ValidReportsTheContract | evals/temporal_review_v9_fixtures.py:281-301 | a valid observation reports the frozen references, backends, provisioning states and comparison of its contract |
| RawResponse.ValidIff | evals/temporal_review_v9_fixtures.py:281-301 | validity on the decoded fields: success, both frozen commits by alias and sha, known states, text workspaces and the six frozen comparison fields, and nothing else; the first group that fails names the reason |
| RawResponse.UndecodableIsInvalid | evals/temporal_review_v9_fixtures.py:284-286 | what is no object and no text of one is invalid |
| Stream.RawBranchDiff | evals/audit_temporal_review_v9_pilot.py:91-136 | the nested loops with their id table compute the replay of the stream |
| Stream.ReadItem | evals/audit_temporal_review_v9_pilot.py:100-135 | one content item: a tool use rebinds its id, a result of the branch-diff tool adds its text parts |
| Stream.ReplayIsDeclared | evals/audit_temporal_review_v9_pilot.py:91-136 | sound and complete: the rows are, in order, the text parts of exactly those results whose id's latest earlier binding is the branch-diff tool; the names are exactly the ordered named tool uses |
| Stream.ResultIsRead | evals/audit_temporal_review_v9_pilot.py:109-134 | a result whose latest use of its id is the branch-diff tool: one text gives one response, a list one for each text part in order, anything else none; index, id, digest, decoded value and observation spelled out |
| Stream.UseIsRecorded | evals/audit_temporal_review_v9_pilot.py:104-108 | a named tool use adds its name and no response |
| Stream.OthersAreIgnored | evals/audit_temporal_review_v9_pilot.py:101-115 | every other item changes nothing |
| Stream.BareEventIsIgnored | evals/audit_temporal_review_v9_pilot.py:95-101 | an event without items, or without a list of them, changes nothing |
| Stream.FlatIs | evals/audit_temporal_review_v9_pilot.py:97-101 | which items a stream has: those of each event whose message holds a list, under that event's index |
| Stream.ReplayResumes | evals/audit_temporal_review_v9_pilot.py:91-136 | replay of a concatenated stream is replay continued from the carried state |
| Stream.StreamPayload | evals/audit_temporal_review_v9_pilot.py:82-88 | the backward search finds the last result event with a payload, and its payload |
| Stream.FinalIndexV7 | evals/audit_temporal_review_v7_pilot.py:217-231 | V7's search for the index meets the same specification |
| Stream.FinalPayloadV7 | evals/audit_temporal_review_v7_pilot.py:61-69 | V7's search for the payload, likewise |
| Stream.PayloadOnFields | evals/audit_temporal_review_v9_pilot.py:59-70 | the payload of a result event, on its fields |
| Stream.FusedSearchAgrees | evals/audit_temporal_review_v9_pilot.py:82-88 | the fused search returns exactly what the two separate ones return, on every stream |
| Stream.ReplayAscends | evals/audit_temporal_review_v9_pilot.py:97-136 | rebuilt event indexes never decrease |
| Stream.PreFinalIsPrefix | evals/audit_temporal_review_v9_pilot.py:425-427 | the rows before the final result are a prefix of all rows |
| Stream.SelectedIsLastResponse | evals/audit_temporal_review_v9_pilot.py:418-439 | with a valid treatment trace the selected response is the last one of the whole stream and precedes the final result |
| Stream.SelectedIsLastValid | evals/audit_temporal_review_v9_pilot.py:425-429 | on any trace the selected response is the last valid one before the final result |
| Stream.ValidBaselineHasNoRows | evals/audit_temporal_review_v7_pilot.py:274-296 | a valid baseline tool trace leaves no branch-diff rows |
| Stream.ToolTraceOnFields | evals/audit_temporal_review_v9_pilot.py:440-451 | when a tool trace is valid, on the reported texts |
| Stream.CertificateNamesLastResponse | evals/audit_temporal_review_v9_pilot.py:488-501 | a matching certificate on a valid treatment trace names the stream's last response and its comparison |
| Stream.CertificateOnFields | evals/audit_temporal_review_v9_pilot.py:488-501 | a certificate matches if and only if it names event, call, digest and comparison of the selected response; a baseline's if and only if there is none |
| Pilot.OrderIsPermutation | evals/run_temporal_review_v9_pilot.py:232-237 | the counterbalanced order visits exactly the expected cells |
| Pilot.ArmsAreAdjacent | evals/run_temporal_review_v9_pilot.py:232-237 | where each cell stands: both arms of a task and replicate are neighbours, baseline first in odd replicates |
| Pilot.ExpectedCellsAt | evals/run_temporal_review_v9_pilot.py:56-62 | where each expected cell stands: task by task, replicate by replicate, baseline first |
| Pilot.OrderDistinct | evals/run_temporal_review_v9_pilot.py:56-62 | no cell is planned twice |
| Pilot.RunRoot.MakeDirectory | evals/run_temporal_review_v9_pilot.py:289-291 | fails on a directory that exists |
| Pilot.RunRoot.CreateExclusive | evals/run_temporal_review_v9_pilot.py:50-53 | creates a file that is new and changes nothing otherwise |
| Pilot.Stop | evals/run_temporal_review_v9_pilot.py:160-182 | the stop record: trigger, count and remaining cells |
| Pilot.GateOnOutcomes | evals/run_temporal_review_v9_pilot.py:393-412 | what the gate lets through, on the fields of an outcome |
| Pilot.RunCells | evals/run_temporal_review_v9_pilot.py:289-415 | the gated loop leaves exactly the specified files and runs, and no exclusive creation in it fails |
| Pilot.RunPilot | evals/run_temporal_review_v9_pilot.py:215-415 | refuses a wrong model or budget or an existing root and then changes nothing; otherwise leaves exactly the specified files and result |
| Pilot.OpeningIs | evals/run_temporal_review_v9_pilot.py:239-287 | what a run leaves besides its cells: a stop record alone, design and stop record, or design and environment |
| Pilot.ExactlyOneClosingRecord | evals/run_temporal_review_v9_pilot.py:274-287 | for every outcome one of stop record and results record is written, and it is the one the result reports |
| Pilot.StopConservesCells | evals/run_temporal_review_v9_pilot.py:393-412 | executed cells followed by remaining cells are the preregistered order; all records but the last passed the gate, the last failed it and is the trigger; the stage is right |
| Pilot.CompletesIffEveryCellPasses | evals/run_temporal_review_v9_pilot.py:393-415 | completion if and only if every planned cell passes the gate; then all cells are reported in order |
| Pilot.DriverRecordsAreTheRuns | evals/run_temporal_review_v9_pilot.py:391-392 | a cell has a driver record if and only if it ran, and it is the record reported |
| Pilot.ArtifactPaths | evals/run_temporal_review_v9_pilot.py:289-291 | where the artifacts stand under the root |
| PilotAudit.AuditIsSound | evals/audit_temporal_review_v9_pilot.py:303-343 | whatever root the auditor accepts reports every planned cell exactly once and holds its driver record |
| PilotAudit.OrderCheckSubsumesMatrixCheck | evals/audit_temporal_review_v9_pilot.py:320-343 | the observed-order check implies the set and length checks before it |
| PilotAudit.CompletedDriverDirs | evals/audit_temporal_review_v9_pilot.py:642-651 | after a completed run the discovered driver directories are exactly the expected ones |
| PilotAudit.AuditAcceptsExactlyCompletedRuns | evals/audit_temporal_review_v9_pilot.py:270-344 | the auditor's structural checks accept what a run leaves if and only if the run completed |
| PilotAudit.AcceptedIff | evals/audit_temporal_review_v9_pilot.py:270-344 | what the structural checks accept, on any files |
| Gate.PairsByTask | evals/audit_temporal_review_v9_pilot.py:580-589 | the appending loops collect one verdict per present pair, per task |
| Gate.ExpansionGate | evals/audit_temporal_review_v9_pilot.py:578-639 | every number of the report is the size of the set or filtered list it is meant to count; eligibility is the stated conjunction |
| Gate.CountRows | evals/audit_temporal_review_v9_pilot.py:592-614 | each failure count is the number of records that fail in that way |
| Gate.PairedNavigation | evals/audit_temporal_review_v7_pilot.py:450-471 | V7's first step fails if and only if a matrix baseline lacks its treatment |
| Gate.ExpansionGateV7 | evals/audit_temporal_review_v7_pilot.py:474-540 | on every other record list the two-step gate gives the V9 report, the same one when there is no protocol stop |
| Gate.UnpairedOnRecords | evals/audit_temporal_review_v7_pilot.py:450-471 | when V7's first step fails, on the records |
| Gate.PairRowsAre | evals/audit_temporal_review_v7_pilot.py:450-471 | V7's pair records, replicate by replicate |
| Gate.ReportIgnoresRowOrder | evals/audit_temporal_review_v9_pilot.py:578-639 | with unique cells any permutation of the records gives the same report |
| Gate.ReportOrderFreeIff | evals/audit_temporal_review_v9_pilot.py:581-591 | the report is the same for every permutation of the records if and only if each matrix pair whose two arms both have a valid record has valid records only |
| Gate.PairsNeedTwoValidRows | evals/audit_temporal_review_v9_pilot.py:582-591 | twice the pair count never exceeds the number of valid records, on any list |
| Gate.EligibleNeedsSixValidRows | evals/audit_temporal_review_v9_pilot.py:615-624 | eligibility needs six valid records and a complete pair of every task |
| Gate.EligibleIff | evals/audit_temporal_review_v9_pilot.py:615-624 | when a report is eligible, on the records of any list |
| Gate.CountsOnRecords | evals/audit_temporal_review_v9_pilot.py:592-614 | each failure count is the number of records with that failure, on their fields |
| Gate.PairsOnRecords | evals/audit_temporal_review_v9_pilot.py:580-591 | the pair counts, overall and per task: pairs of which the last records of both arms are valid |
| Gate.AuditRowsAreComplete | evals/audit_temporal_review_v9_pilot.py:652-659 | the auditor's own records have unique cells and no orphan, so neither gate fails on them |
| Gate.EveryPairIffEveryRowValid | evals/audit_temporal_review_v9_pilot.py:582-591 | on them the pair count is tasks × replicates if and only if every record is valid |
| Resolver.Collector.Visit | evals/temporal_review_v9_fixtures.py:267-275 | the recursive visitor adds exactly the joined names of chains of classes ending in a class or function |
| Resolver.CanonicalHeadIdentity | evals/temporal_review_v9_fixtures.py:259-278 | resolves if and only if the path is a `src/` Python file that parses and the name's dotted parts are such a chain |
| Resolver.ResolvesIff | evals/temporal_review_v9_fixtures.py:259-278 | when a name resolves, on the texts |
| Resolver.ChainIff | evals/temporal_review_v9_fixtures.py:267-275 | a chain of definitions, step by step |
| Resolver.SplitGivesChain | evals/temporal_review_v9_fixtures.py:270 | splitting a qualified name at its dots gives its chain back, so a name has one chain |
| Resolver.ParentsResolve | evals/temporal_review_v9_fixtures.py:267-275 | chains are closed under dropping the last component |
| Resolver.EnclosingNameResolves | evals/temporal_review_v9_fixtures.py:259-278 | if `A.b` resolves so does `A` |
| Resolver.OnlyClassBodiesMatter | evals/temporal_review_v9_fixtures.py:268-273 | emptying functions and compound statements changes no resolution |
| Evaluator.ReviewLoci | evals/temporal_review_v5_fixtures.py:331-351 | the accumulating loop with its observed set, against the scan of the loci |
| Evaluator.SupportsAll | evals/temporal_review_v5_fixtures.py:366-381 | true if and only if every required locus is supported by a changed entry |
| Evaluator.EvaluateMany | evals/temporal_review_v5_fixtures.py:302-363 | reports exactly the specified failures in order, and passes if and only if the declarative reading passes |
| Evaluator.ManyPassesIffNoFailure | evals/temporal_review_v5_fixtures.py:302-363 | no failure if and only if: one to three well-formed, resolving, pairwise distinct loci that cover the required ones, a right decision and raw trust |
| Evaluator.EvaluateOne | evals/temporal_review_v9_fixtures.py:304-340 | reports exactly the specified failures, and passes if and only if the declarative reading passes |
| Evaluator.OnePassesIffNoFailure | evals/temporal_review_v6_fixtures.py:291-341 | V6, which reports every decision failure, and V9, which reports the first, pass the same answers |
| Evaluator.PassingAnswerIs | evals/temporal_review_v9_fixtures.py:304-340 | the passing answers, in full: exactly the object of the arm's decision and the required locus, each with a rationale; the locus resolves; in a treatment a valid response whose delta names it |
| Evaluator.PassingManyIs | evals/temporal_review_v5_fixtures.py:302-363 | the same for the multi-locus form |
| Evaluator.SupportIff | evals/temporal_review_v9_fixtures.py:385-390 | support by a delta: some changed entry whose source id up to the first colon is the path and whose name ends in the qualified name |
| Evaluator.ResolvesInHead | evals/temporal_review_v9_fixtures.py:259-278 | an identity resolves if and only if its path is a `src/` Python file of the head that parses and its dotted name is a chain there |
| Evaluator.DecisionFailuresMean | evals/temporal_review_v9_fixtures.py:312-318 | the decision's failures, on its fields |
| Evaluator.LocusFailuresMean | evals/temporal_review_v9_fixtures.py:319-331 | the locus' failures, on its fields |
| Evaluator.RawFailuresMean | evals/temporal_review_v9_fixtures.py:332-339 | the raw-trust failures, on the response's fields; the first that applies |
| Evaluator.FailuresAre | evals/temporal_review_v9_fixtures.py:304-340 | the whole list of failures is decision, locus and raw trust in this order, in V9, V6 and V5 |
| Evaluator.SingletonAgrees | evals/temporal_review_v6_fixtures.py:291-341 | on one locus and one required identity the V5 verdict is the V6 verdict, for every decision, locus, arm and raw response |
| Evaluator.CountedFailures | evals/audit_temporal_review_v9_pilot.py:592-603 | what each failure the gate counts says about the answer |
| Evaluator.RawBoundaryIsImplied | evals/temporal_review_v9_fixtures.py:332-339 | under a contract that expects an available comparison the raw boundary check fails only where the public boundary rule fails too |
| CellAudit.AuditCell | evals/audit_temporal_review_v9_pilot.py:347-575 | fingerprint, replay of the stream, final answer, evaluation and verdict give the specified record |
| CellAudit.ValidIffStands | evals/audit_temporal_review_v9_pilot.py:418-538 | a record is valid if and only if its field checks hold and its answer stands: the answer is the stream's final result; in a treatment every response is valid and precedes it, the answer passes on the last response of the stream, and the certificate names that one; in a baseline there is none and the answer passes without |
| CellAudit.TreatmentAnswerIs | evals/audit_temporal_review_v9_pilot.py:477-487 | what stands, on the answer: the object the frozen locus asks for, supported by the stream's last response |
| CellAudit.RecordOnFields | evals/audit_temporal_review_v9_pilot.py:452-471 | a record's verdicts on identity, categories and observation, on the retained fields |
| CellAudit.AuditFailsIff | evals/audit_temporal_review_v9_pilot.py:403 | auditing a cell fails exactly when its commands have the right shape and no normal form |
| CellAudit.PayloadOnFields | evals/audit_temporal_review_v9_pilot.py:419-423 | the verdict on the answer: canonical texts of two payloads |
| CellAudit.ValidRecordFailsNothing | evals/audit_temporal_review_v9_pilot.py:592-614 | a valid record fails in none of the five ways the gate counts |
| CellAudit.ValidRecordIsCalibrated | evals/audit_temporal_review_v9_pilot.py:530 | with a collision-free digest a valid record's commands have the normal forms of every calibration of its arm |
| CellAudit.AuditPilot | evals/audit_temporal_review_v9_pilot.py:652-660 | one record per expected cell, in order, and the gate's report on them, or the first cell whose fingerprint cannot be read |
| CellAudit.CompletePairsStand | evals/audit_temporal_review_v9_pilot.py:581-591 | the gate's complete pairs are exactly the pairs of which both arms' answers stand |
| CellAudit.PairCountIsStandingPairs | evals/audit_temporal_review_v9_pilot.py:581-591 | the reported pair count is their number |
| CellAudit.EligibleMeans | evals/audit_temporal_review_v9_pilot.py:578-660 | of an eligible report: three or more pairs stand, one or more of every task, and in every cell, counted or not, replay and packet agree, the answer is the stream's, and a clean answer has the frozen fields and a locus that resolves |
| CellAudit.AllStandingIsEligible | evals/audit_temporal_review_v9_pilot.py:615-624 | a pilot of three or more pairs, all standing, is eligible |
| Surface.NormalizeOuter | evals/run_temporal_review_v9_model_identity.py:109-115 | the in-place overwriting of the copied list, with its index error |
| Surface.IdempotentIff | evals/run_temporal_review_v9_model_identity.py:105-115 | normalising twice is normalising once if and only if each marker stands at most once where no flag overwrites it, and each flag's first surviving occurrence is the one it acted on or is followed by its placeholder |
| Surface.SingleFlagsIdempotentIff | evals/run_temporal_review_v9_model_identity.py:105-115 | with no flag repeated: if and only if no marker stands twice at places no flag overwrites |
| Surface.NormalFormIsNormal | evals/run_temporal_review_v9_model_identity.py:105-115 | in particular where no flag and no marker is repeated, even where a flag stands for a value |
| Surface.RepeatedMarkerIsNotNormal | evals/run_temporal_review_v9_model_identity.py:113-115 | a marker repeated in plain sight: a second pass changes the command again |
| Surface.HiddenRepeatIsClean | evals/run_temporal_review_v9_model_identity.py:109-115 | a marker repeated as the value of a flag does no harm |
| Surface.OverwrittenFlagHidesNothing | evals/run_temporal_review_v9_model_identity.py:109-115 | behind a flag that is itself overwritten as a value, repeated markers stay in sight |
| Surface.RepeatedFlagIsNotClean | evals/run_temporal_review_v9_model_identity.py:110-112 | a flag repeated behind an occurrence that another flag overwrites is not idempotent |
| Fingerprints.NormalOfCommand | evals/run_temporal_review_v9_model_identity.py:205-222 | the normal form of a pilot or calibration command, in full |
| Fingerprints.CommandWords | evals/run_temporal_review_v9_pilot.py:300-324 | what both producers pass, word by word |
| Surface.PlaceholderTexts | evals/run_temporal_review_v9_model_identity.py:110-112 | what the run-local values are replaced by |
| Fingerprints.NormalFormsAgreeIff | evals/run_temporal_review_v9_model_identity.py:105-115 | of the normaliser alone, for all binaries: exactly when a pilot's and a calibration's normal forms agree, whatever the run-local values: one condition, and binaries that are equal and no marker, or both marker texts of stated kinds |
| Fingerprints.NormalFormPinsTheSetting | evals/run_temporal_review_v9_pilot.py:300-324 | for binaries that are operands, as every run's are: the normal forms of a pilot and a calibration command agree if and only if condition and binary do, model and budget being fixed in both |
| Fingerprints.InstructionNeverShows | evals/run_temporal_review_v9_model_identity.py:116-118 | the prompt after `--` never reaches the fingerprint, whatever its text |
| Fingerprints.NormalInnerIs | evals/run_temporal_review_v9_model_identity.py:116-128 | the normal form of an inner command: prompt gone, configuration rewritten, kept where it is no JSON, or the error |
| Fingerprints.ConfigIs | evals/run_temporal_review_v9_model_identity.py:119-128 | the first configuration is rewritten; an option without a value, or none, changes nothing |
| Fingerprints.PromptIs | evals/run_temporal_review_v9_model_identity.py:117-118 | the word behind the first separator is replaced; a separator at the end is an error |
| Fingerprints.FingerprintIs | evals/run_temporal_review_v9_model_identity.py:101-138 | what is hashed, word by word: the outer command with places and marker hidden, and the inner one with its configuration rewritten and its prompt hidden |
| Fingerprints.FingerprintPinsTheSurface | evals/run_temporal_review_v9_model_identity.py:105-131 | with a collision-free digest a cell carries its calibration's fingerprint if and only if conditions agree, binaries show alike and the inner normal forms agree |
| Calibration.RunPreflight | evals/run_temporal_review_v9_model_identity.py:331-409 | the recording loop, the aggregate and the validating loop write the specified file; a command without a normal form aborts |
| Calibration.AcceptedIffComplete | evals/run_temporal_review_v9_pilot.py:87-144 | producer and consumer agree: the pilot accepts a preflight's own file if and only if that file says it is complete |
| Calibration.AcceptedHolds | evals/run_temporal_review_v9_pilot.py:97-137 | what an accepted preflight holds, slot by slot and command by command |
| Calibration.CalibrationPlaces | evals/run_temporal_review_v9_model_identity.py:331-337 | where a calibration works: the frozen task, one source and instruction for all, an output of its own |
| Calibration.OutcomeMeans | evals/run_temporal_review_v9_pilot.py:365-390 | what the pilot records of a cell: an error, no fingerprint without an inner command, or the fingerprint of its commands |
| Calibration.CompleteIff | evals/run_temporal_review_v9_model_identity.py:369-392 | with a collision-free digest a preflight completes if and only if its evidence is sound, all categories agree, and in each arm the inner commands of both replicates have one normal form; the outer commands never matter |
| Calibration.BuiltCommandIsValid | evals/run_temporal_review_v9_model_identity.py:288-297 | every command a preflight builds passes the validation's own checks of it |
| Calibration.SameArmSameFingerprint | evals/run_temporal_review_v9_model_identity.py:376-382 | two calibrations of an arm carry one fingerprint if and only if their inner commands have one normal form |
| Calibration.GateIffAlike | evals/run_temporal_review_v9_pilot.py:394-403 | a cell passes the gate if and only if nothing else fails and its commands have, outside and inside, the normal forms of both calibrations of its arm |
| Calibration.CompletesIffAlike | evals/run_temporal_review_v9_pilot.py:131-137 | under any accepted preflight a run completes if and only if that holds of every cell |
| Calibration.CompletesIffCalibrated | evals/run_temporal_review_v9_pilot.py:297-415 | from preflight to pilot: a run with cells completes if and only if it runs the calibrated binary, nothing else fails, and every inner command has the normal form of its arm's calibrations |
| Surface.ReplacedValueReadsBack | evals/deepswe/run_claude_target_cohort.py:323-328 | a replaced option value is read back; other options read as before unless the old or new value is their flag |
| Surface.OptionIs | evals/deepswe/run_claude_target_cohort.py:323-328 | reading and replacing the first value of an option, and both errors |

## Left out

- Floating point: deltas, positions and quartiles are exact reals; rounding and NaN are not modelled (infinite and missing times are, as unusable readings).
- JSON text, SHA-256, `ast.parse`, the printed form of dictionary keys and `random.shuffle` are parameters; Python's `1 == True` between numbers and booleans is not modelled.
- Unicode: digits are ASCII digits and white space is ASCII white space in `isdigit` and `strip`.
- Records and packets hold text fields; a replicate recorded as a number is not modelled. Path texts that end in a line break, before which the patterns' `$` also matches.
- Symbolic links: upward steps are resolved by dropping the part before them.
- `Plan.BuildRuns`: the docker and orientation commands of a planned run are not part of it; `Fingerprints` and `Surface` treat the commands of the pilot.
- `Plan.BuildTasks`: nothing beyond its runs' omitted commands.
- `Plan.BuildPlan`: the plan's model, schema and tool-surface header fields.
- `Manifest.BuildManifest`: the values of digests and hashes; only whether a task's digest is listed.
- `Cohort.PlanSurvivesTheRoundTrip`: strata that are absolute or step upwards (`Plan` says what they do to run directories); files written by planned runs hold what was written, and no other file of these names lies under the output root.
- Paths beginning with exactly two slashes, which `pathlib` keeps apart, and task ids that contain a slash in the pilot's cell directories.
- `Evaluator.SupportsAll`: a `changed` value that is a number, which raises an error in Python, reads as an empty list.
- `Fingerprints.InstructionNeverShows`: parsing, blanking and printing the MCP configuration is one opaque rewrite of its text.
- `Discovery.RowsOfTheCohort`: artifacts with the same file names inside a copied source tree are taken not to exist.
- `Fingerprints.NormalOfCommand`: operands that start with a dash; the producers pass absolute paths, frozen task ids and a fixed surface name.
- `Pilot.RunPilot`: the files the runner process itself writes into a cell, the copied model-identity directory and the warm repeat are outside the modelled file set; how preregistration ends is an input (`Calibration.Accepted` says when the identity is accepted).
- `CellAudit.AuditCell`: four conjunctions of checks on single fields (protocol, status and return codes; the driver's copy of the contract; the shape of the two commands; the warm repeat) are inputs.
- `Calibration.RunPreflight`: of a calibration's evidence the files, hashes, return code, packet and inner surface are one input, as are the frozen content and the file's header fields.
- The auditor's own repetition of the calibration checks, and the identity and manifest-hash checks of its root: long conjunctions without a law across steps.
- `_packet_reasons` and the remaining reasons of `_row`: a list of independent checks; a row's validity is an input of `Pairing`.
- The V1, V2, V4 and V8 pilots, and the V3, V5, V6 and V7 runners: near copies of what is modelled.
- Subprocesses, Docker, git, materialisation, argument parsing and printing; `orientation.summarize_stream` and the stream's model categories.
- The storage and graph engine is not part of this model.

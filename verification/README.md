# Verified model of the workflow-aware scheduler

This project models the scheduling logic of the repository in Dafny and proves what it
promises: the queue simulators and their policies, the exact-size session split behind the
training sample, the micro-batcher, the queue-ordering policies and the engine adapter, and
the path of one decision from a rank score to a place in the engine's queue, with the parsers
beside it.

Floats are reals. Clocks, random choices, hashes, the model's forward pass and the window expiry
of the batcher are parameters or free choices, so a theorem holds for every one of them. Loops
that change variables are methods with loop invariants, proved equal to a specification function
or against the property itself; the theorems are about those functions.

## Layout

| files | content |
|---|---|
| `Orders`, `Optional` | tuple and string order, quotients, the stable sort behind `sorted`, options |
| `Workload`, `QueueSimulator`, `QueueTheorems`, `QueuePolicies`, `DeadlineGuard` | the single-server loop and what every policy, SJF and the deadline guard guarantee |
| `PreemptiveSimulator`, `PreemptiveRecords`, `PreemptiveLoop` | the quantum loop, what its records mean, and the loop over mutable job records |
| `SessionSplit`, `StratifiedSplits`, `StratifiedBuild`, `StratifiedRanking`, `SplitSizes`, `StratifiedCompleteness` | subset-sum selection of whole sessions, the stratified sample on top, what its strata and rows are, and when filling the splits in turn is complete |
| `MicroBatcher`, `MicroBatcherSafety`, `MicroBatcherAnswers`, `MicroBatcherShutdown`, `MicroBatcherDispatch` | the batcher as a step relation over all interleavings, which submissions are answered, how long a shutdown takes, and its dispatch on job objects |
| `Policies`, `PolicyOrders`, `RuleC`, `RuleCRuns`, `Aging`, `SchedulerAdapter`, `SchedulerOrders`, `SchedulerRuns` | queue orders, slot-preserving rule C in one call and over runs, ageing, the engine adapter in one call and over runs |
| `Json`, `JsonTheorems`, `JsonLocality`, `JsonArrayReader`, `JsonArrayChunks`, `ToolVocabulary`, `ToolStrata`, `WorkloadClients` | printer, decoder, chunked reader, bracket scanner, cold-start strata, synthetic clients |
| `RankQuantiles`, `DecisionService`, `DecisionCapacity`, `GatewayTransport`, `DecisionPipeline` | score to quantiles to tokens to bundle to engine score |

`dafny verify dfyconfig.toml` checks everything.

## Where the code and its documentation part

The model follows the code. Each of these is a proved statement, with the exact condition.

* `scheduler_benchmark/policies.py:122-126` says that a trusted request never overtakes an older
  abstained one and that the policy cannot starve an abstained request. The code gives neither.
  `RuleCTheorems.OvertakingExample` is a three-request queue that is overtaken;
  `RuleCTheorems.NotOvertakenIffRanksAgree` says when it is not. Starvation is possible if and only
  if an older waiting request is trusted with a positive score (`RuleCRuns.StarvesIffBlocked`).
* Filling the splits one after another (`ltr_training/tier2_sampling.py:85-88`) can fail where the
  splits exist: `StratifiedCompleteness.FillingInTurnCanFail` has four rows for which it does. With
  one bucket it succeeds for every shuffle and all counts that can be met if and only if selections of
  sessions with equal row counts always hold the same session sizes
  (`StratifiedCompleteness.BuildIsCompleteIff`, and `StratifiedCompleteness.FillingInTurnIsCompleteIff`
  for arbitrary candidates in every order). With more buckets fewer orders occur and the condition is
  sufficient (`StratifiedCompleteness.BuildIsComplete`). Sessions of one row meet it, and a single split
  needs no condition.
* The deadline guard of the simulator reaches requests that arrive up to 1e9 + 90 ms and no further
  (`DeadlineGuard.GuardReach`), unless the deadline is zero.
* A submission that passes the closed check is not always answered. The job is resolved in every
  continuation in which the worker exits if and only if, when it is enqueued, the worker has not exited
  and no sentinel is in the queue (`MicroBatcherAnswers.AnsweredIff`). After the exit it is resolved in
  none (`MicroBatcherAnswers.PutAfterExitIsStranded`).
* The gate's short-circuit is documented to agree with the predictor by construction
  (`scheduler_benchmark/predictor.py:166-167`). With the predictor's own vocabulary as the gate it
  gives the answer of the full path if and only if the gate does not abstain, or the predictor's
  confidence is not pinned to another value and besides the threshold is positive or an optional
  feature is missing (`DecisionService.GateRefinesFullPath`). With a zero threshold it raises where the
  model answers; with `LTR_CONSTANT_CONFIDENCE` at 0.9 and a threshold of 0.8 it answers that
  reliability is low where the model answers reliably (`DecisionService.PinnedConfidenceIsOverruled`).
* The chunked array reader can cut a bare number in two. It reads the same for every chunk size if and
  only if no element is a number of more than one digit, or with a fraction or an exponent
  (`JsonArrayChunks.ChunkIndependentIff`); strings, arrays, objects and constants are never cut.
* A quantile manifest can be built for any number of training records
  (`scheduler_benchmark/rank_quantiles.py:248-283`) and is accepted when it is loaded if and only if it
  counts at most five exclusions and these with the records make 6000
  (`RankQuantiles.BuiltManifestIsAcceptedIff`).
* A synthetic client is classified into its own stratum if and only if its synthetic names are new to
  the training sets (`WorkloadClients.ClientsClassifiedIff`); nothing in the code keeps a training tool
  from having such a name, and `WorkloadClients.SyntheticTrainingToolMisleads` has one that does.
* Ageing can flip a pair back while the younger request has not arrived
  (`Aging.CrossingBackBeforeArrival`), exactly when the younger one is the cheaper one but no longer by
  the time it arrives (`Aging.AgingCrossesOnceIff`); for arrived requests each pair crosses at most once.
* The gateway replaces the optimizer's names in `vllm_xargs` but not their `ltr_` spellings, which the
  engine reads alike. With an accepted bundle this makes no difference
  (`DecisionPipeline.EngineHearsTheService`); without one it is the exact exception to the fallback
  (`DecisionPipeline.FallbackIff`, with two such arguments in
  `DecisionPipeline.PrefixedEstimateReachesEngine`).

## Model

| member | source | states |
|---|---|---|
| Sorting.SortIsStable | reference/simulator/scheduler_benchmark.py:66 | elements with the same key keep their order, so jobs that arrive together stay as listed |
| Workload.ServiceTime | reference/simulator/offline_policy_simulator.py:53-63 | the service cost by kind and category is at least 25 ms, so every service advances the clock |
| Workload.CategoryCost | reference/simulator/offline_policy_simulator.py:79-86 | category costs are never below 90, the bound the deadline guard depends on |
| Workload.TailRiskMultiplier | reference/simulator/offline_policy_simulator.py:89-102 | the risk multiplier stays between 0.45 and 1.25 |
| Workload.ServiceTimeGrows | reference/simulator/offline_policy_simulator.py:53-63 | what each more token costs, by kind, and the four costs of a request without tokens, each telling its class |
| Workload.CostTellsClass | reference/simulator/offline_policy_simulator.py:79-102 | the category cost and the risk multiplier tell the class of a request, if and only if, and so each other |
| Workload.RuleSurcharges | reference/simulator/offline_policy_simulator.py:70-76 | the rule score exceeds the prompt by 80 for a tool and 180 for several turns |
| Workload.RiskRaisesCost | reference/simulator/offline_policy_simulator.py:105-107 | chat is costed by its service time and a tool by its category, and the risk raises that in proportion to the weight |
| QueueSimulator.FirstMinimum | reference/simulator/offline_policy_simulator.py:276-298 | selection takes the first pending position of least key: none is smaller, and every earlier one is larger |
| QueueSimulator.AdmitArrived | reference/simulator/offline_policy_simulator.py:269-271 | admission moves exactly the arrivals with time up to the clock to the pending list and keeps the order of both |
| QueueSimulator.SimulateQueue | reference/simulator/offline_policy_simulator.py:247-306 | the loop terminates and its waits, slow waits, services and final clock are those of the run `Run`, for any selector and any arrival list |
| QueueTheorems.TakeTurn | reference/simulator/offline_policy_simulator.py:265-306 | one turn serves an arrived request: it starts at the later of the clock and the head's arrival, and what has arrived stays arrived |
| QueueTheorems.RunServesEveryRequestOnce | reference/simulator/offline_policy_simulator.py:265-306 | every run serves exactly the multiset of arrivals |
| QueueTheorems.CostOfServingEarly | reference/simulator/offline_policy_simulator.py:299-306 | serving an arrived request out of order leaves the in-order weighted wait unchanged: the step of the conservation law |
| QueueTheorems.WeightedWaitConserved | reference/simulator/offline_policy_simulator.py:265-306 | conservation law: the sum of service times wait of any run equals that of serving the list in order, from any loop state |
| QueueTheorems.PoliciesShareWeightedWait | reference/simulator/scheduler_benchmark.py:128-145 | two arbitrary policies have the same service-weighted wait on one arrival list |
| QueueTheorems.MakespanConserved | reference/simulator/offline_policy_simulator.py:265-306 | the final clock is the recursion `C = max(C, arrival) + service`, whatever the key |
| QueueTheorems.SlowWaitsAreOfSlowServices | reference/simulator/offline_policy_simulator.py:299-306 | the slow waits of a report are the waits of the services of at least 250 ms, each as often as it occurs |
| QueueTheorems.NoIdlingWhileWorkWaits | reference/simulator/offline_policy_simulator.py:266-271 | a gap before a service means that every request served from there on arrives no earlier than the gap ends |
| QueueTheorems.HeadServesInOrder | reference/simulator/offline_policy_simulator.py:285-286 | taking index 0 serves the arrival list in its own order |
| QueueTheorems.HeadIsEarliestArrival | reference/simulator/offline_policy_simulator.py:285-286 | on sorted arrivals the pending list stays sorted, so `fcfs` equals the earliest-arrival key |
| QueueTheorems.ShorterFirstHelps | reference/simulator/offline_policy_simulator.py:210-211 | moving a shortest request of a backlog to the front never adds total wait |
| QueueTheorems.ShortestFirstIsOptimal | reference/simulator/offline_policy_simulator.py:210-211 | from any state without further arrivals, `oracle_sjf` has the least total wait over all service orders |
| QueueTheorems.ShortestFirstBeatsEveryPolicy | reference/simulator/offline_policy_simulator.py:276-306 | and so it is no worse than any other policy on that backlog |
| QueuePolicies.UnnamedPolicyIsFcfs | reference/simulator/offline_policy_simulator.py:244 | a policy name without its own key, `fcfs` included, serves sorted arrivals in order |
| QueuePolicies.AgeingRespectsCheaperElders | reference/simulator/offline_policy_simulator.py:212-229 | under every ageing key a request is never passed by one that came no earlier and costs no less |
| QueuePolicies.NamedCostsAreLeast | reference/simulator/offline_policy_simulator.py:210-219 | by name: `oracle_sjf`, `prompt_len`, `toolaware_rule` and `category_cost` select a pending request of least service time, prompt, rule score or category cost, the earliest on a tie |
| QueuePolicies.NamedAgeingLeads | reference/simulator/offline_policy_simulator.py:212-229 | by name: under `oracle_aging`, `category_aging` and `tail_risk_gate` the selected request has the least cost weighted with the deadline and the age of the other, for every other pending one |
| QueuePolicies.OracleSjfIsOptimal | reference/simulator/offline_policy_simulator.py:210-211 | `oracle_sjf`, by name, has the least total wait of all policies on a backlog |
| QueuePolicies.NamedGuardBoundsWait | reference/simulator/offline_policy_simulator.py:235-238 | `deadline_guard`, by name, bounds the wait over a whole simulation |
| QueuePolicies.CandidateOrder | reference/simulator/tail_risk_aging_sweep.py:33-42 | two requests under a guarded sweep candidate: expired before unexpired, expired ones by arrival, unexpired ones by risk cost weighted with the deadline and the other's age |
| DeadlineGuard.ExpiredHeadIsSelected | reference/simulator/offline_policy_simulator.py:235-238 | once the oldest pending request has reached the deadline it is the one selected |
| DeadlineGuard.GuardReach | reference/simulator/offline_policy_simulator.py:235-238 | an expired request is preferred to every younger one if and only if it arrived by 1e9 + 90, or the deadline is zero |
| DeadlineGuard.StartIsRecorded | reference/simulator/offline_policy_simulator.py:265-306 | the start a request is followed to is the one the run records |
| DeadlineGuard.ExpiredWaitsForOlderWork | reference/simulator/offline_policy_simulator.py:235-238 | from the first decision past its deadline a request waits for exactly the work pending ahead of it |
| DeadlineGuard.GuardBoundsStart | reference/simulator/offline_policy_simulator.py:265-306 | from any loop state, start is at most arrival plus deadline plus one service plus the older backlog at expiry |
| DeadlineGuard.DeadlineGuardBoundsWait | reference/simulator/offline_policy_simulator.py:235-238 | that bound for `deadline_guard` over a whole simulation |
| DeadlineGuard.GuardedCandidateBoundsWait | reference/simulator/tail_risk_aging_sweep.py:33-92 | that bound for every guarded sweep candidate with non-negative weights |
| PreemptiveSimulator.TickKeepsInv | reference/simulator/scheduler_benchmark.py:71-91 | every iteration keeps attained plus remaining equal to the service, admission by arrival, and finish set exactly when at most 1e-9 is left; the clock never goes back |
| PreemptiveSimulator.TickTakesRank | reference/simulator/scheduler_benchmark.py:71-91 | termination: quanta still due plus arrivals still to admit strictly decrease, for every picker and every positive quantum |
| PreemptiveSimulator.Finish | reference/simulator/scheduler_benchmark.py:71-91 | the run is total: it ends with every job finished and the invariant kept |
| PreemptiveSimulator.ProjectedOverRun | reference/simulator/scheduler_benchmark.py:79-91 | one quantum changes the projected completion by at most the residue of a job it finishes |
| PreemptiveSimulator.FinishNearProjected | reference/simulator/scheduler_benchmark.py:71-91 | from any state the end is the projected completion, short of it by at most one residue for each unfinished job |
| PreemptiveSimulator.PreemptiveMakespan | reference/simulator/scheduler_benchmark.py:53-91 | every picker ends at the in-order completion to within n times 1e-9; a switch penalty cannot end it earlier |
| PreemptiveSimulator.PreemptionKeepsMakespan | reference/simulator/scheduler_benchmark.py:53-91 | free preemption ends when the non-preemptive loop does, to within n times 1e-9, whatever either selects |
| PreemptiveRecords.RecordsOfRun | reference/simulator/scheduler_benchmark.py:83-96 | every recorded wait ends at the clock at which the job first ran, and every recorded completion is the clock at which its work was done; waits are non-negative, the attained service is the whole service up to 1e-9, and the completion time covers both |
| PreemptiveRecords.TickOfJob | reference/simulator/scheduler_benchmark.py:71-91 | an iteration changes no job but the one the server is on; that one gains at most a quantum, as much as the clock passes but for the penalty; a first start and a finish stay once set, and when set lie the attained service before the new clock, or at it |
| PreemptiveRecords.FirstStartIsReal | reference/simulator/scheduler_benchmark.py:83-84 | over whole runs: the recorded first start is the moment at which the job first ran |
| PreemptiveRecords.FinishIsReal | reference/simulator/scheduler_benchmark.py:89-91 | over whole runs: the recorded finish is the clock of the iteration that left at most 1e-9 of the job |
| PreemptiveSimulator.FirstLeast | reference/simulator/scheduler_benchmark.py:107-113 | `min(active, key=...)` returns a valid position of least key |
| PreemptiveSimulator.QuantumLoopNeverIdles | reference/simulator/scheduler_benchmark.py:71-91 | every advance of the clock is service to some job plus the penalty of a switch; anything else happens only when no admitted job is unfinished, and goes to the next arrival |
| PreemptiveSimulator.NamedPickersAreValid | reference/simulator/scheduler_benchmark.py:107-113 | each of the four named pickers is a valid picker, so every theorem of the loop holds for it |
| PreemptiveSimulator.SrptPicksLeastRemaining | reference/simulator/scheduler_benchmark.py:112 | `srpt_oracle`, by name, runs a job with the least work left, the earliest to arrive on a tie |
| PreemptiveSimulator.MlfqPicksLowestLevel | reference/simulator/scheduler_benchmark.py:100-111 | `mlfq`, by name, runs the earliest job of the lowest level, and running never lowers a job's level |
| PreemptiveSimulator.MlfqLevels | reference/simulator/scheduler_benchmark.py:100-106 | a level is left once the attained service reaches 80, 320 and 1280 ms |
| PreemptiveSimulator.LasPicksLeastAttained | reference/simulator/scheduler_benchmark.py:107-113 | `las` and `round_robin`, by name, run a job that has attained least, the earliest to arrive on a tie |
| PreemptiveSimulator.PickLeastIsValid | reference/simulator/scheduler_benchmark.py:107-113 | every picker built from a key is a valid picker, within the active list |
| PreemptiveSimulator.LasTickLead | reference/simulator/scheduler_benchmark.py:107-109 | one `las` iteration does not let a job's lead over an active job exceed one quantum, unless it already did |
| PreemptiveSimulator.LasLeadBounded | reference/simulator/scheduler_benchmark.py:107-109 | over any number of iterations, no job leads an unfinished arrived one by more than the larger of the quantum and its first lead |
| PreemptiveLoop.Job.RunQuantum | reference/simulator/scheduler_benchmark.py:83-90 | one quantum on the record is the quantum of the model; the first start is set to the clock if it was not set, the finish to the clock after the step if at most 1e-9 is left |
| PreemptiveLoop.CreateJobs | reference/simulator/scheduler_benchmark.py:58-66 | fresh, distinct job records in stable arrival order |
| PreemptiveLoop.CollectActive | reference/simulator/scheduler_benchmark.py:75 | the active list holds exactly the admitted unfinished jobs, in admission order |
| PreemptiveLoop.AdmitAll | reference/simulator/scheduler_benchmark.py:72-74 | admission stops at the first job that has not arrived |
| PreemptiveLoop.Iteration | reference/simulator/scheduler_benchmark.py:71-91 | one pass of the loop over the mutable records is one `Tick` |
| PreemptiveLoop.SimulatePreemptive | reference/simulator/scheduler_benchmark.py:53-91 | the loop ends, and leaves records and clock as `Finish` says |
| SessionSplit.ReachIffSubset | ltr_training/tier2_sampling.py:15-27 | the recursion the table computes holds exactly when some subset of the sizes sums to the total |
| SessionSplit.ChosenSums | ltr_training/tier2_sampling.py:31-38 | the positions the walk collects have sizes that sum to the total |
| SessionSplit.ChosenUsesShortestPrefix | ltr_training/tier2_sampling.py:22-27 | never overwriting a parent makes the choice lie within the shortest prefix that can reach the total, exactly |
| SessionSplit.PickPartitions | ltr_training/tier2_sampling.py:39-41 | selected and remaining together are the input, each session once |
| SessionSplit.SplitIsExactPartition | ltr_training/tier2_sampling.py:39-41 | a returned split is an order-preserving partition whose selected rows number exactly the target |
| SessionSplit.CellUpdate | ltr_training/tier2_sampling.py:22-25 | the descending update of one cell extends the table by this session without using it twice |
| SessionSplit.ParentStep | ltr_training/tier2_sampling.py:33-38 | following a parent moves to a strictly smaller total and a strictly earlier session |
| SessionSplit.ParentPresent | ltr_training/tier2_sampling.py:34-36 | a reachable total has a parent, so the `RuntimeError` cannot be raised |
| SessionSplit.CellMeaning | ltr_training/tier2_sampling.py:26-29 | stopping the table early loses nothing: the target is reachable at the end exactly when it is here |
| SessionSplit.ApplySession | ltr_training/tier2_sampling.py:22-25 | the inner loop over both arrays turns the table of the sessions before this one into the table with it |
| SessionSplit.Filter | ltr_training/tier2_sampling.py:39-40 | the comprehensions keep the chosen or the other sessions, in order |
| SessionSplit.ChooseExactSessions | scripts/server/rebuild_tier2_sample.py:38-70 | `ValueError` if and only if no subset of session sizes sums to the target; otherwise the exact split. The two copies in the repository have the same code |
| StratifiedSplits.GroupingIsGrouped | ltr_training/tier2_sampling.py:54-56 | grouping makes one session per id that holds all rows of the id in input order |
| StratifiedSplits.GroupingKeepsRows | ltr_training/tier2_sampling.py:54-58 | the grouped rows number the input rows, the total that the size check compares with |
| StratifiedSplits.GroupRows | ltr_training/tier2_sampling.py:54-56 | the loop computes that grouping |
| StratifiedSplits.BucketOfRank | ltr_training/tier2_sampling.py:70-71 | `rank * buckets // count` is bucket `b` exactly for the ranks between the starts of `b` and `b + 1`, and below the bucket count |
| StratifiedSplits.BucketSizesBalanced | ltr_training/tier2_sampling.py:70-72 | every bucket gets `count // buckets` sessions or one more |
| StratifiedSplits.CutBuckets | ltr_training/tier2_sampling.py:67-72 | each bucket holds its slice of the ranking, tagged with its number |
| StratifiedSplits.BucketsCoverRanking | ltr_training/tier2_sampling.py:67-72 | the buckets one after another are the ranking |
| StratifiedSplits.Interleave | ltr_training/tier2_sampling.py:77-83 | the nested loops produce the round-robin interleaving |
| StratifiedSplits.InterleavedElements | ltr_training/tier2_sampling.py:77-83 | which holds exactly what the buckets hold |
| StratifiedSplits.InterleavedAt | ltr_training/tier2_sampling.py:79-83 | and has element `d` of bucket `b` exactly after `d` full rounds and the earlier buckets' elements of its own round |
| StratifiedSplits.FilledSplitsAreExact | ltr_training/tier2_sampling.py:85-88 | filled splits have exactly the requested rows, and with what is left are the candidates |
| StratifiedSplits.SingleSplitIsComplete | ltr_training/tier2_sampling.py:85-88 | one split is filled if and only if some set of sessions fits |
| StratifiedSplits.SingleRowSessionsAlwaysFill | ltr_training/tier2_sampling.py:85-88 | with sessions of one row, any counts are filled if and only if they fit in total |
| SplitSizes.GreedyIsComplete | ltr_training/tier2_sampling.py:85-88 | if equal sums come from equal sizes, the first pick leaves at least what any possible first part leaves, and so on to the last count |
| SplitSizes.PrefixIsSelected | ltr_training/tier2_sampling.py:22-38 | asked for the sum of the first sessions, the table selects exactly those |
| SplitSizes.CountsNeedSizes | ltr_training/tier2_sampling.py:85-88 | positive counts need as many non-empty sessions, and with no more than that exactly those sizes |
| SplitSizes.GreedyFails | ltr_training/tier2_sampling.py:85-88 | if two different selections have equal sums, some order of the sizes and some counts that can be met lead into a dead end |
| StratifiedCompleteness.FillsBySizes | ltr_training/tier2_sampling.py:85-88 | whether the splits are filled depends on the session sizes alone |
| StratifiedCompleteness.PossibleBySizes | ltr_training/tier2_sampling.py:85-88 | whether disjoint selections with the requested rows exist depends on the session sizes alone |
| StratifiedCompleteness.FillingInTurnIsCompleteIff | ltr_training/tier2_sampling.py:85-88 | in every order of the candidates filling in turn meets all counts that can be met, if and only if selections with equal row counts always hold the same non-zero session sizes |
| StratifiedCompleteness.AnyOrderOccurs | ltr_training/tier2_sampling.py:74-83 | with one bucket every order of the sessions is the outcome of some shuffle |
| StratifiedCompleteness.BuildIsComplete | ltr_training/tier2_sampling.py:54-88 | under that condition the sample is built whenever it exists, for every shuffle and every bucket count |
| StratifiedCompleteness.BuildIsCompleteIff | ltr_training/tier2_sampling.py:54-88 | over the rows of the call, with one bucket: built for every shuffle whenever it exists, if and only if the condition holds of the session sizes |
| StratifiedCompleteness.SingleRowsDecide | ltr_training/tier2_sampling.py:85-88 | sessions of one row meet the condition |
| StratifiedCompleteness.FillingInTurnCanFail | ltr_training/tier2_sampling.py:54-88 | four rows in sessions of one, one and two rows: splits of two and one rows exist, and the call is rejected |
| StratifiedBuild.StratifiedCandidates | ltr_training/tier2_sampling.py:60-83 | ranking, cutting, shuffling and interleaving compute the candidates, for every shuffle |
| StratifiedBuild.CandidatesAreAllSessions | ltr_training/tier2_sampling.py:60-83 | the candidates are a permutation of all sessions whatever the shuffles do |
| StratifiedBuild.BucketsBalanced | scripts/server/rebuild_tier2_sample.py:84-89 | bucket sizes differ by at most one |
| StratifiedBuild.AssignSplits | ltr_training/tier2_sampling.py:85-88 | the loop over the counts fills the splits in turn, or fails with the first that cannot be filled |
| StratifiedBuild.AnnotateAll | ltr_training/tier2_sampling.py:94-104 | the sampled rows, split by split, by invocation index, with split name and bucket |
| StratifiedBuild.BuildStratifiedSplits | ltr_training/tier2_sampling.py:44-104 | rejected exactly for a bucket count below one, too large a request, or splits that cannot be filled in turn; otherwise the sampled rows of the filled splits |
| StratifiedBuild.SessionsStayTogether | scripts/server/rebuild_tier2_sample.py:99-116 | two sampled rows of one session are in the same split and bucket: splits are disjoint at session boundaries |
| StratifiedBuild.SplitsAreExactAndWhole | ltr_training/tier2_sampling.py:85-109 | split `k` has exactly the requested number of rows, and its sessions come with all rows the input has for them |
| StratifiedRanking.PromptLengthsAdd | ltr_training/tier2_sampling.py:60-66 | the prompt lengths of a session add up row by row |
| StratifiedRanking.RankKeyOrder | ltr_training/tier2_sampling.py:60-66 | sessions are ranked by mean prompt length, compared without dividing, ties by id |
| StratifiedRanking.BucketIsShareOfShorter | ltr_training/tier2_sampling.py:60-72 | the bucket of every sampled row, from the input rows alone: the number of sessions with a smaller mean prompt length, or the same and an earlier id, times the bucket count over the number of sessions, rounded down |
| StratifiedRanking.ShorterSessionsInLowerBuckets | ltr_training/tier2_sampling.py:60-72 | of two sampled rows the one whose session has the smaller mean prompt length is in no higher bucket |
| StratifiedRanking.SampledRowsAreWholeSessions | ltr_training/tier2_sampling.py:94-109 | an input row is sampled as often as it occurs if its session is sampled and not at all otherwise, and the rows of a session come by invocation index |
| StratifiedRanking.SplitsHoldWhatWasRequested | ltr_training/tier2_sampling.py:85-104 | under each split name the sample has exactly the rows requested under it |
| MicroBatcherSafety.ResolvedOnce | scheduler_benchmark/micro_batcher.py:142-157 | a job about to be settled is not settled yet, and no step changes a resolution once set |
| MicroBatcherSafety.StepKeepsInv | scheduler_benchmark/micro_batcher.py:88-157 | every step of every thread keeps order, batch sizes, resolutions, sentinels and the mark of the first sentinel |
| MicroBatcherSafety.RunKeepsInv | scheduler_benchmark/micro_batcher.py:88-157 | so does every interleaving |
| MicroBatcherSafety.ReachableInv | scheduler_benchmark/micro_batcher.py:55-157 | from the initial state, for every interleaving of submitters, closers and the worker |
| MicroBatcherSafety.OwnPositionalResult | scheduler_benchmark/micro_batcher.py:142-157 | in every reachable state a resolved job holds `results[p]` for its position `p` in its batch, or the error the batch raised, or the length mismatch, and an answered caller has got exactly that |
| MicroBatcherSafety.EveryJobAccountedFor | scheduler_benchmark/micro_batcher.py:88-157 | batches in dispatch order, then the batch in hand, then the queue are the enqueue order, each job once; batch sizes are in 1..batch_max; callers get their own resolution |
| MicroBatcherSafety.SentinelStaysInPlay | scheduler_benchmark/micro_batcher.py:126-129 | once put, a sentinel is queued or being put back until the worker exits |
| MicroBatcherSafety.ExitResolvesEarlierJobs | scheduler_benchmark/micro_batcher.py:98-157 | on exit exactly the taken jobs are resolved, among them every job enqueued before the first sentinel, whatever batches raised |
| MicroBatcherSafety.NothingResolvedAfterExit | scheduler_benchmark/micro_batcher.py:133-137 | after the exit nothing is resolved any more |
| MicroBatcherSafety.ExitedResolvesTaken | scheduler_benchmark/micro_batcher.py:133-157 | in any state of the protocol after the exit, exactly the jobs taken from the queue are resolved |
| MicroBatcherSafety.LateSubmissionIsStranded | scheduler_benchmark/micro_batcher.py:88-103 | one schedule of six steps after which a job is resolved in no continuation |
| MicroBatcherAnswers.ClearJobIsAnswered | scheduler_benchmark/micro_batcher.py:111-157 | a job with no sentinel ahead of it is resolved by the time the worker exits, however the threads go on |
| MicroBatcherAnswers.Drain | scheduler_benchmark/micro_batcher.py:111-137 | with a sentinel ahead of a job, the worker can exit without taking the job |
| MicroBatcherAnswers.AnsweredIff | scheduler_benchmark/micro_batcher.py:88-157 | from any state of the protocol, a job being put is resolved in every continuation in which the worker exits, if and only if at the put the worker has not exited and no sentinel is queued |
| MicroBatcherAnswers.PutAfterExitIsStranded | scheduler_benchmark/micro_batcher.py:88-103 | a job put after the exit is resolved in no continuation |
| MicroBatcherSafety.WorkerProgress | scheduler_benchmark/micro_batcher.py:111-157 | while anything is queued or in hand, and after a sentinel was put until the exit, the worker has a step, and every step it takes reduces the work left |
| MicroBatcherSafety.OthersAddNoWork | scheduler_benchmark/micro_batcher.py:88-103 | other threads add work only by submissions admitted before the close |
| MicroBatcherShutdown.StepsPaidByWork | scheduler_benchmark/micro_batcher.py:88-157 | over any run the worker takes no more steps than the work there was and eight for each job put |
| MicroBatcherShutdown.PutsWereAdmitted | scheduler_benchmark/micro_batcher.py:88-103 | once the closed flag is set, the jobs put in any run are among those admitted before |
| MicroBatcherShutdown.ShutdownIsBounded | scheduler_benchmark/micro_batcher.py:88-157 | once a sentinel has been put, the worker's steps in any interleaving are bounded by the work left then and eight for each submission admitted but not put; until it exits it has a step and the bound is not used up |
| MicroBatcherShutdown.SentinelsAreOnTheirWay | scheduler_benchmark/micro_batcher.py:98-103 | once the closed flag is set no more closers pass: sentinels put and on their way keep their number |
| MicroBatcherDispatch.Relay | scheduler_benchmark/micro_batcher.py:150-154 | every job of a failed batch gets the same error and is done; results stay untouched |
| MicroBatcherDispatch.Dispatch | scheduler_benchmark/micro_batcher.py:142-157 | on job objects: with as many results as jobs, the job at position `p` ends with `results[p]` and no error; otherwise every job ends with the error raised, or the length mismatch, and its result untouched; and this is what the step relation resolves |
| Policies.AgeDiscount | scheduler_benchmark/policies.py:63-73 | the age discount never goes below one |
| Policies.TrustedSlots | scheduler_benchmark/policies.py:129-133 | the collected slots are exactly the trusted positions, in order |
| Policies.SlotPreservingRuleC | scheduler_benchmark/policies.py:113-148 | the slot-overwriting loop, early return included, computes rule C |
| PolicyOrders.FcfsOrders | scheduler_benchmark/policies.py:151-185 | `fcfs` orders by arrival, ties by id |
| PolicyOrders.PromptLengthOrders | scheduler_benchmark/policies.py:151-185 | `prompt_sjf` orders by prompt tokens, ties as in `fcfs`; one request without a count turns the whole order into `fcfs` |
| PolicyOrders.AgeingOrders | scheduler_benchmark/policies.py:63-185 | `tail_safe`, `ltr_aging` and `gated_hybrid` order by cost, weighted with the deadline and what the other has waited, without dividing; `gated_hybrid` takes the ranker's cost exactly for trusted requests whose gain over the queue exceeds the predictor's latency |
| PolicyOrders.TrustLimits | scheduler_benchmark/policies.py:101-110 | the fallback is never trusted, a confidence at the threshold is, and by default the threshold is 0.5 |
| RuleCTheorems.RuleCIsRuleCOrder | scheduler_benchmark/policies.py:113-148 | rule C permutes the queue, leaves each abstained request at its FCFS index, and puts the trusted ones in the trusted slots by score, arrival and id |
| RuleCTheorems.RuleCOrderIsUnique | scheduler_benchmark/policies.py:113-148 | with unique ids these facts determine the order |
| RuleCTheorems.RuleCIgnoresInputOrder | scheduler_benchmark/policies.py:128 | the result does not depend on the order the queue came in |
| RuleCTheorems.RuleCWithoutTrust | scheduler_benchmark/policies.py:124-126 | with nobody trusted it is FCFS |
| RuleCTheorems.RuleCWithFullTrust | scheduler_benchmark/policies.py:124-126 | with everybody trusted it is `pure_ltr` |
| RuleCTheorems.PureLtrSortsByRank | scheduler_benchmark/policies.py:170-185 | `pure_ltr` sorts by score, arrival and id |
| RuleCTheorems.NotOvertakenIffRanksAgree | scheduler_benchmark/policies.py:122-124 | an abstained request is not overtaken by a younger trusted one if and only if every trusted request ahead of it also ranks ahead of every trusted one behind it |
| RuleCTheorems.OvertakingHappens | scheduler_benchmark/policies.py:122-124 | a whole family of three-request queues in which it is overtaken |
| RuleCTheorems.OvertakingExample | scheduler_benchmark/policies.py:122-124 | a concrete queue under the default configuration in which the documented claim fails |
| RuleCRuns.AbstainedIndex | scheduler_benchmark/policies.py:113-148 | the index of an abstained request after a reordering is the number of older waiting requests |
| RuleCRuns.IndexAccounting | scheduler_benchmark/vllm_scheduler.py:199-206 | after a round that takes `n` requests ahead of it, the next reordering moves an abstained request back by exactly the younger ones among them, never past its earlier index |
| RuleCRuns.RunKeepsRequests | scheduler_benchmark/vllm_scheduler.py:175-206 | over any run what joined is what was taken and what waits, ids staying unique |
| RuleCRuns.IndexNeverGrows | scheduler_benchmark/vllm_scheduler.py:199-206 | over any run the post-schedule index of a waiting abstained request never increases |
| RuleCRuns.UnblockedRound | scheduler_benchmark/policies.py:122-124 | without an older trusted request of positive score, each round serves the abstained request or moves it up by as many places as it serves |
| RuleCRuns.UnblockedIsServed | scheduler_benchmark/policies.py:122-124 | and it is served after at most one round more than there are older requests |
| RuleCRuns.FavouriteKeepsBothWaiting | scheduler_benchmark/policies.py:137-147 | with such a request a newcomer of score zero is served before both |
| RuleCRuns.StarvesIffBlocked | scheduler_benchmark/policies.py:122-124 | an abstained request can be kept waiting through any number of rounds if and only if an older waiting request is trusted with a positive score |
| Aging.YoungerFirst | scheduler_benchmark/policies.py:63-73 | the younger of two requests is ordered first exactly when its discounted cost is smaller |
| Aging.PrecedesBySmallerKey | scheduler_benchmark/policies.py:170-185 | in the ordered queue one request precedes another exactly when its key is smaller |
| Aging.GapOnlyGrows | scheduler_benchmark/policies.py:39-40 | the algebra of a single crossing: a younger cost that is ahead is the smaller cost and stays ahead |
| Aging.AgingIsSingleCrossing | scheduler_benchmark/policies.py:170-185 | under `tail_safe` and `ltr_aging`, with the queue unchanged, a younger request that precedes an older one does so at every later time, and has strictly lower base cost |
| Aging.AgingCrossesOnceIff | scheduler_benchmark/policies.py:39-40 | over all times, a younger request once ahead stays ahead if and only if it is not cheaper only until the older one has aged to its arrival |
| Aging.CrossingBackBeforeArrival | scheduler_benchmark/policies.py:39-40 | before the younger request has arrived the pair can cross back, with a concrete pair |
| SchedulerAdapter.OrderPermutes | scheduler_benchmark/policies.py:151-185 | every policy permutes the queue |
| SchedulerAdapter.ShortQueueIsOrdered | scheduler_benchmark/vllm_scheduler.py:107-109 | a queue of fewer than two requests is its own order, so the early return is harmless |
| SchedulerAdapter.PutBack | scheduler_benchmark/vllm_scheduler.py:114-118 | re-adding by id restores each context's own request, in the ordered sequence |
| SchedulerAdapter.PolicyScheduler.AddRequest | scheduler_benchmark/vllm_scheduler.py:175-197 | a new request is predicted once; a failing predictor gives score 1, confidence 0, out of distribution, and its message is kept; a stored prediction never changes; every waiting request has one |
| SchedulerAdapter.PolicyScheduler.Reorder | scheduler_benchmark/vllm_scheduler.py:105-119 | the queue becomes the policy's order of the same requests |
| SchedulerAdapter.PolicyScheduler.Schedule | scheduler_benchmark/vllm_scheduler.py:199-206 | reorder, then the engine takes any prefix: what is served and what waits are the front and the rest of the policy's order, nothing lost, nothing duplicated |
| SchedulerOrders.QueueFollowsPolicy | scheduler_benchmark/vllm_scheduler.py:105-119 | the reordered queue in terms of the engine's own requests and their stored predictions: by arrival, score, prompt tokens, raised category cost or aged score, as the policy says |
| SchedulerRuns.PlayTurn | scheduler_benchmark/vllm_scheduler.py:175-206 | additions and one `schedule` call under `gated_rule_c` are one round of rule C on the contexts, whose additions and number taken the turn and the stored predictions determine; nothing is lost, no stored prediction changes |
| SchedulerRuns.PlaceIsKept | scheduler_benchmark/vllm_scheduler.py:199-206 | over any turns whose requests are added in order of arrival, a waiting request leaves for good, or still waits with no more requests older than it |
| SchedulerRuns.ServedInTime | scheduler_benchmark/policies.py:122-124 | when each turn takes somebody, an abstained request without an older trusted one of positive score waits for no more turns than there are older requests |
| SchedulerRuns.PlayTurns | scheduler_benchmark/vllm_scheduler.py:175-206 | a whole run of the adapter: the queue is what playing the turns leaves, served and waiting requests are those at the start and those added, no stored prediction changes; with additions in order of arrival every waiting request leaves or keeps its place, and an unblocked abstained one is served in time |
| JsonTheorems.ValueRoundTrip | ltr_training/block1_workload.py:94-108 | decoding any printed value gives it back, numbers and constants included, whatever text follows that does not prolong a number (sections 3 to 7 of RFC 8259) |
| JsonTheorems.NumberRoundTrip | ltr_training/data.py:64 | every number of the grammar is read as far as it goes (section 6 of RFC 8259) |
| JsonTheorems.ValueExtends | ltr_training/data.py:64 | a value other than a bare number is decoded alike from any longer text: it delimits itself |
| JsonTheorems.NumberExtends | ltr_training/data.py:64 | a number is, once a delimiter follows it |
| JsonLocality.ValueShrinks | ltr_training/data.py:64 | a value is decoded alike from every beginning of the text that holds it: decoding never looks behind the value |
| JsonArrayReader.ConsumeBuffer | ltr_training/data.py:41-69 | the inner loop, with its flags and position, makes one `Pass` over the buffer |
| JsonArrayReader.IterJsonArray | ltr_training/data.py:25-72 | for every text and every chunk size of at least one the reader terminates with the values and the ending of `ReadChunks` |
| JsonArrayChunks.ReadingAgreesWithDecoder | ltr_training/data.py:25-72 | on well-formed arrays (section 5 of RFC 8259) reading the whole text gives what the decoder gives |
| JsonArrayChunks.PrintedElementsAreRead | ltr_training/data.py:41-69 | printed elements are read one after another, whatever comes behind them |
| JsonArrayChunks.ReadingEndings | ltr_training/data.py:41-72 | a text without an opening bracket is no array; behind the elements read so far, the end of the text leaves the array unterminated, and what is no value is a bad element |
| JsonArrayChunks.ElementKept | ltr_training/data.py:63-69 | an element decoded from the buffer alone is the element of the whole text, unless it is a number that can be cut |
| JsonArrayChunks.PassAgrees | ltr_training/data.py:41-69 | a pass over the buffer reads what the whole text has there, and leaves the rest to be read |
| JsonArrayChunks.ChunksAgree | ltr_training/data.py:33-72 | from any state of the reader and for every chunk size, the rest is read as the whole text has it |
| JsonArrayChunks.CutShows | ltr_training/data.py:34-37 | a chunk that ends inside a number that can be cut yields a value the whole text does not have |
| JsonArrayChunks.ChunkIndependentIff | ltr_training/data.py:25-72 | reading in chunks equals reading the whole text for every chunk size, errors included, if and only if no element is a number that can be cut |
| ToolVocabulary.ExtractSchemaJson | scheduler_benchmark/tool_vocabulary.py:51-81 | the bracket scan with its string and escape state cuts out the text that `ExtractSchema` decodes |
| ToolVocabulary.ValuePasses | scheduler_benchmark/tool_vocabulary.py:56-75 | inside a bracket the scanner passes over any printed value, quotes, escapes and inner brackets included |
| ToolVocabulary.ScanStopsAtEnd | scheduler_benchmark/tool_vocabulary.py:59-75 | started at a printed array the scanner stops exactly at its last character, whatever follows |
| ToolVocabulary.LoadsWholeText | scheduler_benchmark/tool_vocabulary.py:76-81 | a printed value loads with whitespace around it and with nothing else behind it |
| ToolStrata.ToolNamesRoundTrip | ltr_training/block1_workload.py:92-108 | for every list of tool names, reading back a rendered schema gives the sorted names |
| ToolStrata.ToolNaming | scheduler_benchmark/tool_vocabulary.py:88-99 | a tool is named by its own `name`, or for lack of one by that of its `function`; anything else has no name |
| ToolStrata.SchemaStartIsFirstBracket | scheduler_benchmark/tool_vocabulary.py:51-58 | the scan starts at the first bracket behind the first marker, or at the first bracket of a text without one |
| ToolStrata.StrataPartition | scheduler_benchmark/tool_vocabulary.py:165-178 | the four strata are those the documentation defines, each if and only if, and no readable tool set is unknown |
| ToolStrata.ConfidenceOfSchema | scheduler_benchmark/tool_vocabulary.py:180-184 | the confidence of a printed tool set is the value measured for the stratum of its sorted names, for each stratum by its definition |
| ToolStrata.ConfidenceWithoutTools | scheduler_benchmark/tool_vocabulary.py:180-184 | a text that names no tools gets the conservative value |
| WorkloadClients.CollectTrainSets | ltr_training/block1_workload.py:243-249 | the training pool is the readable tool sets, in order |
| WorkloadClients.UnseenCombination | ltr_training/block1_workload.py:265-271 | the first of up to 64 samples that training has not seen, or none |
| WorkloadClients.BuildClients | ltr_training/block1_workload.py:226-290 | rejected exactly when nothing can be built from the draws; otherwise client `i` of each cohort is the one its draw and its novel numbers determine |
| WorkloadClients.UnseenIsFirst | ltr_training/block1_workload.py:265-271 | a combination is found if and only if one of the 64 samples is unseen, and then it is the first of those |
| WorkloadClients.ClientFromDraws | ltr_training/block1_workload.py:251-290 | the tool names of each client: the drawn training set, the unseen combination, one seen name and one synthetic one, or two synthetic ones |
| WorkloadClients.NovelNamesUsedOnce | ltr_training/block1_workload.py:222-290 | no synthetic tool is given to two clients |
| WorkloadClients.ClientsAreOk | ltr_training/block1_workload.py:235-237 | every client has the tool set its cohort stands for |
| WorkloadClients.ClientsClassifiedIff | scheduler_benchmark/tool_vocabulary.py:165-178 | with a vocabulary from the same training sets and a separating hash, a client is classified into its own label if and only if its synthetic names are new to the training sets |
| WorkloadClients.ClientsClassifiedByLabel | ltr_training/block1_workload.py:226-290 | and so every client is, when no training tool has a synthetic name |
| WorkloadClients.SyntheticTrainingToolMisleads | ltr_training/block1_workload.py:273-281 | two training examples, one with a tool named `synthetic_tool_00001`, and draws for which the mixed client is classified as known |
| RankQuantiles.InterpolateBetween | scheduler_benchmark/rank_quantiles.py:68-75 | an interpolated length lies between its two support points |
| RankQuantiles.MapScoreInterpolates | scheduler_benchmark/rank_quantiles.py:65-83 | between two percentiles the median length is the mean of their lengths weighted by the distance of the score, from the score and the manifest alone |
| RankQuantiles.MapScoreAtTheEnds | scheduler_benchmark/rank_quantiles.py:68 | below the tenth percentile and above the last one it is theirs |
| RankQuantiles.QuantilesInProportion | scheduler_benchmark/rank_quantiles.py:79-83 | p70 and p90 are to p50 as the global quantiles are |
| RankQuantiles.MapScoreMonotone | scheduler_benchmark/rank_quantiles.py:65-83 | a higher score never maps to a shorter length, across segments and clipped ends |
| RankQuantiles.MapScoreOrdered | scheduler_benchmark/rank_quantiles.py:79-83 | p50, p70 and p90 are ordered, and p50 lies within the extreme percentiles |
| RankQuantiles.RoundIsNearest | scheduler_benchmark/decision_service.py:224-230 | rounding is to the nearest integer, ties to the even one |
| RankQuantiles.RoundMonotone | scheduler_benchmark/decision_service.py:224-230 | and keeps order |
| RankQuantiles.NearestRankMonotone | scheduler_benchmark/rank_quantiles.py:174-176 | percentiles of a sorted list come out in the order the manifest check asks for |
| RankQuantiles.NearestRankIsLeastCover | scheduler_benchmark/rank_quantiles.py:174-176 | the nearest-rank value is the least that covers the share: at least that much of the list is no greater, and less than that much is no greater than any smaller value |
| RankQuantiles.BuiltManifestIsAcceptedIff | scheduler_benchmark/rank_quantiles.py:187-283 | a manifest that is built is accepted by the loader if and only if it counts at most five exclusions and these with the records make 6000 |
| RankQuantiles.BuiltManifestMaps | scheduler_benchmark/rank_quantiles.py:248-297 | from training lengths to a mapped score: at a percentile the built manifest gives the nearest-rank length, and the spread of the global ones |
| DecisionService.Clamp | scheduler_benchmark/decision_service.py:224-230 | token estimates stay in 1..4096 |
| DecisionService.EstimateIsNearest | scheduler_benchmark/decision_service.py:223-230 | the estimate is the whole number nearest to the length that the score maps to, and the nearer limit outside 1..4096 |
| DecisionService.ReasonsExactly | scheduler_benchmark/decision_service.py:395-404 | each of the four reasons exactly when it is the first that applies |
| DecisionService.ReliableExactly | scheduler_benchmark/decision_service.py:181-231 | a response is reliable, and carries an estimate, exactly when it is in distribution, confident enough and complete; a reliable one without a score is the only one that raises |
| DecisionService.FaultsExactly | scheduler_benchmark/decision_service.py:127-156 | each of the three faults exactly when it occurs, and all of them retryable |
| DecisionService.DecisionApplication.constructor | scheduler_benchmark/decision_service.py:78-121 | the settings it accepts, with all capacity free |
| DecisionService.DecisionApplication.DecideRequest | scheduler_benchmark/decision_service.py:127-164 | one request on its own: the answer is `Decide` of whether a slot was free, and the slot taken is given back however the request ends |
| DecisionCapacity.CapacityConserved | scheduler_benchmark/decision_service.py:147-156 | over every interleaving of concurrent requests, free slots and calls in flight make up the capacity, and once no call is in flight all slots are free |
| DecisionCapacity.CapacityConservedFromStart | scheduler_benchmark/decision_service.py:107-156 | so it is for every interleaving from the start |
| DecisionCapacity.ArrivalIsDecided | scheduler_benchmark/decision_service.py:127-148 | a call answered on arrival gets `Decide` of whether a slot was free; it is rate limited exactly when it needs the model and every slot is held |
| DecisionCapacity.ReturnIsDecided | scheduler_benchmark/decision_service.py:149-164 | a call that got a slot is answered as `Decide` with a free slot, whatever the others do |
| DecisionCapacity.ResultsStay | scheduler_benchmark/decision_service.py:127-164 | an answer once given is not changed by any other call |
| DecisionService.UnreliableIgnoresScore | scheduler_benchmark/decision_service.py:181-231 | an unreliable response depends neither on the score nor on there being one |
| DecisionService.GateRefinesFullPath | scheduler_benchmark/decision_service.py:112-179 | the short-circuit answers as the full path does for every score, if and only if the gate does not abstain, or the predictor's confidence is not pinned to another value and the threshold is positive or an optional feature is missing |
| DecisionService.PinnedConfidenceIsOverruled | scheduler_benchmark/predictor.py:89-92 | a concrete service with its confidence pinned at 0.9: the full path answers reliably, the gate that reliability is low |
| DecisionService.AbstentionNeedsNoModel | scheduler_benchmark/decision_service.py:137-145 | an abstention is the same whatever the model does and whether a slot is free |
| DecisionService.ZeroToolRequestsAreAnswered | scheduler_benchmark/decision_service.py:166-179 | a request without a readable schema, which the predictor cannot serve, gets an unreliable response instead of a fault |
| GatewayTransport.BoundedFloat | scheduler_benchmark/gateway_transport.py:223-229 | an accepted number lies within its bounds; flags and texts are refused |
| GatewayTransport.AcceptedEstimate | scheduler_benchmark/gateway_transport.py:206-220 | an accepted bundle is reliable exactly when its reason says so and exactly when it carries an estimate, which lies in 1..4096 |
| GatewayTransport.AcceptedBundleSays | scheduler_benchmark/gateway_transport.py:154-220 | what every accepted bundle says, field by field, and that only its two numbers are rewritten |
| GatewayTransport.ServiceResponseAcceptedIff | scheduler_benchmark/gateway_transport.py:154-220 | of the service's own responses exactly those with a mapper, 64 hexadecimal digits of provenance, a named revision and the asked decision id are accepted, and pass unchanged |
| GatewayTransport.UsableBundle | scheduler_benchmark/gateway_transport.py:114-130 | a bundle that survives the error code and the checks is legible |
| GatewayTransport.ApplyDecision | scheduler_benchmark/gateway_transport.py:96-151 | every other field of the payload is forwarded as the client sent it, and so is every engine argument the optimizer does not own, in its order; the optimizer's own are the decision's and the caller's or absent; the audit says what fell back and why |
| GatewayTransport.ForwardedKeepsPayload | scheduler_benchmark/gateway_transport.py:104-146 | the same of the specification that the other theorems use |
| DecisionPipeline.RequestMetadata | scheduler_benchmark/vllm_scheduler.py:81-90 | header names lower-cased, stripped of `x-ltr-` and underscored, engine arguments stripped of `ltr_`; engine arguments override headers, later entries override earlier ones |
| DecisionPipeline.LastArgumentCounts | scheduler_benchmark/vllm_scheduler.py:87-89 | of the engine arguments that come to one name the last provides its metadata |
| DecisionPipeline.LastHeaderCounts | scheduler_benchmark/vllm_scheduler.py:83-85 | and so of the headers |
| DecisionPipeline.HeaderNaming | scheduler_benchmark/vllm_scheduler.py:83-85 | a header comes to its lower-cased name without the prefix, every hyphen an underscore |
| DecisionPipeline.GatewayPredict | scheduler_benchmark/predictor.py:226-250 | the engine trusts a prediction exactly when the metadata says reliable with a positive integer estimate; otherwise it is the fallback, and it is always valid |
| DecisionPipeline.EngineHearsTheService | scheduler_benchmark/gateway_transport.py:132-146 | with an accepted bundle the engine's prediction is the bundle's, whatever the client sends in payload and headers |
| DecisionPipeline.FallbackIff | scheduler_benchmark/gateway_transport.py:104-130 | without one the engine falls back, except exactly when the client's own arguments hold a prefixed estimate |
| DecisionPipeline.PrefixedEstimateReachesEngine | scheduler_benchmark/vllm_scheduler.py:81-90 | two such arguments and no usable bundle: the engine ranks the request by the client's own number, however large |
| DecisionPipeline.ResponseReachesEngine | scheduler_benchmark/decision_service.py:217-231 | every response of a service with full provenance is accepted and reaches the engine: a reliable one as the rank of its score, an unreliable one as the fallback |
| DecisionPipeline.LengthReachesEngine | scheduler_benchmark/decision_service.py:223-230 | in units of 4096 tokens the engine score of a reliable answer is the length that its score maps to, to within half a token |
| DecisionPipeline.PercentileReachesEngine | scheduler_benchmark/rank_quantiles.py:68-75 | a score at a percentile reaches the engine as that percentile's own length |
| DecisionPipeline.LengthsApartStayApart | scheduler_benchmark/predictor.py:246-250 | lengths more than a token apart in 1..4096 have strictly ordered engine scores |
| DecisionPipeline.FaultFallsBack | scheduler_benchmark/gateway_transport.py:112-130 | an answer that is no response leaves the engine to fall back, with the same exact exception |
| DecisionPipeline.RankReachesEngine | scheduler_benchmark/rank_quantiles.py:65-90 | for two reliable answers, raw score order is engine score order, through interpolation, rounding, clamping and division |
| DecisionPipeline.TrustedInRankOrder | scheduler_benchmark/policies.py:170-185 | under `pure_ltr` and `gated_rule_c` trusted requests follow score, arrival and id |
| DecisionPipeline.QueueFollowsRawScores | scheduler_benchmark/predictor.py:229-250 | end to end, two reliably answered requests leave the ordered queue by raw score; only on a tie of engine scores may the larger raw score go first, and then it arrived no later and its mapped length is at most a token above |

## Left out

- HTTP, RPC and SSE servers and clients, asyncio replay and timing: input and output without hard logic.
- BERT, torch, LightGBM and ONNX code and training: the model is an arbitrary forward result that may fail.
- `gateway_policy_optimizer` is not part of this model: `gateway_gate` and `gateway_tail_risk_gate` are an arbitrary key function.
- The engine's own `schedule` is not part of this model: it takes any prefix of the reordered queue. Preemption back into the queue is not covered.
- Floating-point rounding: arithmetic is over reals, with the 1e-9 residue of the quantum loop and half-even `round` kept; infinities and NaN are left out.
- Result statistics (`percentile`, `QueueResult`, `_metrics`, sample manifests, score signals) and random arrival generation (`make_arrivals`): easy; arrival lists are arbitrary.
- SHA-256 and the digest prefix: a hash function of the name list, assumed to separate where a theorem says so.
- The regex, HTML and LaTeX fallbacks of `tool_names`: a schema without a readable array has no names in the model.
- JSON beyond the array path: numbers are kept as text, surrogate pairs written as escapes count as undecodable, names that are not strings are printed by the model's own printer.
- Unknown policy names in `order_waiting_requests` and a negative split target: the policy is a datatype and counts are natural numbers.
- Duplicate request ids in one queue: the adapter assumes them unique, as its dictionary does.
- Request validation and feature extraction of the decision service (`_validate_request`, `_predictor_input`): a request enters validated.
- The batcher's queue object and thread: `submit`, `close`, `_collect` and `_loop` are steps of a transition system, since threads share their state; `_dispatch` is also a method on mutable jobs.
- How a header name is lower-cased: `str.lower` is an arbitrary function on names.
- Client ids and generated descriptions outside the tool schema in `build_clients`.
- `Predictor` variants other than BERT and gateway metadata, and the order log of the adapter.
- The sweep over candidates with a zero age discount: a division by zero in the source, modelled as cost zero and outside the guarded theorem's weights.
- DeadlineGuard.GuardedCandidateBoundsWait: asks for arrivals up to 1e9 and non-negative weights; a negative weight can make a cost smaller than a guarded key.

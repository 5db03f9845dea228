# Verified model of the agent-based electricity market

This project models the parts of the market simulator that carry state from step to step, and proves what they keep.
To verify all files: `dafny verify dfyconfig.toml`.

| part | files | what is modelled |
|---|---|---|
| hyperparameter search | `Pareto`, `BeeColonySpec`, `BeeColony`, `ParamSpace`, `HpoStudySpec`, `HpoStudy`, `StudyProtocol` | non-dominated sorting, the bee colony with its running best and archive, the parameter space, the study's evaluator with trials and retention, and the protocol of the study row |
| agent step and experience | `Observation`, `Experience`, `ReplayBuffer`, `RolloutBuffer`, `Gae`, `LearnerConfig`, `PolicySpec`, `Policy`, `LearningSchedule`, `ActionSpace`, `FailStack`, `AgentStepSpec`, `AgentStep`, `AgentRun` | one period of an agent, its buffers and counters, and whole runs |
| budget analysis | `BudgetSeries` | the inversion of a chain of half-even roundings |
| agent library | `LibraryNames`, `LibraryImport`, `ScenarioImportSpec`, `ScenarioImport` | collision-free names, the library migration, and the two-phase scenario import |

`Wrappers` and `Floats` hold the result types and the floating-point numbers up to rounding.

How the source is represented:

- Objects that are updated in place are classes: the bee colony, the study evaluator, the ring and rollout buffers (with
  the arrays of the source), the policy, the agent runtime, the fail-stack counters and the two stores. Their methods
  are proved equal to a function on values; the theorems are about these functions over whole runs.
- The bee colony's fields are functions of the log of everything evaluated. The evaluation callback is an arbitrary
  function of the whole sequence of batches submitted so far, so a callback with state of its own is covered; the study's
  evaluator is one, and `HpoStudy` runs the two against each other.
- The study row is shared by processes. Each database operation is one step of `StudyProtocol.Apply`, a step that its
  actor cannot take changes nothing, and a run is any sequence of steps. Reading and conditional writing of the sweep, and
  the two updates of a cancel request, are separate steps.
- Random draws, network outputs, rewards, cleared prices, evaluation outcomes and the answers to cancel polls are
  arbitrary inputs; of an on-policy action only those chosen by the network carry statistics, the generator's actions
  before all lags exist carry none. Decimal and float values are reals unless rounding is the point; scores have NaN and the infinities.
- `log10` and powers of 10 are an arbitrary pair of increasing functions, the second undoing the first.
- Database tables are sequences whose index is the id. Names are ASCII, and `LOWER` is a function on them.

Where the code and its own documentation differ, the code is modelled:

- `non_dominated_sort` and `pareto_front` promise ValueError for an empty point, but a single empty point is accepted,
  because no pair is compared: `Pareto.EmptyPointAccepted`.
- `increment_suffix` promises at most 20 characters. Among the names that the column can hold,
  `LibraryNames.OverflowsIff` gives the only one for which it fails. `free_agent_name` keeps its promise unless about 10
  to the 19 names are taken; `LibraryNames.FreeAgentName` states the exact condition.
- `fail_stale_studies` speaks of studies whose heartbeat is too old. `StudyProtocol.SweptWasSilent` says what holds,
  `StudyProtocol.FailsAFreshStudyIff` when a study with a fresh heartbeat is failed all the same, and
  `StudyProtocol.SweepCanFailAStudyWithAFreshHeartbeat` gives a run in which that happens.

## Model

| member | source | states |
|---|---|---|
| Pareto.NonDominatedSort | abmem/services/hpo/pareto.py:58-98 | The loop over pairs and the peeling of fronts terminate; the call raises exactly when a coordinate is NaN or the lengths do not fit, and otherwise every rank is 1 plus the largest rank among the dominators of its point. |
| Pareto.SortableIff | abmem/services/hpo/pareto.py:51-78 | Input is refused exactly when a coordinate is NaN or `dominates` refuses one of the compared pairs. |
| Pareto.EmptyPointAccepted | abmem/services/hpo/pareto.py:51-55 | An empty point is refused exactly when it is not the only point. |
| Pareto.CompareAll | abmem/services/hpo/pareto.py:70-84 | After the double loop `domination_count[b]` is the number of dominators of b and `dominated_by[a]` lists exactly the points a dominates, each once. |
| Pareto.PeelPoint | abmem/services/hpo/pareto.py:86-97 | Peeling one point of the current front keeps every count equal to the number of dominators not yet ranked, and puts a point on the next front exactly when its last one has been ranked. |
| Pareto.PeelFront | abmem/services/hpo/pareto.py:86-97 | Peeling a whole front ranks exactly its points and yields the next front, all of whose points have a dominator of the current rank. |
| Pareto.RankBoundsChains | abmem/services/hpo/pareto.py:58-98 | No domination chain ending at a point is longer than the rank of the point. |
| Pareto.RankIsAttained | abmem/services/hpo/pareto.py:58-98 | Some domination chain ending at a point is as long as its rank: the rank is the length of the longest one. |
| Pareto.RankingUnique | abmem/services/hpo/pareto.py:58-98 | The ranking is determined by the points, so the result does not depend on the order of the peeling. |
| Pareto.DominatesMeans | abmem/services/hpo/pareto.py:51-55 | A point dominates another exactly when it differs from it and is nowhere less; dominance is asymmetric. |
| Pareto.OrderIs | abmem/services/hpo/pareto.py:51-55 | Coordinates compare as extended reals, and no comparison with NaN holds. |
| Pareto.DominatesTransitive | abmem/services/hpo/pareto.py:32-55 | Dominance is transitive. |
| Pareto.ParetoFront | abmem/services/hpo/pareto.py:101-114 | The indices of the points that no point dominates, ascending, duplicates included; raises exactly when the sort does. |
| Pareto.RankOneIsFront | abmem/services/hpo/pareto.py:101-114 | Rank 1 and membership in the Pareto front are the same. |
| BeeColonySpec.WeightsCount | abmem/services/hpo/abc_optimizer.py:162-175 | Each weight counts for its own objective, and the weighted score is linear in the weights. |
| BeeColonySpec.FailedScore | abmem/services/hpo/abc_optimizer.py:162-175 | The weighted score is minus infinity exactly when one of the two objectives is not finite. |
| BeeColonySpec.DominatesIsPareto | abmem/services/hpo/abc_optimizer.py:342-354 | The dominance the archive uses is the one of the Pareto module. |
| BeeColonySpec.ArchiveStep | abmem/services/hpo/abc_optimizer.py:342-354 | One evaluation turns the front of everything evaluated before into the front of everything evaluated now, although rejected and evicted candidates are forgotten. |
| BeeColonySpec.DominatedByFront | abmem/services/hpo/abc_optimizer.py:342-354 | A candidate dominated by any finite candidate ever evaluated is dominated by one still archived. |
| BeeColonySpec.RecordedIsBestAndFront | abmem/services/hpo/abc_optimizer.py:342-354 | After any sequence of evaluations the best candidate is the first maximum, the best score the maximum, and the archive the finite candidates not dominated by another finite one, in submission order. |
| BeeColonySpec.ArchiveIsParetoFront | abmem/services/hpo/abc_optimizer.py:342-354 | The incremental archive picks exactly the candidates that the batch `pareto_front` picks from the finite history. |
| BeeColonySpec.FirstBestIsFirstMaximum | abmem/services/hpo/abc_optimizer.py:342-346 | The running best is the earliest of the candidates with the largest weighted score. |
| BeeColonySpec.BestScalarMonotone | abmem/services/hpo/abc_optimizer.py:342-346 | More evaluations never lower the best score. |
| BeeColonySpec.HolderIsLastTaken | abmem/services/hpo/abc_optimizer.py:356-370 | The candidate a source holds is one of its own that was initial, a scout or better than the one before; every later one of the source was neither initial nor a scout and did not beat it, and the trial counter is their number. |
| BeeColonySpec.NoHolderYet | abmem/services/hpo/abc_optimizer.py:356-370 | Before a source is set, every candidate of the source counts as rejected. |
| BeeColonySpec.ScoreDropsOnlyByScout | abmem/services/hpo/abc_optimizer.py:356-370 | The score of a source drops only when an initial or a scout candidate of this source replaces it. |
| BeeColonySpec.SwarmTaken | abmem/services/hpo/abc_optimizer.py:356-370 | An accepted candidate changes exactly its source: position, objectives, weighted score, and a trial counter of 0. |
| BeeColonySpec.SwarmRejected | abmem/services/hpo/abc_optimizer.py:356-363 | A rejected candidate changes nothing but the trial counter of its source, by one. |
| BeeColonySpec.SourcesInUnitCube | abmem/services/hpo/abc_optimizer.py:266-284 | In every state of every run each food source lies in the unit cube. |
| BeeColonySpec.FitnessIs | abmem/services/hpo/abc_optimizer.py:178-199 | A score of at most 0 has the fitness whose product with 1 - score is 1, a positive one 1 + score, a failed one 0. |
| BeeColonySpec.FitnessOrders | abmem/services/hpo/abc_optimizer.py:178-199 | Fitness orders two scores exactly as the scores order themselves, minus infinity included. |
| BeeColonySpec.ProbabilitiesSumToOne | abmem/services/hpo/abc_optimizer.py:202-223 | The roulette probabilities sum to 1, for the uniform fallback too. |
| BeeColonySpec.ProbabilityIs | abmem/services/hpo/abc_optimizer.py:202-223 | Each probability times the sum of the fitness values is the own fitness; with no positive fitness all are 1 / n. |
| BeeColonySpec.ProbabilitiesNonNegative | abmem/services/hpo/abc_optimizer.py:202-223 | No probability is negative. |
| BeeColonySpec.ProbabilitiesOrder | abmem/services/hpo/abc_optimizer.py:202-223 | When some fitness is positive the probabilities order the sources as their fitness does, and only sources of positive fitness can be drawn. |
| BeeColony.ProbabilitiesOrderScores | abmem/services/hpo/abc_optimizer.py:178-223 | Once some score is finite the roulette probabilities order the sources as their scores do, and exactly the sources with a finite score can be drawn; otherwise every source has the same probability. |
| BeeColonySpec.ChosenExactlyInInterval | abmem/services/hpo/abc_optimizer.py:407-422 | A source is drawn exactly for the uniform draws in an interval of its own whose length is its probability. |
| BeeColony.ArtificialBeeColony.NeighbourMove | abmem/services/hpo/abc_optimizer.py:266-284 | The move is the one that three consecutive draws make: a uniform choice of another source, of a dimension, and phi in [-1, 1); it differs from source i in this dimension only, by phi times the difference, up to the wall of the cube. |
| BeeColony.ArtificialBeeColony.RecordScore | abmem/services/hpo/abc_optimizer.py:342-354 | Best candidate, best score and archive stay those of the whole log, which grows by this evaluation. |
| BeeColony.ArtificialBeeColony.Submit | abmem/services/hpo/abc_optimizer.py:298-340 | One stop poll, then one callback call; a reply of the wrong length, order or type raises ValueError, a cancel from the callback passes through, and every accepted score is recorded. |
| BeeColony.ArtificialBeeColony.SetSource | abmem/services/hpo/abc_optimizer.py:365-370 | Only the named source changes, to the candidate, and its counter becomes 0. |
| BeeColony.ArtificialBeeColony.Greedy | abmem/services/hpo/abc_optimizer.py:356-363 | After the greedy choice all sources, scores and counters are those of the longer log, and no score has dropped. |
| BeeColony.ArtificialBeeColony.InitPhase | abmem/services/hpo/abc_optimizer.py:377-391 | One candidate per source is submitted, in order, its coordinates being consecutive draws, and every source is set. |
| BeeColony.ArtificialBeeColony.EmployedPhase | abmem/services/hpo/abc_optimizer.py:393-405 | One neighbour of every source of the snapshot is submitted before any source changes; no score drops. |
| BeeColony.ArtificialBeeColony.OnlookerPhase | abmem/services/hpo/abc_optimizer.py:407-422 | As many neighbours as sources: the k-th is of the source at which the k-th draw stops the wheel over the probabilities of the snapshot; none is of a failed source while some score is finite; no score drops. |
| BeeColony.ArtificialBeeColony.ScoutPhase | abmem/services/hpo/abc_optimizer.py:424-437 | A scout is sent exactly when some counter exceeds the limit, for the first source with the largest counter; all other scores stay at least what they were. |
| BeeColony.ArtificialBeeColony.Cycle | abmem/services/hpo/abc_optimizer.py:464-473 | A cycle makes the employed batch, then the onlooker batch, then one scout request if some counter exceeds the limit, all of its own iteration and each from the food sources of that moment; a stop cuts this short. |
| BeeColony.BlockOfCall | abmem/services/hpo/abc_optimizer.py:298-340 | The log lists the requests call by call, in request order. |
| BeeColony.ArtificialBeeColony.RunCycles | abmem/services/hpo/abc_optimizer.py:455-478 | Without a stop all cycles run; a stop request ends the run at the phase that saw it. The calls are the initial batch, then for every cycle the employed batch, the onlooker batch drawn from the wheel, and a scout exactly when one is due, each made from the food sources after the calls before it. A stopped cycle has made none of its calls, the first, or both, and still appends its history entry; a stopped initialisation has evaluated nothing and appends none. |
| BeeColony.ArtificialBeeColony.Run | abmem/services/hpo/abc_optimizer.py:455-478 | A run ends by a stop request, by a batch that got no proper answer, which its error names, or regularly. A regular run has submitted colony_size * (1 + 2 * max_iter) candidates plus one per scout, at most one scout per cycle, cycle by cycle in the order of the phases, and returns the best candidate, archive and history of exactly these. |
| BeeColony.HistoryNondecreasing | abmem/services/hpo/abc_optimizer.py:455-478 | `history` holds the best score of nested prefixes of the evaluations, so it never decreases. |
| ParamSpace.SpecRoundTrip | abmem/services/hpo/param_space.py:101-158 | On every scale `from_unit(to_unit(v))` is v for every valid v. |
| ParamSpace.FromUnitMonotone | abmem/services/hpo/param_space.py:135-158 | On every scale `from_unit` is monotone in u. |
| ParamSpace.IntegerInterval | abmem/services/hpo/param_space.py:135-158 | Each integer owns the half-open interval of width 1 / (high - low + 1) of its position, and u = 1 belongs to the largest. |
| ParamSpace.EncodeAccepts | abmem/services/hpo/param_space.py:218-233 | `encode` succeeds exactly when every name is present and every value is in its bounds (and whole, for integers). |
| ParamSpace.DecodeKeys | abmem/services/hpo/param_space.py:199-216 | `decode` returns exactly the names of the space. |
| ParamSpace.DecodeAt | abmem/services/hpo/param_space.py:199-216 | Every coordinate decodes to the value of its own spec. |
| ParamSpace.EncodeDecodeRoundTrip | abmem/services/hpo/param_space.py:199-233 | `decode(encode(params))` gives back every searched value, and no other key. |
| HpoStudySpec.CreatedLength | abmem/services/hpo/hpo_service.py:731-753 | A batch creates one trial per candidate and seed. |
| HpoStudySpec.RanAllAt | abmem/services/hpo/hpo_service.py:755-767 | An outcome changes exactly the row of its own trial. |
| HpoStudySpec.LookupIsLast | abmem/services/hpo/hpo_service.py:763 | Of several outcomes for one trial the last one counts. |
| HpoStudySpec.MeanIsMean | abmem/services/hpo/hpo_service.py:773-784 | m times the mean agent score is the sum of the agent scores of the m trials' own outcomes, and the same for the market; one trial that failed or is not finite makes the result minus infinity; with one seed it is the outcome itself. |
| HpoStudySpec.ResultsOfAt | abmem/services/hpo/hpo_service.py:773-784 | Candidate k is averaged over its own trial ids. |
| HpoStudySpec.CallScores | abmem/services/hpo/hpo_service.py:786-810 | Candidate k of a batch is scored with the mean of its own trials. |
| HpoStudySpec.BetterAgrees | abmem/services/hpo/hpo_service.py:786-810 | Taking one more result into account keeps best score, trial ids, parameters and source those of the first maximum of the log. |
| HpoStudySpec.CallStepOk | abmem/services/hpo/hpo_service.py:786-810 | After every successful batch: best score, parameters, source and trial ids are those of the optimizer's own first maximum of the same log; the data of exactly these trials is intact and every other FINISHED trial is purged; row k * |seeds| + j is the trial of candidate k on seed j; no trial is open, and there are |log| * |seeds| of them. |
| HpoStudySpec.ReplayOk | abmem/services/hpo/hpo_service.py:786-810 | The same holds after any sequence of batches. |
| HpoStudySpec.CreatedAt | abmem/services/hpo/hpo_service.py:731-747 | Within a batch the row of candidate k and seed j carries that candidate's iteration, phase, source and parameters, and that seed; it is pending and has no run data. |
| HpoStudySpec.RowsGrow | abmem/services/hpo/hpo_service.py:731-753 | A batch appends exactly the rows of its own candidates, decoded, and leaves the rows of earlier candidates in place. |
| HpoStudySpec.AnswersInOrder | abmem/services/hpo/hpo_service.py:786-810 | The callback's scores pass the optimizer's own check of length and order. |
| HpoStudySpec.FinalEvaluation | abmem/services/hpo/hpo_service.py:873-890 | The held-out evaluation adds one trial of the best candidate per evaluation seed and leaves every older row as it was; its result is the mean over these trials. |
| HpoStudySpec.BatchSucceedsIff | abmem/services/hpo/hpo_service.py:755-772 | A batch has results exactly if it was not stopped, its outcomes are for all of its tasks and no others, and some evaluation succeeded; a stopped batch leaves no trial open. |
| HpoStudy.StudyEvaluator.CreateAll | abmem/services/hpo/hpo_service.py:731-753 | Trials are created in candidate order, each candidate's ids being the next |seeds| ids. |
| HpoStudy.StudyEvaluator.RunCandidates | abmem/services/hpo/hpo_service.py:713-784 | The new rows and the results of one batch, its failures and the closing of open trials on cancel. |
| HpoStudy.StudyEvaluator.Call | abmem/services/hpo/hpo_service.py:786-810 | One callback call: trials, best fields and scores. |
| HpoStudy.Optimize | abmem/services/hpo/hpo_service.py:850-867 | A search that is not stopped has evaluated exactly the optimizer's formula with at most max_iter scouts; it is stopped only by a cancel request that a poll has seen or by what its last batch raised. |
| HpoStudy.Search | abmem/services/hpo/hpo_service.py:850-869 | After the search the evaluator's independently kept best agrees with the optimizer's log, and retention has been applied to it. |
| HpoStudy.FinalRetention | abmem/services/hpo/hpo_service.py:872-890 | After the last retention exactly the best search trials and the final trials have run data. |
| HpoStudy.RunStudy | abmem/services/hpo/hpo_service.py:841-905 | The study is CANCELED or FAILED only for one of these reasons: a seen cancel request or a stopped batch; a failed batch, no candidate with a finite score, or a final evaluation without a finite result. A FINISHED study has exactly `_total_trials` rows, none open, with n_scouts <= max_iter: those of the search, in order, and those of the best candidate on the evaluation seeds. It stores the decoded first maximum of the search and the weighted mean of the agent and market scores of the final outcomes, all of them finite. Exactly the trials of that maximum and the final trials have data. A canceled one leaves no trial open. |
| HpoStudySpec.RetentionPurges | abmem/services/hpo/retention.py:46-63 | Everything kept stays intact, every other FINISHED trial loses its data, and no row changes in any other way. |
| HpoStudySpec.RetainedAt | abmem/services/hpo/retention.py:46-63 | Row by row: only a FINISHED trial outside the keep set loses its run data. |
| HpoStudy.StudyEvaluator.ApplyRetention | abmem/services/hpo/retention.py:46-63 | The method does exactly this to the rows. |
| StudyProtocol.Reachable | abmem/services/hpo/hpo_service.py:547-605 | Every interleaving of processes, cancel requests, sweeps and start failures keeps the invariant that ties the row to the one process that owns it. |
| StudyProtocol.ClaimStarts | abmem/services/hpo/hpo_service.py:833-840 | A claim of a CREATED study starts it and is its first sign of life; any other claim leaves the row alone and the process without a study. |
| StudyProtocol.OnlyLiveProcessesAct | abmem/services/hpo/hpo_service.py:841-905 | A process that was refused, has ended or has crashed changes nothing any more. |
| StudyProtocol.RegularEnd | abmem/services/hpo/hpo_service.py:865-896 | Confirmation without a request and a finite final score end the study as FINISHED with exactly these parameters and this score. |
| StudyProtocol.FailedEnd | abmem/services/hpo/hpo_service.py:885-887 | A final score that is not finite, and any other exception, ends the study as FAILED with the traceback. |
| StudyProtocol.CancelRequest | abmem/services/hpo/hpo_service.py:547-561 | A cancel request settles a CREATED study at once and leaves only its flag on any other. |
| StudyProtocol.UndisturbedSweep | abmem/services/hpo/hpo_service.py:587-605 | A sweep that nobody interrupts fails exactly the RUNNING studies whose last sign is below its cutoff. |
| StudyProtocol.AtMostOneClaim | abmem/services/hpo/hpo_service.py:835-840 | Over every run at most one conditional claim succeeds, and the study has at most one owner. |
| StudyProtocol.NeverCreatedAgain | abmem/services/hpo/hpo_service.py:821-840 | Once a study has left CREATED it never returns, and no later claim succeeds. |
| StudyProtocol.StatusMeaning | abmem/services/hpo/hpo_service.py:547-605 | CANCELED implies the cancel flag; FINISHED if and only if parameters and a finite score are stored. |
| StudyProtocol.FinishIsFinal | abmem/services/hpo/hpo_service.py:813-818 | The status that `_finish` writes is the status in every later state of every continuation. |
| StudyProtocol.TerminalCanChange | abmem/services/hpo/hpo_service.py:576-605 | A terminal status can change in some continuation if and only if it is the sweep's FAILED over a live process that has not itself failed. |
| StudyProtocol.TerminalChange | abmem/services/hpo/hpo_service.py:576-605 | Whenever a terminal status changes, it was the sweep's FAILED and the new status is the one written by the live owner. |
| StudyProtocol.CanceledBeforeTheClaim | abmem/services/hpo/hpo_service.py:547-561 | After the second update of a cancel request the study is not CREATED; unclaimed, it keeps its status forever and is never claimed; if it was CREATED it is CANCELED for good. |
| StudyProtocol.PollStops | abmem/services/hpo/hpo_service.py:613-620 | A poll of a live process that sees the request, the confirmation after the search included, leads to CANCELED. |
| StudyProtocol.QuietPoll | abmem/services/hpo/hpo_service.py:613-620 | A poll that sees no request changes nothing. |
| StudyProtocol.CancelIsSeen | abmem/services/hpo/hpo_service.py:755-760 | From every reachable state with a request, a poll of the live process and its handler end the study as CANCELED for good, and after such a poll no continuation finishes the study. |
| StudyProtocol.CancelIsNotLost | abmem/services/hpo/hpo_service.py:865-871 | A request that arrives before the poll after the search is never lost: the study does not finish. |
| StudyProtocol.CancelCanBeOvertaken | abmem/services/hpo/hpo_service.py:870-896 | A request after that poll can be: from every confirmed state a FINISHED study with the cancel flag is reachable. |
| StudyProtocol.SweptWasSilent | abmem/services/hpo/hpo_service.py:576-605 | A study that shows the sweep's error was failed by a sweep whose own read, with its own cutoff, had found it silent. |
| StudyProtocol.FailedOnce | abmem/services/hpo/hpo_service.py:591-604 | One sweep only fails a study, with one read and one write. |
| StudyProtocol.WhileRunning | abmem/services/hpo/hpo_service.py:608-610 | As long as the study runs, its last sign is the last heartbeat of its live process. |
| StudyProtocol.FailsAFreshStudyIff | abmem/services/hpo/hpo_service.py:590-604 | A sweep fails the study with a last sign at or above its cutoff if and only if the last heartbeat of the live process between the read and the write of this sweep carries a time at or above the cutoff. |
| StudyProtocol.SweepCanFailAStudyWithAFreshHeartbeat | abmem/services/hpo/hpo_service.py:590-604 | A concrete run in which the row has a fresh heartbeat at the moment it is failed. |
| StudyProtocol.StartFails | abmem/views_hpo.py:482-489 | A failed start ends a CREATED study and touches no other. |
| StudyProtocol.UnstartedStays | abmem/views_hpo.py:482-489 | A study that ended before any claim, by a start failure or a cancel, keeps its status forever. |
| LearnerConfig.CommonLearningStarts | abmem/services/simulation/context.py:207-248 | The run's learning start is the scenario's value or the largest requirement, accepted exactly when every learner can reach it; every learner then needs exactly this many transitions. |
| LearnerConfig.AutomaticStart | abmem/services/simulation/context.py:226-248 | Without a scenario value the call fails exactly when some learner's buffer is smaller than another learner's requirement. |
| AgentRun.CommonStart | abmem/services/simulation/context.py:330-341 | Every learner with the common start makes its first update in the period `first_learning_period` gives, and none before. |
| LearnerConfig.FirstUpdateIs | abmem/services/algorithms/algorithm_config.py:164-188 | Enough transitions for the first update are the learning start, a batch, and a window or a full rollout. |
| LearnerConfig.ReachableIff | abmem/services/algorithms/algorithm_config.py:164-188 | A start is reachable exactly if a learner given it first updates after that many transitions and its buffer can hold them. |
| LearnerConfig.LargestRequirementIsMaximum | abmem/services/algorithms/algorithm_config.py:173-179 | The value taken is the maximum of `first_update_transitions()` over the learners. |
| Observation.BuildObservation | abmem/services/agent/observation.py:94-145 | The loop yields the demand and the prices in lag order, the missing lags in lag order, or ValueError, and reads the demand only when nothing is missing. |
| Observation.ObservationIs | abmem/services/agent/observation.py:94-145 | A complete observation is the demand of the period, then the cleared price of each lag in lag order. |
| Observation.NothingMissing | abmem/services/agent/observation.py:122-131 | A lag is missing exactly when its period is before 1, absent or not cleared. |
| Observation.NoLookAhead | abmem/services/agent/observation.py:94-145 | Two price histories that agree before t give the same observation of t. |
| Observation.CompleteFrom | abmem/services/agent/observation.py:94-145 | With all earlier periods cleared the observation is complete exactly when t exceeds the largest lag. |
| ReplayBuffer.RingIsLastN | abmem/services/algorithms/replay_buffer.py:149-169 | After n insertions the content is the last min(n, capacity) transitions in insertion order. |
| ReplayBuffer.KeptColumns | abmem/services/algorithms/replay_buffer.py:149-169 | A stored row has the transition's own columns. |
| ReplayBuffer.WriteAppends | abmem/services/algorithms/replay_buffer.py:149-178 | Writing at the cursor appends in chronological order and, when full, drops the oldest row: the wrap-around is invisible. |
| ReplayBuffer.Ring.Add | abmem/services/algorithms/replay_buffer.py:149-169 | The content becomes the last `capacity` elements of the old content and the new transition; a wrong shape or an action outside [-1, 1] raises and changes nothing. |
| ReplayBuffer.Ring.Sample | abmem/services/algorithms/replay_buffer.py:185-216 | Raises exactly for a size below 1 or above the stored count; otherwise the batch consists of transitions at distinct chronological positions. |
| ReplayBuffer.Ring.SampleSequences | abmem/services/algorithms/replay_buffer.py:218-264 | Every window is a contiguous slice of the chronological content, never across the write position; start points are distinct whenever enough windows exist. |
| ReplayBuffer.Ring.Rewards | abmem/services/algorithms/replay_buffer.py:180-183 | The rewards in insertion order. |
| RolloutBuffer.Rollout.Add | abmem/services/algorithms/replay_buffer.py:295-334 | Appends, and raises exactly for a wrong shape, a full buffer or missing behaviour statistics. |
| RolloutBuffer.KeptColumns | abmem/services/algorithms/replay_buffer.py:295-334 | A stored step has the transition's own columns. |
| RolloutBuffer.Rollout.ComputeGae | abmem/services/algorithms/replay_buffer.py:358-402 | Accepts exactly a non-empty buffer, a finite bootstrap, gamma in (0, 1) and lambda in [0, 1]; the arrays are the backward recursion over the stored steps. |
| RolloutBuffer.StoredDelta | abmem/services/algorithms/replay_buffer.py:358-402 | The TD error of a stored step comes from its own reward, value and termination flag and from the value of the next step, of the last next observation at the end. |
| RolloutBuffer.StoredEstimate | abmem/services/algorithms/replay_buffer.py:393-400 | Each estimate adds the weighted one after it unless the step terminates; the return adds the value. |
| RolloutBuffer.BackwardPass | abmem/services/algorithms/replay_buffer.py:393-400 | The loop computes the recursion at every position. |
| RolloutBuffer.WeightBelowOne | abmem/services/algorithms/replay_buffer.py:383-390 | The accepted arguments make gamma * lambda a contraction, as the bound below needs. |
| Gae.BackwardIsForward | abmem/services/algorithms/replay_buffer.py:358-402 | The recursion equals the forward sum of the TD errors up to the next termination, the one l steps ahead weighted with (gamma * lambda)^l (equation 16 of Schulman et al., 2016). |
| Gae.ReturnsTelescope | abmem/services/algorithms/replay_buffer.py:358-402 | For lambda = 1 the value estimates cancel: the return is the discounted rewards up to the next termination, plus the discounted bootstrap if nothing terminates. |
| Gae.AdvantagesAreBounded | abmem/services/algorithms/replay_buffer.py:358-402 | No advantage exceeds max|delta| / (1 - gamma * lambda). |
| Policy.Agent.Observe | abmem/services/algorithms/base.py:543-551 | The buffers after observing a transition, for each kind of policy; no-op when frozen or without a buffer. |
| Policy.Agent.SampleBatch | abmem/services/algorithms/base.py:553-561 | A batch takes `batch_size` transitions of the stored sequence at distinct positions. |
| Policy.Agent.Update | abmem/services/algorithms/base.py:553-561 | Updates exactly when not frozen, learning and ready; it learns from what the buffers hold at that moment and never asks a replay buffer for more than it has. |
| Policy.Agent.SampleWindows | abmem/services/algorithms/RDPG.py:307-320 | The gradient steps use `batch_size` windows each, all of them pieces of the stored sequence of length seq_len, at distinct positions whenever there are enough. |
| Policy.Agent.SelectAction | abmem/services/algorithms/RDPG.py:244-272 | The window takes the observation in, or replaces its last entry within a period. |
| PolicySpec.RepeatedQueries | abmem/services/algorithms/RDPG.py:244-277 | Asking twice in a period leaves the window as if only the last query had been made. |
| Policy.Agent.ObserveRollout | abmem/services/algorithms/ppo.py:245-263 | Counts every transition, drops the oldest pre-learning ones, stores the rest with the bootstrap observation. |
| Policy.Agent.ComputeAdvantages | abmem/services/algorithms/ppo.py:270-291 | GAE of the stored rollout, bootstrapped with the value of the last stored next observation. |
| LearningSchedule.LearnStep | abmem/services/algorithms/ppo.py:245-268 | Observing and updating never raise, the update happens with exactly the n-th transitions of the schedule, and the buffers hold what n transitions leave. |
| LearningSchedule.Rollover | abmem/services/algorithms/ppo.py:245-268 | The rollout is full exactly when an update is due, and by then learning_starts transitions have been seen. |
| LearningSchedule.GrownUpdates | abmem/services/algorithms/ppo.py:353-434 | A due update uses up the whole rollout and its bootstrap observation; otherwise nothing is used. |
| AgentStep.Runtime.Step | abmem/services/agent/agent_service.py:38-166 | The whole step on the mutable runtime state: counters, transition, update, action, interventions, pending decision and log flag, or the errors of its parts. |
| AgentStep.Runtime.Settle | abmem/services/agent/agent_service.py:68-99 | The outcomes of t - 1: counters, then the stored transition and the update. |
| AgentStep.Runtime.Decide | abmem/services/agent/agent_service.py:101-141 | Action, prices, interventions, the applied action and the pending decision. |
| AgentStep.Runtime.Learn | abmem/services/agent/agent_service.py:79-99 | A transition is stored only in training, for a learning policy, with a previous decision and a complete observation. |
| AgentRun.RunNeverFails | abmem/services/agent/agent_service.py:38-166 | No step of any run raises, before and after all lags exist; in particular no transition ever meets a full rollout buffer. |
| AgentRun.Simulate | abmem/services/agent/agent_service.py:38-166 | The periods of a run on the runtime state give exactly the states and results of the period-by-period definition. |
| AgentRun.ObservedCount | abmem/services/agent/agent_service.py:79-97 | After step t a learner in training has observed exactly max(0, t - maxlag - 1) transitions; from the evaluation window on the number stays. |
| AgentRun.ObservedTransitions | abmem/services/agent/agent_service.py:86-97 | They are the transitions of consecutive periods: observation and decision of p, reward and observation of p + 1, from the first pair of complete observations on; the action is that of the prices submitted in p. |
| AgentRun.SubmittedPrice | abmem/services/agent/agent_service.py:101-141 | In every period every plant submits a price in the bounds within half a cent of the affine image of the action given for that plant, unless the fail-stack rule replaced it. |
| AgentRun.OwnPrices | abmem/services/agent/agent_service.py:101-141 | Without the fail-stack rule, in the evaluation window and under evaluate_only this holds for all plants. |
| AgentRun.LearningActiveWhen | abmem/services/agent/agent_service.py:143-160 | The step log calls a period a learning one exactly when it trains and the buffer has what the first update needs; for PPO, when it updates. |
| AgentRun.StoredDecision | abmem/services/agent/agent_service.py:88-141 | A stored transition carries the action of the prices that the previous step returned, replaced ones included, the intervention flag of that step, and the statistics of the action chosen then. |
| AgentRun.StoredActionIsSubmitted | abmem/services/agent/agent_service.py:101-141 | With whole-cent bounds the stored action gives back exactly the submitted prices, replaced ones included; PTF must be in whole cents only if delta is 0. |
| AgentRun.ObservedChain | abmem/services/agent/agent_service.py:86-97 | Each one's next observation is the following one's observation. |
| AgentRun.UpdateSchedule | abmem/services/agent/agent_service.py:79-99 | The policy updates in a period exactly when it trains and the number of observed transitions is one of the schedule. |
| AgentRun.FirstUpdate | abmem/services/agent/agent_service.py:79-99 | The first update is in period maxlag + 1 + first_update_transitions(), and not before. |
| AgentRun.LaterUpdates | abmem/services/agent/agent_service.py:79-99 | After it a replay learner updates in every training period, PPO in every rollout_length-th. |
| AgentRun.NeverUpdatesIff | abmem/services/agent/agent_service.py:79-99 | A replay-buffer learner never updates if and only if learning_starts exceeds its buffer. |
| AgentRun.RolloutIsUnfinished | abmem/services/agent/agent_service.py:79-99 | After every step the rollout holds exactly the transitions since the last update, fewer than rollout_length. |
| AgentRun.BufferIsRecentPast | abmem/services/agent/agent_service.py:79-97 | The replay buffer holds the last transitions of the run, at most its capacity. |
| AgentRun.WindowIsPieceOfRun | abmem/services/agent/agent_service.py:79-97 | Every window of the buffer is a true piece of the run: transitions of consecutive periods, each leading to the next. |
| AgentRun.ReplacesExactlyWhen | abmem/services/agent/agent_service.py:72-124 | A training period replaces a price exactly when the plant has failed in each of its last `limit` updates since its price was last replaced; the first period replaces none. |
| AgentRun.ReplacedAtMost | abmem/services/agent/agent_service.py:72-84 | T training periods replace at most (T - 1) / limit prices of a plant. |
| AgentRun.CountersHold | abmem/services/agent/agent_service.py:72-124 | The counters of a run are those of the rule and below the limit after every step, and the prices replaced are the rule's interventions. |
| AgentRun.RuleHolds | abmem/services/agent/agent_service.py:72-84 | T training periods contain T - 1 counter updates, and no counter is left at the limit. |
| AgentRun.NoReplacementInEvaluation | abmem/services/agent/agent_service.py:112-124 | In the evaluation window and under evaluate_only no price is replaced. |
| AgentRun.ReplacedPrice | abmem/services/agent/agent_service.py:112-124 | A replaced price is in the bounds, needs a known PTF(t - 1), and is below it when that exceeds the lower bound and delta is positive. |
| AgentRun.TargetsFollowTheWindow | abmem/services/algorithms/RDPG.py:286-305 | Over a window extended by its last next observation, position k + 1 is what followed step k. |
| AgentRun.HistoryIsRecentPast | abmem/services/algorithms/RDPG.py:244-277 | After every step the acting window is the last seq_len complete observations of the run. |
| AgentRun.HistoryMatchesBuffer | abmem/services/algorithms/RDPG.py:244-305 | In training, once a transition is stored, the acting window is the last min(seq_len, available) observations of the buffer extended by its final next observation. |
| FailStack.FailureMeans | abmem/services/agent/failstack.py:215-264 | The rule without division: for a positive acceptance price profit < margin * revenue, for price 0 a loss, and at a negative price the comparison turns round. |
| FailStack.InterventionPoint | abmem/services/agent/failstack.py:308-350 | The draw u picks the point that divides the interval from max(low, PTF - delta) to PTF as u divides [0, 1), rounded down to the cent and clipped. |
| FailStack.InterventionUndercuts | abmem/services/agent/failstack.py:308-350 | Every intervention price is in the bounds; it is below PTF(t - 1) if and only if PTF exceeds the lower bound with positive delta, or exceeds the upper bound; it is at most delta and a cent below. |
| FailStack.InterventionIsWhole | abmem/services/agent/failstack.py:308-350 | With whole-cent bounds an intervention price is in whole cents, for delta 0 if PTF(t - 1) is. |
| FailStack.InterventionsArePaid | abmem/services/agent/failstack.py:267-282 | limit * interventions + counter never exceeds the number of counter updates, for every plant and every history. |
| FailStack.InterventionsAreRare | abmem/services/agent/failstack.py:353-396 | So there are at most updates / limit interventions. |
| FailStack.CounterCountsFailures | abmem/services/agent/failstack.py:267-282 | A counter of k means that the last k updates of the plant were failures. |
| FailStack.InterventionFollowsFailures | abmem/services/agent/failstack.py:353-396 | Whenever a price is replaced the plant has failed in each of its last `limit` updates. |
| FailStack.CounterIsStreak | abmem/services/agent/failstack.py:267-282 | A counter is exactly the number of failures in a row since the price was last replaced. |
| FailStack.ReplacedIff | abmem/services/agent/failstack.py:353-396 | A price is replaced if and only if a market price is known and the plant has failed in each of its last `limit` updates since the last replacement. |
| FailStack.DrawIs | abmem/services/agent/failstack.py:342-396 | A replaced price uses the draw whose number is the number of earlier plants that have drawn: those due while PTF(t - 1) exceeds the lower bound and delta is positive. |
| FailStack.FailStackState.UpdateCounters | abmem/services/agent/failstack.py:267-282 | Each counter is incremented on failure and cleared on success, in place; a wrong number of flags raises and changes nothing. |
| FailStack.FailStackState.ApplyInterventions | abmem/services/agent/failstack.py:353-396 | Exactly the plants at the limit get a new price and a cleared counter, draws being consumed in plant order; without a known price nothing changes. |
| ActionSpace.ToPrice | abmem/services/agent/action_space.py:47-74 | One price per action, and ValueError exactly for non-finite input or wrong bounds. |
| ActionSpace.FromPrice | abmem/services/agent/action_space.py:77-99 | One action per price, and ValueError exactly for a non-finite price or bounds that are not strictly ordered. |
| ActionSpace.PriceIsMonotone | abmem/services/agent/action_space.py:47-74 | A larger action never gives a smaller price. |
| ActionSpace.PriceIsClose | abmem/services/agent/action_space.py:47-74 | Every price is in the bounds and within half a cent of the affine map. |
| ActionSpace.GivesPriceIff | abmem/services/agent/action_space.py:47-74 | An action gives the cent price p if and only if its affine image is less than half a cent away, or exactly half a cent with p even. |
| ActionSpace.RoundTrip | abmem/services/agent/action_space.py:47-99 | With whole-cent bounds the price comes back from the stored action with any error below 0.01 / (high - low). |
| ActionSpace.RoundTripBoundIsTight | abmem/services/agent/action_space.py:47-99 | At that error an odd price is lost: the bound is the best possible. |
| ActionSpace.WholePriceReturns | abmem/services/agent/action_space.py:47-99 | With whole-cent bounds `to_price(from_price(p))` is p for every whole-cent price p in the bounds. |
| ActionSpace.StoredActionGivesAppliedPrice | abmem/services/agent/action_space.py:47-99 | `to_price(from_price(to_price(u)))` is `to_price(u)`. |
| BudgetSeries.Quantize | abmem/services/analysis/run_analysis.py:427-429 | Half-even rounding to the cent is the only value that is at most half a cent away and even on ties. |
| BudgetSeries.PreviousBudgetInverts | abmem/services/analysis/run_analysis.py:432-451 | The inversion reproduces the stored budget exactly when that is possible at all, and then gives the lowest budget that does. |
| BudgetSeries.StepError | abmem/services/analysis/run_analysis.py:432-451 | One step back keeps the reconstructed budget at or below the true one, and adds at most a cent, only in a tie. |
| BudgetSeries.ReconstructBudgetSeries | abmem/services/analysis/run_analysis.py:454-470 | The backward loop with its final reversal computes the chain of inversions. |
| BudgetSeries.ReconstructionError | abmem/services/analysis/run_analysis.py:454-470 | Before every period the reconstructed budget is at most the true one, and short by at most one cent per later half-cent tie, whatever branch the inversions take. |
| BudgetSeries.ReconstructionExact | abmem/services/analysis/run_analysis.py:454-470 | Without ties it is exact. |
| BudgetSeries.ReconstructionExactIff | abmem/services/analysis/run_analysis.py:454-470 | It is exact if and only if every tie was rounded up. |
| BudgetSeries.ErrorBoundIsTight | abmem/services/analysis/run_analysis.py:454-470 | For every number of ties there is a run that is off by exactly that many cents. |
| LibraryNames.SuffixStart | abmem/migrations/0008_agent_library_import.py:58-65 | The pattern matches at exactly one position: the underscore before the trailing digits, if there are any. |
| LibraryNames.PlainName | abmem/migrations/0008_agent_library_import.py:58-65 | A name without suffix is its own stem with number 1. |
| LibraryNames.SuffixedName | abmem/migrations/0008_agent_library_import.py:58-65 | Stem, underscore and digits are taken apart again. |
| LibraryNames.NextName | abmem/migrations/0008_agent_library_import.py:44-66 | The next candidate is the longest prefix of the stem that leaves room, then an underscore and the next number. |
| LibraryNames.FirstSuffix | abmem/migrations/0008_agent_library_import.py:44-66 | With room, X becomes X_2. |
| LibraryNames.NextSuffix | abmem/migrations/0008_agent_library_import.py:44-66 | With room, X_n becomes X_(n + 1). |
| LibraryNames.CandidateIs | abmem/migrations/0008_agent_library_import.py:139-164 | All candidates of a search are built on the stem of the base, which is cut only for room, with the numbers in order. |
| LibraryNames.NextNumber | abmem/migrations/0008_agent_library_import.py:44-66 | Whatever is cut off, the next candidate carries the next number. |
| LibraryNames.FitsIff | abmem/migrations/0008_agent_library_import.py:44-66 | The next candidate has at most 20 characters if and only if its number is below 10 to the 19. |
| LibraryNames.OverflowsIff | abmem/migrations/0008_agent_library_import.py:44-66 | Among the names of at most 20 characters the promised length bound fails for exactly one: an underscore followed by nineteen nines. |
| LibraryNames.NumberOfLower | abmem/migrations/0008_agent_library_import.py:69-82 | Lower-casing changes neither the suffix nor its number. |
| LibraryNames.CandidatesDiffer | abmem/migrations/0008_agent_library_import.py:139-164 | A search never tries the same name twice, not even in another case. |
| LibraryNames.AheadShrinks | abmem/migrations/0008_agent_library_import.py:139-164 | Every taken candidate leaves fewer taken names ahead: the search ends. |
| LibraryNames.FreeName | abmem/migrations/0008_agent_library_import.py:139-164 | The result is the first candidate that is free or held by an acceptable holder: the base itself, or its stem with a number; the search takes at most one step per taken name. |
| LibraryImport.SameKey | abmem/migrations/0008_agent_library_import.py:85-136 | Two agents have the same configuration exactly when settings and plants agree, the order of the plants aside. |
| LibraryImport.GroupAgents | abmem/migrations/0008_agent_library_import.py:199-205 | One group per configuration with all its scenario agents, ordered by the lowest member. |
| LibraryImport.Database.ResolveNames | abmem/migrations/0008_agent_library_import.py:184-197 | Library names become pairwise distinct in any case, every row keeps a candidate of its own name, and nothing is renamed when they were distinct already. |
| LibraryImport.Database.ImportGroup | abmem/migrations/0008_agent_library_import.py:214-251 | The library agent of a group has the first usable candidate of the template's name, is new only if that is free, has the group's configuration and is the source of every member. |
| LibraryImport.Database.ImportGroups | abmem/migrations/0008_agent_library_import.py:214-251 | All groups one after the other keep the earlier groups served, and the names distinct. |
| LibraryImport.Database.ImportLibrary | abmem/migrations/0008_agent_library_import.py:167-251 | Duplicate names in a market raise before any change; otherwise names are distinct, every scenario agent's source has its configuration, two share a source exactly when their configurations are equal, every new row is needed, and all other rows are untouched. |
| LibraryImport.SourcesAreExact | abmem/migrations/0008_agent_library_import.py:249-251 | The statement about sources, from the groups. |
| LibraryImport.RowsAreKept | abmem/migrations/0008_agent_library_import.py:214-251 | The statement about the rows, from the groups. |
| LibraryNames.FreeAgentName | abmem/services/agent/library_service.py:593-621 | The first free one of base, base_2, ..., found within one more number than there are names in use; its stem is the base, cut for room and stripped. A suffixed result has at most 20 characters if and only if some number below 10 to the 19 is free, in particular whenever fewer than 10 to the 19 less 2 names are in use. |
| LibraryNames.NormalizedIs | abmem/services/agent/library_service.py:593-621 | Normalising strips exactly the spaces around a name. |
| LibraryNames.NumberedWithRoom | abmem/services/agent/library_service.py:593-621 | With room, the n-th suffixed name of X is X_n. |
| LibraryNames.NumberedFits | abmem/services/agent/library_service.py:593-621 | A suffixed name has at most 20 characters if and only if its number is below 10 to the 19. |
| ScenarioImport.ParseResources | abmem/scenario_yaml.py:924-1005 | No problem exactly when every resource has a name of 1 to 20 characters and an accepted energy type and costs, is listed once, and is absent or stored with the same values; then each is matched to the stored one of lowest id. Otherwise every problem of every entry is reported, and nothing else. |
| ScenarioImport.ParseAgents | abmem/scenario_yaml.py:1222-1245 | No problem exactly when the wizard and the algorithm registry accept every entry, its names and plants are in order, and no name is used twice in any case. Otherwise exactly the entries that are not in order and the repeated names are reported. |
| ScenarioImportSpec.LibNameIs | abmem/scenario_yaml.py:1247-1257 | An agent is matched under its library name, unless the first earlier agent matched under that name has another configuration: then under its own name. |
| ScenarioImportSpec.SameKey | abmem/scenario_yaml.py:692-705 | Two file agents have the same configuration exactly when fields and plants agree, order and case aside. |
| ScenarioImportSpec.EntryRules | abmem/scenario_yaml.py:1008-1140 | An entry is in order exactly if it is accepted, its two names have 1 to 20 characters, its fail-stack limit is positive and its delta not negative, and every one of its plants, of which there is at least one, has a positive capacity and is of a listed resource whose energy type the agent may own. |
| ScenarioImport.AssignLibraryNames | abmem/scenario_yaml.py:1247-1257 | The loop gives every agent the library name of this rule. |
| ScenarioImport.CheckSharing | abmem/scenario_yaml.py:1258-1269 | Exactly the agents that share a library name with another configuration are reported. |
| ScenarioImport.MatchLibraries | abmem/scenario_yaml.py:1271-1296 | Exactly the agents whose stored library agent has another configuration are reported; the others reuse theirs. |
| ScenarioImport.BuildImportPlan | abmem/scenario_yaml.py:1188-1299 | The document is accepted exactly when its header and entries are and it has no conflict with itself or with the store, and the plan is then determined by the document and the store. |
| ScenarioImportSpec.ResourcesServed | abmem/scenario_yaml.py:924-1005 | After the import every resource of the file is stored with the file's values. |
| ScenarioImportSpec.SameKeySameIds | abmem/scenario_yaml.py:692-705 | Equal configuration keys mean equal fields and the same multiset of stored plants. |
| ScenarioImportSpec.SameConfigMeans | abmem/scenario_yaml.py:1142-1186 | Without a difference the stored agent has the file agent's fields and the same resource names and capacities, in any order. |
| ScenarioImportSpec.LibrariesServed | abmem/scenario_yaml.py:1322-1349 | Every file agent's library agent, matched, shared or created, has the file's configuration. |
| ScenarioImportSpec.OneLibraryPerName | abmem/scenario_yaml.py:1322-1349 | Exactly one library agent is added per distinct wanted name that the library did not have, and no other. |
| ScenarioImportSpec.ScenarioAgentsAreTheFiles | abmem/scenario_yaml.py:1366-1368 | Every scenario agent has exactly the file's name, fields, resource names and capacities, and its source is a library agent of its library name with the same configuration. |
| ScenarioImportSpec.Reimport | abmem/scenario_yaml.py:1188-1368 | The same document is accepted again on the resulting store, and adds no resource and no library agent. |
| ScenarioImport.Store.CreateResources | abmem/scenario_yaml.py:1317-1321 | Exactly the unmatched resources are created. |
| ScenarioImport.Store.CreateLibraries | abmem/scenario_yaml.py:1322-1349 | The service never rejects a library agent of an accepted plan; the store ends with one per distinct unmatched name. |
| ScenarioImport.Store.CopyAgents | abmem/scenario_yaml.py:1366-1367 | No copy is rejected: the names are free in the new market. |
| ScenarioImport.Store.ApplyImportPlan | abmem/scenario_yaml.py:1303-1368 | Applying an accepted plan never fails and leaves exactly the resources, library agents and copies that the document asks for. |
| ScenarioImport.Store.CreateLibraryAgent | abmem/services/agent/library_service.py:532-560 | Succeeds exactly for a valid name that no library agent has, valid fields and plants the agent type may own. |
| ScenarioImport.Store.CopyAgent | abmem/services/agent/library_service.py:660-726 | Succeeds exactly for a valid name that is free in the market; the copy has the fields and plants of the copied agent, and as source that agent if it is a library agent, else that agent's own source. |

## Left out

- Market clearing, the accounting of a run, the worker that evaluates a trial: their results are inputs.
- Networks, optimisers, losses, checkpoints and warm starts, exploration noise and its decay.
- Rounding of IEEE floats apart from the explicit perturbation in `ActionSpace.RoundTrip`.
- The normaliser of observations, which is an arbitrary function that keeps the length.
- The wizard's coercion and validation of single fields, of the resource values, of the algorithm parameters and of the scenario header: their verdict is part of the document. YAML syntax, error texts, demand and run settings of an import.
- The deletion of run data itself: a trial row carries a flag that says whether its data is there.
- The reverse migration, and the cache of configuration keys, which never change during the migration.
- The best-candidate-key variant of `apply_retention`, which the study service does not use.
- `import_resources`, `update_library_agent`, `duplicate_scenario`: neither the migration nor the scenario import calls them.
- HpoStudy.RunStudy: the study row is not part of this method; its status and the order of the updates are the subject of StudyProtocol. An exception between two updates of a handler is the crash step there.
- HpoStudy.Search: the evaluator that the optimizer calls is replayed from the recorded calls, because a callback that writes to an object cannot be passed as a function.
- AgentStep.Runtime.Step: the step log keeps only the learning flag and the interventions, not the reward and loss columns.
- LibraryNames.SuffixStart: the pattern's special case of a line break at the end of a name is not modelled.
- ScenarioImport.BuildImportPlan: problems are recorded by kind and position, without their texts; plants of stored agents are compared through the resources' ids.
- ScenarioImport.Store.CopyAgent: the caller gives the name; the default one is the subject of `LibraryNames.FreeAgentName`.
- LibraryImport.Database.ImportLibrary: a library agent is one without a market; portfolios and plants are rows of the agent.
- BeeColony.ArtificialBeeColony.Submit: a score that is not of the expected class is represented by an answer to another request.

/**
 What one evaluation batch of a study does to its trial rows and to the evaluator's best
 candidate (abmem/services/hpo/hpo_service.py, _StudyEvaluator; abmem/services/hpo/retention.py).

 The id of a trial is its position in the study's list of trials.
 */
module HpoStudySpec {
  import opened Wrappers
  import opened Floats
  import opened BeeColonySpec
  import opened BeeColony
  import ParamSpace

  type Params = map<string, ParamSpace.Value>

  datatype TrialPhase = Search(phase: Phase) | FINAL_EVAL

  datatype TrialStatus = PENDING | RUNNING | FINISHED | FAILED

  /** hasData: the periods of the trial's evaluation run are stored. */
  datatype Trial = Trial(iteration: nat, phase: TrialPhase, source: nat, params: Params, seed: int,
                         status: TrialStatus, hasData: bool) {
    predicate Open() { status.PENDING? || status.RUNNING? }

    /** The row of this candidate and seed. */
    predicate Shows(c: Candidate, seed: int) {
      iteration == c.iteration && phase == c.phase && source == c.source && params == c.params && this.seed == seed
    }

    /** The same row up to what an evaluation or the retention changes. */
    predicate SameTask(t: Trial) {
      t == this.(status := t.status, hasData := t.hasData)
    }
  }

  type Trials = seq<Trial>

  datatype Candidate = Candidate(iteration: nat, phase: TrialPhase, source: nat, params: Params)

  /** Outcome of one evaluation task; a failed run may leave periods behind. */
  datatype Outcome = Outcome(trialId: nat, ok: bool, agent: Float, market: Float, leftData: bool) {
    function Objectives(): Objectives {
      if ok then BeeColonySpec.Objectives(agent, market) else FAILED_OBJECTIVES
    }
  }

  /** What the task runner does with a batch: it returns outcomes, or it stops after some of them
      because the study was canceled. */
  datatype RunnerReply = Returned(outcomes: seq<Outcome>) | Interrupted(done: seq<Outcome>)

  /** Objectives of a candidate averaged over the seeds, with its trial ids. */
  datatype Evaluated = Evaluated(objectives: Objectives, ids: seq<nat>)

  datatype StudyData = StudyData(space: seq<ParamSpace.ParamSpec>, logarithm: ParamSpace.Logarithm,
                                 settings: ABCSettings, searchSeeds: seq<int>, evaluationSeeds: seq<int>) {
    predicate Valid() {
      ParamSpace.ValidSpace(space) && searchSeeds != [] && evaluationSeeds != []
    }
  }

  // ------------------------------------------------------------------ trial rows

  function TrialsOf(c: Candidate, seeds: seq<int>): Trials {
    if seeds == [] then []
    else TrialsOf(c, seeds[..|seeds| - 1])
         + [Trial(c.iteration, c.phase, c.source, c.params, seeds[|seeds| - 1], PENDING, false)]
  }

  /** One pending trial per candidate and seed. */
  function Created(candidates: seq<Candidate>, seeds: seq<int>): Trials {
    if candidates == [] then []
    else
      var n := |candidates| - 1;
      Created(candidates[..n], seeds) + TrialsOf(candidates[n], seeds)
  }

  lemma {:induction false} TrialsOfLength(c: Candidate, seeds: seq<int>)
    ensures |TrialsOf(c, seeds)| == |seeds|
  {
    if seeds != [] {
      TrialsOfLength(c, seeds[..|seeds| - 1]);
    }
  }

  /** Exactly one trial per candidate and seed. */
  lemma {:induction false} CreatedLength(candidates: seq<Candidate>, seeds: seq<int>)
    ensures |Created(candidates, seeds)| == |candidates| * |seeds|
  {
    if candidates != [] {
      var n := |candidates| - 1;
      CreatedLength(candidates[..n], seeds);
      TrialsOfLength(candidates[n], seeds);
      OneMore(n, |seeds|);
    }
  }

  lemma {:induction false} TrialsOfAt(c: Candidate, seeds: seq<int>, j: nat)
    requires j < |seeds|
    ensures |TrialsOf(c, seeds)| == |seeds| && TrialsOf(c, seeds)[j].Shows(c, seeds[j])
    ensures TrialsOf(c, seeds)[j].status == PENDING && !TrialsOf(c, seeds)[j].hasData
  {
    TrialsOfLength(c, seeds[..|seeds| - 1]);
    if j < |seeds| - 1 {
      TrialsOfAt(c, seeds[..|seeds| - 1], j);
    }
  }

  /** Row k * |seeds| + j of a batch is the pending one of candidate k and seed j, without run data. */
  lemma {:induction false} CreatedAt(candidates: seq<Candidate>, seeds: seq<int>, k: nat, j: nat)
    requires k < |candidates| && j < |seeds|
    ensures 0 <= k * |seeds| + j < |Created(candidates, seeds)|
    ensures var row := Created(candidates, seeds)[k * |seeds| + j];
            row.Shows(candidates[k], seeds[j]) && row.status == PENDING && !row.hasData
  {
    hide TrialsOf;
    var n := |candidates| - 1;
    CreatedLength(candidates[..n], seeds);
    TrialsOfAt(candidates[n], seeds, j);
    if k < n {
      CreatedAt(candidates[..n], seeds, k, j);
    }
  }

  lemma CreatedNone(seeds: seq<int>)
    ensures Created([], seeds) == []
  {
  }

  lemma CreatedStep(candidates: seq<Candidate>, n: nat, seeds: seq<int>)
    requires n < |candidates|
    ensures Created(candidates[..n + 1], seeds) == Created(candidates[..n], seeds) + TrialsOf(candidates[n], seeds)
    ensures |Created(candidates[..n], seeds)| == n * |seeds|
  {
    assert candidates[..n + 1][..n] == candidates[..n];
    CreatedLength(candidates[..n], seeds);
  }

  lemma OneMore(n: int, m: int)
    ensures (n + 1) * m == n * m + m
  {}

  /** The ids n, n + 1, ..., n + m - 1. */
  function IdRange(n: nat, m: nat): (ids: seq<nat>)
    ensures |ids| == m
    ensures forall i :: 0 <= i < m ==> ids[i] == n + i
  {
    if m == 0 then [] else IdRange(n, m - 1) + [n + m - 1]
  }

  /** The row of one task after its evaluation; ids outside the batch name no task. */
  function Ran(trials: Trials, o: Outcome, first: nat): (after: Trials)
    ensures |after| == |trials|
  {
    if first <= o.trialId < |trials| then
      trials[o.trialId := trials[o.trialId].(status := if o.ok then FINISHED else FAILED,
                                             hasData := o.ok || o.leftData)]
    else trials
  }

  function RanAll(trials: Trials, outcomes: seq<Outcome>, first: nat): (after: Trials)
    ensures |after| == |trials|
  {
    if outcomes == [] then trials
    else Ran(RanAll(trials, outcomes[..|outcomes| - 1], first), outcomes[|outcomes| - 1], first)
  }

  /** Trials that were not evaluated are marked as failed. */
  function Closed(trials: Trials): (after: Trials)
    ensures |after| == |trials|
  {
    if trials == [] then []
    else
      var t := trials[|trials| - 1];
      Closed(trials[..|trials| - 1]) + [if t.Open() then t.(status := FAILED) else t]
  }

  /** Retention: a finished trial keeps its data only when its id is kept. */
  function Retained(trials: Trials, keep: seq<nat>): (after: Trials)
    ensures |after| == |trials|
  {
    if trials == [] then []
    else
      var n := |trials| - 1;
      Retained(trials[..n], keep)
      + [if trials[n].status == FINISHED && n !in keep then trials[n].(hasData := false) else trials[n]]
  }

  lemma {:induction false} RetainedAt(trials: Trials, keep: seq<nat>, id: nat)
    requires id < |trials|
    ensures Retained(trials, keep)[id] ==
            if trials[id].status == FINISHED && id !in keep then trials[id].(hasData := false) else trials[id]
  {
    if id < |trials| - 1 {
      RetainedAt(trials[..|trials| - 1], keep, id);
    }
  }

  lemma {:induction false} ClosedAt(trials: Trials, id: nat)
    requires id < |trials|
    ensures Closed(trials)[id] ==
            if trials[id].Open() then trials[id].(status := FAILED) else trials[id]
  {
    if id < |trials| - 1 {
      ClosedAt(trials[..|trials| - 1], id);
    }
  }

  // ------------------------------------------------------------------ outcomes

  /** The dictionary of outcomes by trial id: the last one wins. */
  function Lookup(outcomes: seq<Outcome>, id: nat): Option<Outcome> {
    if outcomes == [] then None
    else if outcomes[|outcomes| - 1].trialId == id then Some(outcomes[|outcomes| - 1])
    else Lookup(outcomes[..|outcomes| - 1], id)
  }

  /** Position k holds the last outcome for this id. */
  predicate LastAt(outcomes: seq<Outcome>, id: nat, o: Outcome, k: nat) {
    && k < |outcomes| && outcomes[k] == o && o.trialId == id
    && forall l :: k < l < |outcomes| ==> outcomes[l].trialId != id
  }

  lemma {:induction false} LookupIsLast(outcomes: seq<Outcome>, id: nat)
    ensures forall o :: Lookup(outcomes, id) == Some(o) <==> exists k: nat :: LastAt(outcomes, id, o, k)
  {
    if outcomes != [] {
      var n := |outcomes| - 1;
      LookupIsLast(outcomes[..n], id);
      forall o
        ensures Lookup(outcomes, id) == Some(o) <==> exists k: nat :: LastAt(outcomes, id, o, k)
      {
        if outcomes[n].trialId == id {
          assert o == outcomes[n] ==> LastAt(outcomes, id, o, n);
        } else {
          if k: nat :| LastAt(outcomes[..n], id, o, k) {
            assert LastAt(outcomes, id, o, k);
          }
          if k: nat :| LastAt(outcomes, id, o, k) {
            assert LastAt(outcomes[..n], id, o, k);
          }
        }
      }
    }
  }

  /** The outcomes are for exactly the tasks first, ..., first + n - 1. */
  predicate Matches(outcomes: seq<Outcome>, first: nat, n: nat) {
    && (forall k :: 0 <= k < |outcomes| ==> first <= outcomes[k].trialId < first + n)
    && (forall id :: first <= id < first + n ==> Lookup(outcomes, id).Some?)
  }

  /** A row of the batch shows the last outcome for it. */
  lemma {:induction false} RanAllAt(trials: Trials, outcomes: seq<Outcome>, first: nat, id: nat)
    requires id < |trials|
    ensures id < first || Lookup(outcomes, id).None? ==> RanAll(trials, outcomes, first)[id] == trials[id]
    ensures id >= first && Lookup(outcomes, id).Some? ==>
              var o := Lookup(outcomes, id).value;
              RanAll(trials, outcomes, first)[id] ==
              trials[id].(status := if o.ok then FINISHED else FAILED, hasData := o.ok || o.leftData)
  {
    if outcomes != [] {
      RanAllAt(trials, outcomes[..|outcomes| - 1], first, id);
    }
  }

  // ------------------------------------------------------------------ mean objectives

  /** Whether all trials of a candidate returned finite objectives. */
  predicate AllFinite(outcomes: seq<Outcome>, first: nat, m: nat) {
    forall id :: first <= id < first + m ==>
      Lookup(outcomes, id).Some? && Lookup(outcomes, id).value.Objectives().IsFinite()
  }

  /** Sum of the objectives of the trials first, ..., first + m - 1. */
  function SumOf(outcomes: seq<Outcome>, first: nat, m: nat): (real, real)
    requires AllFinite(outcomes, first, m)
  {
    if m == 0 then (0.0, 0.0)
    else
      var rest := SumOf(outcomes, first, m - 1);
      var o := Lookup(outcomes, first + m - 1).value.Objectives();
      (rest.0 + o.agent.v, rest.1 + o.market.v)
  }

  /** Mean objectives of a candidate, failed when any seed failed. */
  function MeanOf(outcomes: seq<Outcome>, first: nat, m: nat): Objectives
    requires m > 0
  {
    if AllFinite(outcomes, first, m) then
      var sum := SumOf(outcomes, first, m);
      BeeColonySpec.Objectives(Finite(sum.0 / (m as real)), Finite(sum.1 / (m as real)))
    else FAILED_OBJECTIVES
  }

  /** The trial was evaluated, and both of its scores are finite. */
  predicate Evaluates(outcomes: seq<Outcome>, id: nat) {
    var o := Lookup(outcomes, id);
    o.Some? && o.value.ok && o.value.agent.Finite? && o.value.market.Finite?
  }

  predicate AllEvaluate(outcomes: seq<Outcome>, first: nat, m: nat) {
    forall id :: first <= id < first + m ==> Evaluates(outcomes, id)
  }

  function AgentScores(outcomes: seq<Outcome>, first: nat, m: nat): seq<real>
    requires AllEvaluate(outcomes, first, m)
  {
    seq(m, j requires 0 <= j < m && Evaluates(outcomes, first + j) => Lookup(outcomes, first + j).value.agent.v)
  }

  function MarketScores(outcomes: seq<Outcome>, first: nat, m: nat): seq<real>
    requires AllEvaluate(outcomes, first, m)
  {
    seq(m, j requires 0 <= j < m && Evaluates(outcomes, first + j) => Lookup(outcomes, first + j).value.market.v)
  }

  /** r is the mean of the trials first .. first + m - 1, agent and market apart; -inf when one of them failed. */
  predicate IsMean(outcomes: seq<Outcome>, first: nat, m: nat, r: Objectives) {
    if AllEvaluate(outcomes, first, m) then
      && r.agent.Finite? && (m as real) * r.agent.v == Sum(AgentScores(outcomes, first, m))
      && r.market.Finite? && (m as real) * r.market.v == Sum(MarketScores(outcomes, first, m))
    else r.agent.NegInf? && r.market.NegInf?
  }

  lemma {:induction false} SumOfIs(outcomes: seq<Outcome>, first: nat, m: nat)
    requires AllFinite(outcomes, first, m)
    ensures AllEvaluate(outcomes, first, m)
    ensures SumOf(outcomes, first, m)
         == (Sum(AgentScores(outcomes, first, m)), Sum(MarketScores(outcomes, first, m)))
  {
    if m > 0 {
      SumOfIs(outcomes, first, m - 1);
      assert AgentScores(outcomes, first, m)[..m - 1] == AgentScores(outcomes, first, m - 1);
      assert MarketScores(outcomes, first, m)[..m - 1] == MarketScores(outcomes, first, m - 1);
    }
  }

  lemma Quotient(m: nat, x: real)
    requires m > 0
    ensures (m as real) * (x / (m as real)) == x
  {
  }

  /** What the averaging computes: the two means of the candidate's own trials. */
  lemma MeanIsMean(outcomes: seq<Outcome>, first: nat, m: nat)
    requires m > 0
    ensures IsMean(outcomes, first, m, MeanOf(outcomes, first, m))
    ensures m == 1 && Evaluates(outcomes, first) ==>
              var o := Lookup(outcomes, first).value;
              MeanOf(outcomes, first, m) == BeeColonySpec.Objectives(o.agent, o.market)
  {
    hide Lookup;
    if AllEvaluate(outcomes, first, m) {
      forall id | first <= id < first + m
        ensures Lookup(outcomes, id).Some? && Lookup(outcomes, id).value.Objectives().IsFinite()
      {
        assert Evaluates(outcomes, id);
      }
      SumOfIs(outcomes, first, m);
      Quotient(m, SumOf(outcomes, first, m).0);
      Quotient(m, SumOf(outcomes, first, m).1);
    } else {
      var id :| first <= id < first + m && !Evaluates(outcomes, id);
    }
  }

  /** Result of every candidate of a batch, in order. */
  function ResultsOf(outcomes: seq<Outcome>, first: nat, m: nat, n: nat): (results: seq<Evaluated>)
    requires m > 0
    ensures |results| == n
  {
    if n == 0 then []
    else ResultsOf(outcomes, first, m, n - 1)
         + [Evaluated(MeanOf(outcomes, first + (n - 1) * m, m), IdRange(first + (n - 1) * m, m))]
  }

  lemma {:induction false} ResultsOfAt(outcomes: seq<Outcome>, first: nat, m: nat, n: nat, k: nat)
    requires m > 0 && k < n
    ensures ResultsOf(outcomes, first, m, n)[k]
         == Evaluated(MeanOf(outcomes, first + k * m, m), IdRange(first + k * m, m))
    ensures IsMean(outcomes, first + k * m, m, ResultsOf(outcomes, first, m, n)[k].objectives)
  {
    hide MeanOf, IsMean;
    MeanIsMean(outcomes, first + k * m, m);
    if k < n - 1 {
      ResultsOfAt(outcomes, first, m, n - 1, k);
    }
  }

  datatype RunResult = RunResult(trials: Trials, result: Result<seq<Evaluated>, Raised>)

  /** run_candidates: create the trials, run them, average over the seeds. */
  function RunCandidates(trials: Trials, candidates: seq<Candidate>, seeds: seq<int>, reply: RunnerReply): (r: RunResult)
    requires seeds != []
    ensures r.result.Ok? ==> |r.result.value| == |candidates|
  {
    var first := |trials|;
    var created := trials + Created(candidates, seeds);
    match reply
    case Interrupted(done) => RunResult(Closed(RanAll(created, done, first)), Err(StudyCanceled))
    case Returned(outcomes) =>
      var ran := RanAll(created, outcomes, first);
      if !Matches(outcomes, first, |candidates| * |seeds|) then RunResult(ran, Err(StudyFailed))
      else if forall k :: 0 <= k < |outcomes| ==> !outcomes[k].ok then RunResult(ran, Err(StudyFailed))
      else RunResult(ran, Ok(ResultsOf(outcomes, first, |seeds|, |candidates|)))
  }

  /**
   A batch has results exactly if the runner was not stopped, its outcomes are for all tasks of the batch and for no
   others, and some evaluation succeeded. A stopped batch leaves no trial open and counts as canceled.
   */
  lemma BatchSucceedsIff(trials: Trials, candidates: seq<Candidate>, seeds: seq<int>, reply: RunnerReply)
    requires seeds != []
    ensures var r, first := RunCandidates(trials, candidates, seeds, reply), |trials|;
            && (r.result.Ok? <==>
                  && reply.Returned? && (exists k :: 0 <= k < |reply.outcomes| && reply.outcomes[k].ok)
                  && forall id: nat :: Reported(reply.outcomes, id) <==> first <= id < |r.trials|)
            && (r.result == Err(StudyCanceled) <==> reply.Interrupted?)
            && |r.trials| == first + |candidates| * |seeds|
            && (reply.Interrupted? ==> forall id :: 0 <= id < |r.trials| ==> !r.trials[id].Open())
  {
    CreatedLength(candidates, seeds);
    var created := trials + Created(candidates, seeds);
    match reply
    case Interrupted(done) =>
      ClosedIsNoneOpen(RanAll(created, done, |trials|));
    case Returned(outcomes) =>
      forall id: nat
        ensures Lookup(outcomes, id).Some? <==> Reported(outcomes, id)
      {
        SomeOutcome(outcomes, id);
      }
      if Matches(outcomes, |trials|, |candidates| * |seeds|) {
        forall id: nat ensures Reported(outcomes, id) <==> |trials| <= id < |created| { }
      }
      if forall id: nat :: Reported(outcomes, id) <==> |trials| <= id < |created| {
        forall k | 0 <= k < |outcomes| ensures |trials| <= outcomes[k].trialId < |created| {
          assert Reported(outcomes, outcomes[k].trialId);
        }
      }
  }

  predicate Reported(outcomes: seq<Outcome>, id: nat) {
    exists k :: 0 <= k < |outcomes| && outcomes[k].trialId == id
  }

  lemma {:induction false} SomeOutcome(outcomes: seq<Outcome>, id: nat)
    ensures Lookup(outcomes, id).Some? <==> Reported(outcomes, id)
  {
    if outcomes != [] {
      SomeOutcome(outcomes[..|outcomes| - 1], id);
    }
  }

  // ------------------------------------------------------------------ the evaluation callback

  /** The evaluator's fields. */
  datatype Eval = Eval(trials: Trials, bestScore: Float, bestTrialIds: seq<nat>, bestParams: Option<Params>,
                       bestSource: nat)

  const NO_EVALUATION: Eval := Eval([], NegInf, [], None, 0)

  /** All points have the dimension of the space, so decoding succeeds. */
  predicate Decodable(space: seq<ParamSpace.ParamSpec>, requests: seq<Request>) {
    forall k :: 0 <= k < |requests| ==> |requests[k].x| == |space|
  }

  function DecodeOf(study: StudyData, x: Vec): Params
    requires study.Valid() && |x| == |study.space|
  {
    ParamSpace.Decode(study.logarithm, study.space, x).value
  }

  function SearchCandidate(study: StudyData, request: Request): Candidate
    requires study.Valid() && |request.x| == |study.space|
  {
    Candidate(request.iteration, Search(request.phase), request.source, DecodeOf(study, request.x))
  }

  function Candidates(study: StudyData, requests: seq<Request>): (cs: seq<Candidate>)
    requires study.Valid() && Decodable(study.space, requests)
    ensures |cs| == |requests|
  {
    if requests == [] then []
    else
      var n := |requests| - 1;
      Candidates(study, requests[..n]) + [SearchCandidate(study, requests[n])]
  }

  lemma {:induction false} CandidatesAt(study: StudyData, requests: seq<Request>, k: nat)
    requires study.Valid() && Decodable(study.space, requests) && k < |requests|
    ensures Candidates(study, requests)[k] == SearchCandidate(study, requests[k])
  {
    if k < |requests| - 1 {
      CandidatesAt(study, requests[..|requests| - 1], k);
    }
  }

  /** The best-candidate update for one scored request. */
  function Better(e: Eval, study: StudyData, request: Request, result: Evaluated): Eval
    requires study.Valid() && |request.x| == |study.space|
  {
    var scalar := WeightedScore(result.objectives, study.settings.weights);
    if Gt(scalar, e.bestScore) then
      Eval(e.trials, scalar, result.ids, Some(DecodeOf(study, request.x)), request.source)
    else e
  }

  function BetterAll(e: Eval, study: StudyData, requests: seq<Request>, results: seq<Evaluated>): Eval
    requires study.Valid() && Decodable(study.space, requests) && |results| == |requests|
  {
    if requests == [] then e
    else
      var n := |requests| - 1;
      Better(BetterAll(e, study, requests[..n], results[..n]), study, requests[n], results[n])
  }

  function ScoresOf(requests: seq<Request>, results: seq<Evaluated>): (scores: Log)
    requires |results| == |requests|
    ensures |scores| == |requests|
  {
    if requests == [] then []
    else
      var n := |requests| - 1;
      ScoresOf(requests[..n], results[..n]) + [CandidateScore(requests[n], results[n].objectives)]
  }

  lemma BetterAllNone(e: Eval, study: StudyData)
    requires study.Valid()
    ensures BetterAll(e, study, [], []) == e && ScoresOf([], []) == []
  {
  }

  lemma BetterAllStep(e: Eval, study: StudyData, requests: seq<Request>, results: seq<Evaluated>, k: nat)
    requires study.Valid() && Decodable(study.space, requests) && |results| == |requests| && k < |requests|
    ensures BetterAll(e, study, requests[..k + 1], results[..k + 1])
            == Better(BetterAll(e, study, requests[..k], results[..k]), study, requests[k], results[k])
    ensures ScoresOf(requests[..k + 1], results[..k + 1])
            == ScoresOf(requests[..k], results[..k]) + [CandidateScore(requests[k], results[k].objectives)]
  {
    hide Better;
    assert requests[..k + 1][..k] == requests[..k] && results[..k + 1][..k] == results[..k];
  }

  /** One call of the callback: evaluate the batch, update the best candidate, apply retention. */
  function CallStep(e: Eval, study: StudyData, requests: seq<Request>, reply: RunnerReply): (Eval, Reply)
    requires study.Valid()
  {
    if !Decodable(study.space, requests) then (e, Raises(StudyFailed))
    else
      var ran := RunCandidates(e.trials, Candidates(study, requests), study.searchSeeds, reply);
      if ran.result.Err? then (e.(trials := ran.trials), Raises(ran.result.error))
      else
        var best := BetterAll(e.(trials := ran.trials), study, requests, ran.result.value);
        (best.(trials := Retained(ran.trials, best.bestTrialIds)), Scores(ScoresOf(requests, ran.result.value)))
  }

  // ------------------------------------------------------------------ what every batch keeps

  /** Trials of a kept candidate: evaluated, with their data. */
  predicate Intact(trials: Trials, ids: seq<nat>) {
    forall k :: 0 <= k < |ids| ==> ids[k] < |trials| && trials[ids[k]].status == FINISHED && trials[ids[k]].hasData
  }

  /** No finished trial outside the kept ones has data. */
  predicate Purged(trials: Trials, ids: seq<nat>) {
    forall id :: 0 <= id < |trials| && trials[id].status == FINISHED && trials[id].hasData ==> id in ids
  }

  /** No trial waits for its evaluation. */
  predicate NoneOpen(trials: Trials) {
    forall id :: 0 <= id < |trials| ==> trials[id].status.FINISHED? || trials[id].status.FAILED?
  }

  /** The parameters are those of the point: every name of the space, each with the value of its own coordinate. */
  predicate IsDecoded(study: StudyData, x: Vec, params: Params)
    requires study.Valid()
  {
    && |x| == |study.space| && params.Keys == ParamSpace.Names(study.space)
    && forall i :: 0 <= i < |x| ==>
         study.space[i].name in params && params[study.space[i].name] == study.space[i].FromUnit(study.logarithm, x[i])
  }

  lemma DecodeOfIs(study: StudyData, x: Vec)
    requires study.Valid() && |x| == |study.space|
    ensures IsDecoded(study, x, DecodeOf(study, x))
  {
    ParamSpace.DecodeKeys(study.logarithm, study.space, x);
    forall i | 0 <= i < |x|
      ensures study.space[i].name in DecodeOf(study, x)
      ensures DecodeOf(study, x)[study.space[i].name] == study.space[i].FromUnit(study.logarithm, x[i])
    {
      ParamSpace.DecodeAt(study.logarithm, study.space, x, i);
    }
  }

  /** The evaluator's best fields, trial ids included, are those of candidate k, the log's first maximum. */
  ghost predicate BestIs(e: Eval, study: StudyData, log: Log, k: nat)
    requires study.Valid()
  {
    && IsFirstMaximum(log, k, study.settings.weights) && e.bestScore == Scalar(log[k], study.settings.weights)
    && e.bestSource == log[k].request.source
    && e.bestParams.Some? && IsDecoded(study, log[k].request.x, e.bestParams.value)
    && e.bestTrialIds == IdRange(k * |study.searchSeeds|, |study.searchSeeds|)
  }

  /** The evaluator's best candidate is the optimizer's first maximum, once some score is finite. */
  ghost predicate BestAgrees(e: Eval, study: StudyData, log: Log)
    requires study.Valid()
  {
    && e.bestScore == BestScalar(log, study.settings.weights)
    && (e.bestScore.NegInf? ==> e.bestTrialIds == [] && e.bestParams.None?)
    && (e.bestScore.Finite? ==> exists k: nat :: BestIs(e, study, log, k))
  }

  /** Row k * |searchSeeds| + j is the trial of candidate k of the log on search seed j. */
  ghost predicate RowIs(trials: Trials, study: StudyData, log: Log, k: nat, j: nat)
    requires study.Valid() && k < |log| && j < |study.searchSeeds|
  {
    var id := k * |study.searchSeeds| + j;
    && 0 <= id < |trials| && trials[id].seed == study.searchSeeds[j]
    && trials[id].iteration == log[k].request.iteration && trials[id].phase == Search(log[k].request.phase)
    && trials[id].source == log[k].request.source && IsDecoded(study, log[k].request.x, trials[id].params)
  }

  ghost predicate RowsAgree(trials: Trials, study: StudyData, log: Log)
    requires study.Valid()
  {
    forall k: nat, j: nat :: k < |log| && j < |study.searchSeeds| ==> RowIs(trials, study, log, k, j)
  }

  /** What holds between two batches, for everything evaluated so far. */
  ghost predicate EvalOk(e: Eval, study: StudyData, log: Log)
    requires study.Valid()
  {
    && BestAgrees(e, study, log)
    && |e.trials| == |log| * |study.searchSeeds| && RowsAgree(e.trials, study, log)
    && Intact(e.trials, e.bestTrialIds) && Purged(e.trials, e.bestTrialIds) && NoneOpen(e.trials)
  }

  /** Rows may be added, evaluated and purged; the tasks they stand for stay. */
  predicate SameTasks(before: Trials, after: Trials) {
    |before| <= |after| && forall id :: 0 <= id < |before| ==> before[id].SameTask(after[id])
  }

  lemma RanKeepsTasks(trials: Trials, outcomes: seq<Outcome>, first: nat)
    ensures SameTasks(trials, RanAll(trials, outcomes, first))
  {
    forall id | 0 <= id < |trials| ensures trials[id].SameTask(RanAll(trials, outcomes, first)[id]) {
      RanAllAt(trials, outcomes, first, id);
    }
  }

  lemma RetentionKeepsTasks(trials: Trials, keep: seq<nat>)
    ensures SameTasks(trials, Retained(trials, keep))
  {
    forall id | 0 <= id < |trials| ensures trials[id].SameTask(Retained(trials, keep)[id]) {
      RetainedAt(trials, keep, id);
    }
  }

  lemma RowsStay(before: Trials, after: Trials, study: StudyData, log: Log)
    requires study.Valid() && RowsAgree(before, study, log) && SameTasks(before, after)
    ensures RowsAgree(after, study, log)
  {
    forall k: nat, j: nat | k < |log| && j < |study.searchSeeds|
      ensures RowIs(after, study, log, k, j)
    {
      assert RowIs(before, study, log, k, j);
    }
  }

  /** A batch appends the rows of its candidates. */
  lemma RowsGrow(trials: Trials, study: StudyData, log: Log, requests: seq<Request>, scores: Log)
    requires study.Valid() && Decodable(study.space, requests) && Scored(requests, scores)
    requires RowsAgree(trials, study, log) && |trials| == |log| * |study.searchSeeds|
    ensures RowsAgree(trials + Created(Candidates(study, requests), study.searchSeeds), study, log + scores)
  {
    hide Created, Candidates, DecodeOf;
    var m, candidates := |study.searchSeeds|, Candidates(study, requests);
    var created := Created(candidates, study.searchSeeds);
    forall k: nat, j: nat | k < |log + scores| && j < m
      ensures RowIs(trials + created, study, log + scores, k, j)
    {
      if k < |log| {
        assert RowIs(trials, study, log, k, j);
      } else {
        CreatedAt(candidates, study.searchSeeds, k - |log|, j);
        CandidatesAt(study, requests, k - |log|);
        DecodeOfIs(study, requests[k - |log|].x);
        BatchCount(|log|, k - |log|, m);
        assert scores[k - |log|].request == requests[k - |log|];
      }
    }
  }

  lemma MeanFiniteIffAll(outcomes: seq<Outcome>, first: nat, m: nat)
    requires m > 0
    ensures MeanOf(outcomes, first, m).IsFinite() <==> AllFinite(outcomes, first, m)
  {}

  /** The trials of a candidate with finite objectives are finished and have their data. */
  lemma FiniteIsIntact(trials: Trials, outcomes: seq<Outcome>, first: nat, start: nat, m: nat)
    requires m > 0 && first <= start && start + m <= |trials|
    requires MeanOf(outcomes, start, m).IsFinite()
    ensures Intact(RanAll(trials, outcomes, first), IdRange(start, m))
  {
    MeanFiniteIffAll(outcomes, start, m);
    var ids := IdRange(start, m);
    forall k | 0 <= k < m
      ensures var t := RanAll(trials, outcomes, first)[ids[k]]; t.status == FINISHED && t.hasData
    {
      RanAllAt(trials, outcomes, first, ids[k]);
    }
  }

  /** The best-candidate loop keeps agreeing with the optimizer and points at intact trials. */
  lemma {:induction false} BetterAllAgrees(e: Eval, study: StudyData, log: Log, requests: seq<Request>,
                                           results: seq<Evaluated>)
    requires study.Valid() && Decodable(study.space, requests) && |results| == |requests|
    requires BestAgrees(e, study, log) && Intact(e.trials, e.bestTrialIds)
    requires forall k :: 0 <= k < |results| ==>
               results[k].objectives.IsFinite() ==> Intact(e.trials, results[k].ids)
    requires forall k :: 0 <= k < |results| ==>
               results[k].ids == IdRange((|log| + k) * |study.searchSeeds|, |study.searchSeeds|)
    ensures var best := BetterAll(e, study, requests, results);
            && best.trials == e.trials
            && BestAgrees(best, study, log + ScoresOf(requests, results))
            && Intact(best.trials, best.bestTrialIds)
  {
    hide BestAgrees, Intact, IdRange, Better;
    if requests == [] {
      assert log + [] == log;
    } else {
      var n := |requests| - 1;
      BetterAllAgrees(e, study, log, requests[..n], results[..n]);
      BetterAgrees(BetterAll(e, study, requests[..n], results[..n]), study,
                   log + ScoresOf(requests[..n], results[..n]), requests[n], results[n]);
      assert log + ScoresOf(requests, results)
          == log + ScoresOf(requests[..n], results[..n]) + [CandidateScore(requests[n], results[n].objectives)];
    }
  }

  lemma FirstMaximumIsNew(log: Log, s: CandidateScore, w: Weights)
    requires Gt(Scalar(s, w), BestScalar(log, w))
    ensures IsFirstMaximum(log + [s], |log|, w)
  {
    if log != [] {
      var k := FirstBestIsFirstMaximum(log, w);
      FirstMaximumReplaced(log, k, s, w);
    }
  }

  lemma {:induction false} BetterAgrees(e: Eval, study: StudyData, log: Log, request: Request, result: Evaluated)
    requires study.Valid() && |request.x| == |study.space| && BestAgrees(e, study, log)
    requires Intact(e.trials, e.bestTrialIds)
    requires result.objectives.IsFinite() ==> Intact(e.trials, result.ids)
    requires result.ids == IdRange(|log| * |study.searchSeeds|, |study.searchSeeds|)
    ensures var best := Better(e, study, request, result);
            && best.trials == e.trials && Intact(best.trials, best.bestTrialIds)
            && BestAgrees(best, study, log + [CandidateScore(request, result.objectives)])
  {
    var s, w := CandidateScore(request, result.objectives), study.settings.weights;
    FirstBestExtended(log, s, w);
    if Gt(Scalar(s, w), e.bestScore) {
      FirstMaximumIsNew(log, s, w);
      DecodeOfIs(study, request.x);
      assert BestIs(Better(e, study, request, result), study, log + [s], |log|);
    } else if e.bestScore.Finite? {
      var k: nat :| BestIs(e, study, log, k);
      FirstMaximumKept(log, k, s, w);
      assert BestIs(e, study, log + [s], k);
    }
  }

  /** Retention purges every finished trial but the kept ones and touches nothing else. */
  lemma RetentionPurges(trials: Trials, keep: seq<nat>)
    requires Intact(trials, keep)
    ensures forall id :: 0 <= id < |trials| ==>
              Retained(trials, keep)[id] == trials[id] ||
              (trials[id].status == FINISHED && id !in keep
               && Retained(trials, keep)[id] == trials[id].(hasData := false))
    ensures Intact(Retained(trials, keep), keep) && Purged(Retained(trials, keep), keep)
    ensures NoneOpen(trials) ==> NoneOpen(Retained(trials, keep))
  {
    var after := Retained(trials, keep);
    forall k | 0 <= k < |keep|
      ensures after[keep[k]].status == FINISHED && after[keep[k]].hasData
    {
      RetainedAt(trials, keep, keep[k]);
    }
    forall id | 0 <= id < |trials| && after[id].status == FINISHED && after[id].hasData ensures id in keep {
      RetainedAt(trials, keep, id);
    }
    forall id | 0 <= id < |trials|
      ensures after[id] == trials[id] ||
              (trials[id].status == FINISHED && id !in keep && after[id] == trials[id].(hasData := false))
    {
      RetainedAt(trials, keep, id);
    }
  }

  /** A matched batch leaves no trial open and older rows as they are. */
  lemma BatchRows(trials: Trials, created: Trials, outcomes: seq<Outcome>, n: nat)
    requires |created| == n && Matches(outcomes, |trials|, n) && NoneOpen(trials)
    ensures var ran := RanAll(trials + created, outcomes, |trials|);
            NoneOpen(ran) && forall id :: 0 <= id < |trials| ==> ran[id] == trials[id]
  {
    var ran := RanAll(trials + created, outcomes, |trials|);
    forall id | 0 <= id < |ran|
      ensures (ran[id].status.FINISHED? || ran[id].status.FAILED?) && (id < |trials| ==> ran[id] == trials[id])
    {
      RanAllAt(trials + created, outcomes, |trials|, id);
    }
  }

  /** Candidate k of the batch has its trials inside the batch. */
  lemma CandidateRange(k: nat, n: nat, m: nat)
    requires k < n
    ensures 0 <= k * m && k * m + m <= n * m
  {
    BatchCount(k, 1, m);
    BatchCount(k + 1, n - k - 1, m);
    NonNegativeProduct(k, m);
    NonNegativeProduct(n - k - 1, m);
  }

  lemma NonNegativeProduct(a: nat, b: nat)
    ensures a * b >= 0
  {}

  /** Every candidate of the batch with finite objectives has intact trials. */
  lemma ResultsIntact(trials: Trials, outcomes: seq<Outcome>, first: nat, m: nat, n: nat)
    requires m > 0 && |trials| == first + n * m
    ensures forall k :: 0 <= k < n ==>
              ResultsOf(outcomes, first, m, n)[k].objectives.IsFinite() ==>
              Intact(RanAll(trials, outcomes, first), ResultsOf(outcomes, first, m, n)[k].ids)
  {
    hide RanAll, MeanOf, AllFinite, Intact;
    forall k | 0 <= k < n && ResultsOf(outcomes, first, m, n)[k].objectives.IsFinite()
      ensures Intact(RanAll(trials, outcomes, first), ResultsOf(outcomes, first, m, n)[k].ids)
    {
      ResultsOfAt(outcomes, first, m, n, k);
      CandidateRange(k, n, m);
      FiniteIsIntact(trials, outcomes, first, first + k * m, m);
    }
  }

  lemma ScoresAreScored(requests: seq<Request>, results: seq<Evaluated>)
    requires |results| == |requests|
    ensures Scored(requests, ScoresOf(requests, results))
  {
    forall k | 0 <= k < |requests| ensures ScoresOf(requests, results)[k].request == requests[k] {
      ScoresOfRequests(requests, results, k);
    }
  }

  /** Candidate k of a successful batch is scored with the mean of its own trials. */
  lemma CallScores(e: Eval, study: StudyData, requests: seq<Request>, reply: RunnerReply, k: nat)
    requires study.Valid() && CallStep(e, study, requests, reply).1.Scores? && k < |requests|
    ensures var scores, m := CallStep(e, study, requests, reply).1.scores, |study.searchSeeds|;
            && reply.Returned? && |scores| == |requests| && scores[k].request == requests[k]
            && 0 <= |e.trials| + k * m && IsMean(reply.outcomes, |e.trials| + k * m, m, scores[k].objectives)
  {
    hide IsMean, MeanOf, Retained, BetterAll, Created, RanAll, Matches;
    var results := RunCandidates(e.trials, Candidates(study, requests), study.searchSeeds, reply).result.value;
    ResultsOfAt(reply.outcomes, |e.trials|, |study.searchSeeds|, |requests|, k);
    ScoresOfRequests(requests, results, k);
  }

  lemma BestIgnoresRows(e: Eval, study: StudyData, log: Log, trials: Trials)
    requires study.Valid() && BestAgrees(e, study, log)
    ensures BestAgrees(e.(trials := trials), study, log)
  {
    if e.bestScore.Finite? {
      var k: nat :| BestIs(e, study, log, k);
      assert BestIs(e.(trials := trials), study, log, k);
    }
  }

  /** One successful batch keeps everything EvalOk says, for the longer log. */
  lemma CallStepOk(e: Eval, study: StudyData, log: Log, requests: seq<Request>, reply: RunnerReply)
    requires study.Valid() && EvalOk(e, study, log)
    requires CallStep(e, study, requests, reply).1.Scores?
    ensures var (e', answer) := CallStep(e, study, requests, reply);
            |answer.scores| == |requests| && EvalOk(e', study, log + answer.scores)
  {
    hide Created, RanAll, ResultsOf, BetterAll, Retained, Purged, NoneOpen, Matches, Candidates, RowsAgree, SameTasks,
      BestAgrees, IdRange, Scored;
    var m, n, first := |study.searchSeeds|, |requests|, |e.trials|;
    var created := Created(Candidates(study, requests), study.searchSeeds);
    var ran := RunCandidates(e.trials, Candidates(study, requests), study.searchSeeds, reply);
    var results := ran.result.value;
    var outcomes := reply.outcomes;
    CreatedLength(Candidates(study, requests), study.searchSeeds);
    BatchRows(e.trials, created, outcomes, n * m);
    ResultsIntact(e.trials + created, outcomes, first, m, n);
    var e0 := e.(trials := ran.trials);
    BestIgnoresRows(e, study, log, ran.trials);
    forall k | 0 <= k < n
      ensures results[k].ids == IdRange((|log| + k) * m, m)
    {
      ResultsOfAt(outcomes, first, m, n, k);
      BatchCount(|log|, k, m);
    }
    BetterAllAgrees(e0, study, log, requests, results);
    ScoresAreScored(requests, results);
    RowsGrow(e.trials, study, log, requests, ScoresOf(requests, results));
    RanKeepsTasks(e.trials + created, outcomes, first);
    RowsStay(e.trials + created, ran.trials, study, log + ScoresOf(requests, results));
    var best := BetterAll(e0, study, requests, results);
    RetentionPurges(ran.trials, best.bestTrialIds);
    RetentionKeepsTasks(ran.trials, best.bestTrialIds);
    RowsStay(ran.trials, Retained(ran.trials, best.bestTrialIds), study, log + ScoresOf(requests, results));
    BestIgnoresRows(best, study, log + ScoresOf(requests, results), Retained(ran.trials, best.bestTrialIds));
    BatchCount(|log|, n, m);
  }

  lemma BatchCount(a: int, b: int, m: int)
    ensures (a + b) * m == a * m + b * m
  {}

  // ------------------------------------------------------------------ the callback over a run

  /** The evaluator after a history of calls, when the runner's k-th reply is replies(k). */
  function Replay(study: StudyData, replies: nat -> RunnerReply, calls: seq<seq<Request>>): Eval
    requires study.Valid()
  {
    if calls == [] then NO_EVALUATION
    else
      var n := |calls| - 1;
      CallStep(Replay(study, replies, calls[..n]), study, calls[n], replies(n)).0
  }

  /** The answer to the last call of a history. */
  function Answer(study: StudyData, replies: nat -> RunnerReply, calls: seq<seq<Request>>): Reply
    requires study.Valid()
  {
    if calls == [] then Raises(StudyFailed)
    else
      var n := |calls| - 1;
      CallStep(Replay(study, replies, calls[..n]), study, calls[n], replies(n)).1
  }

  /** The evaluator as the callback of the optimizer. */
  function CallbackOf(study: StudyData, replies: nat -> RunnerReply): seq<seq<Request>> -> Reply
    requires study.Valid()
  {
    calls => Answer(study, replies, calls)
  }

  lemma {:induction false} ScoresOfRequests(requests: seq<Request>, results: seq<Evaluated>, k: nat)
    requires |results| == |requests| && k < |requests|
    ensures ScoresOf(requests, results)[k] == CandidateScore(requests[k], results[k].objectives)
  {
    if k < |requests| - 1 {
      ScoresOfRequests(requests[..|requests| - 1], results[..|results| - 1], k);
    }
  }

  /** The evaluator always answers in request order, so its replies are never malformed. */
  lemma AnswersInOrder(e: Eval, study: StudyData, requests: seq<Request>, reply: RunnerReply)
    requires study.Valid()
    ensures var answer := CallStep(e, study, requests, reply).1;
            answer.Scores? ==> Answers(requests, answer) && Checked(requests, answer.scores) == answer.scores
  {
    var answer := CallStep(e, study, requests, reply).1;
    if answer.Scores? {
      var results := RunCandidates(e.trials, Candidates(study, requests), study.searchSeeds, reply).result.value;
      forall k | 0 <= k < |requests|
        ensures answer.scores[k].request == requests[k] && Checked(requests, answer.scores)[k] == answer.scores[k]
      {
        ScoresOfRequests(requests, results, k);
        CheckedAt(requests, answer.scores, k);
      }
      assert Checked(requests, answer.scores) == answer.scores;
    }
  }

  /** Whatever the optimizer has evaluated through the callback, the evaluator agrees with it. */
  lemma {:induction false} ReplayOk(study: StudyData, replies: nat -> RunnerReply, calls: seq<seq<Request>>, log: Log)
    requires study.Valid()
    requires LogOf(CallbackOf(study, replies), calls) == Some(log)
    ensures EvalOk(Replay(study, replies, calls), study, log)
  {
    if calls != [] {
      var evaluate := CallbackOf(study, replies);
      var n := |calls| - 1;
      var before := LogOf(evaluate, calls[..n]).value;
      ReplayOk(study, replies, calls[..n], before);
      var e := Replay(study, replies, calls[..n]);
      AnswersInOrder(e, study, calls[n], replies(n));
      CallStepOk(e, study, before, calls[n], replies(n));
    }
  }

  // ------------------------------------------------------------------ the whole study

  /** The trial count the study page expects: see abmem/views_hpo.py, _total_trials. */
  function TotalTrials(study: StudyData, nScouts: nat): int {
    study.settings.Evaluations(nScouts) * |study.searchSeeds| + |study.evaluationSeeds|
  }

  /** The candidate of the held-out evaluation. */
  function FinalCandidate(study: StudyData, e: Eval): Candidate
    requires e.bestParams.Some?
  {
    Candidate(study.settings.maxIter, FINAL_EVAL, e.bestSource, e.bestParams.value)
  }

  /** From row `first` on, the trials of one candidate on these seeds. */
  predicate FinalRows(trials: Trials, first: nat, c: Candidate, seeds: seq<int>) {
    |trials| == first + |seeds| && forall j :: 0 <= j < |seeds| ==> trials[first + j].Shows(c, seeds[j])
  }

  lemma FinalRowsStay(before: Trials, after: Trials, first: nat, c: Candidate, seeds: seq<int>)
    requires FinalRows(before, first, c, seeds) && SameTasks(before, after) && |after| == |before|
    ensures FinalRows(after, first, c, seeds)
  {
    forall j | 0 <= j < |seeds| ensures after[first + j].Shows(c, seeds[j]) {
      assert before[first + j].SameTask(after[first + j]);
    }
  }

  /** The held-out evaluation adds its trials and leaves all older rows alone; its result is the mean over them. */
  lemma FinalEvaluation(e: Eval, study: StudyData, log: Log, c: Candidate, reply: RunnerReply)
    requires study.Valid() && EvalOk(e, study, log)
    requires RunCandidates(e.trials, [c], study.evaluationSeeds, reply).result.Ok?
    ensures var ran, m := RunCandidates(e.trials, [c], study.evaluationSeeds, reply), |study.evaluationSeeds|;
            && |ran.trials| == |e.trials| + m && FinalRows(ran.trials, |e.trials|, c, study.evaluationSeeds)
            && (forall id :: 0 <= id < |e.trials| ==> ran.trials[id] == e.trials[id])
            && NoneOpen(ran.trials) && Intact(ran.trials, e.bestTrialIds) && RowsAgree(ran.trials, study, log)
            && reply.Returned?
            && |ran.result.value| == 1 && ran.result.value[0].ids == IdRange(|e.trials|, m)
            && IsMean(reply.outcomes, |e.trials|, m, ran.result.value[0].objectives)
            && (ran.result.value[0].objectives.IsFinite() ==> Intact(ran.trials, ran.result.value[0].ids))
  {
    hide Created, RanAll, MeanOf, IsMean, BestAgrees, Purged, IdRange, NoneOpen, RowsAgree;
    var m := |study.evaluationSeeds|;
    var created := Created([c], study.evaluationSeeds);
    CreatedLength([c], study.evaluationSeeds);
    assert 1 * m == m && 0 * m == 0;
    BatchRows(e.trials, created, reply.outcomes, 1 * m);
    ResultsIntact(e.trials + created, reply.outcomes, |e.trials|, m, 1);
    ResultsOfAt(reply.outcomes, |e.trials|, m, 1, 0);
    var ran := RanAll(e.trials + created, reply.outcomes, |e.trials|);
    RanKeepsTasks(e.trials + created, reply.outcomes, |e.trials|);
    RowsStay(e.trials, ran, study, log);
    forall j | 0 <= j < m
      ensures ran[|e.trials| + j].Shows(c, study.evaluationSeeds[j])
    {
      CreatedAt([c], study.evaluationSeeds, 0, j);
      assert (e.trials + created)[|e.trials| + j] == created[j];
    }
  }

  /** Exactly the trials in these two ranges of ids have run data. */
  predicate DataExactly(trials: Trials, best: nat, n: nat, final: nat, m: nat) {
    forall id :: 0 <= id < |trials| ==>
      (trials[id].status == FINISHED && trials[id].hasData <==> best <= id < best + n || final <= id < final + m)
  }

  lemma KeptExactly(trials: Trials, best: nat, n: nat, final: nat, m: nat)
    requires Intact(trials, IdRange(best, n) + IdRange(final, m)) && Purged(trials, IdRange(best, n) + IdRange(final, m))
    ensures DataExactly(trials, best, n, final, m)
  {
    var ids := IdRange(best, n) + IdRange(final, m);
    forall id | 0 <= id < |trials|
      ensures trials[id].status == FINISHED && trials[id].hasData <==> best <= id < best + n || final <= id < final + m
    {
      if best <= id < best + n {
        assert ids[id - best] == id;
      } else if final <= id < final + m {
        assert ids[n + id - final] == id;
      } else {
        assert id !in ids;
      }
    }
  }

  lemma ClosedIsNoneOpen(trials: Trials)
    ensures NoneOpen(Closed(trials))
  {
    forall id | 0 <= id < |trials| ensures Closed(trials)[id].status.FINISHED? || Closed(trials)[id].status.FAILED? {
      ClosedAt(trials, id);
    }
  }

  lemma IntactBoth(trials: Trials, a: seq<nat>, b: seq<nat>)
    requires Intact(trials, a) && Intact(trials, b)
    ensures Intact(trials, a + b)
  {}
}

/**
 The study runner (abmem/services/hpo/hpo_service.py, _StudyEvaluator and run_study;
 abmem/services/hpo/retention.py).

 The task runner's replies, the random draws and the answers to the cancel polls are arbitrary
 streams, so every statement holds for every run of a study.
 */
module HpoStudy {
  import opened Wrappers
  import opened Floats
  import opened BeeColonySpec
  import opened BeeColony
  import opened HpoStudySpec

  class StudyEvaluator {
    const study: StudyData
    var trials: Trials
    var bestScore: Float
    var bestTrialIds: seq<nat>
    var bestParams: Option<Params>
    var bestSource: nat

    function Fields(): Eval
      reads this
    {
      Eval(trials, bestScore, bestTrialIds, bestParams, bestSource)
    }

    constructor (study: StudyData, e: Eval)
      ensures this.study == study && Fields() == e
    {
      this.study := study;
      trials, bestScore, bestTrialIds := e.trials, e.bestScore, e.bestTrialIds;
      bestParams, bestSource := e.bestParams, e.bestSource;
    }

    /** Creates one pending trial per seed. */
    method CreateTrials(c: Candidate, seeds: seq<int>) returns (ids: seq<nat>)
      modifies this`trials
      ensures trials == old(trials) + TrialsOf(c, seeds)
      ensures ids == IdRange(|old(trials)|, |seeds|)
    {
      ids := [];
      for k := 0 to |seeds|
        invariant trials == old(trials) + TrialsOf(c, seeds[..k])
        invariant ids == IdRange(|old(trials)|, k)
      {
        assert seeds[..k + 1][..k] == seeds[..k];
        TrialsOfLength(c, seeds[..k]);
        ids := ids + [|trials|];
        trials := trials + [Trial(c.iteration, c.phase, c.source, c.params, seeds[k], PENDING, false)];
      }
      assert seeds[..|seeds|] == seeds;
    }

    /** Creates the trials of all candidates, in order. */
    method CreateAll(candidates: seq<Candidate>, seeds: seq<int>) returns (trialIds: seq<seq<nat>>)
      modifies this`trials
      ensures trials == old(trials) + Created(candidates, seeds)
      ensures |trialIds| == |candidates|
      ensures forall k :: 0 <= k < |trialIds| ==> trialIds[k] == IdRange(|old(trials)| + k * |seeds|, |seeds|)
    {
      hide Created, IdRange, TrialsOf;
      trialIds := [];
      CreatedNone(seeds);
      for n := 0 to |candidates|
        invariant trials == old(trials) + Created(candidates[..n], seeds)
        invariant |trialIds| == n
        invariant forall k :: 0 <= k < n ==> trialIds[k] == IdRange(|old(trials)| + k * |seeds|, |seeds|)
      {
        CreatedStep(candidates, n, seeds);
        var ids := CreateTrials(candidates[n], seeds);
        trialIds := trialIds + [ids];
      }
      assert candidates[..|candidates|] == candidates;
    }

    /** Creates trials, evaluates them and averages over the seeds. */
    method RunCandidates(candidates: seq<Candidate>, seeds: seq<int>, reply: RunnerReply)
      returns (r: Result<seq<Evaluated>, Raised>)
      requires seeds != []
      modifies this`trials
      ensures RunResult(trials, r) == HpoStudySpec.RunCandidates(old(trials), candidates, seeds, reply)
    {
      var first, m := |trials|, |seeds|;
      var trialIds := CreateAll(candidates, seeds);
      if reply.Interrupted? {
        trials := Closed(RanAll(trials, reply.done, first));
        return Err(StudyCanceled);
      }
      trials := RanAll(trials, reply.outcomes, first);
      if !Matches(reply.outcomes, first, |candidates| * m) {
        return Err(StudyFailed);
      }
      if forall k :: 0 <= k < |reply.outcomes| ==> !reply.outcomes[k].ok {
        return Err(StudyFailed);
      }
      var results: seq<Evaluated> := [];
      for n := 0 to |candidates|
        invariant results == ResultsOf(reply.outcomes, first, m, n)
      {
        results := results + [Evaluated(MeanOf(reply.outcomes, first + n * m, m), trialIds[n])];
      }
      return Ok(results);
    }

    /** Deletes the data of every finished trial that is not kept. */
    method ApplyRetention(keep: seq<nat>)
      modifies this`trials
      ensures trials == Retained(old(trials), keep)
    {
      var rows := trials;
      var kept: Trials := [];
      for n := 0 to |rows|
        invariant kept == Retained(rows[..n], keep)
      {
        assert rows[..n + 1][..n] == rows[..n];
        var purge := rows[n].status == FINISHED && n !in keep;
        kept := kept + [if purge then rows[n].(hasData := false) else rows[n]];
      }
      assert rows[..|rows|] == rows;
      trials := kept;
    }

    /** The evaluation callback of the optimizer. */
    method Call(requests: seq<Request>, reply: RunnerReply) returns (answer: Reply)
      requires study.Valid()
      modifies this
      ensures (Fields(), answer) == CallStep(old(Fields()), study, requests, reply)
    {
      if !Decodable(study.space, requests) {
        return Raises(StudyFailed);
      }
      hide HpoStudySpec.RunCandidates, Candidates, Retained, DecodeOf, WeightedScore, BetterAll, ScoresOf;
      var candidates := Candidates(study, requests);
      var r := RunCandidates(candidates, study.searchSeeds, reply);
      if r.Err? {
        return Raises(r.error);
      }
      var results := r.value;
      ghost var e0 := Fields();
      var scores: Log := [];
      BetterAllNone(e0, study);
      for k := 0 to |requests|
        invariant trials == e0.trials
        invariant Fields() == BetterAll(e0, study, requests[..k], results[..k])
        invariant scores == ScoresOf(requests[..k], results[..k])
      {
        BetterAllStep(e0, study, requests, results, k);
        var scalar := WeightedScore(results[k].objectives, study.settings.weights);
        if Gt(scalar, bestScore) {
          bestScore := scalar;
          bestTrialIds := results[k].ids;
          bestParams := Some(DecodeOf(study, requests[k].x));
          bestSource := requests[k].source;
        }
        scores := scores + [CandidateScore(requests[k], results[k].objectives)];
      }
      assert requests[..|requests|] == requests && results[..|results|] == results;
      ApplyRetention(bestTrialIds);
      return Scores(scores);
    }
  }

  /** How a started study ends. */
  datatype Ending = Finished(bestParams: Params, bestScore: real) | Failed | Canceled

  /** The search ended with a best candidate: log is what the optimizer evaluated through calls. */
  ghost predicate Searched(study: StudyData, replies: nat -> RunnerReply, calls: seq<seq<Request>>, log: Log, e: Eval,
                           nScouts: nat)
    requires study.Valid()
  {
    && LogOf(CallbackOf(study, replies), calls) == Some(log)
    && |log| == study.settings.Evaluations(nScouts)
    && nScouts <= study.settings.maxIter
    && EvalOk(e, study, log)
  }

  /** The weighted mean of the agent and market scores of n trials, all of which were evaluated. */
  ghost predicate IsWeightedMean(outcomes: seq<Outcome>, first: nat, n: nat, w: Weights, score: real) {
    && AllEvaluate(outcomes, first, n)
    && (n as real) * score
       == w.agent * Sum(AgentScores(outcomes, first, n)) + w.market * Sum(MarketScores(outcomes, first, n))
  }

  /**
   A finished study, k being the log's first maximum: it stores the decoded parameters of k and the weighted score of
   the mean over the final outcomes; the rows are those of the search and of the final evaluation; exactly the trials
   of k and the final ones have run data.
   */
  ghost predicate FinishedWith(study: StudyData, ending: Ending, e: Eval, log: Log, nScouts: nat, final: RunnerReply,
                               k: nat)
    requires study.Valid() && ending.Finished?
  {
    var m, n, first := |study.searchSeeds|, |study.evaluationSeeds|, |log| * |study.searchSeeds|;
    && |log| == study.settings.Evaluations(nScouts)
    && BestIs(e, study, log, k) && e.bestScore.Finite? && e.bestParams == Some(ending.bestParams)
    && final.Returned?
    && IsWeightedMean(final.outcomes, first, n, study.settings.weights, ending.bestScore)
    && |e.trials| == TotalTrials(study, nScouts) && NoneOpen(e.trials) && RowsAgree(e.trials, study, log)
    && FinalRows(e.trials, first, Candidate(study.settings.maxIter, FINAL_EVAL, log[k].request.source, ending.bestParams),
                 study.evaluationSeeds)
    && DataExactly(e.trials, k * m, m, first, n)
  }

  ghost predicate FinishedOk(study: StudyData, ending: Ending, e: Eval, log: Log, nScouts: nat, final: RunnerReply)
    requires study.Valid() && ending.Finished?
  {
    exists k: nat :: FinishedWith(study, ending, e, log, nScouts, final, k)
  }

  /** Why a search has no result: a cancel request was seen by a poll, or the last batch raised. */
  ghost predicate SearchStopped(study: StudyData, replies: nat -> RunnerReply, cancelRequested: nat -> bool,
                                calls: seq<seq<Request>>, why: Raised)
    requires study.Valid()
  {
    || (why == StudyCanceled && exists k: nat :: cancelRequested(k))
    || (calls != [] && Answer(study, replies, calls) == Raises(why))
  }

  /** The evaluator never gives a malformed answer, so only what it raises ends the optimizer. */
  lemma BadReplyIsRaised(study: StudyData, replies: nat -> RunnerReply, calls: seq<seq<Request>>, error: BeeColony.Error)
    requires study.Valid() && calls != []
    requires var answer := CallbackOf(study, replies)(calls);
             !Answers(calls[|calls| - 1], answer) && error == ErrorOf(answer)
    ensures error.Callback? && Answer(study, replies, calls) == Raises(error.raised)
  {
    var n := |calls| - 1;
    AnswersInOrder(Replay(study, replies, calls[..n]), study, calls[n], replies(n));
  }

  /** Runs the optimizer with the evaluator as its callback: how it ended, and all calls it made. */
  method Optimize(study: StudyData, replies: nat -> RunnerReply, rng: nat -> Unit, cancelRequested: nat -> bool)
    returns (r: Result<nat, Raised>, calls: seq<seq<Request>>, ghost log: Log)
    requires study.Valid()
    ensures r.Ok? ==>
              && LogOf(CallbackOf(study, replies), calls) == Some(log)
              && |log| == study.settings.Evaluations(r.value)
              && r.value <= study.settings.maxIter
    ensures r.Err? ==> SearchStopped(study, replies, cancelRequested, calls, r.error)
  {
    hide LogOf, ArtificialBeeColony.CyclesAre, ArtificialBeeColony.Interrupted, ArtificialBeeColony.Foods,
      ArtificialBeeColony.Recorded, ArtificialBeeColony.HistoryOk, ArtificialBeeColony.IsResult;
    var evaluate := CallbackOf(study, replies);
    var colony := new ArtificialBeeColony(|study.space|, study.settings, evaluate, rng, cancelRequested);
    var run := colony.Run();
    calls, log := colony.calls, colony.log;
    if run.Err? {
      BadReplyIsRaised(study, replies, calls, run.error);
      r := Err(if run.error == Error.Callback(StudyCanceled) then StudyCanceled else StudyFailed);
    } else if run.value.stopped {
      r := Err(StudyCanceled);
    } else {
      r := Ok(colony.nScouts);
    }
  }

  /** The search of a claimed study.  Ok when it ended regularly. */
  method Search(study: StudyData, replies: nat -> RunnerReply, rng: nat -> Unit, cancelRequested: nat -> bool)
    returns (r: Result<nat, Raised>, e: Eval, calls: seq<seq<Request>>, ghost log: Log)
    requires study.Valid()
    ensures r.Ok? ==> Searched(study, replies, calls, log, e, r.value)
    ensures r.Err? ==> SearchStopped(study, replies, cancelRequested, calls, r.error)
  {
    r, calls, log := Optimize(study, replies, rng, cancelRequested);
    e := Replay(study, replies, calls);
    if r.Ok? {
      ReplayOk(study, replies, calls, log);
    }
  }

  lemma ScaledScore(n: real, v: real, x: real, w: real, y: real)
    ensures n * (v * x + w * y) == v * (n * x) + w * (n * y)
  {
    assert n * (v * x) == v * (n * x) && n * (w * y) == w * (n * y);
  }

  /** The weighted score of a mean is the weighted mean of the scores. */
  lemma ScoreOfMean(outcomes: seq<Outcome>, first: nat, n: nat, r: Objectives, w: Weights, score: real)
    requires IsMean(outcomes, first, n, r) && WeightedScore(r, w) == Finite(score)
    ensures r.IsFinite() && IsWeightedMean(outcomes, first, n, w, score)
  {
    ScaledScore(n as real, w.agent, r.agent.v, w.market, r.market.v);
  }

  /** The best candidate's trials and the final ones are all that the last retention leaves with data. */
  lemma FinalRetention(study: StudyData, e: Eval, log: Log, nScouts: nat, reply: RunnerReply, score: real)
    requires study.Valid() && EvalOk(e, study, log) && e.bestScore.Finite? && e.bestParams.Some?
    requires |log| == study.settings.Evaluations(nScouts)
    requires var ran := HpoStudySpec.RunCandidates(e.trials, [FinalCandidate(study, e)], study.evaluationSeeds, reply);
             && ran.result.Ok?
             && WeightedScore(ran.result.value[0].objectives, study.settings.weights) == Finite(score)
    ensures var ran := HpoStudySpec.RunCandidates(e.trials, [FinalCandidate(study, e)], study.evaluationSeeds, reply);
            var e' := e.(trials := Retained(ran.trials, e.bestTrialIds + ran.result.value[0].ids));
            FinishedOk(study, Finished(e.bestParams.value, score), e', log, nScouts, reply)
  {
    hide Retained, RowsAgree, NoneOpen, IdRange, HpoStudySpec.RunCandidates, IsMean, WeightedScore,
      IsWeightedMean, IsDecoded, DataExactly, FinalRows, Purged, Intact;
    var m, n, c := |study.searchSeeds|, |study.evaluationSeeds|, FinalCandidate(study, e);
    var ran := HpoStudySpec.RunCandidates(e.trials, [c], study.evaluationSeeds, reply);
    FinalEvaluation(e, study, log, c, reply);
    var finalIds := ran.result.value[0].ids;
    var after := Retained(ran.trials, e.bestTrialIds + finalIds);
    var k: nat :| BestIs(e, study, log, k);
    ScoreOfMean(reply.outcomes, |log| * m, n, ran.result.value[0].objectives, study.settings.weights, score);
    IntactBoth(ran.trials, e.bestTrialIds, finalIds);
    RetentionPurges(ran.trials, e.bestTrialIds + finalIds);
    RetentionKeepsTasks(ran.trials, e.bestTrialIds + finalIds);
    RowsStay(ran.trials, after, study, log);
    FinalRowsStay(ran.trials, after, |e.trials|, c, study.evaluationSeeds);
    KeptExactly(after, k * m, m, |log| * m, n);
    assert FinishedWith(study, Finished(e.bestParams.value, score), e.(trials := after), log, nScouts, reply, k);
  }

  /** The final evaluation has no finite result: some trial was not evaluated, or outcomes are for other trials. */
  ghost predicate FinalFailed(reply: RunnerReply, first: nat, n: nat) {
    reply.Returned? &&
    (!AllEvaluate(reply.outcomes, first, n) || exists id: nat :: Reported(reply.outcomes, id) && !(first <= id < first + n))
  }

  lemma FinalFailsWhen(trials: Trials, study: StudyData, c: Candidate, reply: RunnerReply)
    requires study.Valid()
    ensures var ran, n := HpoStudySpec.RunCandidates(trials, [c], study.evaluationSeeds, reply), |study.evaluationSeeds|;
            && (ran.result == Err(StudyCanceled) <==> reply.Interrupted?)
            && (ran.result == Err(StudyFailed) ==> FinalFailed(reply, |trials|, n))
            && (ran.result.Ok? && !ran.result.value[0].objectives.IsFinite() ==> FinalFailed(reply, |trials|, n))
  {
    var ran, n := HpoStudySpec.RunCandidates(trials, [c], study.evaluationSeeds, reply), |study.evaluationSeeds|;
    if ran.result.Ok? {
      FinalMean(trials, study, c, reply);
    }
    hide HpoStudySpec.RunCandidates, AllEvaluate;
    BatchSucceedsIff(trials, [c], study.evaluationSeeds, reply);
    assert 1 * n == n;
    if ran.result.Ok? && AllEvaluate(reply.outcomes, |trials|, n) {
      MeanFinite(reply.outcomes, |trials|, n, ran.result.value[0].objectives);
    }
    if reply.Returned? && AllEvaluate(reply.outcomes, |trials|, n) {
      AllReported(reply.outcomes, |trials|, n);
    }
  }

  lemma FinalMean(trials: Trials, study: StudyData, c: Candidate, reply: RunnerReply)
    requires study.Valid() && HpoStudySpec.RunCandidates(trials, [c], study.evaluationSeeds, reply).result.Ok?
    ensures reply.Returned?
    ensures var r := HpoStudySpec.RunCandidates(trials, [c], study.evaluationSeeds, reply).result.value[0];
            IsMean(reply.outcomes, |trials|, |study.evaluationSeeds|, r.objectives)
  {
    hide IsMean, MeanOf, Created, RanAll;
    assert 0 * |study.evaluationSeeds| == 0;
    ResultsOfAt(reply.outcomes, |trials|, |study.evaluationSeeds|, 1, 0);
  }

  lemma MeanFinite(outcomes: seq<Outcome>, first: nat, n: nat, r: Objectives)
    requires IsMean(outcomes, first, n, r) && AllEvaluate(outcomes, first, n)
    ensures r.IsFinite()
  {
  }

  lemma AllReported(outcomes: seq<Outcome>, first: nat, n: nat)
    requires n > 0 && AllEvaluate(outcomes, first, n)
    ensures forall id: nat :: first <= id < first + n ==> Reported(outcomes, id)
    ensures exists k :: 0 <= k < |outcomes| && outcomes[k].ok
  {
    forall id: nat | first <= id < first + n ensures Reported(outcomes, id) {
      assert Evaluates(outcomes, id);
      SomeOutcome(outcomes, id);
    }
    assert Evaluates(outcomes, first);
    LookupIsLast(outcomes, first);
    var o := Lookup(outcomes, first).value;
    var k: nat :| LastAt(outcomes, first, o, k);
  }

  /** The id of the first final trial. */
  function FinalStart(study: StudyData, log: Log): nat { |log| * |study.searchSeeds| }

  lemma KnownRows(study: StudyData, e: Eval, log: Log)
    requires study.Valid() && EvalOk(e, study, log)
    ensures |e.trials| == FinalStart(study, log)
  {
  }

  /** The held-out evaluation of the best candidate and the last retention. */
  method FinalEval(study: StudyData, e: Eval, reply: RunnerReply, ghost log: Log, ghost nScouts: nat)
    returns (r: Result<real, Raised>, e': Eval)
    requires study.Valid() && EvalOk(e, study, log) && e.bestScore.Finite? && e.bestParams.Some?
    requires |log| == study.settings.Evaluations(nScouts)
    ensures r.Ok? ==> FinishedOk(study, Finished(e.bestParams.value, r.value), e', log, nScouts, reply)
    ensures r == Err(StudyCanceled) <==> reply.Interrupted?
    ensures r == Err(StudyFailed) ==> FinalFailed(reply, FinalStart(study, log), |study.evaluationSeeds|)
  {
    hide EvalOk, FinishedOk, FinalFailed, HpoStudySpec.RunCandidates, Retained;
    var evaluator := new StudyEvaluator(study, e);
    var final := evaluator.RunCandidates([FinalCandidate(study, e)], study.evaluationSeeds, reply);
    FinalFailsWhen(e.trials, study, FinalCandidate(study, e), reply);
    assert |e.trials| == FinalStart(study, log) by { KnownRows(study, e, log); }
    e' := evaluator.Fields();
    if final.Err? {
      return Err(final.error), e';
    }
    var score := WeightedScore(final.value[0].objectives, study.settings.weights);
    if !score.Finite? {
      return Err(StudyFailed), e';
    }
    FinalRetention(study, e, log, nScouts, reply, score.v);
    evaluator.ApplyRetention(e.bestTrialIds + final.value[0].ids);
    e' := evaluator.Fields();
    r := Ok(score.v);
  }

  /** Some candidate has a finite score. */
  predicate Promising(log: Log) {
    exists k :: 0 <= k < |log| && log[k].objectives.IsFinite()
  }

  lemma PromisingIff(study: StudyData, e: Eval, log: Log)
    requires study.Valid() && EvalOk(e, study, log)
    ensures Promising(log) <==> e.bestParams.Some? && e.bestScore.Finite?
  {
    if log != [] {
      var k := FirstBestIsFirstMaximum(log, study.settings.weights);
      assert forall j :: 0 <= j < |log| && log[j].objectives.IsFinite() ==> Scalar(log[j], study.settings.weights).Finite?;
    }
  }

  /**
   Runs a claimed study to its end. It is FINISHED, unless a cancel request or a failed batch stopped the search, no
   candidate has a finite score, a request was seen after the search, or the final evaluation failed.
   */
  method RunStudy(study: StudyData, replies: nat -> RunnerReply, rng: nat -> Unit, cancelRequested: nat -> bool,
                  canceledAfterSearch: bool)
    returns (ending: Ending, e: Eval, nScouts: nat, ghost calls: seq<seq<Request>>, ghost log: Log)
    requires study.Valid()
    ensures ending.Finished? ==>
              && FinishedOk(study, ending, e, log, nScouts, replies(|calls|)) && nScouts <= study.settings.maxIter
              && LogOf(CallbackOf(study, replies), calls) == Some(log)
    ensures ending.Finished? ==> !canceledAfterSearch && !replies(|calls|).Interrupted?
    ensures ending.Canceled? ==> NoneOpen(e.trials)
    ensures ending.Canceled? ==>
              || SearchStopped(study, replies, cancelRequested, calls, StudyCanceled)
              || (LogOf(CallbackOf(study, replies), calls) == Some(log) && Promising(log)
                  && (canceledAfterSearch || replies(|calls|).Interrupted?))
    ensures ending.Failed? ==>
              || SearchStopped(study, replies, cancelRequested, calls, StudyFailed)
              || (LogOf(CallbackOf(study, replies), calls) == Some(log)
                  && (!Promising(log)
                      || (!canceledAfterSearch
                          && FinalFailed(replies(|calls|), FinalStart(study, log), |study.evaluationSeeds|))))
  {
    hide EvalOk, FinishedOk, FinalFailed, FinalStart, SearchStopped, Promising, LogOf, CallbackOf, NoneOpen, Closed;
    var searched: Result<nat, Raised>;
    var batches: seq<seq<Request>>;
    var score: Result<real, Raised>;
    nScouts := 0;
    searched, e, batches, log := Search(study, replies, rng, cancelRequested);
    calls := batches;
    var raised: Raised;
    if searched.Ok? {
      PromisingIff(study, e, log);
    }
    if searched.Err? {
      raised := searched.error;
    } else if e.bestParams.None? || !e.bestScore.Finite? {
      raised := StudyFailed;
    } else if canceledAfterSearch {
      raised := StudyCanceled;
    } else {
      nScouts := searched.value;
      var params := e.bestParams.value;
      score, e := FinalEval(study, e, replies(|batches|), log, nScouts);
      if score.Ok? {
        ending := Finished(params, score.value);
        return;
      }
      raised := score.error;
    }
    if raised == StudyCanceled {
      ClosedIsNoneOpen(e.trials);
      e := e.(trials := Closed(e.trials));
      ending := Canceled;
    } else {
      ending := Failed;
    }
  }
}

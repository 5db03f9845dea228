/**
 The optimizer class of abmem/services/hpo/abc_optimizer.py.

 The evaluation callback may keep state and read the world, so it is a function of all
 batches submitted so far; the random generator is a stream of draws from [0, 1) and the stop
 request a stream of answers.  All three are arbitrary, so every statement below holds for
 every run.  At phase boundaries the fields are functions of the log of evaluated candidates.
 */
module BeeColony {
  import opened Wrappers
  import opened Floats
  import opened BeeColonySpec

  /** What escapes from the callback, by the classes its caller distinguishes. */
  datatype Raised = StudyCanceled | StudyFailed

  datatype Error = ValueError | Callback(raised: Raised)

  datatype Reply = Scores(scores: seq<CandidateScore>) | Raises(raised: Raised)

  datatype Settings = Settings(colonySize: nat, maxIter: nat, limit: nat, weights: Weights) {
    predicate Valid() {
      colonySize >= 2 && maxIter >= 1 && limit >= 1 && (weights.agent != 0.0 || weights.market != 0.0)
    }

    /** Candidates a complete run evaluates when scouts were sent nScouts times. */
    function Evaluations(nScouts: nat): int {
      colonySize * (1 + 2 * maxIter) + nScouts
    }
  }

  /** Settings that passed the checks of their constructor. */
  type ABCSettings = s: Settings | s.Valid() witness Settings(2, 1, 1, Weights(1.0, 0.0))

  type Dim = d: nat | d > 0 witness 1

  datatype ABCResult = ABCResult(bestX: Vec, bestObjectives: Objectives, archive: Log,
                                 history: seq<(nat, Float)>, stopped: bool)

  // ------------------------------------------------------------------ batches

  /** The reply answers the requests: one score each, in order. */
  predicate Answers(requests: seq<Request>, reply: Reply) {
    reply.Scores? && |reply.scores| == |requests|
    && forall k :: 0 <= k < |requests| ==> SameSlot(requests[k], reply.scores[k].request)
  }

  predicate SameSlot(a: Request, b: Request) {
    a.iteration == b.iteration && a.phase == b.phase && a.source == b.source
  }

  /** The checked scores: the requested points with the objectives of the reply. */
  function Checked(requests: seq<Request>, scores: Log): (checked: Log)
    requires |scores| == |requests|
    ensures |checked| == |requests|
  {
    if requests == [] then []
    else
      var n := |requests| - 1;
      Checked(requests[..n], scores[..n]) + [CandidateScore(requests[n], scores[n].objectives)]
  }

  lemma {:induction false} CheckedAt(requests: seq<Request>, scores: Log, k: nat)
    requires |scores| == |requests| && k < |requests|
    ensures Checked(requests, scores)[k] == CandidateScore(requests[k], scores[k].objectives)
  {
    if k < |requests| - 1 {
      CheckedAt(requests[..|requests| - 1], scores[..|requests| - 1], k);
    }
  }

  lemma CheckedNext(requests: seq<Request>, scores: Log, k: nat)
    requires |scores| == |requests| && k < |requests|
    ensures Checked(requests[..k + 1], scores[..k + 1])
         == Checked(requests[..k], scores[..k]) + [CandidateScore(requests[k], scores[k].objectives)]
  {
    assert requests[..k + 1][..k] == requests[..k] && scores[..k + 1][..k] == scores[..k];
  }

  lemma CheckedWhole(requests: seq<Request>, scores: Log)
    requires |scores| == |requests|
    ensures Checked(requests[..|requests|], scores[..|requests|]) == Checked(requests, scores)
  {
    assert requests[..|requests|] == requests && scores[..|requests|] == scores;
  }

  lemma CheckedIsScored(requests: seq<Request>, scores: Log)
    requires |scores| == |requests|
    ensures Scored(requests, Checked(requests, scores))
  {
    forall k | 0 <= k < |requests| ensures Checked(requests, scores)[k].request == requests[k] {
      CheckedAt(requests, scores, k);
    }
  }

  lemma GrewByScored(before: Log, batch: Log, requests: seq<Request>)
    requires Scored(requests, batch)
    ensures GrewBy(before, before + batch, requests)
  {}

  lemma {:induction false} ScoredIsOk(requests: seq<Request>, batch: Log, sn: nat, dim: nat)
    requires Scored(requests, batch) && forall k :: 0 <= k < |requests| ==> Submittable(requests[k], sn, dim)
    ensures LogOk(batch, sn, dim)
  {
    if batch != [] {
      var n := |batch| - 1;
      ScoredIsOk(requests[..n], batch[..n], sn, dim);
      assert batch[n].request == requests[n];
    }
  }

  /** One score per request, each under the request itself. */
  predicate Scored(requests: seq<Request>, batch: Log) {
    |batch| == |requests| && forall k :: 0 <= k < |batch| ==> batch[k].request == requests[k]
  }

  /** The log grew by the answers to a batch. */
  predicate GrewBy(before: Log, after: Log, requests: seq<Request>) {
    && before <= after && |after| == |before| + |requests|
    && forall k :: |before| <= k < |after| ==> after[k].request == requests[k - |before|]
  }

  /** The error of a reply that is no answer. */
  function ErrorOf(reply: Reply): Error {
    if reply.Raises? then Callback(reply.raised) else ValueError
  }

  /** What the callback has evaluated, in submission order; None once a reply was no answer. */
  ghost function LogOf(evaluate: seq<seq<Request>> -> Reply, calls: seq<seq<Request>>): Option<Log> {
    if calls == [] then Some([])
    else
      var n := |calls| - 1;
      var before := LogOf(evaluate, calls[..n]);
      if before.Some? && Answers(calls[n], evaluate(calls))
      then Some(before.value + Checked(calls[n], evaluate(calls).scores)) else None
  }

  /** The log lists the requests call by call: those of call i stand behind what the calls before it evaluated. */
  lemma {:induction false} BlockOfCall(evaluate: seq<seq<Request>> -> Reply, calls: seq<seq<Request>>, log: Log, i: nat,
                                       k: nat)
    requires LogOf(evaluate, calls) == Some(log) && i < |calls| && k < |calls[i]|
    ensures LogOf(evaluate, calls[..i]).Some?
    ensures var start := |LogOf(evaluate, calls[..i]).value|;
            start + k < |log| && log[start + k].request == calls[i][k]
  {
    var n := |calls| - 1;
    if i < n {
      BlockOfCall(evaluate, calls[..n], LogOf(evaluate, calls[..n]).value, i, k);
      assert calls[..n][..i] == calls[..i];
    } else {
      CheckedAt(calls[n], evaluate(calls).scores, k);
    }
  }

  lemma OneMoreCall(evaluate: seq<seq<Request>> -> Reply, calls: seq<seq<Request>>, requests: seq<Request>)
    requires LogOf(evaluate, calls).Some? && Answers(requests, evaluate(calls + [requests]))
    ensures LogOf(evaluate, calls + [requests])
         == Some(LogOf(evaluate, calls).value + Checked(requests, evaluate(calls + [requests]).scores))
  {
    var calls' := calls + [requests];
    assert calls'[..|calls|] == calls && calls'[|calls|] == requests;
  }

  // ------------------------------------------------------------------ histories, moves, the wheel

  /** (k, best score of stage k) for every stage. */
  function HistoryOf(stages: seq<Log>, w: Weights): (h: seq<(nat, Float)>)
    ensures |h| == |stages|
  {
    if stages == [] then []
    else
      var n := |stages| - 1;
      HistoryOf(stages[..n], w) + [(n, BestScalar(stages[n], w))]
  }

  /** Every log extends the one before. */
  predicate Growing(stages: seq<Log>) {
    |stages| <= 1 || (Growing(stages[..|stages| - 1]) && stages[|stages| - 2] <= stages[|stages| - 1])
  }

  lemma {:induction false} HistoryAt(stages: seq<Log>, w: Weights, k: nat)
    requires k < |stages|
    ensures HistoryOf(stages, w)[k] == (k, BestScalar(stages[k], w))
  {
    if k < |stages| - 1 {
      HistoryAt(stages[..|stages| - 1], w, k);
    }
  }

  lemma {:induction false} StagesGrow(stages: seq<Log>, k: nat, l: nat)
    requires Growing(stages) && k <= l < |stages|
    ensures stages[k] <= stages[l]
  {
    if l < |stages| - 1 {
      StagesGrow(stages[..|stages| - 1], k, l);
    } else if k < l {
      StagesGrow(stages[..|stages| - 1], k, l - 1);
    }
  }

  /** The history holds prefix maxima of the evaluated scores and never decreases. */
  lemma HistoryNondecreasing(stages: seq<Log>, w: Weights, k: nat, l: nat)
    requires Growing(stages) && k <= l < |stages|
    ensures stages[k] <= stages[l] && HistoryOf(stages, w)[k] == (k, BestScalar(stages[k], w))
    ensures Ge(HistoryOf(stages, w)[l].1, HistoryOf(stages, w)[k].1)
  {
    HistoryAt(stages, w, k);
    HistoryAt(stages, w, l);
    StagesGrow(stages, k, l);
    BestScalarMonotone(stages[l], |stages[k]|, w);
    assert stages[l][..|stages[k]|] == stages[k];
  }

  /** The requests hold an initial or scout request of source k. */
  predicate Replaces(requests: seq<Request>, k: nat) {
    exists l :: 0 <= l < |requests| && requests[l].source == k && requests[l].phase in {INIT, SCOUT}
  }

  lemma ReplacesMore(requests: seq<Request>, l: nat)
    requires l < |requests|
    ensures forall k :: Replaces(requests[..l], k) || Replaces([requests[l]], k) ==> Replaces(requests[..l + 1], k)
  {
    var some := requests[..l + 1];
    assert some[l] == requests[l];
    assert forall k :: 0 <= k < l ==> some[k] == requests[..l][k];
  }

  function Clip(a: real): real {
    if a > 1.0 then 1.0 else if a < 0.0 then 0.0 else a
  }

  /** x with coordinate j moved by phi times its difference to y, clipped to the cube. */
  function Moved(x: Vec, y: Vec, j: nat, phi: real): Vec
    requires j < |x| && j < |y|
  {
    x[j := Clip(x[j] + phi * (x[j] - y[j]))]
  }

  /** The one of n equal intervals of [0, 1) that u lies in. */
  function IndexOf(u: real, n: nat): (i: nat)
    requires 0.0 <= u < 1.0 && n > 0
    ensures i < n && i as real <= u * (n as real) < i as real + 1.0
  {
    ScaledBelow(u, n as real);
    var f := (u * (n as real)).Floor;
    assert (f as real) < (n as real);
    f
  }

  lemma ScaledBelow(u: real, c: real)
    requires 0.0 <= u < 1.0 && c > 0.0
    ensures 0.0 <= u * c < c
  {
    assert (1.0 - u) * c > 0.0;
  }

  /** v changes x_i in dimension j only, by phi times the difference to another source k, up to the wall of the cube. */
  ghost predicate MovedAlong(snapshot: seq<Vec>, i: nat, k: nat, j: nat, phi: real, v: Vec)
    requires i < |snapshot|
  {
    && k < |snapshot| && k != i && -1.0 <= phi < 1.0
    && j < |snapshot[i]| == |v| && j < |snapshot[k]| && (forall l :: 0 <= l < |v| && l != j ==> v[l] == snapshot[i][l])
    && var target := snapshot[i][j] + phi * (snapshot[i][j] - snapshot[k][j]);
       if target > 1.0 then v[j] == 1.0 else if target < 0.0 then v[j] == 0.0 else v[j] == target
  }

  /** The move that three draws make: the other source, skipping i itself, the dimension, and phi in [-1, 1). */
  ghost predicate IsMove(snapshot: seq<Vec>, i: nat, a: Unit, b: Unit, c: Unit, v: Vec)
    requires i < |snapshot|
  {
    && |snapshot| >= 2 && |snapshot[i]| > 0
    && var k := IndexOf(a, |snapshot| - 1);
       MovedAlong(snapshot, i, if k < i then k else k + 1, IndexOf(b, |snapshot[i]|), 2.0 * c - 1.0, v)
  }

  function FitnessOf(scores: seq<Float>): (fit: seq<real>)
    requires forall i :: 0 <= i < |scores| ==> scores[i].Finite? || scores[i].NegInf?
    ensures |fit| == |scores| && forall i :: 0 <= i < |fit| ==> fit[i] == Fitness(scores[i]) >= 0.0
  {
    seq(|scores|, i requires 0 <= i < |scores| => Fitness(scores[i]))
  }

  /** The probabilities order the sources as their scores do once some score is finite; otherwise they are equal. */
  lemma ProbabilitiesOrderScores(scores: seq<Float>, i: nat, j: nat)
    requires forall i :: 0 <= i < |scores| ==> scores[i].Finite? || scores[i].NegInf?
    requires i < |scores| && j < |scores|
    ensures var p := OnlookerProbabilities(FitnessOf(scores));
            if exists k :: 0 <= k < |scores| && scores[k].Finite? then
              (p[i] > p[j] <==> Gt(scores[i], scores[j])) && (p[i] > 0.0 <==> scores[i].Finite?)
            else p[i] == 1.0 / (|scores| as real)
  {
    var fit := FitnessOf(scores);
    if k :| 0 <= k < |scores| && scores[k].Finite? {
      ProbabilitiesOrder(fit, k, i, j);
      FitnessOrders(scores[i], scores[j]);
    } else {
      SumNonNegative(fit);
    }
  }

  /** The wheel over the probabilities of the scores stops at source i for the draw u. */
  ghost predicate WheelStops(scores: seq<Float>, u: Unit, i: nat)
    requires forall i :: 0 <= i < |scores| ==> scores[i].Finite? || scores[i].NegInf?
  {
    && i < |scores|
    && ((exists k :: 0 <= k < |scores| && scores[k].Finite?) ==> scores[i].Finite?)
    && var p := OnlookerProbabilities(FitnessOf(scores));
       Sum(p[..i]) <= u < Sum(p[..i + 1])
  }

  lemma ChosenStopsTheWheel(scores: seq<Float>, u: Unit)
    requires |scores| > 0 && forall i :: 0 <= i < |scores| ==> scores[i].Finite? || scores[i].NegInf?
    ensures var p := OnlookerProbabilities(FitnessOf(scores));
            Sum(p) == 1.0 && Sum(p[..0]) == 0.0 && WheelStops(scores, u, Choose(p, u, 0))
  {
    var fit := FitnessOf(scores);
    var p := OnlookerProbabilities(fit);
    ProbabilitiesSumToOne(fit);
    var i := Choose(p, u, 0);
    assert p[..i + 1][..i] == p[..i];
    ProbabilitiesOrderScores(scores, i, i);
  }

  // ------------------------------------------------------------------ the optimizer

  class ArtificialBeeColony {
    const dim: Dim
    const settings: ABCSettings
    const evaluate: seq<seq<Request>> -> Reply
    const rng: nat -> Unit
    const shouldStop: nat -> bool

    const sources: array<Vec>
    const scores: array<Float>
    const trials: array<nat>
    var objectives: seq<Objectives>
    var nScouts: nat
    var best: Option<CandidateScore>
    var bestScore: Float
    var archive: Log
    var history: seq<(nat, Float)>

    var drawn: nat                  // draws taken from rng
    var polls: nat                  // stop requests answered
    var calls: seq<seq<Request>>    // batches handed to evaluate
    ghost var log: Log              // every candidate recorded
    ghost var stages: seq<Log>      // the log at each history entry
    ghost var cuts: seq<nat>        // the number of calls at each history entry

    /** What _record keeps: best, best score and archive describe the whole log. */
    ghost predicate Recorded()
      reads this`best, this`bestScore, this`archive, this`log
    {
      && LogOk(log, settings.colonySize, dim)
      && Record() == RecordedOf(log, settings.weights)
    }

    ghost function Record(): BeeColonySpec.Recorded
      reads this`best, this`bestScore, this`archive
    {
      BeeColonySpec.Recorded(best, bestScore, archive)
    }

    /** The food sources are those a log of applied candidates leads to. */
    ghost predicate Foods(applied: Log)
      reads this`objectives, sources, scores, trials
    {
      Swarm(sources[..], objectives, scores[..], trials[..])
      == SwarmOf(applied, settings.colonySize, settings.weights, dim)
    }

    /** The invariant at every phase boundary. */
    ghost predicate Valid()
      reads this, sources, scores, trials
    {
      && Recorded()
      && Foods(log)
      && Answered()
    }

    /** The log is what the callback answered. */
    ghost predicate Answered()
      reads this`calls, this`log
    {
      LogOf(evaluate, calls) == Some(log)
    }

    /** The last batch got no proper answer, which is what this error says. */
    ghost predicate BadReply(error: Error)
      reads this`calls
    {
      && calls != [] && LogOf(evaluate, calls[..|calls| - 1]).Some?
      && !Answers(calls[|calls| - 1], evaluate(calls)) && error == ErrorOf(evaluate(calls))
    }

    /** The history holds the best score of each stage of the growing log. */
    ghost predicate HistoryOk()
      reads this`history, this`stages, this`log
    {
      history == HistoryOf(stages, settings.weights) && Growing(stages + [log])
    }

    constructor (dim: Dim, settings: ABCSettings, evaluate: seq<seq<Request>> -> Reply, rng: nat -> Unit,
                 shouldStop: nat -> bool)
      ensures Valid() && fresh(sources) && fresh(scores) && fresh(trials)
      ensures this.dim == dim && this.settings == settings && this.evaluate == evaluate
      ensures this.rng == rng && this.shouldStop == shouldStop
      ensures IsFresh()
    {
      this.dim, this.settings, this.evaluate := dim, settings, evaluate;
      this.rng, this.shouldStop := rng, shouldStop;
      sources := new Vec[settings.colonySize](_ => Full(dim, 0.0));
      scores := new Float[settings.colonySize](_ => NegInf);
      trials := new nat[settings.colonySize](_ => 0);
      objectives := seq(settings.colonySize, _ => FAILED_OBJECTIVES);
      nScouts, best, bestScore, archive, history := 0, None, NegInf, [], [];
      drawn, polls, calls, log, stages, cuts := 0, 0, [], [], [], [];
      new;
      EmptySwarm(settings.colonySize, settings.weights, dim);
    }

    // ---------------------------------------------------------------- draws

    method Random() returns (u: Unit)
      modifies this`drawn
      ensures u == rng(old(drawn)) && drawn == old(drawn) + 1
    {
      u := rng(drawn);
      drawn := drawn + 1;
    }

    method Integers(n: nat) returns (i: nat)
      requires n > 0
      modifies this`drawn
      ensures i == IndexOf(rng(old(drawn)), n) && drawn == old(drawn) + 1
    {
      var u := Random();
      i := IndexOf(u, n);
    }

    /** A uniform point of the unit cube. */
    method Sample() returns (x: Vec)
      modifies this`drawn
      ensures Sampled(x, old(drawn)) && InUnitCube(x) && drawn == old(drawn) + dim
    {
      x := [];
      while |x| < dim
        invariant |x| <= dim && InUnitCube(x) && drawn == old(drawn) + |x|
        invariant forall j :: 0 <= j < |x| ==> x[j] == rng(old(drawn) + j)
      {
        var u := Random();
        x := x + [u];
      }
    }

    /** The coordinates are consecutive draws. */
    predicate Sampled(x: Vec, first: nat) {
      |x| == dim && forall j :: 0 <= j < dim ==> x[j] == rng(first + j)
    }

    /** v_i: one coordinate of x_i moved along the line to another source, clipped to the cube. */
    method NeighbourMove(snapshot: seq<Vec>, i: nat) returns (v: Vec)
      requires dim > 0 && i < |snapshot| && |snapshot| >= 2
      requires forall k :: 0 <= k < |snapshot| ==> |snapshot[k]| == dim && InUnitCube(snapshot[k])
      modifies this`drawn
      ensures |v| == dim && InUnitCube(v) && drawn == old(drawn) + 3
      ensures IsMove(snapshot, i, rng(old(drawn)), rng(old(drawn) + 1), rng(old(drawn) + 2), v)
    {
      var k := Integers(|snapshot| - 1);
      if k >= i {
        k := k + 1;
      }
      var j := Integers(dim);
      var u := Random();
      var phi: real := -1.0 + 2.0 * (u as real);
      var x := snapshot[i];
      v := Moved(x, snapshot[k], j, phi);
    }

    // ---------------------------------------------------------------- evaluation

    /** Updates the best candidate and the archive. */
    method RecordScore(s: CandidateScore)
      requires Recorded() && Submittable(s.request, settings.colonySize, dim)
      modifies this`best, this`bestScore, this`archive, this`log
      ensures Recorded() && log == old(log) + [s]
    {
      assert (log + [s])[..|log|] == log;
      var scalar := Scalar(s, settings.weights);
      if best.None? || Gt(scalar, bestScore) {
        best, bestScore := Some(s), scalar;
      }
      archive := Archived(archive, s);
      log := log + [s];
    }

    /** Checks the returned scores one by one and records each under its own request. */
    method CheckAll(requests: seq<Request>, scores: Log) returns (r: Result<Log, Error>)
      requires Recorded() && |scores| == |requests|
      requires forall k :: 0 <= k < |requests| ==> Submittable(requests[k], settings.colonySize, dim)
      modifies this`best, this`bestScore, this`archive, this`log
      ensures Recorded()
      ensures r.Ok? <==> Answers(requests, Scores(scores))
      ensures r.Ok? ==> r.value == Checked(requests, scores) && log == old(log) + r.value
      ensures r.Err? ==> r.error == ValueError
    {
      hide RecordedOf, LogOf, FrontOf, SwarmOf, LogOk, Archived;
      var checked: Log := [];
      for k := 0 to |requests|
        invariant Recorded()
        invariant checked == Checked(requests[..k], scores[..k])
        invariant log == old(log) + checked
        invariant forall l :: 0 <= l < k ==> SameSlot(requests[l], scores[l].request)
      {
        if !SameSlot(requests[k], scores[k].request) {
          return Err(ValueError);
        }
        var score := CandidateScore(requests[k], scores[k].objectives);
        RecordScore(score);
        CheckedNext(requests, scores, k);
        checked := checked + [score];
      }
      CheckedWhole(requests, scores);
      return Ok(checked);
    }

    /** Evaluates one batch: None when a stop was requested, ValueError for a malformed reply. */
    method Submit(requests: seq<Request>) returns (r: Result<Option<Log>, Error>)
      requires Recorded() && Answered()
      requires forall k :: 0 <= k < |requests| ==> Submittable(requests[k], settings.colonySize, dim)
      modifies this`polls, this`calls, this`best, this`bestScore, this`archive, this`log
      ensures Recorded() && polls == old(polls) + 1
      ensures r == Ok(None) <==> shouldStop(old(polls))
      ensures r == Ok(None) ==> log == old(log) && calls == old(calls)
      ensures r != Ok(None) ==> calls == old(calls) + [requests]
      ensures r.Ok? && r.value.Some? ==> Scored(requests, r.value.value) && log == old(log) + r.value.value
      ensures r.Ok? ==> Answered()
      ensures r.Err? ==> !Answers(requests, evaluate(calls)) && r.error == ErrorOf(evaluate(calls))
    {
      polls := polls + 1;
      if shouldStop(polls - 1) {
        return Ok(None);
      }
      calls := calls + [requests];
      var reply := evaluate(calls);
      if reply.Raises? {
        return Err(Callback(reply.raised));
      }
      if |reply.scores| != |requests| {
        return Err(ValueError);
      }
      var checked :- CheckAll(requests, reply.scores);
      OneMoreCall(evaluate, old(calls), requests);
      CheckedIsScored(requests, reply.scores);
      return Ok(Some(checked));
    }

    // ---------------------------------------------------------------- selection

    /** Replaces food source i and resets its trial counter. */
    method SetSource(i: nat, s: CandidateScore, scalar: Float, ghost applied: Log)
      requires Foods(applied) && i == s.request.source < settings.colonySize
      requires scalar == Scalar(s, settings.weights) && Taken(applied, s, settings.weights)
      requires Submittable(s.request, settings.colonySize, dim)
      modifies sources, scores, trials, this`objectives
      ensures Foods(applied + [s])
      ensures trials[i] == 0 && scores[i] == scalar
      ensures forall k :: 0 <= k < trials.Length && k != i ==> trials[k] == old(trials[k]) && scores[k] == old(scores[k])
    {
      SwarmTaken(applied, s, settings.colonySize, settings.weights, dim);
      sources[i] := s.request.x;
      objectives := objectives[i := s.objectives];
      scores[i] := scalar;
      trials[i] := 0;
    }

    /** No source scores less than before. */
    ghost predicate NoScoreDropped(before: seq<Float>)
      reads scores
    {
      |before| == scores.Length && forall k :: 0 <= k < |before| ==> Ge(scores[k], before[k])
    }

    lemma ScoresAreNumbers(applied: Log)
      requires Foods(applied)
      ensures NoScoreDropped(scores[..])
    {
      forall k | 0 <= k < scores.Length ensures scores[k] != NaN {
        assert scores[..][k] == scores[k];
        SwarmAt(applied, settings.colonySize, settings.weights, dim, k);
      }
    }

    /** Greedy selection: the candidate replaces its source if it scores higher, else it counts
        as a failed trial.  No score drops. */
    method Greedy(s: CandidateScore, ghost applied: Log)
      requires Foods(applied) && Submittable(s.request, settings.colonySize, dim)
      requires s.request.phase !in {INIT, SCOUT}
      modifies sources, scores, trials, this`objectives
      ensures Foods(applied + [s])
      ensures NoScoreDropped(old(scores[..]))
    {
      ScoresAreNumbers(applied);
      var i := s.request.source;
      var scalar := Scalar(s, settings.weights);
      SwarmAt(applied, settings.colonySize, settings.weights, dim, i);
      if Gt(scalar, scores[i]) {
        SetSource(i, s, scalar, applied);
      } else {
        SwarmRejected(applied, s, settings.colonySize, settings.weights, dim);
        trials[i] := trials[i] + 1;
      }
    }

    /** Initial and scout results replace their source, all others go through greedy selection. */
    method Apply(s: CandidateScore, ghost applied: Log)
      requires Foods(applied) && Submittable(s.request, settings.colonySize, dim)
      modifies sources, scores, trials, this`objectives
      ensures Foods(applied + [s])
      ensures DropsOnlyFor([s.request], old(scores[..]))
    {
      ScoresAreNumbers(applied);
      if s.request.phase in {INIT, SCOUT} {
        assert [s.request][0] == s.request && Replaces([s.request], s.request.source);
        SetSource(s.request.source, s, Scalar(s, settings.weights), applied);
      } else {
        Greedy(s, applied);
      }
    }

    /** Only the sources that initial or scout requests name may score less than before. */
    ghost predicate DropsOnlyFor(requests: seq<Request>, before: seq<Float>)
      reads scores
    {
      |before| == scores.Length && forall k :: 0 <= k < |before| ==> Ge(scores[k], before[k]) || Replaces(requests, k)
    }

    /** The batch of scores, in submission order. */
    method ApplyAll(batch: Log, ghost applied: Log, ghost requests: seq<Request>)
      requires Foods(applied) && LogOk(batch, settings.colonySize, dim) && Scored(requests, batch)
      modifies sources, scores, trials, this`objectives
      ensures Foods(applied + batch)
      ensures DropsOnlyFor(requests, old(scores[..]))
    {
      ScoresAreNumbers(applied);
      assert batch[..0] == [] && applied + [] == applied;
      for l := 0 to |batch|
        invariant Foods(applied + batch[..l])
        invariant DropsOnlyFor(requests[..l], old(scores[..]))
      {
        assert applied + batch[..l + 1] == applied + batch[..l] + [batch[l]];
        LogOkAt(batch, settings.colonySize, dim, l);
        ReplacesMore(requests, l);
        Apply(batch[l], applied + batch[..l]);
      }
      assert batch[..|batch|] == batch && requests[..|batch|] == requests;
    }

    /** Evaluates one batch and applies its scores.  False on stop. */
    method SubmitAndApply(requests: seq<Request>) returns (r: Result<bool, Error>)
      requires Valid()
      requires forall k :: 0 <= k < |requests| ==> Submittable(requests[k], settings.colonySize, dim)
      modifies this`polls, this`calls, this`best, this`bestScore, this`archive, this`log, this`objectives
      modifies sources, scores, trials
      ensures r.Ok? ==> Valid() && r.value == !shouldStop(old(polls)) && polls == old(polls) + 1
      ensures r == Ok(true) ==> GrewBy(old(log), log, requests) && calls == old(calls) + [requests]
      ensures r == Ok(false) ==> log == old(log) && calls == old(calls)
      ensures r.Ok? ==> DropsOnlyFor(requests, old(scores[..]))
      ensures r.Err? ==> BadReply(r.error)
    {
      assert (calls + [requests])[..|calls|] == calls;
      ScoresAreNumbers(log);
      var submitted :- Submit(requests);
      if submitted.Some? {
        GrewByScored(old(log), submitted.value, requests);
        ScoredIsOk(requests, submitted.value, settings.colonySize, dim);
        ApplyAll(submitted.value, old(log), requests);
      }
      return Ok(submitted.Some?);
    }

    // ---------------------------------------------------------------- phases

    method InitRequests() returns (requests: seq<Request>)
      modifies this`drawn
      ensures InitBatch(requests, old(drawn))
    {
      requests := [];
      for i := 0 to settings.colonySize
        invariant |requests| == i && drawn == old(drawn) + i * dim
        invariant forall k :: 0 <= k < i ==> InitRequest(requests[k], k, old(drawn) + k * dim)
      {
        var x := Sample();
        assert (i + 1) * dim == i * dim + dim;
        requests := requests + [Request(0, INIT, i, x)];
      }
    }

    predicate InitRequest(r: Request, i: nat, first: int) {
      && Submittable(r, settings.colonySize, dim) && r.iteration == 0 && r.phase == INIT && r.source == i
      && first >= 0 && Sampled(r.x, first)
    }

    /** One uniform point for every source, from consecutive draws. */
    predicate InitBatch(requests: seq<Request>, first: nat) {
      && |requests| == settings.colonySize
      && forall k :: 0 <= k < |requests| ==> InitRequest(requests[k], k, first + k * dim)
    }

    /** Initialises and evaluates the sources.  False on stop. */
    method InitPhase() returns (r: Result<bool, Error>, ghost requests: seq<Request>)
      requires Valid()
      modifies this`drawn, this`polls, this`calls, this`best, this`bestScore, this`archive, this`log, this`objectives
      modifies sources, scores, trials
      ensures r.Ok? ==> Valid() && r.value == !shouldStop(old(polls)) && polls == old(polls) + 1
      ensures r == Ok(true) ==> InitBatch(requests, old(drawn)) && GrewBy(old(log), log, requests)
      ensures r == Ok(true) ==> calls == old(calls) + [requests]
      ensures r == Ok(false) ==> log == old(log) && calls == old(calls)
      ensures r.Err? ==> BadReply(r.error)
    {
      var batch := InitRequests();
      requests := batch;
      r := SubmitAndApply(batch);
    }

    /** The sources of the swarm are points of the unit cube. */
    predicate IsSnapshot(snapshot: seq<Vec>) {
      |snapshot| == settings.colonySize >= 2 && dim > 0
      && forall k :: 0 <= k < |snapshot| ==> |snapshot[k]| == dim && InUnitCube(snapshot[k])
    }

    lemma SwarmIsSnapshot()
      requires Valid()
      ensures IsSnapshot(sources[..])
      ensures |scores[..]| == settings.colonySize
      ensures forall i :: 0 <= i < scores.Length ==> scores[i].Finite? || scores[i].NegInf?
    {
      forall i | 0 <= i < settings.colonySize
        ensures |sources[i]| == dim && InUnitCube(sources[i]) && (scores[i].Finite? || scores[i].NegInf?)
      {
        SourcesInUnitCube(log, settings.colonySize, settings.weights, dim, i);
        SwarmAt(log, settings.colonySize, settings.weights, dim, i);
      }
    }

    method EmployedRequests(t: nat, snapshot: seq<Vec>) returns (requests: seq<Request>)
      requires IsSnapshot(snapshot)
      modifies this`drawn
      ensures EmployedBatch(requests, t, snapshot, old(drawn))
    {
      requests := [];
      for i := 0 to settings.colonySize
        invariant |requests| == i && drawn == old(drawn) + 3 * i
        invariant forall k :: 0 <= k < i ==> EmployedRequest(requests[k], t, k, snapshot, old(drawn) + 3 * k)
      {
        var v := NeighbourMove(snapshot, i);
        requests := requests + [Request(t, EMPLOYED, i, v)];
      }
    }

    ghost predicate EmployedRequest(r: Request, t: nat, i: nat, snapshot: seq<Vec>, first: nat)
      requires |snapshot| == settings.colonySize
    {
      && Submittable(r, settings.colonySize, dim)
      && r.iteration == t && r.phase == EMPLOYED && r.source == i
      && IsMove(snapshot, r.source, rng(first), rng(first + 1), rng(first + 2), r.x)
    }

    /** One neighbour move of every source, in source order. */
    ghost predicate EmployedBatch(requests: seq<Request>, t: nat, snapshot: seq<Vec>, first: nat)
      requires |snapshot| == settings.colonySize
    {
      |requests| == settings.colonySize
      && forall k :: 0 <= k < |requests| ==> EmployedRequest(requests[k], t, k, snapshot, first + 3 * k)
    }

    /** Every source tries one neighbour move from the snapshot.  False on stop. */
    method EmployedPhase(t: nat) returns (r: Result<bool, Error>, ghost requests: seq<Request>)
      requires Valid()
      modifies this`drawn, this`polls, this`calls, this`best, this`bestScore, this`archive, this`log, this`objectives
      modifies sources, scores, trials
      ensures r.Ok? ==> Valid() && r.value == !shouldStop(old(polls)) && polls == old(polls) + 1
      ensures r == Ok(true) ==>
                EmployedBatch(requests, t, old(sources[..]), old(drawn)) && GrewBy(old(log), log, requests)
      ensures r == Ok(true) ==> calls == old(calls) + [requests]
      ensures r == Ok(false) ==> log == old(log) && calls == old(calls)
      ensures r.Ok? ==> NoScoreDropped(old(scores[..]))
      ensures r.Err? ==> BadReply(r.error)
    {
      SwarmIsSnapshot();
      var batch := EmployedRequests(t, sources[..]);
      requests := batch;
      r := SubmitAndApply(batch);
    }

    /** One draw of the wheel per source, all before the moves. */
    method Spin(scored: seq<Float>) returns (chosen: seq<nat>)
      requires |scored| == settings.colonySize
      requires forall i :: 0 <= i < |scored| ==> scored[i].Finite? || scored[i].NegInf?
      modifies this`drawn
      ensures |chosen| == settings.colonySize && drawn == old(drawn) + settings.colonySize
      ensures forall k :: 0 <= k < |chosen| ==> WheelStops(scored, rng(old(drawn) + k), chosen[k])
    {
      var probs := OnlookerProbabilities(FitnessOf(scored));
      chosen := [];
      for l := 0 to settings.colonySize
        invariant |chosen| == l && drawn == old(drawn) + l
        invariant forall k :: 0 <= k < l ==> WheelStops(scored, rng(old(drawn) + k), chosen[k])
      {
        var u := Random();
        ChosenStopsTheWheel(scored, u);
        chosen := chosen + [Choose(probs, u, 0)];
      }
    }

    method OnlookerRequests(t: nat, snapshot: seq<Vec>, scored: seq<Float>) returns (requests: seq<Request>)
      requires IsSnapshot(snapshot) && |scored| == settings.colonySize
      requires forall i :: 0 <= i < |scored| ==> scored[i].Finite? || scored[i].NegInf?
      modifies this`drawn
      ensures OnlookerBatch(requests, t, snapshot, scored, old(drawn))
    {
      var chosen := Spin(scored);
      requests := [];
      for l := 0 to settings.colonySize
        invariant |requests| == l && drawn == old(drawn) + settings.colonySize + 3 * l
        invariant forall k :: 0 <= k < l ==> OnlookerRequest(requests[k], t, snapshot, scored, old(drawn), k)
      {
        assert WheelStops(scored, rng(old(drawn) + l), chosen[l]);
        var v := NeighbourMove(snapshot, chosen[l]);
        requests := requests + [Request(t, ONLOOKER, chosen[l], v)];
      }
    }

    ghost predicate OnlookerRequest(r: Request, t: nat, snapshot: seq<Vec>, scored: seq<Float>, first: nat, k: nat)
      requires |snapshot| == settings.colonySize
      requires forall i :: 0 <= i < |scored| ==> scored[i].Finite? || scored[i].NegInf?
    {
      && Submittable(r, settings.colonySize, dim) && r.iteration == t && r.phase == ONLOOKER
      && WheelStops(scored, rng(first + k), r.source)
      && var from := first + settings.colonySize + 3 * k;
         IsMove(snapshot, r.source, rng(from), rng(from + 1), rng(from + 2), r.x)
    }

    /** As many moves as there are sources: the k-th is of the source at which draw first + k stops the wheel. The draws
        of the moves follow those of the wheel. */
    ghost predicate OnlookerBatch(requests: seq<Request>, t: nat, snapshot: seq<Vec>, scored: seq<Float>, first: nat)
      requires |snapshot| == settings.colonySize
      requires forall i :: 0 <= i < |scored| ==> scored[i].Finite? || scored[i].NegInf?
    {
      |requests| == settings.colonySize
      && forall k :: 0 <= k < |requests| ==> OnlookerRequest(requests[k], t, snapshot, scored, first, k)
    }

    /** Sources are drawn by roulette wheel and tried from the snapshot.  False on stop. */
    method OnlookerPhase(t: nat) returns (r: Result<bool, Error>, ghost requests: seq<Request>)
      requires Valid()
      modifies this`drawn, this`polls, this`calls, this`best, this`bestScore, this`archive, this`log, this`objectives
      modifies sources, scores, trials
      ensures r.Ok? ==> Valid() && r.value == !shouldStop(old(polls)) && polls == old(polls) + 1
      ensures forall i :: 0 <= i < scores.Length ==> old(scores[i]).Finite? || old(scores[i]).NegInf?
      ensures r == Ok(true) ==>
                && OnlookerBatch(requests, t, old(sources[..]), old(scores[..]), old(drawn))
                && GrewBy(old(log), log, requests) && calls == old(calls) + [requests]
      ensures r == Ok(false) ==> log == old(log) && calls == old(calls)
      ensures r.Ok? ==> NoScoreDropped(old(scores[..]))
      ensures r.Err? ==> BadReply(r.error)
    {
      hide LogOk, SwarmOf, RecordedOf, LogOf, FrontOf, WheelStops, IsMove;
      SwarmIsSnapshot();
      var batch := OnlookerRequests(t, sources[..], scores[..]);
      requests := batch;
      r := SubmitAndApply(batch);
    }

    /** The first source with the largest trial counter. */
    method ArgMaxTrials() returns (i: nat)
      requires trials.Length > 0
      ensures i < trials.Length
      ensures forall k :: 0 <= k < trials.Length ==> trials[k] <= trials[i]
      ensures forall k :: 0 <= k < i ==> trials[k] < trials[i]
    {
      i := 0;
      for l := 1 to trials.Length
        invariant i < trials.Length
        invariant forall k :: 0 <= k < l ==> trials[k] <= trials[i]
        invariant forall k :: 0 <= k < i ==> trials[k] < trials[i]
      {
        if trials[l] > trials[i] {
          i := l;
        }
      }
    }

    /** Some source has failed more often than the limit allows. */
    predicate ScoutDue(counters: seq<nat>) {
      exists k :: 0 <= k < |counters| && counters[k] > settings.limit
    }

    /** A scout of the first source with the most failed trials, which are above the limit. */
    predicate ScoutOf(r: Request, t: nat, counters: seq<nat>) {
      && Submittable(r, settings.colonySize, dim) && r.iteration == t && r.phase == SCOUT
      && r.source < |counters| && counters[r.source] > settings.limit
      && (forall k :: 0 <= k < |counters| ==> counters[k] <= counters[r.source])
      && (forall k :: 0 <= k < r.source ==> counters[k] < counters[r.source])
    }

    /** Only the source of the scout may score less than before. */
    ghost predicate OthersKeepScores(r: Request, before: seq<Float>)
      reads scores
    {
      |before| == scores.Length && forall k :: 0 <= k < |before| && k != r.source ==> Ge(scores[k], before[k])
    }

    /** The source with the most failed trials is replaced by a random point if they exceed the
        limit; no other score drops.  False on stop. */
    method ScoutPhase(t: nat) returns (r: Result<bool, Error>, ghost scout: Option<Request>)
      requires Valid()
      modifies this`drawn, this`polls, this`calls, this`best, this`bestScore, this`archive, this`log, this`objectives
      modifies this`nScouts, sources, scores, trials
      ensures r.Ok? ==> Valid()
      ensures scout.Some? <==> ScoutDue(old(trials[..]))
      ensures scout.None? ==>
                r == Ok(true) && log == old(log) && nScouts == old(nScouts) && polls == old(polls) && calls == old(calls)
      ensures scout.Some? && r.Ok? ==> r.value == !shouldStop(old(polls)) && polls == old(polls) + 1
      ensures scout.Some? && r == Ok(true) ==> GrewBy(old(log), log, [scout.value]) && nScouts == old(nScouts) + 1
      ensures scout.Some? && r == Ok(true) ==>
                && ScoutOf(scout.value, t, old(trials[..])) && Sampled(scout.value.x, old(drawn))
                && OthersKeepScores(scout.value, old(scores[..]))
                && calls == old(calls) + [[scout.value]]
      ensures r == Ok(false) ==> log == old(log) && nScouts == old(nScouts) && calls == old(calls)
      ensures r.Err? ==> BadReply(r.error)
    {
      hide LogOk, SwarmOf, RecordedOf, LogOf, FrontOf;
      ghost var counters := trials[..];
      var i := ArgMaxTrials();
      assert ScoutDue(counters) <==> counters[i] > settings.limit;
      if trials[i] <= settings.limit {
        return Ok(true), None;
      }
      var x := Sample();
      var request := Request(t, SCOUT, i, x);
      scout := Some(request);
      r := SubmitAndApply([request]);
      if r == Ok(true) {
        nScouts := nScouts + 1;
      }
    }
  
    // ---------------------------------------------------------------- run

    /** Nothing has been run yet. */
    ghost predicate IsFresh()
      reads this`log, this`history, this`stages, this`cuts, this`nScouts, this`polls, this`calls, this`drawn
    {
      drawn == 0 && log == [] && history == [] && stages == [] && cuts == [] && nScouts == 0 && polls == 0 && calls == []
    }

    /** No stop request was answered with yes so far. */
    ghost predicate NeverStopped()
      reads this`polls
    {
      forall k :: 0 <= k < polls ==> !shouldStop(k)
    }

    /** The last stop request was answered with yes, all earlier ones with no. */
    ghost predicate JustStopped()
      reads this`polls
    {
      polls > 0 && shouldStop(polls - 1) && forall k :: 0 <= k < polls - 1 ==> !shouldStop(k)
    }

    /** The food sources after the first i calls. */
    ghost function SwarmAfter(calls: seq<seq<Request>>, i: nat): Swarm
      requires i <= |calls| && LogOf(evaluate, calls[..i]).Some?
    {
      SwarmOf(LogOf(evaluate, calls[..i]).value, settings.colonySize, settings.weights, dim)
    }

    /** Call i is the batch of this phase of cycle t, made from the food sources after the calls before it. */
    ghost predicate BatchAt(calls: seq<seq<Request>>, i: nat, phase: Phase, t: nat) {
      && i < |calls| && LogOf(evaluate, calls[..i]).Some?
      && var swarm := SwarmAfter(calls, i);
         match phase
         case INIT => InitBatch(calls[i], 0)
         case EMPLOYED => exists first: nat :: EmployedBatch(calls[i], t, swarm.sources, first)
         case ONLOOKER =>
           && (forall k :: 0 <= k < |swarm.scores| ==> swarm.scores[k].Finite? || swarm.scores[k].NegInf?)
           && exists first: nat :: OnlookerBatch(calls[i], t, swarm.sources, swarm.scores, first)
         case SCOUT => |calls[i]| == 1 && ScoutOf(calls[i][0], t, swarm.trials)
                        && exists first: nat :: Sampled(calls[i][0].x, first)
    }

    /** After the first i calls some source is due for a scout. */
    ghost predicate ScoutDueAt(calls: seq<seq<Request>>, i: nat) {
      i <= |calls| && LogOf(evaluate, calls[..i]).Some? && ScoutDue(SwarmAfter(calls, i).trials)
    }

    /** The calls i .. j - 1 are cycle t: the employed batch, the onlooker batch, and a scout if one is due. */
    ghost predicate CycleAt(calls: seq<seq<Request>>, i: nat, j: nat, t: nat) {
      && BatchAt(calls, i, EMPLOYED, t) && BatchAt(calls, i + 1, ONLOOKER, t)
      && if ScoutDueAt(calls, i + 2) then j == i + 3 && BatchAt(calls, i + 2, SCOUT, t) else j == i + 2
    }

    /** The calls from i on are what a stopped cycle t has made: nothing, or its employed batch, or both batches and a
        scout was due. */
    ghost predicate StoppedCycleAt(calls: seq<seq<Request>>, i: nat, t: nat) {
      && i <= |calls| <= i + 2
      && (|calls| > i ==> BatchAt(calls, i, EMPLOYED, t))
      && (|calls| > i + 1 ==> BatchAt(calls, i + 1, ONLOOKER, t) && ScoutDueAt(calls, i + 2))
    }

    lemma BatchStays(calls: seq<seq<Request>>, more: seq<seq<Request>>, i: nat, phase: Phase, t: nat)
      requires calls <= more && BatchAt(calls, i, phase, t)
      ensures BatchAt(more, i, phase, t)
    {
      hide EmployedBatch, OnlookerBatch, InitBatch, ScoutOf, Sampled, LogOf, SwarmOf;
      assert more[..i] == calls[..i] && more[i] == calls[i];
      assert SwarmAfter(more, i) == SwarmAfter(calls, i);
    }

    lemma DueStays(calls: seq<seq<Request>>, more: seq<seq<Request>>, i: nat)
      requires calls <= more && i <= |calls|
      ensures ScoutDueAt(calls, i) <==> ScoutDueAt(more, i)
    {
      assert more[..i] == calls[..i];
    }

    lemma CycleStays(calls: seq<seq<Request>>, more: seq<seq<Request>>, i: nat, j: nat, t: nat)
      requires calls <= more && CycleAt(calls, i, j, t)
      ensures CycleAt(more, i, j, t)
    {
      hide BatchAt, ScoutDueAt;
      BatchBelow(calls, i + 1, ONLOOKER, t);
      BatchStays(calls, more, i, EMPLOYED, t);
      BatchStays(calls, more, i + 1, ONLOOKER, t);
      DueStays(calls, more, i + 2);
      if ScoutDueAt(calls, i + 2) {
        BatchStays(calls, more, i + 2, SCOUT, t);
      }
    }

    lemma BatchBelow(calls: seq<seq<Request>>, i: nat, phase: Phase, t: nat)
      requires BatchAt(calls, i, phase, t)
      ensures i < |calls|
    {
    }

    /** The fields before a call are what its batch is made from. */
    lemma FieldsAre(calls: seq<seq<Request>>)
      requires Valid() && this.calls == calls
      ensures LogOf(evaluate, calls[..|calls|]).Some?
      ensures SwarmAfter(calls, |calls|) == Swarm(sources[..], objectives, scores[..], trials[..])
      ensures ScoutDueAt(calls, |calls|) <==> ScoutDue(trials[..])
    {
      assert calls[..|calls|] == calls;
    }

    /** One phase of cycle t, the initialisation being the first of all.  False when it was stopped. */
    method RunPhase(phase: Phase, t: nat) returns (r: Result<bool, Error>)
      requires Valid() && NeverStopped() && (phase == INIT ==> drawn == 0)
      modifies this`drawn, this`polls, this`calls, this`best, this`bestScore, this`archive, this`log, this`objectives
      modifies this`nScouts, sources, scores, trials
      ensures r.Ok? ==> Valid() && old(log) <= log && old(calls) <= calls
      ensures r.Ok? ==> if r.value then NeverStopped() else JustStopped() && log == old(log) && nScouts == old(nScouts)
      ensures r == Ok(true) ==>
                |log| == |old(log)| + nScouts - old(nScouts) + (if phase == SCOUT then 0 else settings.colonySize)
      ensures r.Ok? ==> old(nScouts) <= nScouts <= old(nScouts) + (if phase == SCOUT then 1 else 0)
      ensures r == Ok(true) && phase != SCOUT ==>
                |calls| == |old(calls)| + 1 && BatchAt(calls, |old(calls)|, phase, t)
      ensures r == Ok(true) && phase == SCOUT ==>
                if ScoutDueAt(old(calls), |old(calls)|) then
                  |calls| == |old(calls)| + 1 && BatchAt(calls, |old(calls)|, SCOUT, t)
                else calls == old(calls)
      ensures r == Ok(false) ==> calls == old(calls) && (phase == SCOUT ==> ScoutDueAt(calls, |calls|))
      ensures r.Err? ==> BadReply(r.error)
    {
      hide LogOk, SwarmOf, RecordedOf, LogOf, FrontOf, WheelStops, IsMove;
      ghost var before, requests := calls, [];
      ghost var scout: Option<Request>;
      FieldsAre(before);
      SwarmIsSnapshot();
      match phase {
        case INIT => r, requests := InitPhase();
        case EMPLOYED => r, requests := EmployedPhase(t);
        case ONLOOKER => r, requests := OnlookerPhase(t);
        case SCOUT => r, scout := ScoutPhase(t);
      }
      assert r == Ok(true) ==> calls[..|before|] == before[..|before|];
      if r == Ok(true) && phase != SCOUT {
        assert SwarmAfter(calls, |before|) == SwarmAfter(before, |before|);
        assert phase == INIT ==> InitBatch(calls[|before|], old(drawn));
        assert phase == EMPLOYED ==> EmployedBatch(calls[|before|], t, SwarmAfter(calls, |before|).sources, old(drawn));
        assert phase == ONLOOKER ==>
            OnlookerBatch(calls[|before|], t, SwarmAfter(calls, |before|).sources, SwarmAfter(calls, |before|).scores,
                          old(drawn));
      }
    }

    /** One cycle: employed, onlooker and scout phase.  False when a phase was stopped. */
    method Cycle(t: nat) returns (r: Result<bool, Error>)
      requires Valid() && NeverStopped()
      modifies this`drawn, this`polls, this`calls, this`best, this`bestScore, this`archive, this`log, this`objectives
      modifies this`nScouts, sources, scores, trials
      ensures r.Ok? ==> Valid() && old(log) <= log && old(nScouts) <= nScouts <= old(nScouts) + 1 && old(calls) <= calls
      ensures r.Ok? ==> if r.value then NeverStopped() else JustStopped()
      ensures r == Ok(true) ==> |log| == |old(log)| + 2 * settings.colonySize + (nScouts - old(nScouts))
      ensures r == Ok(false) ==>
                nScouts == old(nScouts) && |log| - |old(log)| in {0, settings.colonySize, 2 * settings.colonySize}
      ensures r == Ok(true) ==> CycleAt(calls, |old(calls)|, |calls|, t)
      ensures r == Ok(false) ==> StoppedCycleAt(calls, |old(calls)|, t)
      ensures r.Err? ==> BadReply(r.error)
    {
      hide BatchAt, ScoutDueAt, LogOk, SwarmOf, RecordedOf, LogOf, FrontOf;
      ghost var n := |calls|;
      r := RunPhase(EMPLOYED, t);
      if r == Ok(true) {
        ghost var employed := calls;
        r := RunPhase(ONLOOKER, t);
        if r.Ok? {
          BatchStays(employed, calls, n, EMPLOYED, t);
        }
        if r == Ok(true) {
          ghost var both := calls;
          r := RunPhase(SCOUT, t);
          if r.Ok? {
            BatchStays(both, calls, n, EMPLOYED, t);
            BatchStays(both, calls, n + 1, ONLOOKER, t);
            DueStays(both, calls, n + 2);
          }
        }
      }
    }

    /** Appends the best score so far to the history. */
    method Mark(t: nat)
      requires Recorded() && HistoryOk() && t == |history|
      modifies this`history, this`stages, this`cuts
      ensures HistoryOk() && history == old(history) + [(t, bestScore)] && stages == old(stages) + [log]
      ensures cuts == old(cuts) + [|calls|]
    {
      RecordedIsBestAndFront(log, settings.weights);
      history := history + [(t, bestScore)];
      stages := stages + [log];
      cuts := cuts + [|calls|];
      assert stages[..t] == old(stages) && stages[t] == log;
      assert (stages + [log])[..t + 1] == stages;
    }

    /** A longer log leaves the history valid. */
    lemma HistoryKept(log0: Log)
      requires log0 <= log && history == HistoryOf(stages, settings.weights) && Growing(stages + [log0])
      ensures HistoryOk()
    {
      var n := |stages|;
      assert (stages + [log0])[..n] == stages && (stages + [log])[..n] == stages;
      if n > 0 {
        assert (stages + [log0])[n - 1] == stages[n - 1];
      }
    }

    method ResultOf(stopped: bool) returns (result: ABCResult)
      requires Recorded()
      ensures IsResult(result) && result.stopped == stopped
    {
      RecordedIsBestAndFront(log, settings.weights);
      result := ABCResult(
        if best.None? then [] else best.value.request.x,
        if best.None? then FAILED_OBJECTIVES else best.value.objectives,
        archive, history, stopped);
      if log != [] {
        ghost var k := FirstBestIsFirstMaximum(log, settings.weights);
      }
    }

    /** The first maximum of everything evaluated, the finite candidates that no other one dominates, the history. */
    ghost predicate IsResult(result: ABCResult)
      reads this`log, this`history
    {
      && result.history == history && result.archive == FrontOf(log)
      && if log == [] then result.bestX == [] && result.bestObjectives == Objectives(NegInf, NegInf)
         else exists k: nat :: IsFirstMaximum(log, k, settings.weights)
                               && result.bestX == log[k].request.x && result.bestObjectives == log[k].objectives
    }

    /** A complete run evaluated every batch of every cycle. */
    ghost predicate Complete()
      reads this`log, this`nScouts, this`history, this`stages, this`cuts, this`calls
    {
      && |log| == settings.Evaluations(nScouts) && nScouts <= settings.maxIter
      && |history| == |stages| == settings.maxIter + 1
      && |stages[0]| == settings.colonySize && stages[settings.maxIter] == log
      && CyclesAre(calls, cuts, stages, settings.maxIter) && cuts[settings.maxIter] == |calls|
    }

    /**
     The calls up to cut t are the run up to cycle t: the initial batch, then cycle after cycle. Stage c is what the
     calls up to cut c have evaluated.
     */
    ghost predicate CyclesAre(calls: seq<seq<Request>>, cuts: seq<nat>, stages: seq<Log>, t: nat) {
      && t < |cuts| && t < |stages| && cuts[0] == 1 && BatchAt(calls, 0, INIT, 0)
      && (forall c :: 0 <= c <= t ==> cuts[c] <= |calls| && LogOf(evaluate, calls[..cuts[c]]) == Some(stages[c]))
      && (forall c :: 1 <= c <= t ==> CycleAt(calls, cuts[c - 1], cuts[c], c))
    }

    lemma CyclesStay(calls: seq<seq<Request>>, more: seq<seq<Request>>, cuts: seq<nat>, cuts': seq<nat>, stages: seq<Log>,
                     stages': seq<Log>, t: nat)
      requires calls <= more && cuts <= cuts' && stages <= stages' && CyclesAre(calls, cuts, stages, t)
      ensures CyclesAre(more, cuts', stages', t)
    {
      hide BatchAt, CycleAt, LogOf;
      BatchStays(calls, more, 0, INIT, 0);
      forall c | 0 <= c <= t
        ensures cuts'[c] <= |more| && LogOf(evaluate, more[..cuts'[c]]) == Some(stages'[c])
      {
        assert more[..cuts[c]] == calls[..cuts[c]];
      }
      forall c | 1 <= c <= t
        ensures CycleAt(more, cuts'[c - 1], cuts'[c], c)
      {
        CycleStays(calls, more, cuts[c - 1], cuts[c], c);
      }
    }

    /** Candidates of the initialisation and t cycles, scouts not counted. */
    ghost function Submitted(t: nat): nat {
      if t == 0 then settings.colonySize else Submitted(t - 1) + 2 * settings.colonySize
    }

    lemma {:induction false} SubmittedFormula(t: nat)
      ensures Submitted(t) == settings.colonySize * (1 + 2 * t)
    {
      if t > 0 {
        SubmittedFormula(t - 1);
      }
    }

    /** The counts after t complete cycles. */
    ghost predicate Progress(t: nat)
      reads this`log, this`nScouts, this`history, this`stages, this`cuts, this`calls
    {
      && |cuts| == t + 1 && CyclesAre(calls, cuts, stages, t) && cuts[t] == |calls|
      && |log| == Submitted(t) + nScouts && nScouts <= t
      && |history| == |stages| == t + 1
      && |stages[0]| == settings.colonySize && stages[t] == log
    }

    /**
     The counts of a stopped run: an entry for the initialisation and every cycle begun, the last one for all that was
     evaluated. A stopped cycle has completed none, one or two of its phases; a stopped initialisation leaves nothing.
     */
    ghost predicate Interrupted()
      reads this`log, this`nScouts, this`history, this`stages, this`cuts, this`calls
    {
      if history == [] then log == [] && stages == [] && cuts == [] && calls == [] && nScouts == 0
      else
        var t := |history| - 1;
        && 1 <= t <= settings.maxIter && nScouts < t
        && |stages| == t + 1 && |stages[0]| == settings.colonySize && stages[t] == log
        && |log| - Submitted(t - 1) - nScouts in {0, settings.colonySize, 2 * settings.colonySize}
        && |cuts| == t + 1 && cuts[t] == |calls|
        && CyclesAre(calls, cuts, stages, t - 1) && StoppedCycleAt(calls, cuts[t - 1], t)
    }

    lemma NoHistory()
      requires history == [] && stages == []
      ensures HistoryOk()
    {
    }

    /** Initialisation with its history entry.  False when it was stopped. */
    method Begin() returns (r: Result<bool, Error>)
      requires Valid() && IsFresh()
      modifies this, sources, scores, trials
      ensures r.Ok? ==> Valid() && HistoryOk()
      ensures r == Ok(true) ==> NeverStopped() && Progress(0)
      ensures r == Ok(false) ==> JustStopped() && Interrupted()
      ensures r.Err? ==> BadReply(r.error)
    {
      hide HistoryOf, Growing, LogOk, SwarmOf, RecordedOf, LogOf, FrontOf, BatchAt;
      r := RunPhase(INIT, 0);
      NoHistory();
      if r == Ok(true) {
        Mark(0);
        assert calls[..1] == calls;
      }
    }

    lemma OneMoreCycle(t: nat)
      requires t >= 1 && |cuts| == |stages| == t + 1 && CyclesAre(calls, cuts, stages, t - 1)
      requires cuts[t] == |calls| && LogOf(evaluate, calls) == Some(stages[t]) && CycleAt(calls, cuts[t - 1], cuts[t], t)
      ensures CyclesAre(calls, cuts, stages, t)
    {
      hide BatchAt, CycleAt, LogOf;
      assert calls[..cuts[t]] == calls;
    }

    /** Cycle t with its history entry, which it gets in any case.  False when it was stopped. */
    method Advance(t: nat) returns (r: Result<bool, Error>)
      requires Valid() && HistoryOk() && NeverStopped() && 0 < t <= settings.maxIter && Progress(t - 1)
      modifies this, sources, scores, trials
      ensures r.Ok? ==> Valid() && HistoryOk()
      ensures r == Ok(true) ==> NeverStopped() && Progress(t)
      ensures r == Ok(false) ==> JustStopped() && Interrupted()
      ensures r.Err? ==> BadReply(r.error)
    {
      hide HistoryOf, Growing, LogOk, SwarmOf, RecordedOf, LogOf, FrontOf, BatchAt, CycleAt, StoppedCycleAt, CyclesAre;
      ghost var log0, calls0, cuts0, stages0 := log, calls, cuts, stages;
      r := Cycle(t);
      if r.Ok? {
        HistoryKept(log0);
        Mark(t);
        CyclesStay(calls0, calls, cuts0, cuts, stages0, stages, t - 1);
        if r.value {
          OneMoreCycle(t);
        }
      }
    }

    /** Initialisation and maxIter cycles with their history.  False when a phase was stopped. */
    method RunCycles() returns (r: Result<bool, Error>)
      requires Valid() && IsFresh()
      modifies this, sources, scores, trials
      ensures r.Ok? ==> Valid() && HistoryOk()
      ensures r.Ok? ==> if r.value then NeverStopped() && Progress(settings.maxIter) else JustStopped() && Interrupted()
      ensures r.Err? ==> BadReply(r.error)
    {
      hide HistoryOf, Growing, LogOk, SwarmOf, RecordedOf, LogOf, FrontOf, CyclesAre, StoppedCycleAt;
      r := Begin();
      var t := 1;
      while r == Ok(true) && t <= settings.maxIter
        invariant 1 <= t <= settings.maxIter + 1
        invariant r.Ok? ==> Valid() && HistoryOk()
        invariant r.Ok? ==> if r.value then NeverStopped() && Progress(t - 1) else JustStopped() && Interrupted()
        invariant r.Err? ==> BadReply(r.error)
        decreases settings.maxIter + 1 - t
      {
        r := Advance(t);
        t := t + 1;
      }
    }

    lemma AllCyclesComplete()
      requires Progress(settings.maxIter)
      ensures Complete()
    {
      SubmittedFormula(settings.maxIter);
    }

    /** A complete run of the optimizer. */
    method Run() returns (r: Result<ABCResult, Error>)
      requires Valid() && IsFresh()
      modifies this, sources, scores, trials
      ensures r.Ok? ==> Valid() && HistoryOk() && IsResult(r.value)
      ensures r.Ok? ==> if r.value.stopped then JustStopped() && Interrupted() else NeverStopped() && Complete()
      ensures r.Err? ==> BadReply(r.error)
    {
      var going :- RunCycles();
      if going {
        AllCyclesComplete();
      }
      var result := ResultOf(!going);
      return Ok(result);
    }
  }
}

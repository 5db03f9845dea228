/** The part of the algorithm configurations that decides when a learner learns, and the start shared by a run. */
module LearnerConfig {
  import opened Wrappers

  datatype Error = SimulationValidationError

  datatype Kind =
    | Replay                                             // DDPG, TD3, SAC
    | Recurrent(seqLen: nat)                             // RDPG
    | OnPolicy(rolloutLength: nat, minibatchSize: nat, gaeLambda: real)   // PPO

  datatype Config = Config(kind: Kind, gamma: real, batchSize: nat, bufferSize: nat, learningStarts: nat,
                           gradientSteps: nat) {
    predicate Valid() {
      && 0.0 < gamma < 1.0 && 1 <= batchSize <= bufferSize && batchSize <= learningStarts && 1 <= gradientSteps
      && match kind
         case Replay => true
         case Recurrent(seqLen) => 2 <= seqLen <= bufferSize
         case OnPolicy(rolloutLength, minibatchSize, gaeLambda) =>
           1 <= minibatchSize <= rolloutLength && 0.0 <= gaeLambda <= 1.0
    }

    /** The smallest technically possible learning start. */
    function MinLearningStarts(): nat {
      match kind
      case Replay => batchSize
      case Recurrent(seqLen) => Larger(batchSize, seqLen)
      case OnPolicy(rolloutLength, _, _) => Larger(batchSize, rolloutLength)
    }

    /** The transitions before the first update. */
    function FirstUpdateTransitions(): nat {
      Larger(learningStarts, MinLearningStarts())
    }

    /** The largest reachable learning start, none for a rollout. */
    function LearningStartsLimit(): Option<nat> {
      if kind.OnPolicy? then None else Some(bufferSize)
    }
  }

  type AlgorithmConfig = c: Config | c.Valid() witness Config(Replay, 0.5, 1, 1, 1, 1)

  function Larger(a: nat, b: nat): nat { if a < b then b else a }

  /** The largest requirement among the learners. */
  function LargestRequirement(learners: seq<AlgorithmConfig>): nat {
    if learners == [] then 0
    else Larger(LargestRequirement(learners[..|learners| - 1]), learners[|learners| - 1].FirstUpdateTransitions())
  }

  lemma {:induction false} LargestRequirementIsMaximum(learners: seq<AlgorithmConfig>)
    ensures forall i :: 0 <= i < |learners| ==> learners[i].FirstUpdateTransitions() <= LargestRequirement(learners)
    ensures learners != [] ==>
              exists i :: 0 <= i < |learners| && learners[i].FirstUpdateTransitions() == LargestRequirement(learners)
  {
    if learners != [] {
      var before := learners[..|learners| - 1];
      LargestRequirementIsMaximum(before);
      var last := |learners| - 1;
      assert LargestRequirement(learners) in {LargestRequirement(before), learners[last].FirstUpdateTransitions()};
      if before != [] {
        var i :| 0 <= i < |before| && before[i].FirstUpdateTransitions() == LargestRequirement(before);
        assert learners[i] == before[i];
      }
    }
  }

  /** The config a learner gets from the run's common learning start. */
  function WithStart(c: AlgorithmConfig, start: nat): Config {
    c.(learningStarts := start)
  }

  predicate Reachable(c: AlgorithmConfig, start: int) {
    c.MinLearningStarts() <= start && (c.LearningStartsLimit().Some? ==> start <= c.LearningStartsLimit().value)
  }

  /**
   A start is reachable exactly if a learner that is given it makes its first update after that many transitions, and
   its buffer can hold them.
   */
  lemma ReachableIff(c: AlgorithmConfig, start: nat)
    ensures Reachable(c, start) <==>
            && WithStart(c, start).FirstUpdateTransitions() == start
            && (c.kind.OnPolicy? || start <= c.bufferSize)
    ensures Reachable(c, start) ==> WithStart(c, start).Valid()
  {
  }

  /** What a learner needs before its first update: its learning start, a batch, and a window or a full rollout. */
  lemma FirstUpdateIs(c: AlgorithmConfig, n: nat)
    ensures n >= c.FirstUpdateTransitions() <==>
            && n >= c.learningStarts && n >= c.batchSize
            && (c.kind.Recurrent? ==> n >= c.kind.seqLen) && (c.kind.OnPolicy? ==> n >= c.kind.rolloutLength)
  {
  }

  /** The scenario's own learning start if it has one, else the largest requirement. */
  function Wanted(explicit: Option<int>, learners: seq<AlgorithmConfig>): int {
    if explicit.Some? then explicit.value else LargestRequirement(learners)
  }

  /**
   One learning start for all learners of a run: none without learners, else the wanted one, which every learner
   must be able to reach.
   */
  method CommonLearningStarts(explicit: Option<int>, learners: seq<AlgorithmConfig>) returns (r: Result<Option<nat>, Error>)
    ensures r.Ok? <==> forall i :: 0 <= i < |learners| ==> Reachable(learners[i], Wanted(explicit, learners))
    ensures r.Ok? && learners == [] ==> r.value == None
    ensures r.Ok? && learners != [] ==> r.value == Some(Wanted(explicit, learners))
    ensures r.Ok? && r.value.Some? ==>
              forall i :: 0 <= i < |learners| ==>
                var c := WithStart(learners[i], r.value.value);
                c.Valid() && c.FirstUpdateTransitions() == r.value.value
  {
    if learners == [] {
      return Ok(None);
    }
    var value := Wanted(explicit, learners);
    for i := 0 to |learners|
      invariant forall k :: 0 <= k < i ==> Reachable(learners[k], value)
    {
      if !Reachable(learners[i], value) {
        return Err(SimulationValidationError);
      }
    }
    assert value >= 0 by { assert Reachable(learners[0], value); }
    return Ok(Some(value));
  }

  /**
   Without a scenario value the automatic one fails exactly when some learner's buffer is smaller than another
   learner's requirement.
   */
  lemma AutomaticStart(learners: seq<AlgorithmConfig>)
    ensures (forall i :: 0 <= i < |learners| ==> Reachable(learners[i], Wanted(None, learners))) <==>
            forall i, j :: 0 <= i < |learners| && 0 <= j < |learners| && learners[i].LearningStartsLimit().Some? ==>
              learners[j].FirstUpdateTransitions() <= learners[i].LearningStartsLimit().value
  {
    LargestRequirementIsMaximum(learners);
    if forall i, j :: 0 <= i < |learners| && 0 <= j < |learners| && learners[i].LearningStartsLimit().Some? ==>
         learners[j].FirstUpdateTransitions() <= learners[i].LearningStartsLimit().value {
      forall i | 0 <= i < |learners|
        ensures Reachable(learners[i], Wanted(None, learners))
      {
        assert learners[i].MinLearningStarts() <= learners[i].FirstUpdateTransitions();
      }
    }
  }

  /** Periods are numbered from 1; the first complete observation needs the largest lag. */
  function FirstLearningPeriod(maxLag: nat, learningStart: nat): nat {
    maxLag + 1 + learningStart
  }
}

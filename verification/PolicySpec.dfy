/** What the operations of a policy do to the state that decides when and from what it learns. */
module PolicySpec {
  import opened Wrappers
  import opened Experience
  import opened LearnerConfig
  import ReplayBuffer
  import RolloutBuffer

  type Error = Experience.Error

  datatype Algorithm = Baseline | Learner(config: AlgorithmConfig)

  /** The lengths of observations and actions. */
  datatype Spec = Spec(obsDim: nat, actionDim: nat)

  datatype PolicyState = PolicyState(frozen: bool, stored: seq<ReplayBuffer.Stored>, rolled: seq<RolloutBuffer.Recorded>,
                                     seen: nat, lastNextObs: Option<Vec>, history: seq<Vec>, open: bool)

  function Fresh(): PolicyState {
    PolicyState(false, [], [], 0, None, [], false)
  }

  // ---------------------------------------------------------------- observe

  function ObserveRollout(c: AlgorithmConfig, spec: Spec, s: PolicyState, t: Transition): Result<PolicyState, Error>
    requires c.kind.OnPolicy?
  {
    var counted := s.(seen := s.seen + 1);
    if s.seen < c.learningStarts - c.kind.rolloutLength then Ok(counted)
    else if !ShapesOk(t, spec.obsDim, spec.actionDim) || |s.rolled| >= c.kind.rolloutLength
            || !RolloutBuffer.HasStatistics(t, spec.actionDim) then Err(ValueError)
    else Ok(counted.(rolled := s.rolled + [RolloutBuffer.Kept(t)], lastNextObs := Some(t.nextObs)))
  }

  /** The state after observing a transition; a rejected transition raises. */
  function Observe(alg: Algorithm, spec: Spec, s: PolicyState, t: Transition): Result<PolicyState, Error> {
    if s.frozen || alg.Baseline? then Ok(s)
    else if alg.config.kind.OnPolicy? then ObserveRollout(alg.config, spec, s, t)
    else if !ShapesOk(t, spec.obsDim, spec.actionDim) then Err(ValueError)
    else Ok(s.(stored := LastN(s.stored + [ReplayBuffer.Kept(t)], alg.config.bufferSize)))
  }

  // ---------------------------------------------------------------- update

  predicate Ready(c: AlgorithmConfig, s: PolicyState) {
    match c.kind
    case Replay => |s.stored| >= c.learningStarts
    case Recurrent(seqLen) => |s.stored| >= c.learningStarts && |s.stored| >= seqLen
    case OnPolicy(rolloutLength, _, _) => |s.rolled| == rolloutLength && s.seen >= c.learningStarts
  }

  predicate WillUpdate(alg: Algorithm, s: PolicyState) {
    !s.frozen && alg.Learner? && Ready(alg.config, s)
  }

  /** The buffers as the gradient steps leave them, and whether there were any gradient steps. */
  function Update(alg: Algorithm, s: PolicyState): Result<(PolicyState, bool), Error> {
    if !WillUpdate(alg, s) then Ok((s, false))
    else
      match alg.config.kind
      case Replay => if |s.stored| < alg.config.batchSize then Err(ValueError) else Ok((s, true))
      case Recurrent(seqLen) => if |s.stored| < seqLen then Err(ValueError) else Ok((s, true))
      case OnPolicy(_, _, _) =>
        if s.rolled == [] || s.lastNextObs.None? then Err(ValueError)
        else Ok((s.(rolled := [], lastNextObs := None), true))
  }

  // ---------------------------------------------------------------- acting

  /** The observation window of a recurrent policy: a repeated query of the same period replaces its last entry. */
  function Record(history: seq<Vec>, open: bool, obs: Vec, seqLen: nat): seq<Vec> {
    if open && history != [] then history[|history| - 1 := obs] else LastN(history + [obs], seqLen)
  }

  function Select(alg: Algorithm, s: PolicyState, obs: Vec): PolicyState {
    if alg.Learner? && alg.config.kind.Recurrent? then
      s.(history := Record(s.history, s.open, obs, alg.config.kind.seqLen), open := true)
    else s
  }

  function EndPeriod(alg: Algorithm, s: PolicyState): PolicyState {
    if alg.Learner? && alg.config.kind.Recurrent? then s.(open := false) else s
  }

  /** However often a period asks for an action, the window grows by one entry: the last observation asked with. */
  lemma RepeatedQueries(alg: Algorithm, s: PolicyState, obs: Vec, again: Vec)
    ensures Select(alg, Select(alg, s, obs), again) == Select(alg, s, again)
  {
    if alg.Learner? && alg.config.kind.Recurrent? {
      var n := alg.config.kind.seqLen;
      if !(s.open && s.history != []) {
        var h := LastN(s.history + [obs], n);
        assert h[|h| - 1 := again] == LastN(s.history + [again], n);
      } else {
        assert s.history[|s.history| - 1 := obs][|s.history| - 1 := again] == s.history[|s.history| - 1 := again];
      }
    }
  }
}

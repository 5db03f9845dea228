/** One step of an agent before the clearing of a period, on values. */
module AgentStepSpec {
  import opened Wrappers
  import opened Floats
  import opened Experience
  import opened PolicySpec
  import ActionSpace
  import FailStack

  type Error = Experience.Error

  datatype Action = Action(u: Vec, logProb: Option<real>, value: Option<real>, preSquash: Option<Vec>) {
    predicate Valid() {
      u != [] && InUnitBox(u) && (preSquash.Some? ==> |preSquash.value| == |u|)
    }
  }

  type ActionResult = a: Action | a.Valid() witness Action([0.0], None, None, None)

  /** The decision of a period that becomes a transition in the next one. */
  datatype Pending = Pending(obs: Vec, action: ActionResult, uApplied: Vec, intervened: bool)

  datatype AgentState = AgentState(policy: PolicyState, prev: Option<Pending>, counters: FailStack.Counters)

  /** What does not change during a run; the bid bounds of a market are strictly ordered. */
  datatype RunSetup = Setup(algorithm: Algorithm, spec: Spec, plants: nat, failstack: Option<FailStack.FailStackParams>,
                         low: real, high: real, evaluationStart: int, evaluateOnly: bool) {
    predicate Valid() { spec.obsDim >= 1 && spec.actionDim == plants >= 1 }

    predicate Training(t: int) { !evaluateOnly && t < evaluationStart }
  }

  type Setup = s: RunSetup | s.low < s.high witness RunSetup.Setup(Baseline, Spec(1, 1), 1, None, 0.0, 1.0, 1, false)

  /**
   What the other components hand to one step: the reward and failure flags of the cleared offers of t - 1, the
   action that the networks, a baseline or the generator give, and the draws of the fail-stack rule.
   */
  datatype Inputs = Inputs(reward: real, failures: seq<bool>, action: ActionResult, random: nat -> Unit)

  datatype StepOut = StepOut(prices: seq<real>, intervened: seq<bool>, updated: bool, learningActive: bool)

  // ---------------------------------------------------------------- the parts of a step

  /** The counters after the outcomes of t - 1. */
  function Counted(setup: Setup, s: AgentState, t: int, failures: seq<bool>): Result<FailStack.Counters, Error> {
    if t <= 1 || setup.failstack.None? || !setup.Training(t) then Ok(s.counters)
    else if |failures| != |s.counters| then Err(ValueError)
    else Ok(FailStack.Bump(s.counters, failures))
  }

  function TransitionFrom(p: Pending, reward: real, next: Vec): Step {
    Step(p.obs, p.uApplied, reward, next, false, p.action.logProb, p.action.value, p.action.preSquash, p.intervened)
  }

  /** A transition is stored only in training, for a decision with an observation, when this period has one too. */
  predicate Stores(setup: Setup, s: AgentState, t: int, obs: Option<Vec>) {
    t > 1 && s.prev.Some? && obs.Some? && setup.Training(t) && setup.algorithm.Learner?
  }

  function Learned(setup: Setup, s: AgentState, t: int, obs: Option<Vec>, reward: real): Result<(PolicyState, bool), Error> {
    if !Stores(setup, s, t, obs) then Ok((s.policy, false))
    else
      var tr := TransitionFrom(s.prev.value, reward, obs.value);
      if |tr.obs| != |tr.nextObs| then Err(ValueError)
      else
        var p :- Observe(setup.algorithm, setup.spec, s.policy, tr);
        Update(setup.algorithm, p)
  }

  function PricesOf(setup: Setup, u: Vec): seq<real> {
    seq(|u|, i requires 0 <= i < |u| => ActionSpace.PriceOf(u[i], setup.low, setup.high))
  }

  function ActionsOf(setup: Setup, prices: seq<real>): Vec
  {
    seq(|prices|, i requires 0 <= i < |prices| => ActionSpace.ActionOf(prices[i], setup.low, setup.high))
  }

  predicate Acts(setup: Setup, t: int) {
    setup.failstack.Some? && setup.Training(t)
  }

  /** The prices after the fail-stack rule, and its flags. */
  function Intervened(setup: Setup, c: FailStack.Counters, t: int, prices: seq<real>, ptf: Option<real>,
                      random: nat -> Unit): Result<(seq<real>, seq<bool>, FailStack.Counters), Error>
  {
    if !Acts(setup, t) then Ok((prices, seq(setup.plants, i => false), c))
    else if |prices| != |c| then Err(ValueError)
    else
      var params := setup.failstack.value;
      Ok((seq(|c|, i requires 0 <= i < |c| =>
                FailStack.AppliedPrice(c, params, prices, ptf, setup.low, setup.high, random, i)),
          FailStack.Flags(c, params.limit, ptf.Some?), FailStack.Released(c, params.limit, ptf.Some?)))
  }

  predicate AnyOf(flags: seq<bool>) { true in flags }

  /** The policy has an update this period or could have one. */
  predicate LearningActive(setup: Setup, t: int, p: PolicyState, updated: bool) {
    setup.Training(t) && setup.algorithm.Learner? && !p.frozen && (updated || Ready(setup.algorithm.config, p))
  }

  /** The first half of a step: what the outcomes of t - 1 do to the counters and the policy. */
  function Settle(setup: Setup, s: AgentState, t: int, obs: Option<Vec>, i: Inputs): Result<(AgentState, bool), Error> {
    if t > 1 && i.failures == [] then Err(ValueError)
    else
      var counters :- Counted(setup, s, t, i.failures);
      var learned :- Learned(setup, s, t, obs, i.reward);
      Ok((AgentState(learned.0, s.prev, counters), learned.1))
  }

  /** The second half: act, intervene, remember the decision. `ptf` is the price of t - 1. */
  function Decide(setup: Setup, s: AgentState, t: int, obs: Option<Vec>, ptf: Option<real>, i: Inputs)
    : Result<(AgentState, (seq<real>, seq<bool>)), Error>
  {
    var applied :- Intervened(setup, s.counters, t, PricesOf(setup, i.action.u), ptf, i.random);
    var acted := if obs.Some? then Select(setup.algorithm, s.policy, obs.value) else s.policy;
    var prev := if obs.None? then None
                else Some(Pending(obs.value, i.action, ActionsOf(setup, applied.0), AnyOf(applied.1)));
    Ok((AgentState(EndPeriod(setup.algorithm, acted), prev, applied.2), (applied.0, applied.1)))
  }

  /** The step of period t. */
  function StepOf(setup: Setup, s: AgentState, t: int, obs: Option<Vec>, ptf: Option<real>, i: Inputs)
    : Result<(AgentState, StepOut), Error>
  {
    var settled :- Settle(setup, s, t, obs, i);
    var decided :- Decide(setup, settled.0, t, obs, ptf, i);
    Ok((decided.0, StepOut(decided.1.0, decided.1.1, settled.1, LearningActive(setup, t, settled.0.policy, settled.1))))
  }
}

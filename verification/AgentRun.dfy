/**
 Whole runs of one agent: what it has observed, when it updates, what its window and buffers hold and how often its
 prices are replaced, as functions of the period.
 */
module AgentRun {
  import opened Wrappers
  import opened Floats
  import opened Experience
  import opened LearnerConfig
  import opened PolicySpec
  import opened AgentStepSpec
  import opened LearningSchedule
  import ActionSpace
  import AgentStep
  import FailStack
  import Observation
  import ReplayBuffer

  type Error = Experience.Error

  // ---------------------------------------------------------------- one step keeps the invariants

  /** The action fits the agent, and so do the flags, which exist from period 2 on. */
  predicate InputsOk(setup: Setup, t: int, i: Inputs) {
    |i.action.u| == setup.plants && (t > 1 ==> |i.failures| == setup.plants)
  }

  /** An action that an on-policy network has chosen carries its statistics. */
  predicate ChosenOk(setup: Setup, a: ActionResult) {
    setup.algorithm.Learner? && setup.algorithm.config.kind.OnPolicy? ==>
      a.logProb.Some? && a.value.Some? && a.preSquash.Some?
  }

  predicate PendingOk(setup: Setup, p: Pending) {
    && |p.obs| == setup.spec.obsDim && |p.uApplied| == setup.plants && InUnitBox(p.uApplied)
    && |p.action.u| == setup.plants && ChosenOk(setup, p.action)
  }

  predicate ObsOk(setup: Setup, obs: Option<Vec>) {
    obs.Some? ==> |obs.value| == setup.spec.obsDim
  }

  predicate PolicyOk(setup: Setup, p: PolicyState, ts: Transitions) {
    setup.algorithm.Learner? ==> HasObserved(setup.algorithm.config, p, ts)
  }

  predicate StateOk(setup: Setup, s: AgentState, ts: Transitions) {
    && |s.counters| == setup.plants && (s.prev.Some? ==> PendingOk(setup, s.prev.value)) && PolicyOk(setup, s.policy, ts)
  }

  /** The transitions observed so far, after this step. */
  function SeenNext(setup: Setup, s: AgentState, t: int, obs: Option<Vec>, reward: real, ts: Transitions): Transitions
    requires s.prev.Some? ==> PendingOk(setup, s.prev.value)
    requires ObsOk(setup, obs)
  {
    if Stores(setup, s, t, obs) then ts + [TransitionFrom(s.prev.value, reward, obs.value)] else ts
  }

  lemma SettleStep(setup: Setup, s: AgentState, t: int, obs: Option<Vec>, i: Inputs, ts: Transitions)
    requires setup.Valid() && InputsOk(setup, t, i) && ObsOk(setup, obs) && StateOk(setup, s, ts)
    requires setup.Training(t) ==> !s.policy.frozen
    ensures var m := Settle(setup, s, t, obs, i);
            && m.Ok? && m.value.1 == (Stores(setup, s, t, obs) && Due(setup.algorithm.config, |ts| + 1))
            && StateOk(setup, m.value.0, SeenNext(setup, s, t, obs, i.reward, ts))
            && m.value.0.prev == s.prev && Counted(setup, s, t, i.failures) == Ok(m.value.0.counters)
            && m.value.0.policy.frozen == s.policy.frozen
            && m.value.0.policy.history == s.policy.history && m.value.0.policy.open == s.policy.open
  {
    if Stores(setup, s, t, obs) {
      LearnStep(setup.algorithm.config, setup.spec, s.policy, ts, TransitionFrom(s.prev.value, i.reward, obs.value));
    }
  }

  lemma DecideStep(setup: Setup, s: AgentState, t: int, obs: Option<Vec>, ptf: Option<real>, i: Inputs, ts: Transitions)
    requires setup.Valid() && InputsOk(setup, t, i) && ObsOk(setup, obs) && StateOk(setup, s, ts)
    requires obs.Some? ==> ChosenOk(setup, i.action)
    ensures var d := Decide(setup, s, t, obs, ptf, i);
            && d.Ok? && StateOk(setup, d.value.0, ts)
            && d.value.0.policy.frozen == s.policy.frozen
            && d.value.0.prev.Some? == obs.Some?
            && (obs.Some? ==> d.value.0.prev.value.obs == obs.value)
            && d.value.0.counters == (if Acts(setup, t) then
                                        FailStack.Released(s.counters, setup.failstack.value.limit, ptf.Some?)
                                      else s.counters)
            && d.value.1.1 == (if Acts(setup, t) then FailStack.Flags(s.counters, setup.failstack.value.limit, ptf.Some?)
                               else seq(setup.plants, k => false))
  {
  }

  /** A step from a state in order: it does not raise, and the policy updates when the schedule says so. */
  lemma StepOfSound(setup: Setup, s: AgentState, t: int, obs: Option<Vec>, ptf: Option<real>, i: Inputs, ts: Transitions)
    requires setup.Valid() && InputsOk(setup, t, i) && ObsOk(setup, obs) && StateOk(setup, s, ts)
    requires (obs.Some? ==> ChosenOk(setup, i.action)) && (setup.Training(t) ==> !s.policy.frozen)
    ensures var r, ts' := StepOf(setup, s, t, obs, ptf, i), SeenNext(setup, s, t, obs, i.reward, ts);
            && r.Ok? && StateOk(setup, r.value.0, ts')
            && r.value.0.policy.frozen == s.policy.frozen
            && r.value.0.prev.Some? == obs.Some? && (obs.Some? ==> r.value.0.prev.value.obs == obs.value)
            && r.value.1.updated == (Stores(setup, s, t, obs) && Due(setup.algorithm.config, |ts'|))
  {
    SettleStep(setup, s, t, obs, i, ts);
    var m := Settle(setup, s, t, obs, i).value.0;
    DecideStep(setup, m, t, obs, ptf, i, SeenNext(setup, s, t, obs, i.reward, ts));
  }

  // ---------------------------------------------------------------- runs

  /** Everything a run of one agent depends on: the agent's setup and, period by period, the rest of the market. */
  datatype Env = Env(setup: Setup, lags: Observation.Lags, demand: nat -> real, ptf: nat -> real, normalize: Vec -> Vec,
                     inputs: nat -> Inputs)

  /**
   A run of an agent that knows every price of the past. Before all lags exist a learner's action comes from the
   generator, without statistics; afterwards the policy chooses it.
   */
  ghost predicate Run(env: Env) {
    && env.setup.Valid() && env.setup.evaluationStart >= 1
    && Observation.AllowedLags(env.lags) && env.setup.spec.obsDim == 1 + |env.lags|
    && (forall v: Vec :: |v| == 1 + |env.lags| ==> |env.normalize(v)| == |v|)
    && forall t: nat :: InputsOk(env.setup, t, env.inputs(t)) &&
                        (t > MaxLag(env) ==> ChosenOk(env.setup, env.inputs(t).action))
  }

  function MaxLag(env: Env): nat
    requires Observation.AllowedLags(env.lags)
  {
    Observation.MaxLag(env.lags)
  }

  /** Every period before t has been cleared. */
  function HistoryAt(env: Env, t: nat): Observation.History {
    map p: int | 1 <= p < t :: Some(Finite(env.ptf(p)))
  }

  function ObservedAt(env: Env, t: nat): Result<Observation.Observed, Error> {
    Observation.ObservationOf(t, Finite(env.demand(t)), HistoryAt(env, t), env.lags)
  }

  function ObsAt(env: Env, t: nat): Option<Vec> {
    var o := ObservedAt(env, t);
    if o.Ok? then AgentStep.Normalised(o.value, env.normalize) else None
  }

  lemma ObsFrom(env: Env, t: nat)
    requires Run(env)
    ensures ObsAt(env, t).Some? <==> t > MaxLag(env)
    ensures ObsOk(env.setup, ObsAt(env, t))
    ensures t >= 1 ==> ObservedAt(env, t).Ok?
  {
    if t >= 1 {
      var ptf := HistoryAt(env, t);
      forall p: int | 1 <= p < t
        ensures Observation.KnownFinite(ptf, p)
      {
      }
      Observation.CompleteFrom(t, Finite(env.demand(t)), ptf, env.lags);
    }
  }

  function Initial(setup: Setup): AgentState {
    AgentState(Fresh().(frozen := setup.evaluateOnly), None, FailStack.Zeros(setup.plants))
  }

  /** The state in which step t begins: at the start of the evaluation window every policy is frozen. */
  function Entering(env: Env, t: nat): AgentState
    requires t >= 1
    decreases t, 0
  {
    var s := StateAt(env, t - 1);
    if t == env.setup.evaluationStart then s.(policy := s.policy.(frozen := true)) else s
  }

  function StepAt(env: Env, t: nat): Result<(AgentState, StepOut), Error>
    requires t >= 1
    decreases t, 1
  {
    StepOf(env.setup, Entering(env, t), t, ObsAt(env, t), AgentStep.PtfOf(HistoryAt(env, t), t - 1), env.inputs(t))
  }

  /** The state after the steps 1 .. t; a run ends at the first step that raises. */
  function StateAt(env: Env, t: nat): AgentState
    decreases t, 2
  {
    if t == 0 then Initial(env.setup)
    else if StepAt(env, t).Ok? then StepAt(env, t).value.0 else Entering(env, t)
  }

  predicate StoresAt(env: Env, t: nat)
    requires t >= 1
  {
    Stores(env.setup, Entering(env, t), t, ObsAt(env, t))
  }

  /** The transition that joins the decision of period t - 1 with its outcome. */
  function TransitionAt(env: Env, t: nat): Step
    requires t >= 1 && StoresAt(env, t)
  {
    TransitionFrom(Entering(env, t).prev.value, env.inputs(t).reward, ObsAt(env, t).value)
  }

  /** The transitions handed to policy.observe in the steps 1 .. t. */
  function Seen(env: Env, t: nat): Transitions
    decreases t
  {
    if t == 0 then []
    else if StoresAt(env, t) && TransitionAt(env, t).Valid() then Seen(env, t - 1) + [TransitionAt(env, t)]
    else Seen(env, t - 1)
  }

  predicate FrozenAt(env: Env, t: nat) {
    env.setup.evaluateOnly || env.setup.evaluationStart <= t
  }

  ghost predicate RunOk(env: Env, t: nat)
  {
    var s := StateAt(env, t);
    && StateOk(env.setup, s, Seen(env, t))
    && s.policy.frozen == FrozenAt(env, t)
    && (s.prev.Some? <==> t > 0 && ObsAt(env, t).Some?)
    && (s.prev.Some? ==> s.prev.value.obs == ObsAt(env, t).value)
  }

  /** What step t does to a run that is in order. */
  ghost predicate StepSound(env: Env, t: nat)
    requires t >= 1
  {
    && StepAt(env, t).Ok?
    && StepAt(env, t).value.1.updated == (StoresAt(env, t) && Due(env.setup.algorithm.config, |Seen(env, t)|))
  }

  lemma InitialOk(env: Env)
    requires Run(env)
    ensures RunOk(env, 0)
  {
    if env.setup.algorithm.Learner? {
      var c := env.setup.algorithm.config;
      if c.kind.OnPolicy? {
        ModUnique(0, c.kind.rolloutLength, 0, 0);
        assert LastN(RecordedOf([]), RolloutSize(c, 0)) == [];
      } else {
        assert LastN(StoredOf([]), c.bufferSize) == [];
      }
    }
  }

  lemma StepKeepsRunOk(env: Env, t: nat)
    requires Run(env) && t >= 1 && RunOk(env, t - 1)
    ensures RunOk(env, t) && StepSound(env, t)
  {
    var setup, e, obs, i, ts := env.setup, Entering(env, t), ObsAt(env, t), env.inputs(t), Seen(env, t - 1);
    ObsFrom(env, t);
    EnteringOk(env, t);
    assert Seen(env, t) == SeenNext(setup, e, t, obs, i.reward, ts);
    StepOfSound(setup, e, t, obs, AgentStep.PtfOf(HistoryAt(env, t), t - 1), i, ts);
  }

  lemma EnteringOk(env: Env, t: nat)
    requires Run(env) && t >= 1 && RunOk(env, t - 1)
    ensures StateOk(env.setup, Entering(env, t), Seen(env, t - 1))
    ensures Entering(env, t).policy.frozen == FrozenAt(env, t)
  {
  }

  /** No step of a run raises, so no rollout buffer is ever full when a transition arrives. */
  lemma {:induction false} RunNeverFails(env: Env, t: nat)
    requires Run(env)
    ensures RunOk(env, t)
    ensures t >= 1 ==> StepSound(env, t)
  {
    if t == 0 {
      InitialOk(env);
    } else {
      RunNeverFails(env, t - 1);
      StepKeepsRunOk(env, t);
    }
  }

  /** What the steps 1 .. t return. */
  function OutsUpTo(env: Env, t: nat): seq<StepOut>
    decreases t
  {
    if t == 0 then []
    else OutsUpTo(env, t - 1) + if StepAt(env, t).Ok? then [StepAt(env, t).value.1] else []
  }

  lemma StepReady(env: Env, t: nat)
    requires Run(env) && t >= 1
    ensures StepAt(env, t).Ok? && ObservedAt(env, t).Ok?
    ensures OutsUpTo(env, t) == OutsUpTo(env, t - 1) + [StepAt(env, t).value.1]
  {
    RunNeverFails(env, t);
    ObsFrom(env, t);
  }

  /** The periods of a run, on the runtime state of the agent. */
  method Simulate(env: Env, periods: nat, generator: AgentStep.Generator, value: Vec -> real)
    returns (rt: AgentStep.Runtime, outs: seq<StepOut>)
    requires Run(env) && AgentStep.GeneratorOk(env.setup.algorithm, generator)
    ensures rt.Valid() && fresh(rt.Repr) && rt.State() == StateAt(env, periods) && outs == OutsUpTo(env, periods)
  {
    hide StepAt, ObservedAt;
    rt := new AgentStep.Runtime(env.setup);
    outs := [];
    for t := 1 to periods + 1
      invariant rt.Valid() && fresh(rt.Repr) && rt.setup == env.setup && rt.State() == StateAt(env, t - 1)
      invariant outs == OutsUpTo(env, t - 1)
    {
      StepReady(env, t);
      var out := OnePeriod(env, rt, t, generator, value);
      outs := outs + [out];
    }
  }

  method OnePeriod(env: Env, rt: AgentStep.Runtime, t: nat, generator: AgentStep.Generator, value: Vec -> real)
    returns (out: StepOut)
    requires Run(env) && AgentStep.GeneratorOk(env.setup.algorithm, generator)
    requires t >= 1 && StepAt(env, t).Ok? && ObservedAt(env, t).Ok?
    requires rt.Valid() && rt.setup == env.setup && rt.State() == StateAt(env, t - 1)
    modifies rt.Repr
    ensures rt.Valid() && rt.State() == StateAt(env, t) && out == StepAt(env, t).value.1
  {
    hide StepOf;
    if t == env.setup.evaluationStart {
      rt.SetFrozen(true);
    }
    var r := rt.Step(t, Finite(env.demand(t)), HistoryAt(env, t), env.lags, env.normalize, env.inputs(t), generator, value);
    out := r.value;
  }

  // ---------------------------------------------------------------- what has been observed

  /** The run trains a learner in period t. */
  predicate Trains(env: Env, t: nat) {
    env.setup.Training(t) && env.setup.algorithm.Learner?
  }

  lemma StoresWhen(env: Env, t: nat)
    requires Run(env) && t >= 1
    ensures StoresAt(env, t) <==> Trains(env, t) && t >= MaxLag(env) + 2
  {
    hide ObsAt, StepOf;
    RunNeverFails(env, t - 1);
    ObsFrom(env, t - 1);
    ObsFrom(env, t);
  }

  lemma TransitionIs(env: Env, t: nat)
    requires Run(env) && t >= 1 && StoresAt(env, t)
    ensures TransitionAt(env, t).Valid() && ObsAt(env, t - 1).Some?
    ensures TransitionAt(env, t).obs == ObsAt(env, t - 1).value
    ensures TransitionAt(env, t).nextObs == ObsAt(env, t).value
    ensures TransitionAt(env, t).reward == env.inputs(t).reward
  {
    RunNeverFails(env, t - 1);
    ObsFrom(env, t - 1);
    ObsFrom(env, t);
  }

  lemma StepRemembers(setup: Setup, s: AgentState, t: int, obs: Option<Vec>, ptf: Option<real>, i: Inputs)
    requires obs.Some? && StepOf(setup, s, t, obs, ptf, i).Ok?
    ensures var r := StepOf(setup, s, t, obs, ptf, i).value;
            r.0.prev == Some(Pending(obs.value, i.action, ActionsOf(setup, r.1.prices), AnyOf(r.1.intervened)))
  {
  }

  /**
   The transition observed in period t carries the action of the prices that step t - 1 submitted, replaced ones
   included, and the statistics of the action that the policy chose then.
   */
  lemma StoredDecision(env: Env, t: nat)
    requires Run(env) && t >= 1 && StoresAt(env, t)
    ensures t >= 2 && StepAt(env, t - 1).Ok?
    ensures var x, out, chosen := TransitionAt(env, t), StepAt(env, t - 1).value.1, env.inputs(t - 1).action;
            && x.action == ActionsOf(env.setup, out.prices) && x.intervened == AnyOf(out.intervened)
            && x.logProb == chosen.logProb && x.value == chosen.value && x.preSquash == chosen.preSquash
  {
    hide StepOf, ObsAt;
    StoresWhen(env, t);
    RunNeverFails(env, t - 1);
    ObsFrom(env, t - 1);
    StepRemembers(env.setup, Entering(env, t - 1), t - 1, ObsAt(env, t - 1),
                  AgentStep.PtfOf(HistoryAt(env, t - 1), t - 2), env.inputs(t - 1));
  }

  /** Whole-cent bounds, and a known price in whole cents if the fail-stack rule subtracts nothing from it. */
  predicate WholeMarket(setup: Setup, ptf: Option<real>) {
    && ActionSpace.WholeCents(setup.low) && ActionSpace.WholeCents(setup.high)
    && (setup.failstack.Some? && setup.failstack.value.delta == 0.0 && ptf.Some? ==> ActionSpace.WholeCents(ptf.value))
  }

  /** In such a market a step submits whole-cent prices in the bounds. */
  lemma StepPricesAreWhole(setup: Setup, s: AgentState, t: int, obs: Option<Vec>, ptf: Option<real>, i: Inputs, k: nat)
    requires StepOf(setup, s, t, obs, ptf, i).Ok? && WholeMarket(setup, ptf)
    requires k < |StepOf(setup, s, t, obs, ptf, i).value.1.prices|
    ensures var p := StepOf(setup, s, t, obs, ptf, i).value.1.prices[k];
            setup.low <= p <= setup.high && ActionSpace.WholeCents(p)
  {
    hide ActionSpace.WholeCents, FailStack.InterventionPrice, ActionSpace.PriceOf;
    var c, prices := Settle(setup, s, t, obs, i).value.0.counters, PricesOf(setup, i.action.u);
    assert Intervened(setup, c, t, prices, ptf, i.random).Ok?;
    ActionSpace.PriceIsWhole(i.action.u[k], setup.low, setup.high);
    ActionSpace.PriceIsClose(i.action.u[k], setup.low, setup.high);
    if Acts(setup, t) && ptf.Some? {
      var params := setup.failstack.value;
      var u := i.random(FailStack.DrawsTaken(c, params, ptf.value, setup.low, k));
      FailStack.InterventionIsWhole(ptf.value, params.delta, setup.low, setup.high, u);
      FailStack.InterventionUndercuts(ptf.value, params.delta, setup.low, setup.high, u);
    }
  }

  /** In such a market the stored action gives back exactly the prices that were submitted. */
  lemma StoredActionIsSubmitted(env: Env, t: nat)
    requires Run(env) && t >= 1 && StoresAt(env, t)
    requires WholeMarket(env.setup, if t > 2 then Some(env.ptf(t - 2)) else None)
    ensures StepAt(env, t - 1).Ok? && PricesOf(env.setup, TransitionAt(env, t).action) == StepAt(env, t - 1).value.1.prices
  {
    hide StepOf, ObsAt, StateAt, StoresAt, TransitionAt, ActionSpace.ActionOf, ActionSpace.PriceOf;
    StoredDecision(env, t);
    KnownPrice(env, t - 1);
    var prices := StepAt(env, t - 1).value.1.prices;
    forall k | 0 <= k < |prices|
      ensures ActionSpace.PriceOf(ActionsOf(env.setup, prices)[k], env.setup.low, env.setup.high) == prices[k]
    {
      StepPricesAreWhole(env.setup, Entering(env, t - 1), t - 1, ObsAt(env, t - 1),
                         AgentStep.PtfOf(HistoryAt(env, t - 1), t - 2), env.inputs(t - 1), k);
      ActionSpace.WholePriceReturns(prices[k], env.setup.low, env.setup.high);
    }
  }

  /** The number of transitions after step t: the training periods since the second complete observation. */
  function SeenCount(env: Env, t: nat): nat
    requires Observation.AllowedLags(env.lags)
  {
    var last := if t < env.setup.evaluationStart then t else env.setup.evaluationStart - 1;
    if env.setup.algorithm.Baseline? || env.setup.evaluateOnly || last < MaxLag(env) + 1 then 0
    else last - MaxLag(env) - 1
  }

  /** A learner in training has observed exactly max(0, t - maxlag - 1) transitions after step t. */
  lemma {:induction false} ObservedCount(env: Env, t: nat)
    requires Run(env)
    ensures |Seen(env, t)| == SeenCount(env, t)
    ensures Trains(env, t) ==> |Seen(env, t)| == if t < MaxLag(env) + 1 then 0 else t - MaxLag(env) - 1
  {
    hide StateAt, StepAt, StoresAt, TransitionAt, ObsAt;
    if t >= 1 {
      ObservedCount(env, t - 1);
      StoresWhen(env, t);
      if StoresAt(env, t) {
        TransitionIs(env, t);
      }
    }
  }

  lemma SeenStep(env: Env, t: nat)
    requires Run(env) && t >= 1
    ensures StoresAt(env, t) ==>
              && TransitionAt(env, t).Valid() && t == MaxLag(env) + 2 + |Seen(env, t - 1)|
              && Seen(env, t) == Seen(env, t - 1) + [TransitionAt(env, t)]
    ensures !StoresAt(env, t) ==> Seen(env, t) == Seen(env, t - 1)
  {
    hide StateAt, StepAt, StoresAt, TransitionAt, ObsAt;
    ObservedCount(env, t - 1);
    StoresWhen(env, t);
    if StoresAt(env, t) {
      TransitionIs(env, t);
    }
  }

  /** This is the transition observed in period p. */
  predicate FromPeriod(env: Env, x: Step, p: int)
  {
    p >= 1 && StoresAt(env, p) && x == TransitionAt(env, p)
  }

  lemma IsFromPeriod(env: Env, t: nat)
    requires t >= 1 && StoresAt(env, t)
    ensures FromPeriod(env, TransitionAt(env, t), t)
  {
  }

  /**
   They are the transitions of consecutive periods, from the first pair of complete observations on, and each carries
   the action of the prices submitted one period before.
   */
  lemma {:induction false} ObservedTransitions(env: Env, t: nat, i: nat)
    requires Run(env) && i < |Seen(env, t)|
    ensures FromPeriod(env, Seen(env, t)[i], MaxLag(env) + 2 + i)
    ensures var step := StepAt(env, MaxLag(env) + 1 + i);
            step.Ok? && Seen(env, t)[i].action == ActionsOf(env.setup, step.value.1.prices)
  {
    hide StateAt, StepAt, StoresAt, TransitionAt, ObsAt;
    SeenStep(env, t);
    if i < |Seen(env, t - 1)| {
      ObservedTransitions(env, t - 1, i);
    } else {
      IsFromPeriod(env, t);
      StoredDecision(env, t);
    }
  }

  /** The next observation of a transition is the observation of the following one. */
  lemma ObservedChain(env: Env, t: nat, i: nat)
    requires Run(env) && i + 1 < |Seen(env, t)|
    ensures Seen(env, t)[i].nextObs == Seen(env, t)[i + 1].obs
  {
    ObservedTransitions(env, t, i);
    ObservedTransitions(env, t, i + 1);
    TransitionIs(env, MaxLag(env) + 2 + i);
    TransitionIs(env, MaxLag(env) + 3 + i);
  }

  // ---------------------------------------------------------------- when the policy updates

  predicate UpdatesAt(env: Env, t: nat)
    requires t >= 1
  {
    StepAt(env, t).Ok? && StepAt(env, t).value.1.updated
  }

  /** Every update of a run: in training, once as many transitions are observed as the schedule asks for. */
  lemma UpdateSchedule(env: Env, t: nat)
    requires Run(env) && t >= 1
    ensures UpdatesAt(env, t) <==>
            Trains(env, t) && t >= MaxLag(env) + 2 && Due(env.setup.algorithm.config, t - MaxLag(env) - 1)
  {
    RunNeverFails(env, t);
    StoresWhen(env, t);
    ObservedCount(env, t);
  }

  /** The first update falls in the period that first_learning_period gives, if training lasts that long. */
  lemma FirstUpdate(env: Env, t: nat)
    requires Run(env) && t >= 1 && env.setup.algorithm.Learner?
    requires var c := env.setup.algorithm.config;
             c.LearningStartsLimit().Some? ==> c.learningStarts <= c.LearningStartsLimit().value
    ensures var first := FirstLearningPeriod(MaxLag(env), env.setup.algorithm.config.FirstUpdateTransitions());
            && (t < first ==> !UpdatesAt(env, t))
            && (t == first ==> (UpdatesAt(env, t) <==> Trains(env, t)))
  {
    UpdateSchedule(env, t);
    var c := env.setup.algorithm.config;
    if c.kind.OnPolicy? {
      ModUnique(0, c.kind.rolloutLength, 0, 0);
    }
  }

  /** From then on a replay learner updates in every training period, PPO in every rollout_length-th. */
  lemma LaterUpdates(env: Env, t: nat)
    requires Run(env) && env.setup.algorithm.Learner? && Trains(env, t)
    requires t >= FirstLearningPeriod(MaxLag(env), env.setup.algorithm.config.FirstUpdateTransitions())
    ensures var c := env.setup.algorithm.config;
            var first := FirstLearningPeriod(MaxLag(env), c.FirstUpdateTransitions());
            UpdatesAt(env, t) <==>
            if c.kind.OnPolicy? then (t - first) % c.kind.rolloutLength == 0 else c.learningStarts <= c.bufferSize
  {
    UpdateSchedule(env, t);
  }

  /** A replay-buffer learner whose learning_starts exceeds its buffer never updates. */
  lemma NeverUpdatesIff(env: Env)
    requires Run(env) && env.setup.algorithm.Learner? && !env.setup.algorithm.config.kind.OnPolicy?
    requires Trains(env, FirstLearningPeriod(MaxLag(env), env.setup.algorithm.config.FirstUpdateTransitions()))
    ensures (forall t: nat :: t >= 1 ==> !UpdatesAt(env, t)) <==>
            env.setup.algorithm.config.learningStarts > env.setup.algorithm.config.bufferSize
  {
    forall t: nat | t >= 1
      ensures UpdatesAt(env, t) <==>
              Trains(env, t) && t >= MaxLag(env) + 2 && Due(env.setup.algorithm.config, t - MaxLag(env) - 1)
    {
      UpdateSchedule(env, t);
    }
    var first := FirstLearningPeriod(MaxLag(env), env.setup.algorithm.config.FirstUpdateTransitions());
    assert Due(env.setup.algorithm.config, first - MaxLag(env) - 1) <==>
           env.setup.algorithm.config.learningStarts <= env.setup.algorithm.config.bufferSize;
  }

  /** All learners of a run that share a learning start make their first update in the same period. */
  lemma CommonStart(env: Env, c: AlgorithmConfig, start: nat)
    requires Run(env) && Reachable(c, start)
    requires WithStart(c, start).Valid() && env.setup.algorithm == Learner(WithStart(c, start))
    ensures var first := FirstLearningPeriod(MaxLag(env), start);
            && (forall t: nat :: 1 <= t < first ==> !UpdatesAt(env, t))
            && (UpdatesAt(env, first) <==> Trains(env, first))
  {
    var first := FirstLearningPeriod(MaxLag(env), start);
    assert env.setup.algorithm.config.FirstUpdateTransitions() == start;
    forall t: nat | 1 <= t < first
      ensures !UpdatesAt(env, t)
    {
      FirstUpdate(env, t);
    }
    FirstUpdate(env, first);
  }

  /** A rollout buffer after step t: the transitions since the last update, always fewer than a full rollout. */
  lemma RolloutIsUnfinished(env: Env, t: nat)
    requires Run(env) && env.setup.algorithm.Learner? && env.setup.algorithm.config.kind.OnPolicy?
    ensures var c, p, ts := env.setup.algorithm.config, StateAt(env, t).policy, Seen(env, t);
            && p.seen == |ts| && HaveStatistics(ts)
            && p.rolled == LastN(RecordedOf(ts), RolloutSize(c, |ts|))
            && |p.rolled| < c.kind.rolloutLength
  {
    RunNeverFails(env, t);
  }

  // ---------------------------------------------------------------- windows of the replay buffer

  predicate OffPolicy(env: Env) {
    env.setup.algorithm.Learner? && !env.setup.algorithm.config.kind.OnPolicy?
  }

  function StoredAt(env: Env, t: nat): seq<ReplayBuffer.Stored>
  {
    StateAt(env, t).policy.stored
  }

  /** The buffer of an off-policy learner after step t: the last transitions of the run, at most its capacity. */
  lemma BufferIsRecentPast(env: Env, t: nat)
    requires Run(env) && OffPolicy(env)
    ensures StoredAt(env, t) == LastN(StoredOf(Seen(env, t)), env.setup.algorithm.config.bufferSize)
    ensures |StoredAt(env, t)| <= |Seen(env, t)|
  {
    RunNeverFails(env, t);
  }

  /** The number of transitions that the buffer has forgotten. */
  function Forgotten(env: Env, t: nat): int
  {
    |Seen(env, t)| - |StoredAt(env, t)|
  }

  predicate RowFromPeriod(env: Env, x: ReplayBuffer.Stored, p: int)
  {
    p >= 1 && StoresAt(env, p) && TransitionAt(env, p).Valid() && x == ReplayBuffer.Kept(TransitionAt(env, p))
  }

  lemma LastRow(ts: Transitions, stored: seq<ReplayBuffer.Stored>, capacity: nat, i: nat)
    requires stored == LastN(StoredOf(ts), capacity) && i < |stored|
    ensures |stored| <= |ts| && stored[i] == ReplayBuffer.Kept(ts[|ts| - |stored| + i])
  {
  }

  /** Row i of the buffer comes from a known period. */
  lemma RowPeriod(env: Env, t: nat, i: nat)
    requires Run(env) && OffPolicy(env) && i < |StoredAt(env, t)|
    ensures RowFromPeriod(env, StoredAt(env, t)[i], MaxLag(env) + 2 + Forgotten(env, t) + i)
  {
    hide StateAt, StepAt, StoresAt, TransitionAt, ObsAt;
    BufferIsRecentPast(env, t);
    var ts, stored := Seen(env, t), StoredAt(env, t);
    LastRow(ts, stored, env.setup.algorithm.config.bufferSize, i);
    ObservedTransitions(env, t, |ts| - |stored| + i);
  }

  /** Row i leads to row i + 1. */
  lemma RowChain(env: Env, t: nat, i: nat)
    requires Run(env) && OffPolicy(env) && i + 1 < |StoredAt(env, t)|
    ensures StoredAt(env, t)[i].nextObs == StoredAt(env, t)[i + 1].obs
  {
    hide StateAt, StepAt, StoresAt, TransitionAt, ObsAt;
    BufferIsRecentPast(env, t);
    var ts, stored := Seen(env, t), StoredAt(env, t);
    LastRow(ts, stored, env.setup.algorithm.config.bufferSize, i);
    LastRow(ts, stored, env.setup.algorithm.config.bufferSize, i + 1);
    ObservedChain(env, t, |ts| - |stored| + i);
  }

  /**
   Every window of the buffer is a true piece of the run: transitions of consecutive periods, each one's next
   observation being the following one's observation.
   */
  lemma WindowIsPieceOfRun(env: Env, t: nat, start: nat, w: seq<ReplayBuffer.Stored>)
    requires Run(env) && OffPolicy(env)
    requires start + |w| <= |StoredAt(env, t)| && w == StoredAt(env, t)[start..start + |w|]
    ensures forall j :: 0 <= j < |w| ==> RowFromPeriod(env, w[j], MaxLag(env) + 2 + Forgotten(env, t) + start + j)
    ensures forall j :: 0 <= j < |w| - 1 ==> w[j].nextObs == w[j + 1].obs
  {
    hide StateAt, StepAt, StoresAt, TransitionAt, ObsAt;
    var stored, first := StoredAt(env, t), MaxLag(env) + 2 + Forgotten(env, t) + start;
    forall j | 0 <= j < |w|
      ensures RowFromPeriod(env, w[j], first + j)
    {
      RowPeriod(env, t, start + j);
      assert w[j] == stored[start + j];
    }
    forall j | 0 <= j < |w| - 1
      ensures w[j].nextObs == w[j + 1].obs
    {
      RowChain(env, t, start + j);
      assert w[j] == stored[start + j] && w[j + 1] == stored[start + j + 1];
    }
  }

  /**
   The critic's targets run over the observations of a window extended by its last next observation: position k + 1 of
   that sequence is what followed step k of the window.
   */
  lemma TargetsFollowTheWindow(env: Env, t: nat, start: nat, w: seq<ReplayBuffer.Stored>)
    requires Run(env) && OffPolicy(env) && w != []
    requires start + |w| <= |StoredAt(env, t)| && w == StoredAt(env, t)[start..start + |w|]
    ensures forall k :: 0 <= k < |w| ==> ExtendedObs(w)[k] == w[k].obs && ExtendedObs(w)[k + 1] == w[k].nextObs
  {
    hide StateAt, StepAt, StoresAt, TransitionAt, ObsAt, RowFromPeriod;
    WindowIsPieceOfRun(env, t, start, w);
  }

  // ---------------------------------------------------------------- the acting window of a recurrent policy

  predicate RecurrentRun(env: Env) {
    env.setup.algorithm.Learner? && env.setup.algorithm.config.kind.Recurrent?
  }

  /** The complete observations of the periods up to t. */
  function ObsUpTo(env: Env, t: nat): seq<Vec> {
    if t == 0 then [] else ObsUpTo(env, t - 1) + if ObsAt(env, t).Some? then [ObsAt(env, t).value] else []
  }

  /** A step whose query is the first one of its period. */
  lemma StepHistory(setup: Setup, s: AgentState, t: int, obs: Option<Vec>, ptf: Option<real>, i: Inputs)
    requires setup.Valid() && setup.algorithm.Learner? && setup.algorithm.config.kind.Recurrent?
    requires !s.policy.open && StepOf(setup, s, t, obs, ptf, i).Ok?
    ensures var p := StepOf(setup, s, t, obs, ptf, i).value.0.policy;
            && !p.open
            && p.history == if obs.Some? then LastN(s.policy.history + [obs.value], setup.algorithm.config.kind.seqLen)
                            else s.policy.history
  {
  }

  lemma WindowStep(env: Env, t: nat)
    requires Run(env) && RecurrentRun(env) && t >= 1 && !StateAt(env, t - 1).policy.open
    ensures !StateAt(env, t).policy.open
    ensures StateAt(env, t).policy.history
         == if ObsAt(env, t).Some? then
              LastN(StateAt(env, t - 1).policy.history + [ObsAt(env, t).value], env.setup.algorithm.config.kind.seqLen)
            else StateAt(env, t - 1).policy.history
  {
    hide StepOf, ObsAt;
    RunNeverFails(env, t);
    StepHistory(env.setup, Entering(env, t), t, ObsAt(env, t), AgentStep.PtfOf(HistoryAt(env, t), t - 1), env.inputs(t));
  }

  /** After every step, in training or not, the window holds the last seq_len observations of the run. */
  lemma {:induction false} HistoryIsRecentPast(env: Env, t: nat)
    requires Run(env) && RecurrentRun(env)
    ensures !StateAt(env, t).policy.open
    ensures StateAt(env, t).policy.history == LastN(ObsUpTo(env, t), env.setup.algorithm.config.kind.seqLen)
  {
    hide StepAt, ObsAt;
    if t >= 1 {
      HistoryIsRecentPast(env, t - 1);
      WindowStep(env, t);
      if ObsAt(env, t).Some? {
        LastNAppend(ObsUpTo(env, t - 1), ObsAt(env, t).value, env.setup.algorithm.config.kind.seqLen);
      }
    }
  }

  /** The observations of a stored sequence, extended by its final next observation. */
  function ExtendedObs(stored: seq<ReplayBuffer.Stored>): seq<Vec>
    requires stored != []
  {
    seq(|stored|, k requires 0 <= k < |stored| => stored[k].obs) + [stored[|stored| - 1].nextObs]
  }

  lemma {:induction false} ObsUpToIs(env: Env, t: nat, p: nat)
    requires Run(env)
    ensures |ObsUpTo(env, t)| == if t <= MaxLag(env) then 0 else t - MaxLag(env)
    ensures MaxLag(env) < p <= t ==>
              ObsAt(env, p).Some? && ObsUpTo(env, t)[p - MaxLag(env) - 1] == ObsAt(env, p).value
  {
    hide ObsAt;
    ObsFrom(env, t);
    if t >= 1 {
      ObsUpToIs(env, t - 1, if p < t then p else 0);
    }
  }

  lemma LastNTwice<T>(s: seq<T>, a: nat, b: nat)
    requires b <= a
    ensures LastN(LastN(s, a), b) == LastN(s, b)
  {
  }

  /** The observations that the buffer holds are the most recent ones of the run. */
  lemma BufferObs(env: Env, t: nat, k: nat)
    requires Run(env) && OffPolicy(env) && Trains(env, t) && StoredAt(env, t) != [] && k <= |StoredAt(env, t)|
    ensures |ObsUpTo(env, t)| == |Seen(env, t)| + 1 && |StoredAt(env, t)| <= |Seen(env, t)|
    ensures ExtendedObs(StoredAt(env, t))[k] == ObsUpTo(env, t)[|ObsUpTo(env, t)| - |StoredAt(env, t)| - 1 + k]
  {
    hide StateAt, StepAt, StoresAt, TransitionAt, ObsAt;
    BufferIsRecentPast(env, t);
    ObservedCount(env, t);
    var row := if k < |StoredAt(env, t)| then k else k - 1;
    var p := MaxLag(env) + 2 + Forgotten(env, t) + row;
    RowPeriod(env, t, row);
    TransitionIs(env, p);
    ObsUpToIs(env, t, if k < |StoredAt(env, t)| then p - 1 else p);
  }

  lemma ExtendedIsSuffix(env: Env, t: nat)
    requires Run(env) && OffPolicy(env) && Trains(env, t) && StoredAt(env, t) != []
    ensures ExtendedObs(StoredAt(env, t)) == LastN(ObsUpTo(env, t), |StoredAt(env, t)| + 1)
  {
    hide StateAt, StepAt, StoresAt, TransitionAt, ObsAt, ObsUpTo, Seen;
    var all, stored := ObsUpTo(env, t), StoredAt(env, t);
    BufferObs(env, t, 0);
    forall k | 0 <= k <= |stored|
      ensures ExtendedObs(stored)[k] == LastN(all, |stored| + 1)[k]
    {
      BufferObs(env, t, k);
    }
  }

  /**
   Acting and learning see the same trajectory: in training, once a transition is stored, the acting window is the
   last min(seq_len, available) observations of the buffer extended by its final next observation.
   */
  lemma HistoryMatchesBuffer(env: Env, t: nat)
    requires Run(env) && RecurrentRun(env) && Trains(env, t) && StoredAt(env, t) != []
    ensures StateAt(env, t).policy.history
         == LastN(ExtendedObs(StoredAt(env, t)), env.setup.algorithm.config.kind.seqLen)
  {
    hide StateAt, StepAt, StoresAt, TransitionAt, ObsAt, ObsUpTo, Seen;
    var c, n := env.setup.algorithm.config, |StoredAt(env, t)|;
    HistoryIsRecentPast(env, t);
    BufferIsRecentPast(env, t);
    BufferObs(env, t, 0);
    ExtendedIsSuffix(env, t);
    assert n == c.bufferSize || n == |Seen(env, t)|;
    if c.kind.seqLen <= n + 1 {
      LastNTwice(ObsUpTo(env, t), n + 1, c.kind.seqLen);
    }
  }

  // ---------------------------------------------------------------- the fail-stack rule over a run

  predicate Guarded(env: Env) { env.setup.failstack.Some? }

  function Limit(env: Env): nat
    requires Guarded(env)
  {
    env.setup.failstack.value.limit
  }

  /** What step t does to the counters: count the outcomes of t - 1, then intervene if a price is known. */
  function EventsOf(env: Env, t: nat): seq<FailStack.Event> {
    if t == 0 || !env.setup.Training(t) then []
    else if t == 1 then [FailStack.Decide(false)]
    else [FailStack.Update(env.inputs(t).failures), FailStack.Decide(true)]
  }

  function EventsUpTo(env: Env, t: nat): seq<FailStack.Event> {
    if t == 0 then [] else EventsUpTo(env, t - 1) + EventsOf(env, t)
  }

  lemma {:induction false} EventsFit(env: Env, t: nat)
    requires Run(env)
    ensures FailStack.AllFit(EventsUpTo(env, t), env.setup.plants)
  {
    if t >= 1 {
      EventsFit(env, t - 1);
      assert InputsOk(env.setup, t, env.inputs(t));
    }
  }

  /** The periods trained so far. */
  function TrainedPeriods(env: Env, t: nat): nat {
    if env.setup.evaluateOnly then 0
    else if t < env.setup.evaluationStart then t
    else if env.setup.evaluationStart >= 1 then env.setup.evaluationStart - 1 else 0
  }

  /** Step t replaces the price of plant i. */
  predicate ReplacesAt(env: Env, t: nat, i: nat)
    requires t >= 1
  {
    StepAt(env, t).Ok? && i < |StepAt(env, t).value.1.intervened| && StepAt(env, t).value.1.intervened[i]
  }

  /** How many prices of plant i the steps 1 .. t have replaced. */
  function Replaced(env: Env, t: nat, i: nat): nat
    decreases t
  {
    if t == 0 then 0 else Replaced(env, t - 1, i) + if ReplacesAt(env, t, i) then 1 else 0
  }

  /** The counters and the flags that one step gives. */
  lemma StepCounters(setup: Setup, s: AgentState, t: int, obs: Option<Vec>, ptf: Option<real>, i: Inputs)
    requires setup.Valid() && setup.failstack.Some? && StepOf(setup, s, t, obs, ptf, i).Ok?
    requires InputsOk(setup, t, i) && |s.counters| == setup.plants
    ensures var r, limit := StepOf(setup, s, t, obs, ptf, i).value, setup.failstack.value.limit;
            if !setup.Training(t) then
              r.0.counters == s.counters && r.1.intervened == seq(setup.plants, k => false)
            else
              var c := if t <= 1 then s.counters else FailStack.Bump(s.counters, i.failures);
              && r.0.counters == FailStack.Released(c, limit, ptf.Some?)
              && r.1.intervened == FailStack.Flags(c, limit, ptf.Some?)
  {
  }

  /** What one period adds to the rule's own history. */
  lemma PeriodEvents(n: nat, limit: nat, es: seq<FailStack.Event>, failures: seq<bool>, i: nat)
    requires FailStack.AllFit(es, n) && |failures| == n && i < n
    ensures var c := FailStack.Bump(FailStack.CountersAfter(n, limit, es), failures);
            var es' := es + [FailStack.Update(failures), FailStack.Decide(true)];
            && FailStack.AllFit(es', n)
            && FailStack.CountersAfter(n, limit, es') == FailStack.Released(c, limit, true)
            && FailStack.Updates(es') == FailStack.Updates(es) + 1
            && FailStack.Interventions(n, limit, es', i)
               == FailStack.Interventions(n, limit, es, i) + if FailStack.Flags(c, limit, true)[i] then 1 else 0
  {
    var u, d := FailStack.Update(failures), FailStack.Decide(true);
    FailStack.AppendEvent(n, limit, es, u, i);
    FailStack.AppendEvent(n, limit, es + [u], d, i);
    assert es + [u] + [d] == es + [u, d];
  }

  /** The counters that the rule's own history gives after t periods. */
  function RuleCounters(env: Env, t: nat): FailStack.Counters
    requires Guarded(env) && FailStack.AllFit(EventsUpTo(env, t), env.setup.plants)
  {
    FailStack.CountersAfter(env.setup.plants, Limit(env), EventsUpTo(env, t))
  }

  /** The counters as the rule compares them with the limit in period t. */
  function Compared(env: Env, t: nat): FailStack.Counters
    requires t >= 1 && Guarded(env) && (t > 1 ==> |env.inputs(t).failures| == env.setup.plants)
    requires FailStack.AllFit(EventsUpTo(env, t - 1), env.setup.plants)
  {
    var c := RuleCounters(env, t - 1);
    if t == 1 then c else FailStack.Bump(c, env.inputs(t).failures)
  }

  /** What a period changes in the rule's history, for plant i. */
  lemma RulePeriod(env: Env, t: nat, i: nat)
    requires Run(env) && Guarded(env) && i < env.setup.plants && t >= 1
    ensures t > 1 ==> |env.inputs(t).failures| == env.setup.plants
    ensures FailStack.AllFit(EventsUpTo(env, t), env.setup.plants)
    ensures FailStack.AllFit(EventsUpTo(env, t - 1), env.setup.plants)
    ensures var n, limit, before, after := env.setup.plants, Limit(env), EventsUpTo(env, t - 1), EventsUpTo(env, t);
            var acts := env.setup.Training(t);
            && RuleCounters(env, t) == (if acts then FailStack.Released(Compared(env, t), limit, t > 1)
                                        else RuleCounters(env, t - 1))
            && FailStack.Updates(after) == FailStack.Updates(before) + (if acts && t > 1 then 1 else 0)
            && FailStack.Interventions(n, limit, after, i)
               == FailStack.Interventions(n, limit, before, i)
                + if acts && FailStack.Flags(Compared(env, t), limit, t > 1)[i] then 1 else 0
  {
    var n, limit, es := env.setup.plants, Limit(env), EventsUpTo(env, t - 1);
    assert InputsOk(env.setup, t, env.inputs(t));
    EventsFit(env, t - 1);
    EventsFit(env, t);
    if !env.setup.Training(t) {
      assert es + [] == es;
    } else if t == 1 {
      FailStack.AppendEvent(n, limit, es, FailStack.Decide(false), i);
    } else {
      PeriodEvents(n, limit, es, env.inputs(t).failures, i);
    }
  }

  /** T training periods contain T - 1 updates, and no counter is left at the limit. */
  lemma {:induction false} RuleHolds(env: Env, t: nat, i: nat)
    requires Run(env) && Guarded(env) && i < env.setup.plants
    ensures FailStack.AllFit(EventsUpTo(env, t), env.setup.plants)
    ensures FailStack.Updates(EventsUpTo(env, t)) == if TrainedPeriods(env, t) == 0 then 0 else TrainedPeriods(env, t) - 1
    ensures RuleCounters(env, t)[i] < Limit(env)
  {
    hide EventsUpTo;
    if t >= 1 {
      RuleHolds(env, t - 1, i);
      RulePeriod(env, t, i);
    } else {
      EventsFit(env, 0);
      assert EventsUpTo(env, 0) == [] by { NoEvents(env); }
    }
  }

  lemma NoEvents(env: Env)
    ensures EventsUpTo(env, 0) == []
  {
  }

  lemma KnownPrice(env: Env, t: nat)
    requires t >= 1
    ensures AgentStep.PtfOf(HistoryAt(env, t), t - 1) == if t == 1 then None else Some(env.ptf(t - 1))
  {
  }

  /** The step itself does what the rule says. */
  lemma PeriodCounters(env: Env, t: nat, i: nat)
    requires Run(env) && Guarded(env) && i < env.setup.plants && t >= 1
    requires FailStack.AllFit(EventsUpTo(env, t - 1), env.setup.plants)
    requires StateAt(env, t - 1).counters == RuleCounters(env, t - 1)
    ensures t > 1 ==> |env.inputs(t).failures| == env.setup.plants
    ensures StateAt(env, t).counters
         == if env.setup.Training(t) then FailStack.Released(Compared(env, t), Limit(env), t > 1)
            else RuleCounters(env, t - 1)
    ensures ReplacesAt(env, t, i) <==> env.setup.Training(t) && FailStack.Flags(Compared(env, t), Limit(env), t > 1)[i]
  {
    hide StepOf, ObsAt;
    RunNeverFails(env, t);
    assert InputsOk(env.setup, t, env.inputs(t));
    KnownPrice(env, t);
    StepCounters(env.setup, Entering(env, t), t, ObsAt(env, t), AgentStep.PtfOf(HistoryAt(env, t), t - 1), env.inputs(t));
  }

  /** The counters of a run are those of the rule, and below the limit after every step. */
  lemma {:induction false} CountersHold(env: Env, t: nat, i: nat)
    requires Run(env) && Guarded(env) && i < env.setup.plants
    ensures FailStack.AllFit(EventsUpTo(env, t), env.setup.plants)
    ensures StateAt(env, t).counters == RuleCounters(env, t) && RuleCounters(env, t)[i] < Limit(env)
    ensures Replaced(env, t, i) == FailStack.Interventions(env.setup.plants, Limit(env), EventsUpTo(env, t), i)
  {
    hide StepAt, ReplacesAt, Compared;
    RuleHolds(env, t, i);
    if t >= 1 {
      hide StateAt, EventsUpTo, RuleCounters, FailStack.Interventions;
      CountersHold(env, t - 1, i);
      PeriodCounters(env, t, i);
      RulePeriod(env, t, i);
    }
  }

  /** The rule's history when period t decides. */
  function EventsBefore(env: Env, t: nat): seq<FailStack.Event>
    requires t >= 1
  {
    EventsUpTo(env, t - 1) + if t == 1 then [] else [FailStack.Update(env.inputs(t).failures)]
  }

  /**
   A training period replaces a price exactly when the plant has failed in each of the last `limit` periods since its
   price was last replaced; the first period has no market price and replaces none.
   */
  lemma ReplacesExactlyWhen(env: Env, t: nat, i: nat)
    requires Run(env) && Guarded(env) && i < env.setup.plants && t >= 1 && env.setup.Training(t)
    ensures FailStack.AllFit(EventsBefore(env, t), env.setup.plants)
    ensures var f := FailStack.FailuresSince(env.setup.plants, Limit(env), EventsBefore(env, t), i);
            ReplacesAt(env, t, i) <==> t > 1 && Limit(env) <= |f| && forall j :: |f| - Limit(env) <= j < |f| ==> f[j]
  {
    hide StateAt, StepAt, ReplacesAt, EventsUpTo, FailStack.FailuresSince, FailStack.Flags;
    var n, limit, es := env.setup.plants, Limit(env), EventsUpTo(env, t - 1);
    EventsFit(env, t - 1);
    assert InputsOk(env.setup, t, env.inputs(t));
    CountersHold(env, t - 1, i);
    PeriodCounters(env, t, i);
    if t == 1 {
      assert EventsBefore(env, t) == es;
    } else {
      FailStack.AppendEvent(n, limit, es, FailStack.Update(env.inputs(t).failures), i);
    }
    FailStack.ReplacedIff(n, limit, EventsBefore(env, t), i, t > 1);
  }

  /** T training periods replace at most (T - 1) / limit prices of a plant. */
  lemma ReplacedAtMost(env: Env, t: nat, i: nat)
    requires Run(env) && Guarded(env) && i < env.setup.plants
    ensures var trained := TrainedPeriods(env, t);
            Replaced(env, t, i) <= if trained == 0 then 0 else (trained - 1) / Limit(env)
  {
    hide Replaced, StateAt, EventsUpTo, RuleCounters;
    RuleHolds(env, t, i);
    CountersHold(env, t, i);
    FailStack.InterventionsAreRare(env.setup.plants, Limit(env), EventsUpTo(env, t), i);
  }

  /** In the evaluation window and under evaluate_only no price is replaced. */
  lemma NoReplacementInEvaluation(env: Env, t: nat, i: nat)
    requires Run(env) && t >= 1 && !env.setup.Training(t)
    ensures !ReplacesAt(env, t, i)
  {
  }

  lemma StepPrice(setup: Setup, s: AgentState, t: int, obs: Option<Vec>, ptf: Option<real>, i: Inputs, k: nat)
    requires setup.Valid() && setup.failstack.Some? && StepOf(setup, s, t, obs, ptf, i).Ok?
    requires var out := StepOf(setup, s, t, obs, ptf, i).value.1; k < |out.intervened| && out.intervened[k]
    ensures var out, params := StepOf(setup, s, t, obs, ptf, i).value.1, setup.failstack.value;
            && ptf.Some? && k < |out.prices| && setup.low <= out.prices[k] <= setup.high
            && (setup.low < ptf.value && params.delta > 0.0 ==> out.prices[k] < ptf.value)
  {
    var settled := Settle(setup, s, t, obs, i).value.0;
    var c, params, prices := settled.counters, setup.failstack.value, PricesOf(setup, i.action.u);
    assert Intervened(setup, c, t, prices, ptf, i.random).Ok?;
    var u := i.random(FailStack.DrawsTaken(c, params, ptf.value, setup.low, k));
    FailStack.InterventionUndercuts(ptf.value, params.delta, setup.low, setup.high, u);
  }

  /** A replaced price is in the bounds, and undercuts PTF(t - 1) if that is above the lower bound and delta positive. */
  lemma ReplacedPrice(env: Env, t: nat, i: nat)
    requires Run(env) && Guarded(env) && t >= 1 && ReplacesAt(env, t, i)
    ensures var out, params := StepAt(env, t).value.1, env.setup.failstack.value;
            && t > 1 && i < |out.prices| && env.setup.low <= out.prices[i] <= env.setup.high
            && (env.setup.low < env.ptf(t - 1) && params.delta > 0.0 ==> out.prices[i] < env.ptf(t - 1))
  {
    StepPrice(env.setup, Entering(env, t), t, ObsAt(env, t), AgentStep.PtfOf(HistoryAt(env, t), t - 1), env.inputs(t), i);
  }

  // ---------------------------------------------------------------- what is submitted

  /** Within half a cent of the affine image of the action u, and in the bounds. */
  predicate PricesAction(setup: Setup, p: real, u: real) {
    && setup.low <= p <= setup.high
    && -0.005 <= p - (setup.low + (u + 1.0) / 2.0 * (setup.high - setup.low)) <= 0.005
  }

  lemma AffineIs(u: real, low: real, high: real)
    requires -1.0 <= u <= 1.0
    ensures ActionSpace.Affine(u, low, high) == low + (u + 1.0) / 2.0 * (high - low)
  {
  }

  lemma StepPricesActions(setup: Setup, s: AgentState, t: int, obs: Option<Vec>, ptf: Option<real>, i: Inputs, k: nat)
    requires StepOf(setup, s, t, obs, ptf, i).Ok? && InputsOk(setup, t, i) && |s.counters| == setup.plants && k < setup.plants
    ensures var out := StepOf(setup, s, t, obs, ptf, i).value.1;
            && |out.prices| == |out.intervened| == setup.plants
            && (!out.intervened[k] ==> PricesAction(setup, out.prices[k], i.action.u[k]))
  {
    hide ActionSpace.PriceOf, ActionSpace.Affine, ActionSpace.Quantize, FailStack.InterventionPrice, FailStack.DrawsTaken;
    var c, prices := Settle(setup, s, t, obs, i).value.0.counters, PricesOf(setup, i.action.u);
    var u := i.action.u[k];
    var applied := Intervened(setup, c, t, prices, ptf, i.random).value;
    assert !applied.1[k] ==> applied.0[k] == ActionSpace.PriceOf(u, setup.low, setup.high);
    ActionSpace.PriceIsClose(u, setup.low, setup.high);
    AffineIs(u, setup.low, setup.high);
  }

  /** Every plant submits the price of its own action, unless the fail-stack rule has replaced it. */
  lemma SubmittedPrice(env: Env, t: nat, k: nat)
    requires Run(env) && t >= 1 && k < env.setup.plants
    ensures StepAt(env, t).Ok? && |StepAt(env, t).value.1.prices| == env.setup.plants
    ensures !ReplacesAt(env, t, k) ==>
              |env.inputs(t).action.u| == env.setup.plants
              && PricesAction(env.setup, StepAt(env, t).value.1.prices[k], env.inputs(t).action.u[k])
  {
    hide StepOf, ObsAt, PricesAction;
    RunNeverFails(env, t - 1);
    RunNeverFails(env, t);
    assert InputsOk(env.setup, t, env.inputs(t));
    StepPricesActions(env.setup, Entering(env, t), t, ObsAt(env, t), AgentStep.PtfOf(HistoryAt(env, t), t - 1),
                      env.inputs(t), k);
  }

  /** Without the fail-stack rule, in the evaluation window and under evaluate_only, every plant does. */
  lemma OwnPrices(env: Env, t: nat)
    requires Run(env) && t >= 1 && (env.setup.failstack.None? || !env.setup.Training(t))
    ensures StepAt(env, t).Ok? && |StepAt(env, t).value.1.prices| == |env.inputs(t).action.u| == env.setup.plants
    ensures forall k :: 0 <= k < env.setup.plants ==>
              PricesAction(env.setup, StepAt(env, t).value.1.prices[k], env.inputs(t).action.u[k])
  {
    hide StepOf, ObsAt, PricesAction, StateAt;
    SubmittedPrice(env, t, 0);
    assert InputsOk(env.setup, t, env.inputs(t));
    forall k | 0 <= k < env.setup.plants
      ensures PricesAction(env.setup, StepAt(env, t).value.1.prices[k], env.inputs(t).action.u[k])
    {
      SubmittedPrice(env, t, k);
      NotActing(env, t, k);
    }
  }

  lemma NotActing(env: Env, t: nat, i: nat)
    requires Run(env) && t >= 1 && (env.setup.failstack.None? || !env.setup.Training(t))
    ensures !ReplacesAt(env, t, i)
  {
  }

  /** The step log calls a period a learning one once the buffer has what the first update needs; for PPO, at updates. */
  lemma LearningActiveWhen(env: Env, t: nat)
    requires Run(env) && t >= 1
    ensures StepAt(env, t).Ok?
    ensures StepAt(env, t).value.1.learningActive <==>
            && Trains(env, t)
            && var c := env.setup.algorithm.config;
               if c.kind.OnPolicy? then UpdatesAt(env, t)
               else |Seen(env, t)| >= c.FirstUpdateTransitions() && c.learningStarts <= c.bufferSize
  {
    hide StateAt, StepAt, Seen, Entering, ObsAt, StepOf, HasObserved, Due, RunOk;
    var obs, ptf := ObsAt(env, t), AgentStep.PtfOf(HistoryAt(env, t), t - 1);
    LearnerAfter(env, t);
    StepAtIs(env, t);
    StateAtIs(env, t);
    StepActive(env.setup, Entering(env, t), t, obs, ptf, env.inputs(t), StateAt(env, t));
    if Trains(env, t) {
      ReadyWhen(env.setup.algorithm.config, StateAt(env, t).policy, Seen(env, t));
      if UpdatesAt(env, t) && OffPolicy(env) {
        UpdateNeeds(env, t);
      }
    }
  }

  /** The learner of a run after step t. */
  lemma LearnerAfter(env: Env, t: nat)
    requires Run(env) && t >= 1
    ensures StepAt(env, t).Ok? && StateAt(env, t).policy.frozen == FrozenAt(env, t)
    ensures env.setup.algorithm.Learner? ==>
              HasObserved(env.setup.algorithm.config, StateAt(env, t).policy, Seen(env, t))
  {
    RunNeverFails(env, t);
  }

  /** An update of a replay learner has what the first update needs. */
  lemma UpdateNeeds(env: Env, t: nat)
    requires Run(env) && t >= 1 && UpdatesAt(env, t) && OffPolicy(env)
    ensures var c := env.setup.algorithm.config;
            |Seen(env, t)| >= c.FirstUpdateTransitions() && c.learningStarts <= c.bufferSize
  {
    RunNeverFails(env, t);
  }

  lemma StepAtIs(env: Env, t: nat)
    requires t >= 1
    ensures StepAt(env, t) == StepOf(env.setup, Entering(env, t), t, ObsAt(env, t),
                                     AgentStep.PtfOf(HistoryAt(env, t), t - 1), env.inputs(t))
  {
  }

  lemma StateAtIs(env: Env, t: nat)
    requires t >= 1 && StepAt(env, t).Ok?
    ensures StateAt(env, t) == StepAt(env, t).value.0
  {
  }

  /** The buffers at the end of a step are those the flag is computed from. */
  lemma StepActive(setup: Setup, s: AgentState, t: int, obs: Option<Vec>, ptf: Option<real>, i: Inputs, after: AgentState)
    requires StepOf(setup, s, t, obs, ptf, i).Ok? && after == StepOf(setup, s, t, obs, ptf, i).value.0
    ensures StepOf(setup, s, t, obs, ptf, i).value.1.learningActive <==>
            && setup.Training(t) && setup.algorithm.Learner? && !after.policy.frozen
            && (StepOf(setup, s, t, obs, ptf, i).value.1.updated || Ready(setup.algorithm.config, after.policy))
  {
  }

  /** A replay learner is ready from the first update on, PPO never between two transitions. */
  lemma ReadyWhen(c: AlgorithmConfig, p: PolicyState, ts: Transitions)
    requires HasObserved(c, p, ts)
    ensures Ready(c, p) <==>
            !c.kind.OnPolicy? && |ts| >= c.FirstUpdateTransitions() && c.learningStarts <= c.bufferSize
  {
  }
}

/** The agent step (abmem/services/agent/agent_service.py) on the mutable runtime state of one agent. */
module AgentStep {
  import opened Wrappers
  import opened Floats
  import opened Experience
  import opened PolicySpec
  import opened AgentStepSpec
  import ActionSpace
  import FailStack
  import Observation
  import Policy

  /** The generator's choices for an update on n stored transitions. */
  type Generator = nat -> seq<seq<nat>>

  ghost predicate GeneratorOk(alg: Algorithm, generator: Generator) {
    alg.Learner? ==>
      forall n: nat :: |generator(n)| == alg.config.gradientSteps &&
                       forall g :: 0 <= g < |generator(n)| ==> Policy.DrawOk(alg.config, n, generator(n)[g])
  }

  /** The normalised observation, if complete. */
  function Normalised(o: Observation.Observed, normalize: Vec -> Vec): Option<Vec> {
    if o.raw.Some? then Some(normalize(o.raw.value)) else None
  }

  function PtfOf(ptf: Observation.History, period: int): Option<real> {
    if Observation.KnownFinite(ptf, period) then Some(ptf[period].value.v) else None
  }

  class Runtime {
    const setup: Setup
    const policy: Policy.Agent
    const failstack: FailStack.FailStackState
    var prev: Option<Pending>

    ghost const Repr: set<object>

    ghost predicate Valid()
      reads this, Repr
    {
      && setup.Valid()
      && this in Repr && policy in Repr && policy.Repr <= Repr && failstack in Repr && failstack.counters in Repr
      && this !in policy.Repr && failstack !in policy.Repr && failstack.counters !in policy.Repr
      && policy.Valid() && policy.algorithm == setup.algorithm && policy.spec == setup.spec
    }

    ghost function State(): AgentState
      requires Valid()
      reads this, Repr
    {
      AgentState(policy.State(), prev, failstack.counters[..])
    }

    constructor (setup: Setup)
      requires setup.Valid()
      ensures Valid() && fresh(Repr) && this.setup == setup
      ensures State() == AgentState(Fresh().(frozen := setup.evaluateOnly), None, FailStack.Zeros(setup.plants))
    {
      this.setup := setup;
      var p := new Policy.Agent(setup.algorithm, setup.spec);
      p.SetFrozen(setup.evaluateOnly);
      var f := new FailStack.FailStackState(setup.plants);
      policy, failstack, prev := p, f, None;
      Repr := {this, f, f.counters} + p.Repr;
    }

    method SetFrozen(frozen: bool)
      requires Valid()
      modifies policy`frozen
      ensures Valid() && State() == old(State()).(policy := old(State()).policy.(frozen := frozen))
    {
      policy.SetFrozen(frozen);
    }

    method Count(t: int, failures: seq<bool>) returns (r: Result<(), Error>)
      requires Valid()
      modifies failstack.counters
      ensures Valid()
      ensures var expected := Counted(setup, old(State()), t, failures);
              && r.Ok? == expected.Ok?
              && (r.Ok? ==> State() == old(State()).(counters := expected.value))
    {
      if t <= 1 || setup.failstack.None? || !setup.Training(t) {
        return Ok(());
      }
      var counted := failstack.UpdateCounters(failures);
      return if counted.Ok? then Ok(()) else Err(ValueError);
    }

    method Learn(t: int, obs: Option<Vec>, reward: real, generator: Generator, value: Vec -> real)
      returns (r: Result<bool, Error>)
      requires Valid() && GeneratorOk(setup.algorithm, generator)
      modifies policy.Repr
      ensures Valid()
      ensures var expected := Learned(setup, old(State()), t, obs, reward);
              && r.Ok? == expected.Ok?
              && (r.Ok? ==> State() == old(State()).(policy := expected.value.0) && r.value == expected.value.1)
    {
      if t <= 1 || prev.None? || obs.None? || !setup.Training(t) || setup.algorithm.Baseline? {
        return Ok(false);
      }
      var tr := TransitionFrom(prev.value, reward, obs.value);
      if |tr.obs| != |tr.nextObs| {
        return Err(ValueError);
      }
      var _ :- policy.Observe(tr);
      var n := policy.StoredCount();
      var used :- policy.Update(generator(n), value);
      return Ok(used.Some?);
    }

    method Price(u: Vec) returns (prices: seq<real>)
      requires Valid() && InUnitBox(u)
      ensures prices == PricesOf(setup, u)
    {
      var floats := seq(|u|, i requires 0 <= i < |u| => Finite(u[i]));
      var r := ActionSpace.ToPrice(floats, Finite(setup.low), Finite(setup.high));
      return r.value;
    }

    method Unprice(prices: seq<real>) returns (u: Vec)
      requires Valid()
      ensures u == ActionsOf(setup, prices)
    {
      var floats := seq(|prices|, i requires 0 <= i < |prices| => Finite(prices[i]));
      var r := ActionSpace.FromPrice(floats, Finite(setup.low), Finite(setup.high));
      return r.value;
    }

    method Intervene(t: int, prices: seq<real>, ptf: Option<real>, random: nat -> Unit)
      returns (r: Result<(seq<real>, seq<bool>), Error>)
      requires Valid()
      modifies failstack.counters
      ensures Valid()
      ensures var expected := Intervened(setup, old(State()).counters, t, prices, ptf, random);
              && r.Ok? == expected.Ok?
              && (r.Ok? ==>
                    && State() == old(State()).(counters := expected.value.2)
                    && r.value == (expected.value.0, expected.value.1))
    {
      if setup.failstack.None? || !setup.Training(t) {
        return Ok((prices, seq(setup.plants, i => false)));
      }
      var applied := failstack.ApplyInterventions(setup.failstack.value, prices, ptf, setup.low, setup.high, random);
      ghost var c := old(State()).counters;
      assert applied.Ok? ==> applied.value.0 == Intervened(setup, c, t, prices, ptf, random).value.0;
      return if applied.Ok? then Ok(applied.value) else Err(ValueError);
    }

    /** The action of the period and the prices it becomes; the decision waits for its outcome in `prev`. */
    method Decide(t: int, obs: Option<Vec>, ptf: Option<real>, i: Inputs) returns (r: Result<(seq<real>, seq<bool>), Error>)
      requires Valid()
      modifies this`prev, failstack.counters, policy`history, policy`open
      ensures Valid()
      ensures var expected := AgentStepSpec.Decide(setup, old(State()), t, obs, ptf, i);
              && r.Ok? == expected.Ok?
              && (r.Ok? ==> State() == expected.value.0 && r.value == expected.value.1)
    {
      hide PricesOf, ActionsOf, Intervened, Select, EndPeriod, AnyOf;
      if obs.Some? {
        policy.SelectAction(obs.value);
      }
      var prices := Price(i.action.u);
      var applied :- Intervene(t, prices, ptf, i.random);
      var uApplied := Unprice(applied.0);
      prev := if obs.None? then None else Some(Pending(obs.value, i.action, uApplied, AnyOf(applied.1)));
      policy.EndPeriod();
      return Ok(applied);
    }

    /** What the outcomes of t - 1 do: counters, then the transition and the update. */
    method Settle(t: int, obs: Option<Vec>, i: Inputs, generator: Generator, value: Vec -> real)
      returns (r: Result<bool, Error>)
      requires Valid() && GeneratorOk(setup.algorithm, generator)
      modifies policy.Repr, failstack.counters
      ensures Valid()
      ensures var expected := AgentStepSpec.Settle(setup, old(State()), t, obs, i);
              && r.Ok? == expected.Ok?
              && (r.Ok? ==> State() == expected.value.0 && r.value == expected.value.1)
    {
      if t > 1 && i.failures == [] {
        return Err(ValueError);
      }
      var _ :- Count(t, i.failures);
      r := Learn(t, obs, i.reward, generator, value);
    }

    /** Whether the step log calls the period a learning one. */
    method Active(t: int, updated: bool) returns (b: bool)
      requires Valid()
      ensures b == LearningActive(setup, t, State().policy, updated)
    {
      if !setup.Training(t) || setup.algorithm.Baseline? || policy.frozen {
        return false;
      }
      b := policy.ReadyToLearn();
      b := updated || b;
    }

    /** One step before the clearing of period t. */
    method Step(t: int, demand: Float, ptf: Observation.History, lags: Observation.Lags, normalize: Vec -> Vec, i: Inputs,
                generator: Generator, value: Vec -> real)
      returns (r: Result<StepOut, Error>)
      requires Valid() && GeneratorOk(setup.algorithm, generator)
      modifies Repr
      ensures Valid()
      ensures var o := Observation.ObservationOf(t, demand, ptf, lags);
              if o.Err? then r.Err?
              else
                var expected :=
                  StepOf(setup, old(State()), t, Normalised(o.value, normalize), PtfOf(ptf, t - 1), i);
                r.Ok? == expected.Ok? && (r.Ok? ==> State() == expected.value.0 && r.value == expected.value.1)
    {
      var o :- Observation.BuildObservation(t, demand, ptf, lags);
      var obs := Normalised(o, normalize);
      var updated :- Settle(t, obs, i, generator, value);
      var active := Active(t, updated);
      var applied :- Decide(t, obs, PtfOf(ptf, t - 1), i);
      return Ok(StepOut(applied.0, applied.1, updated, active));
    }
  }
}

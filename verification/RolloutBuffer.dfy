/** The fixed-length buffer of one on-policy rollout, with the arrays of the source. */
module RolloutBuffer {
  import opened Wrappers
  import opened Floats
  import opened Experience
  import Gae

  datatype Recorded = Recorded(obs: Vec, action: Vec, preSquash: Vec, logProb: real, value: real, reward: real,
                               nextObs: Vec, terminated: bool, intervened: bool)

  predicate HasStatistics(t: Transition, actionDim: nat) {
    t.logProb.Some? && t.value.Some? && t.preSquash.Some? && |t.preSquash.value| == actionDim
  }

  function Kept(t: Transition): Recorded
    requires t.logProb.Some? && t.value.Some? && t.preSquash.Some?
  {
    Recorded(t.obs, t.action, t.preSquash.value, t.logProb.value, t.value.value, t.reward, t.nextObs, t.terminated,
             t.intervened)
  }

  /** The part of the rollout that the advantage estimate reads. */
  function Trace(s: seq<Recorded>, last: real): (r: Gae.Rollout)
    ensures r.Valid() && r.Size() == |s|
  {
    Gae.Rollout(seq(|s|, i requires 0 <= i < |s| => s[i].value), seq(|s|, i requires 0 <= i < |s| => s[i].reward),
                seq(|s|, i requires 0 <= i < |s| => s[i].terminated), last)
  }

  /**
   The TD error of a stored step, from its own columns: its reward, plus the discounted value of the next step (of the
   last next observation at the end) unless it terminates, minus its value.
   */
  lemma StoredDelta(s: seq<Recorded>, last: real, gamma: real, t: nat)
    requires t < |s|
    ensures Gae.Delta(Trace(s, last), gamma, t)
         == s[t].reward - s[t].value
            + if s[t].terminated then 0.0 else gamma * (if t + 1 < |s| then s[t + 1].value else last)
  {
  }

  /** The estimate of a stored step adds the one after it, weighted with c, unless the step terminates. */
  lemma StoredEstimate(s: seq<Recorded>, last: real, gamma: real, c: real, t: nat)
    requires t < |s|
    ensures var trace := Trace(s, last);
            && Gae.Running(trace, gamma, c, t)
               == Gae.Delta(trace, gamma, t)
                + (if s[t].terminated || t + 1 == |s| then 0.0 else c * Gae.Running(trace, gamma, c, t + 1))
            && Gae.Return(trace, gamma, c, t) == Gae.Running(trace, gamma, c, t) + s[t].value
  {
  }

  /** A stored step has the transition's own columns. */
  lemma KeptColumns(t: Transition)
    requires t.logProb.Some? && t.value.Some? && t.preSquash.Some?
    ensures var x := Kept(t);
            && x.obs == t.obs && x.action == t.action && x.reward == t.reward && x.nextObs == t.nextObs
            && x.terminated == t.terminated && x.intervened == t.intervened && Some(x.logProb) == t.logProb
            && Some(x.value) == t.value && Some(x.preSquash) == t.preSquash
  {
  }

  predicate GaeArgumentsOk(size: nat, last: Float, gamma: Float, lambda: Float) {
    size > 0 && last.Finite? && gamma.Finite? && 0.0 < gamma.v < 1.0 && lambda.Finite? && 0.0 <= lambda.v <= 1.0
  }

  /** The arguments that compute_gae accepts make the weight of one step a contraction. */
  lemma WeightBelowOne(gamma: real, lambda: real)
    requires 0.0 < gamma < 1.0 && 0.0 <= lambda <= 1.0
    ensures 0.0 <= Gae.Times(gamma, lambda) < 1.0
  {
    assert 0.0 <= gamma * (1.0 - lambda);
    assert gamma * (1.0 - lambda) == gamma - gamma * lambda;
  }

  /** The loop of compute_gae, from the last step to the first. */
  method BackwardPass(r: Gae.Rollout, gamma: real, c: real) returns (advantages: seq<real>)
    requires r.Valid()
    ensures |advantages| == r.Size()
    ensures forall t :: 0 <= t < r.Size() ==> advantages[t] == Gae.Running(r, gamma, c, t)
  {
    var n := |r.values|;
    var a := new real[n](i => 0.0);
    var running := 0.0;
    for t := n downto 0
      invariant running == Gae.Running(r, gamma, c, t)
      invariant forall k :: t <= k < n ==> a[k] == Gae.Running(r, gamma, c, k)
    {
      running := Gae.Accumulate(r, gamma, c, t, running);
      a[t] := running;
    }
    return a[..];
  }

  function Sum(a: seq<real>, b: seq<real>): seq<real>
    requires |a| == |b|
  {
    seq(|a|, i requires 0 <= i < |a| => a[i] + b[i])
  }

  class Rollout {
    const obsDim: nat
    const actionDim: nat
    const length: nat
    const obs: array<Vec>
    const actions: array<Vec>
    const preSquash: array<Vec>
    const logProbs: array<real>
    const values: array<real>
    const rewards: array<real>
    const nextObs: array<Vec>
    const terminated: array<bool>
    const intervened: array<bool>
    var size: nat

    ghost const Repr: set<object> :=
      {this, obs, actions, preSquash, logProbs, values, rewards, nextObs, terminated, intervened}

    predicate Shape() {
      && length >= 1
      && obs.Length == actions.Length == preSquash.Length == nextObs.Length == length
      && logProbs.Length == values.Length == rewards.Length == length
      && terminated.Length == intervened.Length == length
      && obs != actions && obs != preSquash && obs != nextObs && actions != preSquash && actions != nextObs
      && preSquash != nextObs && logProbs != values && logProbs != rewards && values != rewards && terminated != intervened
    }

    ghost predicate Valid()
      reads this
    {
      Shape() && size <= length
    }

    ghost function Row(i: nat): Recorded
      requires Shape() && i < length
      reads obs, actions, preSquash, logProbs, values, rewards, nextObs, terminated, intervened
    {
      Recorded(obs[i], actions[i], preSquash[i], logProbs[i], values[i], rewards[i], nextObs[i], terminated[i], intervened[i])
    }

    ghost function Rows(): (s: seq<Recorded>)
      requires Shape()
      reads obs, actions, preSquash, logProbs, values, rewards, nextObs, terminated, intervened
      ensures |s| == length && forall i :: 0 <= i < length ==> s[i] == Row(i)
    {
      seq(length, i requires 0 <= i < length
                  reads obs, actions, preSquash, logProbs, values, rewards, nextObs, terminated, intervened => Row(i))
    }

    /** The stored steps in insertion order. */
    ghost function Contents(): (s: seq<Recorded>)
      requires Valid()
      reads Repr
      ensures |s| == size
    {
      Rows()[..size]
    }

    constructor (obsDim: nat, actionDim: nat, length: nat)
      requires obsDim >= 1 && actionDim >= 1 && length >= 1
      ensures Valid() && fresh(Repr) && Contents() == []
      ensures this.obsDim == obsDim && this.actionDim == actionDim && this.length == length
    {
      this.obsDim, this.actionDim, this.length := obsDim, actionDim, length;
      obs := new Vec[length](i => []);
      actions := new Vec[length](i => []);
      preSquash := new Vec[length](i => []);
      logProbs := new real[length](i => 0.0);
      values := new real[length](i => 0.0);
      rewards := new real[length](i => 0.0);
      nextObs := new Vec[length](i => []);
      terminated := new bool[length](i => false);
      intervened := new bool[length](i => false);
      size := 0;
    }

    method Write(i: nat, t: Transition)
      requires Shape() && i < length && t.logProb.Some? && t.value.Some? && t.preSquash.Some?
      modifies obs, actions, preSquash, logProbs, values, rewards, nextObs, terminated, intervened
      ensures Rows() == old(Rows())[i := Kept(t)]
    {
      obs[i] := t.obs;
      actions[i] := t.action;
      preSquash[i] := t.preSquash.value;
      logProbs[i] := t.logProb.value;
      values[i] := t.value.value;
      rewards[i] := t.reward;
      nextObs[i] := t.nextObs;
      terminated[i] := t.terminated;
      intervened[i] := t.intervened;
    }

    /** Appends a transition; a full buffer or missing behaviour statistics raise ValueError. */
    method Add(t: Transition) returns (r: Result<(), Error>)
      requires Valid()
      modifies Repr
      ensures Valid()
      ensures r.Ok? <==> ShapesOk(t, obsDim, actionDim) && |old(Contents())| < length && HasStatistics(t, actionDim)
      ensures Contents() == if r.Ok? then old(Contents()) + [Kept(t)] else old(Contents())
    {
      if !ShapesOk(t, obsDim, actionDim) || size >= length || !HasStatistics(t, actionDim) {
        return Err(ValueError);
      }
      ghost var rows, i := Rows(), size;
      Write(size, t);
      size := size + 1;
      assert Rows() == rows[i := Kept(t)];
      return Ok(());
    }

    method Full() returns (b: bool)
      requires Valid()
      ensures b <==> |Contents()| == length
    {
      b := size == length;
    }

    method Clear()
      requires Valid()
      modifies this`size
      ensures Valid() && Contents() == []
    {
      size := 0;
    }

    /** Advantages and returns of the stored rollout, computed from the last step backwards. */
    method ComputeGae(last: Float, gamma: Float, lambda: Float) returns (r: Result<(seq<real>, seq<real>), Error>)
      requires Valid()
      ensures r.Ok? <==> GaeArgumentsOk(|Contents()|, last, gamma, lambda)
      ensures r.Ok? ==>
                var trace := Trace(Contents(), last.v);
                && |r.value.0| == |r.value.1| == |Contents()|
                && forall t :: 0 <= t < |Contents()| ==>
                     && r.value.0[t] == Gae.Running(trace, gamma.v, Gae.Times(gamma.v, lambda.v), t)
                     && r.value.1[t] == Gae.Return(trace, gamma.v, Gae.Times(gamma.v, lambda.v), t)
    {
      if !GaeArgumentsOk(size, last, gamma, lambda) {
        return Err(ValueError);
      }
      var trace := Gae.Rollout(values[..size], rewards[..size], terminated[..size], last.v);
      assert trace == Trace(Contents(), last.v);
      var advantages := BackwardPass(trace, gamma.v, Gae.Times(gamma.v, lambda.v));
      return Ok((advantages, Sum(advantages, trace.values)));
    }
  }
}

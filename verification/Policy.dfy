/** A policy with its buffers. The networks are not part of the model; what they read and when is. */
module Policy {
  import opened Wrappers
  import opened Floats
  import opened Experience
  import opened LearnerConfig
  import opened PolicySpec
  import Gae
  import ReplayBuffer
  import RolloutBuffer

  /** What the generator draws for one gradient step. */
  predicate DrawOk(c: AlgorithmConfig, stored: nat, draw: seq<nat>) {
    match c.kind
    case Replay => c.batchSize <= stored ==> ReplayBuffer.Choice(draw, stored, c.batchSize, false)
    case Recurrent(seqLen) =>
      seqLen <= stored ==>
        ReplayBuffer.Choice(draw, stored - seqLen + 1, c.batchSize, stored - seqLen + 1 < c.batchSize)
    case OnPolicy(_, _, _) => true
  }

  /** What the gradient steps of one update learn from. */
  datatype Used =
    | Batches(batches: seq<seq<ReplayBuffer.Stored>>)
    | Windows(windows: seq<seq<seq<ReplayBuffer.Stored>>>)
    | Advantages(advantages: seq<real>, returns': seq<real>)

  /** The batch takes distinct positions of the stored sequence. */
  ghost predicate IsSample(stored: seq<ReplayBuffer.Stored>, batch: seq<ReplayBuffer.Stored>) {
    exists at: seq<nat> :: ReplayBuffer.TakenAt(stored, batch, at)
  }

  ghost predicate BatchesFrom(stored: seq<ReplayBuffer.Stored>, c: AlgorithmConfig, used: seq<seq<ReplayBuffer.Stored>>) {
    |used| == c.gradientSteps && forall g :: 0 <= g < |used| ==> |used[g]| == c.batchSize && IsSample(stored, used[g])
  }

  /** The window is the piece of the stored sequence that begins at i. */
  predicate PieceAt(stored: seq<ReplayBuffer.Stored>, w: seq<ReplayBuffer.Stored>, seqLen: nat, i: nat) {
    i + seqLen <= |stored| && w == stored[i..i + seqLen]
  }

  /** The windows begin at these positions, which differ whenever there are enough of them. */
  predicate PiecesAt(stored: seq<ReplayBuffer.Stored>, ws: seq<seq<ReplayBuffer.Stored>>, seqLen: nat, starts: seq<nat>) {
    && |starts| == |ws| && (forall b :: 0 <= b < |ws| ==> PieceAt(stored, ws[b], seqLen, starts[b]))
    && (|ws| <= |stored| - seqLen + 1 ==> ReplayBuffer.Distinct(starts))
  }

  ghost predicate AllPieces(stored: seq<ReplayBuffer.Stored>, ws: seq<seq<ReplayBuffer.Stored>>, seqLen: nat) {
    exists starts: seq<nat> :: PiecesAt(stored, ws, seqLen, starts)
  }

  ghost predicate WindowsFrom(stored: seq<ReplayBuffer.Stored>, c: AlgorithmConfig, seqLen: nat,
                        used: seq<seq<seq<ReplayBuffer.Stored>>>) {
    |used| == c.gradientSteps &&
    forall g :: 0 <= g < |used| ==>
      |used[g]| == c.batchSize && AllPieces(stored, used[g], seqLen)
  }

  predicate AdvantagesFrom(rolled: seq<RolloutBuffer.Recorded>, c: AlgorithmConfig, last: real, a: seq<real>, r: seq<real>)
    requires c.kind.OnPolicy?
  {
    var trace := RolloutBuffer.Trace(rolled, last);
    |a| == |r| == |rolled| &&
    forall t :: 0 <= t < |rolled| ==>
      && a[t] == Gae.Running(trace, c.gamma, Gae.Times(c.gamma, c.kind.gaeLambda), t)
      && r[t] == Gae.Return(trace, c.gamma, Gae.Times(c.gamma, c.kind.gaeLambda), t)
  }

  /** The gradient steps of an update learn from what the buffers of that moment hold. */
  ghost predicate LearnsFrom(c: AlgorithmConfig, s: PolicyState, value: Vec -> real, used: Used) {
    match c.kind
    case Replay => used.Batches? && BatchesFrom(s.stored, c, used.batches)
    case Recurrent(seqLen) => used.Windows? && WindowsFrom(s.stored, c, seqLen, used.windows)
    case OnPolicy(_, _, _) =>
      used.Advantages? && s.lastNextObs.Some?
      && AdvantagesFrom(s.rolled, c, value(s.lastNextObs.value), used.advantages, used.returns')
  }

  class Agent {
    const algorithm: Algorithm
    const spec: Spec
    const ring: ReplayBuffer.Ring?
    const rollout: RolloutBuffer.Rollout?
    var frozen: bool
    var seen: nat
    var lastNextObs: Option<Vec>
    var history: seq<Vec>
    var open: bool

    ghost const Repr: set<object>

    predicate OffPolicy() { algorithm.Learner? && !algorithm.config.kind.OnPolicy? }
    predicate OnPolicy() { algorithm.Learner? && algorithm.config.kind.OnPolicy? }

    ghost predicate Valid()
      reads this, Repr
    {
      && this in Repr
      && (ring != null <==> OffPolicy()) && (rollout != null <==> OnPolicy())
      && (ring != null ==>
            && ring.Repr <= Repr && this !in ring.Repr && ring in ring.Repr && ring.Valid()
            && ring.capacity == algorithm.config.bufferSize && ring.obsDim == spec.obsDim && ring.actionDim == spec.actionDim)
      && (rollout != null ==>
            && rollout.Repr <= Repr && this !in rollout.Repr && rollout in rollout.Repr && rollout.Valid()
            && rollout.length == algorithm.config.kind.rolloutLength && rollout.obsDim == spec.obsDim
            && rollout.actionDim == spec.actionDim)
    }

    ghost function State(): PolicyState
      requires Valid()
      reads this, Repr
    {
      PolicyState(frozen, if ring == null then [] else ring.Contents(), if rollout == null then [] else rollout.Contents(),
                  seen, lastNextObs, history, open)
    }

    constructor (algorithm: Algorithm, spec: Spec)
      requires spec.obsDim >= 1 && spec.actionDim >= 1
      ensures Valid() && fresh(Repr) && this.algorithm == algorithm && this.spec == spec && State() == PolicySpec.Fresh()
    {
      this.algorithm, this.spec := algorithm, spec;
      frozen, seen, lastNextObs, history, open := false, 0, None, [], false;
      var ring: ReplayBuffer.Ring?, rollout: RolloutBuffer.Rollout? := null, null;
      if algorithm.Learner? {
        match algorithm.config.kind
        case OnPolicy(rolloutLength, _, _) => rollout := new RolloutBuffer.Rollout(spec.obsDim, spec.actionDim, rolloutLength);
        case _ => ring := new ReplayBuffer.Ring(spec.obsDim, spec.actionDim, algorithm.config.bufferSize);
      }
      this.ring, this.rollout := ring, rollout;
      Repr := {this} + (if ring == null then {} else ring.Repr) + (if rollout == null then {} else rollout.Repr);
    }

    method SetFrozen(frozen: bool)
      requires Valid()
      modifies this`frozen
      ensures Valid() && State() == old(State()).(frozen := frozen)
    {
      this.frozen := frozen;
    }

    /** Stores a transition; no-op when frozen or without a buffer. */
    method Observe(t: Transition) returns (r: Result<(), Experience.Error>)
      requires Valid()
      modifies Repr
      ensures Valid()
      ensures var expected := PolicySpec.Observe(algorithm, spec, old(State()), t);
              r.Ok? == expected.Ok? && (r.Ok? ==> State() == expected.value)
    {
      if frozen || algorithm.Baseline? {
        return Ok(());
      }
      if algorithm.config.kind.OnPolicy? {
        r := ObserveRollout(t);
      } else {
        r := ring.Add(t);
      }
    }

    method ObserveRollout(t: Transition) returns (r: Result<(), Experience.Error>)
      requires Valid() && OnPolicy()
      modifies Repr
      ensures Valid()
      ensures var expected := PolicySpec.ObserveRollout(algorithm.config, spec, old(State()), t);
              r.Ok? == expected.Ok? && (r.Ok? ==> State() == expected.value)
    {
      var before := seen;
      seen := seen + 1;
      if before < algorithm.config.learningStarts - algorithm.config.kind.rolloutLength {
        return Ok(());
      }
      r := rollout.Add(t);
      if r.Ok? {
        lastNextObs := Some(t.nextObs);
      }
    }

    method StoredCount() returns (n: nat)
      requires Valid()
      ensures n == |State().stored|
    {
      if ring == null {
        n := 0;
      } else {
        n := ring.Length();
      }
    }

    method ReadyToLearn() returns (b: bool)
      requires Valid() && algorithm.Learner?
      ensures b <==> Ready(algorithm.config, State())
    {
      var c := algorithm.config;
      match c.kind
      case OnPolicy(_, _, _) =>
        b := rollout.Full();
        b := b && seen >= c.learningStarts;
      case Replay =>
        var n := ring.Length();
        b := n >= c.learningStarts;
      case Recurrent(seqLen) =>
        var n := ring.Length();
        b := n >= c.learningStarts && n >= seqLen;
    }

    /** One batch of independent transitions. */
    method SampleBatch(draw: seq<nat>) returns (r: Result<seq<ReplayBuffer.Stored>, Experience.Error>)
      requires Valid() && OffPolicy() && algorithm.config.kind.Replay? && DrawOk(algorithm.config, |State().stored|, draw)
      ensures r.Ok? <==> algorithm.config.batchSize <= |State().stored|
      ensures r.Ok? ==> |r.value| == algorithm.config.batchSize && IsSample(State().stored, r.value)
    {
      hide ReplayBuffer.Chronological, ReplayBuffer.TakenAt;
      ghost var at: seq<nat>;
      r, at := ring.Sample(algorithm.config.batchSize, draw);
      assert r.Ok? ==> ReplayBuffer.TakenAt(ring.Contents(), r.value, at);
    }

    method SampleBatches(draws: seq<seq<nat>>) returns (r: Result<seq<seq<ReplayBuffer.Stored>>, Experience.Error>)
      requires Valid() && OffPolicy() && algorithm.config.kind.Replay? && |draws| == algorithm.config.gradientSteps
      requires forall g :: 0 <= g < |draws| ==> DrawOk(algorithm.config, |State().stored|, draws[g])
      ensures r.Ok? <==> algorithm.config.batchSize <= |State().stored|
      ensures r.Ok? ==> BatchesFrom(State().stored, algorithm.config, r.value)
    {
      var c := algorithm.config;
      var batches: seq<seq<ReplayBuffer.Stored>> := [];
      for g := 0 to |draws|
        invariant |batches| == g && (g > 0 ==> c.batchSize <= |ring.Contents()|)
        invariant forall k :: 0 <= k < g ==> |batches[k]| == c.batchSize && IsSample(ring.Contents(), batches[k])
      {
        assert DrawOk(c, |State().stored|, draws[g]);
        var batch :- SampleBatch(draws[g]);
        batches := batches + [batch];
      }
      return Ok(batches);
    }

    method SampleOnce(draw: seq<nat>) returns (r: Result<seq<seq<ReplayBuffer.Stored>>, Experience.Error>)
      requires Valid() && OffPolicy() && algorithm.config.kind.Recurrent?
      requires DrawOk(algorithm.config, |State().stored|, draw)
      ensures r.Ok? <==> algorithm.config.kind.seqLen <= |State().stored|
      ensures r.Ok? ==>
                |r.value| == algorithm.config.batchSize && AllPieces(State().stored, r.value, algorithm.config.kind.seqLen)
    {
      hide ReplayBuffer.Chronological;
      var n := algorithm.config.kind.seqLen;
      r := ring.SampleSequences(algorithm.config.batchSize, n, draw);
      if r.Ok? {
        assert PiecesAt(ring.Contents(), r.value, n, draw);
      }
    }

    method SampleWindows(draws: seq<seq<nat>>) returns (r: Result<seq<seq<seq<ReplayBuffer.Stored>>>, Experience.Error>)
      requires Valid() && OffPolicy() && algorithm.config.kind.Recurrent? && |draws| == algorithm.config.gradientSteps
      requires forall g :: 0 <= g < |draws| ==> DrawOk(algorithm.config, |State().stored|, draws[g])
      ensures r.Ok? <==> algorithm.config.kind.seqLen <= |State().stored|
      ensures r.Ok? ==> WindowsFrom(State().stored, algorithm.config, algorithm.config.kind.seqLen, r.value)
    {
      var c := algorithm.config;
      var n := c.kind.seqLen;
      ghost var stored := ring.Contents();
      var windows: seq<seq<seq<ReplayBuffer.Stored>>> := [];
      for g := 0 to |draws|
        invariant |windows| == g && (g > 0 ==> n <= |stored|)
        invariant forall k :: 0 <= k < g ==>
                    |windows[k]| == c.batchSize && AllPieces(stored, windows[k], n)
      {
        assert DrawOk(c, |stored|, draws[g]);
        var batch :- SampleOnce(draws[g]);
        windows := windows + [batch];
      }
      return Ok(windows);
    }

    /** GAE of the stored rollout, bootstrapped with the value of the last stored next observation. */
    method ComputeAdvantages(value: Vec -> real) returns (r: Result<(seq<real>, seq<real>), Experience.Error>)
      requires Valid() && OnPolicy()
      ensures r.Ok? <==> State().rolled != [] && lastNextObs.Some?
      ensures r.Ok? ==>
                AdvantagesFrom(State().rolled, algorithm.config, value(lastNextObs.value), r.value.0, r.value.1)
    {
      if rollout.size == 0 || lastNextObs.None? {
        return Err(ValueError);
      }
      var c := algorithm.config;
      r := rollout.ComputeGae(Finite(value(lastNextObs.value)), Finite(c.gamma), Finite(c.kind.gaeLambda));
    }

    /** Runs the gradient steps when the policy is ready; a rollout is cleared by the update that used it. */
    method Update(draws: seq<seq<nat>>, value: Vec -> real) returns (r: Result<Option<Used>, Experience.Error>)
      requires Valid()
      requires OffPolicy() ==>
                 && |draws| == algorithm.config.gradientSteps
                 && forall g :: 0 <= g < |draws| ==> DrawOk(algorithm.config, |State().stored|, draws[g])
      modifies Repr
      ensures Valid()
      ensures var expected := PolicySpec.Update(algorithm, old(State()));
              && r.Ok? == expected.Ok?
              && (r.Ok? ==> State() == expected.value.0 && r.value.Some? == expected.value.1)
      ensures r.Ok? && r.value.Some? ==> algorithm.Learner? && LearnsFrom(algorithm.config, old(State()), value, r.value.value)
    {
      if frozen || algorithm.Baseline? {
        return Ok(None);
      }
      var ready := ReadyToLearn();
      if !ready {
        return Ok(None);
      }
      match algorithm.config.kind
      case Replay =>
        var batches := SampleBatches(draws);
        return Ok(Some(Batches(batches.value)));
      case Recurrent(_) =>
        var windows := SampleWindows(draws);
        return Ok(Some(Windows(windows.value)));
      case OnPolicy(_, _, _) =>
        var advantages :- ComputeAdvantages(value);
        rollout.Clear();
        lastNextObs := None;
        return Ok(Some(Advantages(advantages.0, advantages.1)));
    }

    /** The window of a recurrent policy takes the observation in; the networks choose the action. */
    method SelectAction(obs: Vec)
      requires Valid()
      modifies this`history, this`open
      ensures Valid() && State() == PolicySpec.Select(algorithm, old(State()), obs)
    {
      if algorithm.Learner? && algorithm.config.kind.Recurrent? {
        if open && history != [] {
          history := history[|history| - 1 := obs];
        } else {
          history := LastN(history + [obs], algorithm.config.kind.seqLen);
        }
        open := true;
      }
    }

    method EndPeriod()
      requires Valid()
      modifies this`open
      ensures Valid() && State() == PolicySpec.EndPeriod(algorithm, old(State()))
    {
      if algorithm.Learner? && algorithm.config.kind.Recurrent? {
        open := false;
      }
    }
  }
}

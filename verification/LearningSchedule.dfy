/** When a learner updates and what its buffers hold, as a function of the transitions it has observed. */
module LearningSchedule {
  import opened Wrappers
  import opened Experience
  import opened LearnerConfig
  import opened PolicySpec
  import ReplayBuffer
  import RolloutBuffer

  type Transitions = seq<Transition>

  function StoredOf(ts: Transitions): seq<ReplayBuffer.Stored> {
    seq(|ts|, i requires 0 <= i < |ts| => ReplayBuffer.Kept(ts[i]))
  }

  predicate HaveStatistics(ts: Transitions) {
    forall i :: 0 <= i < |ts| ==> ts[i].logProb.Some? && ts[i].value.Some? && ts[i].preSquash.Some?
  }

  function RecordedOf(ts: Transitions): seq<RolloutBuffer.Recorded>
    requires HaveStatistics(ts)
  {
    seq(|ts|, i requires 0 <= i < |ts| => RolloutBuffer.Kept(ts[i]))
  }

  lemma RecordedAppend(ts: Transitions, t: Transition)
    requires HaveStatistics(ts) && t.logProb.Some? && t.value.Some? && t.preSquash.Some?
    ensures HaveStatistics(ts + [t]) && RecordedOf(ts + [t]) == RecordedOf(ts) + [RolloutBuffer.Kept(t)]
  {
  }

  lemma LastNGrows<T>(s: seq<T>, x: T, size: nat)
    requires size <= |s|
    ensures LastN(s + [x], size + 1) == LastN(s, size) + [x] && LastN(s + [x], 0) == []
  {
  }

  // ---------------------------------------------------------------- rollouts

  /** The pre-learning transitions that an on-policy learner drops. */
  function Dropped(c: AlgorithmConfig): nat
    requires c.kind.OnPolicy?
  {
    if c.learningStarts <= c.kind.rolloutLength then 0 else c.learningStarts - c.kind.rolloutLength
  }

  /** The size of the unfinished rollout after n transitions. */
  function RolloutSize(c: AlgorithmConfig, n: nat): nat
    requires c.kind.OnPolicy?
  {
    if n < Dropped(c) then 0 else (n - Dropped(c)) % c.kind.rolloutLength
  }

  lemma NextMod(a: nat, m: nat)
    requires m >= 1
    ensures (a + 1) % m == if a % m + 1 == m then 0 else a % m + 1
  {
    var q, r := a / m, a % m;
    assert a + 1 == m * q + (r + 1);
    if r + 1 == m {
      assert a + 1 == m * (q + 1) + 0;
      ModUnique(a + 1, m, q + 1, 0);
    } else {
      ModUnique(a + 1, m, q, r + 1);
    }
  }

  lemma ModUnique(a: nat, m: nat, q: nat, r: nat)
    requires r < m && a == m * q + r
    ensures a % m == r
  {
    var d := a / m - q;
    assert m * d == r - a % m;
    if d > 0 {
      TimesAtLeast(m, d);
    } else if d < 0 {
      TimesAtLeast(m, -d);
    }
  }

  lemma TimesAtLeast(m: int, d: int)
    requires m >= 0 && d >= 1
    ensures m * d >= m && m * (0 - d) <= 0 - m
  {
    assert m * (d - 1) >= 0;
  }

  // ---------------------------------------------------------------- the schedule

  /** The learner updates with its n-th transition. */
  predicate Due(c: AlgorithmConfig, n: nat) {
    match c.kind
    case OnPolicy(rolloutLength, _, _) =>
      n >= c.FirstUpdateTransitions() && (n - c.FirstUpdateTransitions()) % rolloutLength == 0
    case _ => n >= c.FirstUpdateTransitions() && c.learningStarts <= c.bufferSize
  }

  /** The state of a learner that has observed exactly these transitions. */
  predicate HasObserved(c: AlgorithmConfig, s: PolicyState, ts: Transitions) {
    match c.kind
    case OnPolicy(_, _, _) =>
      && s.stored == [] && s.seen == |ts| && HaveStatistics(ts)
      && s.rolled == LastN(RecordedOf(ts), RolloutSize(c, |ts|))
      && (s.lastNextObs.Some? <==> s.rolled != [])
    case _ => s.stored == LastN(StoredOf(ts), c.bufferSize) && s.rolled == []
  }

  predicate Acceptable(c: AlgorithmConfig, spec: Spec, t: Transition) {
    && ShapesOk(t, spec.obsDim, spec.actionDim)
    && (c.kind.OnPolicy? ==> RolloutBuffer.HasStatistics(t, spec.actionDim))
  }

  lemma LearnOffPolicy(c: AlgorithmConfig, spec: Spec, s: PolicyState, ts: Transitions, t: Transition)
    requires !c.kind.OnPolicy? && !s.frozen && HasObserved(c, s, ts) && Acceptable(c, spec, t)
    ensures var o := Observe(Learner(c), spec, s, t);
            && o.Ok? && Update(Learner(c), o.value) == Ok((o.value, Due(c, |ts| + 1)))
            && HasObserved(c, o.value, ts + [t])
  {
    assert StoredOf(ts + [t]) == StoredOf(ts) + [ReplayBuffer.Kept(t)];
    LastNAppend(StoredOf(ts), ReplayBuffer.Kept(t), c.bufferSize);
  }

  lemma Drop(c: AlgorithmConfig, spec: Spec, s: PolicyState, ts: Transitions, t: Transition)
    requires c.kind.OnPolicy? && !s.frozen && HasObserved(c, s, ts) && Acceptable(c, spec, t) && |ts| < Dropped(c)
    ensures var s' := s.(seen := s.seen + 1);
            && Observe(Learner(c), spec, s, t) == Ok(s') && Update(Learner(c), s') == Ok((s', false))
            && !Due(c, |ts| + 1) && HasObserved(c, s', ts + [t])
  {
    RecordedAppend(ts, t);
    LastNGrows(RecordedOf(ts), RolloutBuffer.Kept(t), 0);
    assert RolloutSize(c, |ts| + 1) == 0 by { ZeroMod(c.kind.rolloutLength); }
  }

  lemma ZeroMod(m: nat)
    requires m >= 1
    ensures 0 % m == 0
  {
  }

  /** The rollout that a learner past the dropped transitions has after one more. */
  function Grown(c: AlgorithmConfig, s: PolicyState, t: Transition): PolicyState
    requires t.logProb.Some? && t.value.Some? && t.preSquash.Some?
  {
    s.(seen := s.seen + 1, rolled := s.rolled + [RolloutBuffer.Kept(t)], lastNextObs := Some(t.nextObs))
  }

  lemma Collect(c: AlgorithmConfig, spec: Spec, s: PolicyState, ts: Transitions, t: Transition)
    requires c.kind.OnPolicy? && !s.frozen && HasObserved(c, s, ts) && Acceptable(c, spec, t) && |ts| >= Dropped(c)
    ensures Observe(Learner(c), spec, s, t) == Ok(Grown(c, s, t))
    ensures |s.rolled| == RolloutSize(c, |ts|) < c.kind.rolloutLength
  {
    Rollover(c, |ts|);
    ModAtMost(|ts| - Dropped(c), c.kind.rolloutLength);
  }

  lemma ModAtMost(a: nat, m: nat)
    requires m >= 1
    ensures a % m <= a
  {
    if a < m {
      ModUnique(a, m, 0, a);
    }
  }

  lemma SizeStep(c: AlgorithmConfig, n: nat)
    requires c.kind.OnPolicy? && n >= Dropped(c)
    ensures RolloutSize(c, n + 1) == if Due(c, n + 1) then 0 else RolloutSize(c, n) + 1
    ensures RolloutSize(c, n) <= n
  {
    Rollover(c, n);
    NextMod(n - Dropped(c), c.kind.rolloutLength);
    ModAtMost(n - Dropped(c), c.kind.rolloutLength);
  }

  function Cleared(s: PolicyState): PolicyState {
    s.(rolled := [], lastNextObs := None)
  }

  /** The grown rollout is used up when the update is due, and waits otherwise. */
  lemma GrownUpdates(c: AlgorithmConfig, s: PolicyState, n: nat, t: Transition)
    requires c.kind.OnPolicy? && !s.frozen && n >= Dropped(c) && s.seen == n && |s.rolled| == RolloutSize(c, n)
    requires t.logProb.Some? && t.value.Some? && t.preSquash.Some?
    ensures var g := Grown(c, s, t);
            Update(Learner(c), g) == Ok(if Due(c, n + 1) then (Cleared(g), true) else (g, false))
  {
    Rollover(c, n);
  }

  lemma GrownHasObserved(c: AlgorithmConfig, s: PolicyState, ts: Transitions, t: Transition)
    requires c.kind.OnPolicy? && HasObserved(c, s, ts) && |ts| >= Dropped(c)
    requires t.logProb.Some? && t.value.Some? && t.preSquash.Some?
    ensures HasObserved(c, if Due(c, |ts| + 1) then Cleared(Grown(c, s, t)) else Grown(c, s, t), ts + [t])
  {
    SizeStep(c, |ts|);
    RecordedAppend(ts, t);
    LastNGrows(RecordedOf(ts), RolloutBuffer.Kept(t), RolloutSize(c, |ts|));
  }

  /** A rollout is complete exactly when an update is due. */
  lemma Rollover(c: AlgorithmConfig, n: nat)
    requires c.kind.OnPolicy? && n >= Dropped(c)
    ensures Due(c, n + 1) <==> RolloutSize(c, n) + 1 == c.kind.rolloutLength
    ensures RolloutSize(c, n) < c.kind.rolloutLength
    ensures RolloutSize(c, n) + 1 == c.kind.rolloutLength ==> n + 1 >= c.learningStarts
    ensures c.FirstUpdateTransitions() == Dropped(c) + c.kind.rolloutLength
  {
    var d, m, f := Dropped(c), c.kind.rolloutLength, c.FirstUpdateTransitions();
    NextMod(n - d, m);
    if n + 1 >= f {
      assert n + 1 - d == (n + 1 - f) + m;
      AddModulus(n + 1 - f, m);
    } else {
      ModUnique(n - d, m, 0, n - d);
    }
  }

  lemma AddModulus(a: nat, m: nat)
    requires m >= 1
    ensures (a + m) % m == a % m
  {
    assert a + m == m * (a / m + 1) + a % m;
    ModUnique(a + m, m, a / m + 1, a % m);
  }

  /** Observing and updating never raise, and the schedule is kept. */
  lemma LearnStep(c: AlgorithmConfig, spec: Spec, s: PolicyState, ts: Transitions, t: Transition)
    requires !s.frozen && HasObserved(c, s, ts) && Acceptable(c, spec, t)
    ensures var o := Observe(Learner(c), spec, s, t);
            && o.Ok? && Update(Learner(c), o.value).Ok?
            && Update(Learner(c), o.value).value.1 == Due(c, |ts| + 1)
            && HasObserved(c, Update(Learner(c), o.value).value.0, ts + [t])
  {
    if c.kind.OnPolicy? {
      if |ts| < Dropped(c) {
        Drop(c, spec, s, ts, t);
      } else {
        Collect(c, spec, s, ts, t);
        GrownUpdates(c, s, |ts|, t);
        GrownHasObserved(c, s, ts, t);
      }
    } else {
      LearnOffPolicy(c, spec, s, ts, t);
    }
  }
}

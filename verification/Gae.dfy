/** Generalised advantage estimation (equation 16 of Schulman et al., 2016) over one rollout, on values. */
module Gae {

  /** What the estimate reads of a rollout: `last` is the value of the observation after the last step. */
  datatype Rollout = Rollout(values: seq<real>, rewards: seq<real>, terminated: seq<bool>, last: real) {
    predicate Valid() { |values| == |rewards| == |terminated| }
    function Size(): nat { |values| }
  }

  function Times(x: real, y: real): real { x * y }

  function NotDone(r: Rollout, t: nat): real
    requires r.Valid() && t < r.Size()
  {
    if r.terminated[t] then 0.0 else 1.0
  }

  function NextValue(r: Rollout, t: nat): real
    requires r.Valid() && t < r.Size()
  {
    if t + 1 < r.Size() then r.values[t + 1] else r.last
  }

  function Delta(r: Rollout, gamma: real, t: nat): real
    requires r.Valid() && t < r.Size()
  {
    r.rewards[t] + Times(Times(gamma, NotDone(r, t)), NextValue(r, t)) - r.values[t]
  }

  /** One turn of the loop: the accumulator after step t from the one after step t + 1. */
  function Accumulate(r: Rollout, gamma: real, c: real, t: nat, running: real): real
    requires r.Valid() && t < r.Size()
  {
    Delta(r, gamma, t) + Times(Times(c, NotDone(r, t)), running)
  }

  /** The backward recursion with c = gamma * lambda: the value of the accumulator after step t. */
  function Running(r: Rollout, gamma: real, c: real, t: nat): real
    requires r.Valid() && t <= r.Size()
    decreases r.Size() - t
  {
    if t == r.Size() then 0.0 else Accumulate(r, gamma, c, t, Running(r, gamma, c, t + 1))
  }

  function Return(r: Rollout, gamma: real, c: real, t: nat): real
    requires r.Valid() && t < r.Size()
  {
    Running(r, gamma, c, t) + r.values[t]
  }

  // ---------------------------------------------------------------- the forward sum

  function Pow(c: real, l: nat): real {
    if l == 0 then 1.0 else Times(c, Pow(c, l - 1))
  }

  /** One past the last step that step t takes credit for: the next termination, or the end of the rollout. */
  function Stop(r: Rollout, t: nat): (e: nat)
    requires r.Valid() && t <= r.Size()
    ensures t <= e <= r.Size() && (t < r.Size() ==> t < e)
    ensures forall k :: t <= k < e - 1 ==> !r.terminated[k]
    ensures t < e < r.Size() ==> r.terminated[e - 1]
    decreases r.Size() - t
  {
    if t == r.Size() then t else if r.terminated[t] then t + 1 else Stop(r, t + 1)
  }

  /** The sum of c^l * xs[l]. */
  function Discounted(c: real, xs: seq<real>): real {
    if xs == [] then 0.0 else Discounted(c, xs[..|xs| - 1]) + Times(Pow(c, |xs| - 1), xs[|xs| - 1])
  }

  lemma {:induction false} DiscountedFirst(c: real, xs: seq<real>)
    requires xs != []
    ensures Discounted(c, xs) == xs[0] + Times(c, Discounted(c, xs[1..]))
  {
    if |xs| > 1 {
      var before, n := xs[..|xs| - 1], |xs|;
      DiscountedFirst(c, before);
      assert before[1..] == xs[1..][..n - 2] && xs[1..][n - 2] == xs[n - 1];
      PowStep(c, n - 1, xs[n - 1], Discounted(c, before[1..]));
    } else {
      assert xs[..0] == [] && xs[1..] == [];
    }
  }

  lemma PowStep(c: real, l: nat, x: real, d: real)
    requires l >= 1
    ensures Times(c, d) + Times(Pow(c, l), x) == Times(c, d + Times(Pow(c, l - 1), x))
  {
    var p := Pow(c, l - 1);
    assert c * p * x == c * (p * x);
  }

  /** The TD errors of the steps t .. e-1. */
  function Deltas(r: Rollout, gamma: real, t: nat, e: nat): (d: seq<real>)
    requires r.Valid() && t <= e <= r.Size()
    ensures |d| == e - t
    decreases e - t
  {
    if t == e then [] else [Delta(r, gamma, t)] + Deltas(r, gamma, t + 1, e)
  }

  lemma CutStep(c: real, d: real, b: real)
    requires b == 0.0 || b == 1.0
    ensures Times(Times(c, b), d) == if b == 0.0 then 0.0 else Times(c, d)
  {
  }

  /**
   The backward recursion computes the forward sum: the TD errors of the steps up to the next termination,
   the one l steps ahead weighted with c^l.
   */
  lemma {:induction false} BackwardIsForward(r: Rollout, gamma: real, c: real, t: nat)
    requires r.Valid() && t <= r.Size()
    ensures Running(r, gamma, c, t) == Discounted(c, Deltas(r, gamma, t, Stop(r, t)))
    decreases r.Size() - t
  {
    if t < r.Size() {
      var e := Stop(r, t);
      var ds := Deltas(r, gamma, t, e);
      BackwardIsForward(r, gamma, c, t + 1);
      DiscountedFirst(c, ds);
      CutStep(c, Running(r, gamma, c, t + 1), NotDone(r, t));
      if r.terminated[t] {
        assert ds[1..] == [];
        assert Times(c, 0.0) == 0.0;
      } else {
        assert ds[1..] == Deltas(r, gamma, t + 1, e);
      }
    }
  }

  // ---------------------------------------------------------------- lambda = 1

  /** The discounted value that the rollout ends with for step t. */
  function Bootstrap(r: Rollout, gamma: real, t: nat): real
    requires r.Valid() && t < r.Size()
  {
    if r.terminated[Stop(r, t) - 1] then 0.0 else Times(Pow(gamma, r.Size() - t), r.last)
  }

  lemma ReturnStep(r: Rollout, gamma: real, t: nat)
    requires r.Valid() && t < r.Size()
    ensures Return(r, gamma, gamma, t) == r.rewards[t]
            + (if r.terminated[t] then 0.0
               else Times(gamma, if t + 1 < r.Size() then Return(r, gamma, gamma, t + 1) else r.last))
  {
    var nd, v, a := NotDone(r, t), NextValue(r, t), Running(r, gamma, gamma, t + 1);
    CutStep(gamma, v, nd);
    CutStep(gamma, a, nd);
    Distribute(gamma, v, a);
  }

  /**
   With lambda = 1 the value estimates telescope away: the return is the discounted sum of the rewards up to the
   next termination, plus the discounted bootstrap value when no step of the rest terminates.
   */
  lemma {:induction false} ReturnsTelescope(r: Rollout, gamma: real, t: nat)
    requires r.Valid() && t < r.Size()
    ensures Return(r, gamma, gamma, t) == Discounted(gamma, r.rewards[t..Stop(r, t)]) + Bootstrap(r, gamma, t)
    decreases r.Size() - t
  {
    var e := Stop(r, t);
    var xs := r.rewards[t..e];
    ReturnStep(r, gamma, t);
    DiscountedFirst(gamma, xs);
    TimesZero(gamma);
    if r.terminated[t] {
      assert xs[1..] == [];
    } else if t + 1 < r.Size() {
      ReturnsTelescope(r, gamma, t + 1);
      assert xs[1..] == r.rewards[t + 1..e];
      Distribute(gamma, Discounted(gamma, xs[1..]), Bootstrap(r, gamma, t + 1));
      BootstrapStep(r, gamma, t);
    } else {
      assert xs[1..] == [];
      BootstrapLast(r, gamma, t);
    }
  }

  lemma TimesZero(x: real)
    ensures Times(x, 0.0) == 0.0
  {
  }

  lemma Distribute(x: real, a: real, b: real)
    ensures Times(x, a + b) == Times(x, a) + Times(x, b)
  {
  }

  lemma BootstrapLast(r: Rollout, gamma: real, t: nat)
    requires r.Valid() && t + 1 == r.Size() && !r.terminated[t]
    ensures Bootstrap(r, gamma, t) == Times(gamma, r.last)
  {
    assert Pow(gamma, 1) == Times(gamma, Pow(gamma, 0)) == gamma;
  }

  lemma BootstrapStep(r: Rollout, gamma: real, t: nat)
    requires r.Valid() && t + 1 < r.Size() && !r.terminated[t]
    ensures Bootstrap(r, gamma, t) == Times(gamma, Bootstrap(r, gamma, t + 1))
  {
    var p := Pow(gamma, r.Size() - t - 1);
    assert gamma * p * r.last == gamma * (p * r.last);
    assert Times(gamma, 0.0) == 0.0;
  }

  // ---------------------------------------------------------------- the bound

  function Abs(x: real): real { if x < 0.0 then -x else x }

  predicate DeltasWithin(r: Rollout, gamma: real, d: real)
    requires r.Valid()
  {
    forall k :: 0 <= k < r.Size() ==> Abs(Delta(r, gamma, k)) <= d
  }

  lemma FixedPoint(c: real, d: real)
    requires c < 1.0
    ensures d + Times(c, d / (1.0 - c)) == d / (1.0 - c)
  {
    var b := d / (1.0 - c);
    assert b * (1.0 - c) == d;
    assert b * (1.0 - c) == b - c * b;
  }

  lemma Shrink(c: real, x: real, b: real)
    requires 0.0 <= c && Abs(x) <= b
    ensures Abs(Times(c, x)) <= Times(c, b)
  {
    assert c * x <= c * b && -(c * b) <= c * x by { ScaleBoth(c, x, b); }
  }

  lemma ScaleBoth(c: real, x: real, b: real)
    requires 0.0 <= c && -b <= x <= b
    ensures -(c * b) <= c * x <= c * b
  {
    assert c * (b - x) >= 0.0;
    assert c * (x + b) >= 0.0;
  }

  /** No advantage exceeds max|delta| / (1 - gamma * lambda). */
  lemma {:induction false} AdvantagesAreBounded(r: Rollout, gamma: real, c: real, d: real, t: nat)
    requires r.Valid() && t <= r.Size() && 0.0 <= c < 1.0 && 0.0 <= d
    requires DeltasWithin(r, gamma, d)
    ensures Abs(Running(r, gamma, c, t)) <= d / (1.0 - c)
    decreases r.Size() - t
  {
    NonNegativeQuotient(d, 1.0 - c);
    if t < r.Size() {
      AdvantagesAreBounded(r, gamma, c, d, t + 1);
      StepWithin(Delta(r, gamma, t), c, NotDone(r, t), Running(r, gamma, c, t + 1), d);
    }
  }

  lemma StepWithin(x: real, c: real, b: real, a: real, d: real)
    requires 0.0 <= c < 1.0 && 0.0 <= d / (1.0 - c) && (b == 0.0 || b == 1.0)
    requires Abs(x) <= d && Abs(a) <= d / (1.0 - c)
    ensures Abs(x + Times(Times(c, b), a)) <= d / (1.0 - c)
  {
    var q := d / (1.0 - c);
    FixedPoint(c, d);
    CutStep(c, a, b);
    Shrink(c, a, q);
    Shrink(c, 0.0, q);
    Add(x, Times(Times(c, b), a), d, Times(c, q));
  }

  lemma Add(x: real, y: real, d: real, e: real)
    requires Abs(x) <= d && Abs(y) <= e
    ensures Abs(x + y) <= d + e
  {
  }

  lemma NonNegativeQuotient(x: real, y: real)
    requires 0.0 <= x && 0.0 < y
    ensures 0.0 <= x / y
  {
  }
}

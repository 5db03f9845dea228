/**
 The fail-stack rule: consecutive-failure counters per plant and the prices that replace those of plants
 whose counter has reached the limit. Decimals are reals.
 */
module FailStack {
  import opened Wrappers
  import opened Floats
  import opened ActionSpace

  datatype Params = Params(limit: nat, delta: real, minMargin: real) {
    predicate Valid() { limit >= 1 && delta >= 0.0 }
  }

  type FailStackParams = p: Params | p.Valid() witness Params(1, 0.0, 0.0)

  /** The part of a cleared offer that the rule reads; the price is absent only when nothing was accepted. */
  datatype Outcome = Outcome(acceptedQuantity: real, acceptancePrice: Option<real>) {
    predicate Valid() { acceptedQuantity >= 0.0 && (acceptedQuantity > 0.0 ==> acceptancePrice.Some?) }
    predicate Accepted() { acceptedQuantity > 0.0 }
  }

  type OfferOutcome = o: Outcome | o.Valid() witness Outcome(0.0, None)

  // ---------------------------------------------------------------- failure

  function Revenue(o: OfferOutcome): real
    requires o.Accepted()
  {
    o.acceptancePrice.value * o.acceptedQuantity
  }

  function Margin(o: OfferOutcome, profit: real): Option<real> {
    if !o.Accepted() || Revenue(o) == 0.0 then None else Some(profit / Revenue(o))
  }

  predicate IsFailure(o: OfferOutcome, profit: real, minMargin: real) {
    if !o.Accepted() then true
    else
      var m := Margin(o, profit);
      if m.None? then profit < 0.0 else m.value < minMargin
  }

  lemma QuotientBelow(g: real, r: real, m: real)
    requires r != 0.0
    ensures g / r < m <==> if r > 0.0 then g < m * r else g > m * r
  {
    var q := g / r;
    assert q * r == g;
    assert (m - q) * r == m * r - g;
    SignOfProduct(m - q, r);
  }

  lemma SignOfProduct(x: real, r: real)
    requires r != 0.0
    ensures r > 0.0 ==> (x * r > 0.0 <==> x > 0.0)
    ensures r < 0.0 ==> (x * r < 0.0 <==> x > 0.0)
  {
  }

  /**
   The rule without the division. At a negative acceptance price the comparison turns round: there a loss can
   pass as a success.
   */
  lemma FailureMeans(o: OfferOutcome, profit: real, minMargin: real)
    ensures o.acceptedQuantity == 0.0 ==> IsFailure(o, profit, minMargin)
    ensures o.Accepted() <==> o.acceptedQuantity > 0.0
    ensures o.Accepted() && o.acceptancePrice.value > 0.0 ==>
              (IsFailure(o, profit, minMargin) <==> profit < minMargin * (o.acceptancePrice.value * o.acceptedQuantity))
    ensures o.Accepted() && o.acceptancePrice.value == 0.0 ==> (IsFailure(o, profit, minMargin) <==> profit < 0.0)
    ensures o.Accepted() && o.acceptancePrice.value < 0.0 ==>
              (IsFailure(o, profit, minMargin) <==> profit > minMargin * (o.acceptancePrice.value * o.acceptedQuantity))
  {
    if o.Accepted() {
      var p, q := o.acceptancePrice.value, o.acceptedQuantity;
      SignOfProduct(p, q);
      SignOfProduct(-p, q);
      assert (-p) * q == -(p * q);
      if p != 0.0 {
        QuotientBelow(profit, Revenue(o), minMargin);
      }
    }
  }

  // ---------------------------------------------------------------- the intervention price

  /** ROUND_FLOOR to whole cents. */
  function FloorCents(x: real): real {
    Cents((x * 100.0).Floor)
  }

  function Larger(a: real, b: real): real { if a < b then b else a }

  /** No draw is taken when the interval is empty. */
  predicate Draws(ptf: real, delta: real, low: real) {
    Larger(low, ptf - delta) < ptf
  }

  function Times(x: real, y: real): real { x * y }

  /** The draw from [a, b). */
  function Draw(a: real, b: real, u: Unit): real {
    a + Times(u, b - a)
  }

  function InterventionPrice(ptf: real, delta: real, low: real, high: real, u: Unit): real {
    var a := Larger(low, ptf - delta);
    if ptf <= a then Clip(ptf, low, high) else Clip(FloorCents(Draw(a, ptf, u)), low, high)
  }

  lemma DrawInside(a: real, b: real, u: Unit)
    requires a < b
    ensures a <= Draw(a, b, u) < b
  {
    UnitTimes(u, b - a);
  }

  lemma UnitTimes(u: Unit, s: real)
    requires 0.0 < s
    ensures 0.0 <= Times(u, s) < s
  {
    var d: real := 1.0 - u;
    NegativeTimes(0.0 - d, s);
    assert (0.0 - d) * s == u * s - s;
    if u > 0.0 {
      NegativeTimes(0.0 - u, s);
      assert (0.0 - u) * s == 0.0 - u * s;
    }
  }

  lemma FloorIsBelow(x: real)
    ensures x - 0.01 < FloorCents(x) <= x
  {
  }

  lemma ClippedFloor(x: real, ptf: real, low: real, high: real)
    requires low <= x < ptf && low <= high
    ensures low <= Clip(FloorCents(x), low, high) <= high
    ensures Clip(FloorCents(x), low, high) < ptf
    ensures x <= high ==> x - 0.01 < Clip(FloorCents(x), low, high)
  {
    FloorIsBelow(x);
  }

  /**
   Every intervention price is in the bounds and not more than delta and a cent below PTF(t-1); it undercuts
   PTF(t-1) exactly when PTF(t-1) is above the lower bound with a positive delta, or above the upper bound.
   */
  lemma InterventionUndercuts(ptf: real, delta: real, low: real, high: real, u: Unit)
    requires delta >= 0.0 && low <= high
    ensures var p := InterventionPrice(ptf, delta, low, high, u);
            && low <= p <= high
            && (p < ptf <==> (low < ptf && delta > 0.0) || high < ptf)
            && (ptf <= high ==> ptf - delta - 0.01 < p)
  {
    var a := Larger(low, ptf - delta);
    if a < ptf {
      DrawInside(a, ptf, u);
      FloorIsBelow(Draw(a, ptf, u));
      ClippedFloor(Draw(a, ptf, u), ptf, low, high);
    }
  }

  lemma ClippedPoint(x: real, low: real, high: real)
    requires low <= high
    ensures var p := Clip(FloorCents(x), low, high);
            && (p in {low, high} || p == FloorCents(x)) && p <= high
            && (x - 0.01 < p <= x || (p == low && x - 0.01 < low) || (p == high && high <= x))
  {
    FloorIsBelow(x);
  }

  /**
   Where the price comes from: the draw u picks the point that divides the interval from max(low, PTF - delta) to PTF
   as u divides [0, 1), rounded down to the cent and clipped; an empty interval gives PTF itself, clipped.
   */
  lemma InterventionPoint(ptf: real, delta: real, low: real, high: real, u: Unit)
    requires delta >= 0.0 && low <= high
    ensures var p := InterventionPrice(ptf, delta, low, high, u);
            var a := if ptf - delta < low then low else ptf - delta;
            var point := (1.0 - u) * a + u * ptf;
            if ptf <= a then p == if ptf < low then low else if ptf > high then high else ptf
            else (p in {low, high} || WholeCents(p)) && p <= high
                 && (point - 0.01 < p <= point || (p == low && point - 0.01 < low) || (p == high && high <= point))
  {
    var a := Larger(low, ptf - delta);
    DrawPoint(a, ptf, u);
    if a < ptf {
      var x := Draw(a, ptf, u);
      DrawInside(a, ptf, u);
      FloorIsBelow(x);
      ClippedPoint(x, low, high);
      CentsAreWhole((x * 100.0).Floor);
    }
  }

  lemma DrawPoint(a: real, b: real, u: Unit)
    ensures Draw(a, b, u) == (1.0 - u) * a + u * b
  {
    var x: real := u;
    assert (1.0 - x) * a == a - x * a;
    assert x * (b - a) == x * b - x * a;
  }

  /** With whole-cent bounds so is every intervention price, if a delta of 0 meets a PTF in whole cents. */
  lemma InterventionIsWhole(ptf: real, delta: real, low: real, high: real, u: Unit)
    requires delta >= 0.0 && low <= high && WholeCents(low) && WholeCents(high) && (delta == 0.0 ==> WholeCents(ptf))
    ensures WholeCents(InterventionPrice(ptf, delta, low, high, u))
  {
    var a := Larger(low, ptf - delta);
    CentsAreWhole((Draw(a, ptf, u) * 100.0).Floor);
  }

  // ---------------------------------------------------------------- counters

  type Counters = seq<nat>

  function Bump(c: Counters, failures: seq<bool>): Counters
    requires |failures| == |c|
  {
    seq(|c|, i requires 0 <= i < |c| => if failures[i] then c[i] + 1 else 0)
  }

  function Due(c: Counters, limit: nat): seq<bool> {
    seq(|c|, i requires 0 <= i < |c| => c[i] >= limit)
  }

  /** The counters after the interventions, or unchanged while no market price is known. */
  function Released(c: Counters, limit: nat, known: bool): Counters {
    if known then seq(|c|, i requires 0 <= i < |c| => if c[i] >= limit then 0 else c[i]) else c
  }

  function Flags(c: Counters, limit: nat, known: bool): seq<bool> {
    if known then Due(c, limit) else seq(|c|, i => false)
  }

  datatype Event = Update(failures: seq<bool>) | Decide(known: bool)

  predicate Fits(e: Event, n: nat) { e.Update? ==> |e.failures| == n }

  predicate AllFit(es: seq<Event>, n: nat) { forall i :: 0 <= i < |es| ==> Fits(es[i], n) }

  function Zeros(n: nat): Counters { seq(n, i => 0) }

  function Next(c: Counters, limit: nat, e: Event): (r: Counters)
    requires Fits(e, |c|)
    ensures |r| == |c|
  {
    match e
    case Update(failures) => Bump(c, failures)
    case Decide(known) => Released(c, limit, known)
  }

  /** The price of plant i is replaced by this event. */
  predicate Hits(c: Counters, limit: nat, e: Event, i: nat)
    requires i < |c|
  {
    e.Decide? && Flags(c, limit, e.known)[i]
  }

  /** The counters after a sequence of updates and decisions. */
  function CountersAfter(n: nat, limit: nat, es: seq<Event>): (c: Counters)
    requires AllFit(es, n)
    ensures |c| == n
  {
    if es == [] then Zeros(n) else Next(CountersAfter(n, limit, es[..|es| - 1]), limit, es[|es| - 1])
  }

  function Updates(es: seq<Event>): nat {
    if es == [] then 0 else Updates(es[..|es| - 1]) + if es[|es| - 1].Update? then 1 else 0
  }

  /** How often plant i has been intervened. */
  function Interventions(n: nat, limit: nat, es: seq<Event>, i: nat): nat
    requires AllFit(es, n) && i < n
  {
    if es == [] then 0
    else
      var c := CountersAfter(n, limit, es[..|es| - 1]);
      Interventions(n, limit, es[..|es| - 1], i) + if Hits(c, limit, es[|es| - 1], i) then 1 else 0
  }

  lemma AppendEvent(n: nat, limit: nat, es: seq<Event>, e: Event, i: nat)
    requires AllFit(es, n) && Fits(e, n) && i < n
    ensures AllFit(es + [e], n)
    ensures CountersAfter(n, limit, es + [e]) == Next(CountersAfter(n, limit, es), limit, e)
    ensures Updates(es + [e]) == Updates(es) + if e.Update? then 1 else 0
    ensures Interventions(n, limit, es + [e], i)
         == Interventions(n, limit, es, i) + if Hits(CountersAfter(n, limit, es), limit, e, i) then 1 else 0
  {
    assert (es + [e])[..|es|] == es;
  }

  /** An intervention is paid for by as many updates as the limit; no update pays twice. */
  lemma {:induction false} InterventionsArePaid(n: nat, limit: nat, es: seq<Event>, i: nat)
    requires AllFit(es, n) && i < n
    ensures limit * Interventions(n, limit, es, i) + CountersAfter(n, limit, es)[i] <= Updates(es)
  {
    if es != [] {
      InterventionsArePaid(n, limit, es[..|es| - 1], i);
      var k := Interventions(n, limit, es[..|es| - 1], i);
      assert limit * (k + 1) == limit * k + limit;
    }
  }

  lemma InterventionsAreRare(n: nat, limit: nat, es: seq<Event>, i: nat)
    requires AllFit(es, n) && i < n && limit >= 1
    ensures Interventions(n, limit, es, i) <= Updates(es) / limit
  {
    InterventionsArePaid(n, limit, es, i);
    var k, u := Interventions(n, limit, es, i), Updates(es);
    QuotientAtLeast(k, limit, u);
  }

  lemma QuotientAtLeast(k: nat, d: nat, u: nat)
    requires d >= 1 && d * k <= u
    ensures k <= u / d
  {
    assert u == d * (u / d) + u % d;
    if k > u / d {
      MulMonotone(d, u / d + 1, k);
    }
  }

  lemma MulMonotone(d: nat, a: nat, b: nat)
    requires a <= b
    ensures d * a <= d * b
  {
  }

  /** The failure flags of plant i, update by update. */
  function FailuresOf(n: nat, es: seq<Event>, i: nat): seq<bool>
    requires AllFit(es, n) && i < n
  {
    if es == [] then []
    else
      FailuresOf(n, es[..|es| - 1], i)
      + match es[|es| - 1]
        case Update(failures) => [failures[i]]
        case Decide(_) => []
  }

  /** A counter of k means that the last k updates of the plant were failures. */
  lemma {:induction false} CounterCountsFailures(n: nat, limit: nat, es: seq<Event>, i: nat)
    requires AllFit(es, n) && i < n
    ensures var f, k := FailuresOf(n, es, i), CountersAfter(n, limit, es)[i];
            k <= |f| && forall j :: |f| - k <= j < |f| ==> f[j]
  {
    if es != [] {
      CounterCountsFailures(n, limit, es[..|es| - 1], i);
    }
  }

  /** Whenever a price is replaced, the plant has failed in each of its last `limit` updates. */
  lemma InterventionFollowsFailures(n: nat, limit: nat, es: seq<Event>, i: nat, known: bool)
    requires AllFit(es, n) && i < n
    requires Flags(CountersAfter(n, limit, es), limit, known)[i]
    ensures var f := FailuresOf(n, es, i);
            limit <= |f| && forall j :: |f| - limit <= j < |f| ==> f[j]
  {
    CounterCountsFailures(n, limit, es, i);
  }

  /** The failure flags of plant i since its price was last replaced. */
  function FailuresSince(n: nat, limit: nat, es: seq<Event>, i: nat): seq<bool>
    requires AllFit(es, n) && i < n
  {
    if es == [] then []
    else
      var before := FailuresSince(n, limit, es[..|es| - 1], i);
      match es[|es| - 1]
      case Update(failures) => before + [failures[i]]
      case Decide(known) => if Flags(CountersAfter(n, limit, es[..|es| - 1]), limit, known)[i] then [] else before
  }

  /** How many of the last flags say failure. */
  predicate Streak(f: seq<bool>, k: nat) {
    k <= |f| && (forall j :: |f| - k <= j < |f| ==> f[j]) && (k < |f| ==> !f[|f| - k - 1])
  }

  /** The counter is exactly the number of failures in a row since the price was last replaced. */
  lemma {:induction false} CounterIsStreak(n: nat, limit: nat, es: seq<Event>, i: nat)
    requires AllFit(es, n) && i < n
    ensures Streak(FailuresSince(n, limit, es, i), CountersAfter(n, limit, es)[i])
  {
    if es != [] {
      CounterIsStreak(n, limit, es[..|es| - 1], i);
    }
  }

  /**
   A price is replaced if and only if a market price is known and the plant has failed in each of its last `limit`
   updates since the last replacement.
   */
  lemma ReplacedIff(n: nat, limit: nat, es: seq<Event>, i: nat, known: bool)
    requires AllFit(es, n) && i < n
    ensures Flags(CountersAfter(n, limit, es), limit, known)[i] <==>
            var f := FailuresSince(n, limit, es, i);
            known && limit <= |f| && forall j :: |f| - limit <= j < |f| ==> f[j]
  {
    CounterIsStreak(n, limit, es, i);
    var f, c := FailuresSince(n, limit, es, i), CountersAfter(n, limit, es)[i];
    if c < limit <= |f| {
      assert !f[|f| - c - 1];
    }
  }

  // ---------------------------------------------------------------- the state of one agent

  /** The draws taken for plants 0..i. */
  function DrawsTaken(c: Counters, params: FailStackParams, ptf: real, low: real, i: nat): nat
    requires i <= |c|
  {
    if i == 0 then 0
    else DrawsTaken(c, params, ptf, low, i - 1)
         + if c[i - 1] >= params.limit && Draws(ptf, params.delta, low) then 1 else 0
  }

  /** Plant i keeps its price, or gets one from the next draw of the generator. */
  function AppliedPrice(c: Counters, params: FailStackParams, prices: seq<real>, ptf: Option<real>, low: real, high: real,
                        random: nat -> Unit, i: nat): real
    requires |prices| == |c| && i < |c|
  {
    if ptf.Some? && c[i] >= params.limit then
      InterventionPrice(ptf.value, params.delta, low, high, random(DrawsTaken(c, params, ptf.value, low, i)))
    else prices[i]
  }

  /** The plants before plant i that are due in an interval that is not empty. */
  function DrawnBefore(c: Counters, params: FailStackParams, ptf: real, low: real, i: nat): set<nat>
    requires i <= |c|
  {
    set j: nat | j < i && c[j] >= params.limit && low < ptf && params.delta > 0.0
  }

  /** Plant i uses draw number n of the generator, n being the number of plants before it that have drawn. */
  lemma {:induction false} DrawIs(c: Counters, params: FailStackParams, prices: seq<real>, ptf: real, low: real, high: real,
                                  random: nat -> Unit, i: nat)
    requires |prices| == |c| && i < |c| && c[i] >= params.limit
    ensures var u := random(|DrawnBefore(c, params, ptf, low, i)|);
            AppliedPrice(c, params, prices, Some(ptf), low, high, random, i)
            == InterventionPrice(ptf, params.delta, low, high, u)
  {
    hide InterventionPrice;
    DrawsAreCounted(c, params, ptf, low, i);
  }

  lemma DrawsIff(ptf: real, delta: real, low: real)
    ensures Draws(ptf, delta, low) <==> low < ptf && delta > 0.0
  {
  }

  lemma {:induction false} DrawsAreCounted(c: Counters, params: FailStackParams, ptf: real, low: real, i: nat)
    requires i <= |c|
    ensures DrawsTaken(c, params, ptf, low, i) == |DrawnBefore(c, params, ptf, low, i)|
  {
    hide Draws;
    DrawsIff(ptf, params.delta, low);
    if i > 0 {
      DrawsAreCounted(c, params, ptf, low, i - 1);
      var before, after := DrawnBefore(c, params, ptf, low, i - 1), DrawnBefore(c, params, ptf, low, i);
      if c[i - 1] >= params.limit && low < ptf && params.delta > 0.0 {
        assert after == before + {i - 1};
      } else {
        assert after == before;
      }
    }
  }

  class FailStackState {
    const counters: array<nat>

    constructor (plants: nat)
      requires plants >= 1
      ensures fresh(counters) && counters[..] == Zeros(plants)
    {
      counters := new nat[plants](i => 0);
    }

    method UpdateCounters(failures: seq<bool>) returns (r: Result<(), Error>)
      modifies counters
      ensures r.Ok? <==> |failures| == counters.Length
      ensures counters[..] == if r.Ok? then Bump(old(counters[..]), failures) else old(counters[..])
    {
      if |failures| != counters.Length {
        return Err(ValueError);
      }
      for i := 0 to counters.Length
        invariant forall k :: 0 <= k < i ==> counters[k] == Bump(old(counters[..]), failures)[k]
        invariant forall k :: i <= k < counters.Length ==> counters[k] == old(counters[k])
      {
        counters[i] := if failures[i] then counters[i] + 1 else 0;
      }
      return Ok(());
    }

    method ApplyInterventions(params: FailStackParams, prices: seq<real>, ptf: Option<real>, low: real, high: real,
                              random: nat -> Unit)
      returns (r: Result<(seq<real>, seq<bool>), Error>)
      modifies counters
      ensures r.Ok? <==>
                |prices| == counters.Length && (InterventionsDue(old(counters[..]), params.limit, ptf) ==> low <= high)
      ensures r.Ok? ==>
                && counters[..] == Released(old(counters[..]), params.limit, ptf.Some?)
                && r.value.1 == Flags(old(counters[..]), params.limit, ptf.Some?)
                && |r.value.0| == |prices|
                && forall i :: 0 <= i < |prices| ==>
                     r.value.0[i] == AppliedPrice(old(counters[..]), params, prices, ptf, low, high, random, i)
      ensures r.Err? ==> counters[..] == old(counters[..])
    {
      ghost var c := counters[..];
      if |prices| != counters.Length {
        return Err(ValueError);
      }
      var applied, flags := prices, seq(|prices|, i => false);
      if ptf.None? {
        return Ok((applied, flags));
      }
      var used := 0;
      for i := 0 to counters.Length
        invariant |applied| == |flags| == counters.Length && used == DrawsTaken(c, params, ptf.value, low, i)
        invariant forall k :: 0 <= k < i ==> c[k] >= params.limit ==> low <= high
        invariant forall k :: 0 <= k < i ==>
                    && counters[k] == Released(c, params.limit, true)[k]
                    && flags[k] == Due(c, params.limit)[k]
                    && applied[k] == AppliedPrice(c, params, prices, ptf, low, high, random, k)
        invariant forall k :: i <= k < counters.Length ==>
                    counters[k] == c[k] && !flags[k] && applied[k] == prices[k]
      {
        if counters[i] >= params.limit {
          if high < low {
            return Err(ValueError);
          }
          applied := applied[i := InterventionPrice(ptf.value, params.delta, low, high, random(used))];
          if Draws(ptf.value, params.delta, low) {
            used := used + 1;
          }
          counters[i] := 0;
          flags := flags[i := true];
        }
      }
      return Ok((applied, flags));
    }
  }

  predicate InterventionsDue(c: Counters, limit: nat, ptf: Option<real>) {
    ptf.Some? && exists i :: 0 <= i < |c| && c[i] >= limit
  }
}

/**
 Budget reconstruction of the run analysis (abmem/services/analysis/run_analysis.py).

 A run rounds every agent budget to the cent after every period and stores only the last
 one.  The analysis walks back from the stored budget through the per-period profits.
 Budgets are integers of cents and profits integers of 10^-5 USD (energy has three decimals,
 prices have two), so CENT of them make a cent.
 */
module BudgetSeries {
  const CENT: int := 1000
  const HALF_CENT: int := 500

  /** ROUND_HALF_EVEN as a property: at most half a cent away, and even when exactly half. */
  predicate HalfEven(x: int, cents: int) {
    && -HALF_CENT <= CENT * cents - x <= HALF_CENT
    && (CENT * cents - x in {HALF_CENT, -HALF_CENT} ==> cents % 2 == 0)
  }

  /** Quantises an amount in 10^-5 USD to cents: the one multiple that is HalfEven. */
  function Quantize(x: int): (cents: int)
    ensures forall c :: HalfEven(x, c) <==> c == cents
  {
    var floor, rest := x / CENT, x % CENT;
    if rest < HALF_CENT || (rest == HALF_CENT && floor % 2 == 0) then floor else floor + 1
  }

  /** One budget update of a run (market_service.run_period). */
  function NextBudget(before: int, profit: int): int {
    Quantize(CENT * before + profit)
  }

  /** A period whose profit ends in exactly half a cent. */
  predicate Tie(profit: int) {
    profit % CENT == HALF_CENT
  }

  function FloorCents(x: int): int { x / CENT }

  function CeilCents(x: int): int { -((-x) / CENT) }

  /** Inverts one update: lower grid neighbour, upper grid neighbour, rounded difference. */
  function PreviousBudget(after: int, profit: int): int {
    var exact := CENT * after - profit;
    var low, high := FloorCents(exact), CeilCents(exact);
    if NextBudget(low, profit) == after then low
    else if NextBudget(high, profit) == after then high
    else Quantize(exact)
  }

  /** What one update does, in closed form: a tie always lands on an even cent. */
  lemma NextBudgetCases(before: int, profit: int)
    ensures var k := before + profit / CENT;
            NextBudget(before, profit) ==
            if profit % CENT < HALF_CENT then k
            else if profit % CENT > HALF_CENT then k + 1
            else if k % 2 == 0 then k else k + 1
    ensures Tie(profit) ==> NextBudget(before, profit) % 2 == 0
  {
    assert (CENT * before + profit) / CENT == before + profit / CENT;
    assert (CENT * before + profit) % CENT == profit % CENT;
  }

  /** What one inversion does, in closed form. */
  lemma PreviousBudgetCases(after: int, profit: int)
    ensures var k := after - profit / CENT;
            PreviousBudget(after, profit) ==
            if profit % CENT < HALF_CENT then k
            else if profit % CENT > HALF_CENT then k - 1
            else if after % 2 == 0 || (k - 1) % 2 == 0 then k - 1 else k
  {
    var q, r := profit / CENT, profit % CENT;
    var exact := CENT * after - profit;
    assert exact == CENT * (after - q) - r;
    var low, high := FloorCents(exact), CeilCents(exact);
    assert low == if r == 0 then after - q else after - q - 1;
    assert high == after - q;
    NextBudgetCases(low, profit);
    NextBudgetCases(high, profit);
    if r == HALF_CENT && after % 2 != 0 {
      assert exact / CENT == after - q - 1 && exact % CENT == HALF_CENT;
    }
  }

  /** The inversion yields a preimage exactly when one exists, and then the lowest one.  The one
      amount without a preimage is an odd cent after a tie. */
  lemma PreviousBudgetInverts(after: int, profit: int)
    ensures NextBudget(PreviousBudget(after, profit), profit) == after
            <==> !(Tie(profit) && after % 2 != 0)
    ensures forall before :: NextBudget(before, profit) == after ==>
              NextBudget(PreviousBudget(after, profit), profit) == after && PreviousBudget(after, profit) <= before
  {
    PreviousBudgetCases(after, profit);
    NextBudgetCases(PreviousBudget(after, profit), profit);
    forall before | NextBudget(before, profit) == after
      ensures NextBudget(PreviousBudget(after, profit), profit) == after && PreviousBudget(after, profit) <= before
    {
      NextBudgetCases(before, profit);
    }
  }

  /** Budgets B_0..B_N of a run that starts with B_0 = initial. */
  function Budgets(initial: int, profits: seq<int>): (series: seq<int>)
    ensures |series| == |profits| + 1 && series[0] == initial
    decreases |profits|
  {
    if profits == [] then [initial]
    else [initial] + Budgets(NextBudget(initial, profits[0]), profits[1..])
  }

  /** Budgets R_0..R_N reconstructed from the final budget. */
  function Reconstruct(final: int, profits: seq<int>): (series: seq<int>)
    ensures |series| == |profits| + 1 && series[|profits|] == final
    decreases |profits|
  {
    if profits == [] then [final]
    else
      var later := Reconstruct(final, profits[1..]);
      [PreviousBudget(later[0], profits[0])] + later
  }

  function Reverse(s: seq<int>): (r: seq<int>)
    ensures |r| == |s| && forall i :: 0 <= i < |s| ==> r[i] == s[|s| - 1 - i]
  {
    if s == [] then [] else Reverse(s[1..]) + [s[0]]
  }

  /** The loop of the source: append one earlier budget per profit, then reverse the list. */
  method ReconstructBudgetSeries(final: int, profits: seq<int>) returns (series: seq<int>)
    ensures series == Reconstruct(final, profits)
  {
    series := [final];
    var n := |profits|;
    assert profits[n..] == [];
    while n > 0
      invariant 0 <= n <= |profits| && |series| == |profits| - n + 1
      invariant Reverse(series) == Reconstruct(final, profits[n..])
    {
      n := n - 1;
      ghost var before := series;
      assert profits[n..][1..] == profits[n + 1..];
      assert Reverse(before)[0] == before[|before| - 1];
      series := series + [PreviousBudget(series[|series| - 1], profits[n])];
      ReverseAppend(before, series[|series| - 1]);
    }
    assert profits[0..] == profits;
    series := Reverse(series);
  }

  lemma {:induction false} ReverseAppend(s: seq<int>, x: int)
    ensures Reverse(s + [x]) == [x] + Reverse(s)
  {
    if s != [] {
      ReverseAppend(s[1..], x);
      assert (s + [x])[1..] == s[1..] + [x];
    }
  }

  /** Number of tie periods among the profits. */
  function Ties(profits: seq<int>): nat {
    if profits == [] then 0 else (if Tie(profits[0]) then 1 else 0) + Ties(profits[1..])
  }

  /** One backward step loses at most one cent at a tie, nothing elsewhere, and never turns a
      shortfall into an excess: even when the parity is wrong and the fallback is taken. */
  lemma StepError(before: int, profit: int, after: int)
    requires after <= NextBudget(before, profit)
    ensures var shortfall := NextBudget(before, profit) - after;
            var earlier := before - PreviousBudget(after, profit);
            && 0 <= earlier <= shortfall + (if Tie(profit) then 1 else 0)
            && (!Tie(profit) ==> earlier == shortfall)
  {
    NextBudgetCases(before, profit);
    PreviousBudgetCases(after, profit);
  }

  /** The reconstructed budget never exceeds the true one and falls short by at most one cent
      per later tie period. */
  lemma {:induction false} ReconstructionError(initial: int, profits: seq<int>, t: nat)
    requires t <= |profits|
    ensures var truth := Budgets(initial, profits);
            var series := Reconstruct(truth[|profits|], profits);
            0 <= truth[t] - series[t] <= Ties(profits[t..])
    decreases |profits|
  {
    if profits != [] {
      var truth := Budgets(initial, profits);
      var next := NextBudget(initial, profits[0]);
      var series := Reconstruct(truth[|profits|], profits);
      assert truth[1..] == Budgets(next, profits[1..]);
      assert truth[|profits|] == Budgets(next, profits[1..])[|profits| - 1];
      if t == 0 {
        ReconstructionError(next, profits[1..], 0);
        assert profits[0..] == profits && profits[1..][0..] == profits[1..];
        StepError(initial, profits[0], series[1]);
      } else {
        ReconstructionError(next, profits[1..], t - 1);
        assert profits[1..][t - 1..] == profits[t..];
      }
    }
  }

  /** Without ties the reconstruction is exact. */
  lemma {:induction false} ReconstructionExact(initial: int, profits: seq<int>)
    requires forall i :: 0 <= i < |profits| ==> !Tie(profits[i])
    ensures Reconstruct(Budgets(initial, profits)[|profits|], profits) == Budgets(initial, profits)
  {
    var truth := Budgets(initial, profits);
    var series := Reconstruct(truth[|profits|], profits);
    forall t | 0 <= t <= |profits| ensures series[t] == truth[t] {
      ReconstructionError(initial, profits, t);
      NoTies(profits[t..]);
    }
  }

  lemma {:induction false} NoTies(profits: seq<int>)
    requires forall i :: 0 <= i < |profits| ==> !Tie(profits[i])
    ensures Ties(profits) == 0
  {
    if profits != [] {
      NoTies(profits[1..]);
    }
  }

  /** From an exact later budget, one step is exact if and only if the period is no tie or its
      half cent was rounded up. */
  lemma StepExactIff(before: int, profit: int)
    ensures PreviousBudget(NextBudget(before, profit), profit) == before <==> RoundedUp(before, profit)
  {
    NextBudgetCases(before, profit);
    PreviousBudgetCases(NextBudget(before, profit), profit);
  }

  /** The period is no tie, or its half cent goes up because the cent below is odd. */
  predicate RoundedUp(before: int, profit: int) {
    Tie(profit) ==> (before + profit / CENT) % 2 != 0
  }

  /** The whole series is reconstructed exactly if and only if every tie was rounded up. */
  lemma {:induction false} ReconstructionExactIff(initial: int, profits: seq<int>)
    ensures var truth := Budgets(initial, profits);
            Reconstruct(truth[|profits|], profits) == truth
            <==> forall t :: 0 <= t < |profits| ==> RoundedUp(truth[t], profits[t])
    decreases |profits|
  {
    if profits != [] {
      var truth := Budgets(initial, profits);
      var next := NextBudget(initial, profits[0]);
      var later := Budgets(next, profits[1..]);
      assert truth == [initial] + later;
      ReconstructionExactIff(next, profits[1..]);
      StepExactIff(initial, profits[0]);
      var series := Reconstruct(truth[|profits|], profits);
      assert series[1..] == Reconstruct(later[|profits| - 1], profits[1..]);
      if forall t :: 0 <= t < |profits| ==> RoundedUp(truth[t], profits[t]) {
        assert RoundedUp(truth[0], profits[0]);
        forall t | 0 <= t < |profits| - 1 ensures RoundedUp(later[t], profits[1..][t]) {
          assert RoundedUp(truth[t + 1], profits[t + 1]);
        }
      }
      if series == truth {
        assert series[1..] == later;
        assert later[0] == next;
        forall t | 0 <= t < |profits| ensures RoundedUp(truth[t], profits[t]) {
          if t > 0 {
            assert RoundedUp(later[t - 1], profits[1..][t - 1]);
          }
        }
      }
    }
  }

  function HalfCents(n: nat): seq<int> {
    if n == 0 then [] else [HALF_CENT] + HalfCents(n - 1)
  }

  /** The bound is met for every number of ties: n profits of half a cent on a zero budget. */
  lemma {:induction false} ErrorBoundIsTight(n: nat)
    ensures |HalfCents(n)| == n == Ties(HalfCents(n))
    ensures Budgets(0, HalfCents(n))[n] == 0
    ensures Reconstruct(0, HalfCents(n))[0] == Budgets(0, HalfCents(n))[0] - n
  {
    hide NextBudget, PreviousBudget;
    if n > 0 {
      ErrorBoundIsTight(n - 1);
      assert HalfCents(n)[1..] == HalfCents(n - 1);
      HalfCentSteps(1 - n);
    }
  }

  lemma HalfCentSteps(after: int)
    ensures NextBudget(0, HALF_CENT) == 0 && PreviousBudget(after, HALF_CENT) == after - 1
  {
    NextBudgetCases(0, HALF_CENT);
    PreviousBudgetCases(after, HALF_CENT);
  }
}

/**
 Pareto dominance and the fast non-dominated sort (abmem/services/hpo/pareto.py).
 */
module Pareto {
  import opened Wrappers
  import opened Floats

  type Point = seq<Float>

  predicate NaNFree(p: Point) {
    forall k :: 0 <= k < |p| ==> p[k] != NaN
  }

  /** The pairs dominates accepts, it raises ValueError on every other pair. */
  predicate Comparable(a: Point, b: Point) {
    NaNFree(a) && NaNFree(b) && |a| == |b| > 0
  }

  /** a dominates b: nowhere worse, somewhere better. */
  predicate Dominates(a: Point, b: Point)
    requires |a| == |b|
  {
    && (forall k :: 0 <= k < |a| ==> Ge(a[k], b[k]))
    && (exists k :: 0 <= k < |a| && Gt(a[k], b[k]))
  }

  /** a dominates b exactly when it is another point and nowhere less. */
  lemma DominatesMeans(a: Point, b: Point)
    requires Comparable(a, b)
    ensures Dominates(a, b) <==> a != b && forall k :: 0 <= k < |a| ==> Ge(a[k], b[k])
    ensures Dominates(a, b) ==> !Dominates(b, a)
  {
    if a != b && forall k :: 0 <= k < |a| ==> Ge(a[k], b[k]) {
      var k :| 0 <= k < |a| && a[k] != b[k];
      assert Gt(a[k], b[k]);
    }
  }

  /** Coordinates compare as extended reals. */
  lemma OrderIs(a: Float, b: Float)
    requires a != NaN && b != NaN
    ensures a.Finite? && b.Finite? ==> (Ge(a, b) <==> a.v >= b.v) && (Gt(a, b) <==> a.v > b.v)
    ensures Ge(a, b) <==> Gt(a, b) || a == b
    ensures Gt(PosInf, a) <==> a != PosInf
    ensures Gt(a, NegInf) <==> a != NegInf
    ensures !(Gt(a, b) && Ge(b, a)) && (Ge(a, b) || Ge(b, a))
    ensures !Ge(NaN, a) && !Ge(a, NaN)
  {
  }

  lemma DominatesTransitive(a: Point, b: Point, c: Point)
    requires |a| == |b| == |c|
    requires Dominates(a, b) && Dominates(b, c)
    ensures Dominates(a, c)
  {
    var k :| 0 <= k < |a| && Gt(a[k], b[k]);
    assert Ge(b[k], c[k]);
    assert Gt(a[k], c[k]);
  }

  /** What the sort demands of its input.  A single point is never compared, so it may be empty. */
  predicate Sortable(points: seq<Point>) {
    && (forall i :: 0 <= i < |points| ==> NaNFree(points[i]))
    && (|points| > 1 ==>
          |points[0]| > 0 && forall i :: 0 <= i < |points| ==> |points[i]| == |points[0]|)
  }

  /** The sort accepts what dominates accepts, for every pair; its own test for NaN covers a single point too. */
  lemma SortableIff(points: seq<Point>)
    ensures Sortable(points) <==>
            && (forall i :: 0 <= i < |points| ==> NaNFree(points[i]))
            && forall i, j :: 0 <= i < j < |points| ==> Comparable(points[i], points[j])
  {
    if |points| > 1 && forall i, j :: 0 <= i < j < |points| ==> Comparable(points[i], points[j]) {
      assert Comparable(points[0], points[1]);
      forall j | 0 < j < |points| ensures |points[j]| == |points[0]| {
        assert Comparable(points[0], points[j]);
      }
    }
  }

  /** An empty point is refused exactly when it is not the only one. */
  lemma EmptyPointAccepted(points: seq<Point>, i: nat)
    requires i < |points| && points[i] == []
    ensures Sortable(points) <==> |points| == 1
  {
  }

  predicate Dom(points: seq<Point>, i: nat, j: nat)
    requires Sortable(points) && i < |points| && j < |points|
  {
    i != j && Dominates(points[i], points[j])
  }

  // ------------------------------------------------------------------ what a rank means

  /** Every rank is 1 plus the largest rank of a dominator of its point. */
  ghost predicate IsRanking(points: seq<Point>, ranks: seq<nat>)
    requires Sortable(points)
  {
    && |ranks| == |points|
    && forall i :: 0 <= i < |points| ==> RankedAt(points, ranks, i)
  }

  ghost predicate RankedAt(points: seq<Point>, ranks: seq<nat>, i: nat)
    requires Sortable(points) && |ranks| == |points| && i < |points|
  {
    && ranks[i] >= 1
    && (forall j :: 0 <= j < |points| && Dom(points, j, i) ==> ranks[j] < ranks[i])
    && (ranks[i] > 1 ==> exists j :: 0 <= j < |points| && Dom(points, j, i) && ranks[j] == ranks[i] - 1)
  }

  /** A chain of points, each dominating the next, that ends in i. */
  ghost predicate Chain(points: seq<Point>, chain: seq<nat>, i: nat)
    requires Sortable(points) && i < |points|
  {
    && |chain| > 0 && chain[|chain| - 1] == i
    && (forall k :: 0 <= k < |chain| ==> chain[k] < |points|)
    && (forall k :: 0 < k < |chain| ==> Dom(points, chain[k - 1], chain[k]))
  }

  /** A ranking gives every point the length of the longest domination chain ending there. */
  lemma {:induction false} RankBoundsChains(points: seq<Point>, ranks: seq<nat>, chain: seq<nat>, i: nat)
    requires Sortable(points) && IsRanking(points, ranks) && i < |points|
    requires Chain(points, chain, i)
    ensures |chain| <= ranks[i]
  {
    assert RankedAt(points, ranks, i);
    var n := |chain|;
    if n > 1 {
      assert Chain(points, chain[..n - 1], chain[n - 2]);
      RankBoundsChains(points, ranks, chain[..n - 1], chain[n - 2]);
      assert Dom(points, chain[n - 2], chain[n - 1]);
    }
  }

  lemma {:induction false} RankIsAttained(points: seq<Point>, ranks: seq<nat>, i: nat) returns (chain: seq<nat>)
    requires Sortable(points) && IsRanking(points, ranks) && i < |points|
    ensures Chain(points, chain, i) && |chain| == ranks[i]
    decreases ranks[i]
  {
    assert RankedAt(points, ranks, i);
    if ranks[i] == 1 {
      chain := [i];
    } else {
      var j: nat :| j < |points| && Dom(points, j, i) && ranks[j] == ranks[i] - 1;
      var shorter := RankIsAttained(points, ranks, j);
      chain := shorter + [i];
    }
  }

  /** There is only one ranking. */
  lemma RankingUnique(points: seq<Point>, r: seq<nat>, s: seq<nat>)
    requires Sortable(points) && IsRanking(points, r) && IsRanking(points, s)
    ensures r == s
  {
    forall i | 0 <= i < |points| ensures r[i] == s[i] {
      var c := RankIsAttained(points, r, i);
      RankBoundsChains(points, s, c, i);
      var d := RankIsAttained(points, s, i);
      RankBoundsChains(points, r, d, i);
    }
  }

  // ------------------------------------------------------------------ the sort

  /** The dominance relation of the points, as a set of pairs of indices. */
  ghost function Edges(points: seq<Point>): set<(nat, nat)>
    requires Sortable(points)
  {
    set i: nat, j: nat | i < |points| && j < |points| && Dom(points, i, j) :: (i, j)
  }

  lemma EdgesAreOrdered(points: seq<Point>)
    requires Sortable(points)
    ensures StrictOrder(Edges(points), |points|)
  {
    var E := Edges(points);
    forall i, j, k | (i, j) in E && (j, k) in E ensures (i, k) in E {
      DominatesTransitive(points[i], points[j], points[k]);
    }
  }

  ghost predicate Represents(E: set<(nat, nat)>, points: seq<Point>)
    requires Sortable(points)
  {
    E == Edges(points) && Asymmetric(E, |points|)
  }

  ghost predicate StrictOrder(E: set<(nat, nat)>, n: nat) {
    Asymmetric(E, n) && Transitive(E)
  }

  ghost predicate Asymmetric(E: set<(nat, nat)>, n: nat) {
    forall i, j :: (i, j) in E ==> i < n && j < n && i != j && (j, i) !in E
  }

  ghost predicate Transitive(E: set<(nat, nat)>) {
    forall i, j, k :: (i, j) in E && (j, k) in E ==> (i, k) in E
  }

  /** The pairs {a, b} compared once the loops stand at (i, j). */
  predicate Compared(a: nat, b: nat, i: nat, j: nat) {
    var lo, hi := if a < b then a else b, if a < b then b else a;
    lo != hi && (lo < i || (lo == i && hi < j))
  }

  lemma ComparedNext(a: nat, b: nat, i: nat, j: nat)
    requires i < j
    ensures Compared(a, b, i, j + 1) <==> Compared(a, b, i, j) || (a == i && b == j) || (a == j && b == i)
  {}

  /** The dominators of b among the compared pairs. */
  ghost function DominatorsOf(E: set<(nat, nat)>, n: nat, b: nat, i: nat, j: nat): set<nat> {
    set a: nat | a < n && (a, b) in E && Compared(a, b, i, j)
  }

  predicate NoRepeats(s: seq<nat>) {
    forall k, l :: 0 <= k < l < |s| ==> s[k] != s[l]
  }

  /** What the pair loops have filled in up to (i, j). */
  ghost predicate Filled(E: set<(nat, nat)>, n: nat, dominatedBy: seq<seq<nat>>, count: seq<nat>, i: nat, j: nat) {
    && |dominatedBy| == |count| == n
    && (forall a :: 0 <= a < n ==> ListFilled(E, dominatedBy[a], a, i, j))
    && (forall b :: 0 <= b < n ==> count[b] == |DominatorsOf(E, n, b, i, j)|)
  }

  ghost predicate ListFilled(E: set<(nat, nat)>, list: seq<nat>, a: nat, i: nat, j: nat) {
    && NoRepeats(list)
    && (forall b :: b in list <==> (a, b) in E && Compared(a, b, i, j))
  }

  /** Recording in w's list that w dominates l, where {w, l} is the pair at (i, j). */
  lemma RecordInList(E: set<(nat, nat)>, n: nat, list: seq<nat>, a: nat, i: nat, j: nat, w: nat, l: nat)
    requires Asymmetric(E, n) && i < j < n
    requires (w == i && l == j) || (w == j && l == i)
    requires (w, l) in E && ListFilled(E, list, a, i, j)
    ensures ListFilled(E, if a == w then list + [l] else list, a, i, j + 1)
  {
  }

  lemma RecordInCount(E: set<(nat, nat)>, n: nat, b: nat, i: nat, j: nat, w: nat, l: nat)
    requires Asymmetric(E, n) && i < j < n
    requires (w == i && l == j) || (w == j && l == i)
    requires (w, l) in E
    ensures |DominatorsOf(E, n, b, i, j + 1)| == |DominatorsOf(E, n, b, i, j)| + (if b == l then 1 else 0)
  {
    var before, after := DominatorsOf(E, n, b, i, j), DominatorsOf(E, n, b, i, j + 1);
    forall a: nat ensures a in after <==> a in before || (a == w && b == l) {
      ComparedNext(a, b, i, j);
    }
    if b == l {
      assert w !in before;
      assert after == before + {w};
    } else {
      assert after == before;
    }
  }

  lemma RecordPair(E: set<(nat, nat)>, n: nat, dominatedBy: seq<seq<nat>>, count: seq<nat>, i: nat, j: nat, w: nat, l: nat)
    requires Asymmetric(E, n) && i < j < n
    requires (w == i && l == j) || (w == j && l == i)
    requires (w, l) in E && Filled(E, n, dominatedBy, count, i, j)
    ensures Filled(E, n, dominatedBy[w := dominatedBy[w] + [l]], count[l := count[l] + 1], i, j + 1)
  {
    var lists, counts := dominatedBy[w := dominatedBy[w] + [l]], count[l := count[l] + 1];
    forall a: nat | a < n ensures ListFilled(E, lists[a], a, i, j + 1) {
      RecordInList(E, n, dominatedBy[a], a, i, j, w, l);
    }
    forall b: nat | b < n ensures counts[b] == |DominatorsOf(E, n, b, i, j + 1)| {
      RecordInCount(E, n, b, i, j, w, l);
    }
  }

  /** Moving on over a pair without dominance. */
  lemma SkipPair(E: set<(nat, nat)>, n: nat, dominatedBy: seq<seq<nat>>, count: seq<nat>, i: nat, j: nat)
    requires Asymmetric(E, n) && i < j < n && (i, j) !in E && (j, i) !in E
    requires Filled(E, n, dominatedBy, count, i, j)
    ensures Filled(E, n, dominatedBy, count, i, j + 1)
  {
    forall a: nat | a < n ensures ListFilled(E, dominatedBy[a], a, i, j + 1) {
      assert ListFilled(E, dominatedBy[a], a, i, j);
    }
    forall b: nat | b < n ensures DominatorsOf(E, n, b, i, j + 1) == DominatorsOf(E, n, b, i, j) {}
  }

  lemma NextRow(E: set<(nat, nat)>, n: nat, dominatedBy: seq<seq<nat>>, count: seq<nat>, i: nat)
    requires Asymmetric(E, n) && i < n && Filled(E, n, dominatedBy, count, i, n)
    ensures Filled(E, n, dominatedBy, count, i + 1, i + 2)
  {
    forall a: nat | a < n ensures ListFilled(E, dominatedBy[a], a, i + 1, i + 2) {
      assert ListFilled(E, dominatedBy[a], a, i, n);
    }
    forall b: nat | b < n ensures DominatorsOf(E, n, b, i + 1, i + 2) == DominatorsOf(E, n, b, i, n) {}
  }

  /** One pair of the double loop. */
  method ComparePair(points: seq<Point>, ghost E: set<(nat, nat)>, dominatedBy: seq<seq<nat>>, count: seq<nat>,
                     i: nat, j: nat)
    returns (dominatedBy': seq<seq<nat>>, count': seq<nat>)
    requires Sortable(points) && i < j < |points| && Represents(E, points)
    requires Filled(E, |points|, dominatedBy, count, i, j)
    ensures Filled(E, |points|, dominatedBy', count', i, j + 1)
  {
    if Dominates(points[i], points[j]) {
      assert (i, j) in E;
      RecordPair(E, |points|, dominatedBy, count, i, j, i, j);
      dominatedBy' := dominatedBy[i := dominatedBy[i] + [j]];
      count' := count[j := count[j] + 1];
    } else if Dominates(points[j], points[i]) {
      assert (j, i) in E;
      RecordPair(E, |points|, dominatedBy, count, i, j, j, i);
      dominatedBy' := dominatedBy[j := dominatedBy[j] + [i]];
      count' := count[i := count[i] + 1];
    } else {
      SkipPair(E, |points|, dominatedBy, count, i, j);
      dominatedBy', count' := dominatedBy, count;
    }
  }

  /** The pair loops: dominatedBy[a] lists what a dominates, count[b] counts b's dominators. */
  method CompareAll(points: seq<Point>, ghost E: set<(nat, nat)>)
    returns (dominatedBy: seq<seq<nat>>, count: seq<nat>)
    requires Sortable(points) && Represents(E, points)
    ensures Filled(E, |points|, dominatedBy, count, |points|, |points| + 1)
  {
    hide Filled, Sortable, Dominates;
    var n := |points|;
    dominatedBy, count := seq(n, _ => []), seq(n, _ => 0);
    NothingCompared(E, n, dominatedBy, count);
    for i := 0 to n
      invariant Filled(E, n, dominatedBy, count, i, i + 1)
    {
      for j := i + 1 to n
        invariant Filled(E, n, dominatedBy, count, i, j)
      {
        dominatedBy, count := ComparePair(points, E, dominatedBy, count, i, j);
      }
      NextRow(E, n, dominatedBy, count, i);
    }
  }

  lemma NothingCompared(E: set<(nat, nat)>, n: nat, dominatedBy: seq<seq<nat>>, count: seq<nat>)
    requires |dominatedBy| == |count| == n
    requires forall a :: 0 <= a < n ==> dominatedBy[a] == [] && count[a] == 0
    ensures Filled(E, n, dominatedBy, count, 0, 1)
  {
    forall b: nat | b < n ensures DominatorsOf(E, n, b, 0, 1) == {} {}
    forall a: nat | a < n ensures ListFilled(E, dominatedBy[a], a, 0, 1) {}
  }

  // ------------------------------------------------------------------ peeling the fronts

  /** The dominators of b that have no rank yet. */
  ghost function Pending(E: set<(nat, nat)>, ranks: seq<nat>, b: nat): set<nat> {
    set a: nat | a < |ranks| && ranks[a] == 0 && (a, b) in E
  }

  /** domination_count holds exactly the number of unranked dominators. */
  ghost predicate Counts(E: set<(nat, nat)>, ranks: seq<nat>, count: seq<nat>) {
    |count| == |ranks| && forall b :: 0 <= b < |ranks| ==> count[b] == |Pending(E, ranks, b)|
  }

  /** j has no rank yet, all its dominators have one. */
  ghost predicate Ready(E: set<(nat, nat)>, ranks: seq<nat>, j: nat) {
    j < |ranks| && ranks[j] == 0 && Pending(E, ranks, j) == {}
  }

  /** list holds exactly the points i dominates. */
  ghost predicate Lists(E: set<(nat, nat)>, list: seq<nat>, i: nat) {
    NoRepeats(list) && forall b :: b in list <==> (i, b) in E
  }

  /** The ranks given so far satisfy the recurrence, and none reaches r. */
  ghost predicate Ranked(E: set<(nat, nat)>, ranks: seq<nat>, r: nat) {
    forall i :: 0 <= i < |ranks| && ranks[i] > 0 ==> ranks[i] < r && RankOf(E, ranks, i)
  }

  ghost predicate RankOf(E: set<(nat, nat)>, ranks: seq<nat>, i: nat) {
    && i < |ranks|
    && (forall j :: 0 <= j < |ranks| && (j, i) in E ==> 0 < ranks[j] < ranks[i])
    && (ranks[i] > 1 ==> HasDominatorOfRank(E, ranks, i, ranks[i] - 1))
  }

  ghost predicate HasDominatorOfRank(E: set<(nat, nat)>, ranks: seq<nat>, i: nat, r: nat) {
    exists j :: 0 <= j < |ranks| && (j, i) in E && ranks[j] == r
  }

  /** front holds the ready points except those of rest, each just below a point of rank r - 1. */
  ghost predicate Front(E: set<(nat, nat)>, ranks: seq<nat>, rest: seq<nat>, front: seq<nat>, r: nat) {
    && NoRepeats(front)
    && (forall j :: j in front <==> Ready(E, ranks, j) && j !in rest)
    && (r > 1 ==> forall j :: j in front ==> HasDominatorOfRank(E, ranks, j, r - 1))
  }

  /** The counters while the points of list[m..] still wait for their decrement. */
  ghost predicate Decremented(E: set<(nat, nat)>, ranks: seq<nat>, count: seq<nat>, list: seq<nat>, m: nat)
    requires m <= |list|
  {
    && |count| == |ranks|
    && forall b :: 0 <= b < |ranks| ==> count[b] == |Pending(E, ranks, b)| + (if b in list[m..] then 1 else 0)
  }

  lemma PendingAfter(E: set<(nat, nat)>, ranks: seq<nat>, i: nat, r: nat, b: nat)
    requires i < |ranks| && ranks[i] == 0 && r > 0
    ensures |Pending(E, ranks, b)| == |Pending(E, ranks[i := r], b)| + (if (i, b) in E then 1 else 0)
  {
    var before, after := Pending(E, ranks, b), Pending(E, ranks[i := r], b);
    if (i, b) in E {
      assert i in before && i !in after;
      assert before == after + {i};
    } else {
      assert before == after;
    }
  }

  lemma RankingOne(E: set<(nat, nat)>, ranks: seq<nat>, count: seq<nat>, list: seq<nat>, i: nat, r: nat)
    requires i < |ranks| && ranks[i] == 0 && r > 0
    requires Counts(E, ranks, count) && Lists(E, list, i)
    ensures Decremented(E, ranks[i := r], count, list, 0)
  {
    assert list[0..] == list;
    forall b | 0 <= b < |ranks|
      ensures count[b] == |Pending(E, ranks[i := r], b)| + (if b in list[0..] then 1 else 0)
    {
      PendingAfter(E, ranks, i, r, b);
    }
  }

  lemma DecrementOne(E: set<(nat, nat)>, ranks: seq<nat>, count: seq<nat>, list: seq<nat>, m: nat)
    requires m < |list| && NoRepeats(list) && list[m] < |ranks|
    requires Decremented(E, ranks, count, list, m)
    ensures count[list[m]] > 0
    ensures Decremented(E, ranks, count[list[m] := count[list[m]] - 1], list, m + 1)
  {
    assert list[m..] == [list[m]] + list[m + 1..];
    assert list[m] !in list[m + 1..];
  }

  /** Which points have been appended to the next front when list[..m] is decremented. */
  ghost predicate Appended(E: set<(nat, nat)>, before: seq<nat>, after: seq<nat>, rest: seq<nat>,
                           list: seq<nat>, m: nat, next: seq<nat>)
    requires m <= |list|
  {
    && NoRepeats(next)
    && forall j :: j in next <==>
         (Ready(E, before, j) && j !in rest) || (j in list[..m] && Pending(E, after, j) == {})
  }

  lemma AppendOne(E: set<(nat, nat)>, before: seq<nat>, after: seq<nat>, rest: seq<nat>,
                  list: seq<nat>, m: nat, next: seq<nat>, i: nat)
    requires m < |list| && Lists(E, list, i) && i < |before| && before[i] == 0
    requires Appended(E, before, after, rest, list, m, next)
    ensures Appended(E, before, after, rest, list, m + 1,
                     if Pending(E, after, list[m]) == {} then next + [list[m]] else next)
  {
    var j := list[m];
    assert list[..m + 1] == list[..m] + [j];
    assert i in Pending(E, before, j);
    assert j !in list[..m];
  }

  /** All points of list decremented: next is the new front as far as processed. */
  lemma AllAppended(E: set<(nat, nat)>, before: seq<nat>, rest: seq<nat>, list: seq<nat>, next: seq<nat>, i: nat, r: nat)
    requires Asymmetric(E, |before|) && Lists(E, list, i) && i < |before| && before[i] == 0 && r > 0
    requires Ranked(E, before, r + 1)
    requires forall j :: j in rest ==> Ready(E, before, j)
    requires i !in rest
    requires Appended(E, before, before[i := r], [i] + rest, list, |list|, next)
    ensures forall j :: j in next <==> Ready(E, before[i := r], j) && j !in rest
  {
    var after := before[i := r];
    assert list[..|list|] == list;
    forall j: nat ensures j in next <==> Ready(E, after, j) && j !in rest {
      if (i, j) in E {
        assert i in Pending(E, before, j);
        assert before[j] == 0 by {
          assert before[j] > 0 ==> RankOf(E, before, j);
        }
      } else {
        assert Pending(E, after, j) == Pending(E, before, j);
      }
    }
  }

  /** The points of rest are ready and all their dominators have a rank below r. */
  ghost predicate Remaining(E: set<(nat, nat)>, ranks: seq<nat>, rest: seq<nat>, r: nat) {
    && NoRepeats(rest)
    && forall j :: j in rest ==> Ready(E, ranks, j) && DominatorsBelow(E, ranks, j, r)
  }

  ghost predicate DominatorsBelow(E: set<(nat, nat)>, ranks: seq<nat>, j: nat, r: nat) {
    forall a :: 0 <= a < |ranks| && (a, j) in E ==> 0 < ranks[a] < r
  }

  lemma RemainingAfter(E: set<(nat, nat)>, ranks: seq<nat>, rest: seq<nat>, i: nat, r: nat)
    requires i < |ranks| && ranks[i] == 0 && r > 0 && i !in rest
    requires Remaining(E, ranks, rest, r)
    ensures Remaining(E, ranks[i := r], rest, r)
  {
    forall j | j in rest
      ensures Ready(E, ranks[i := r], j) && DominatorsBelow(E, ranks[i := r], j, r)
    {
      assert i !in Pending(E, ranks, j);
      assert Pending(E, ranks[i := r], j) == {};
    }
  }

  lemma RankedAfter(E: set<(nat, nat)>, ranks: seq<nat>, i: nat, r: nat)
    requires Asymmetric(E, |ranks|) && i < |ranks| && ranks[i] == 0 && r > 0
    requires Ranked(E, ranks, r + 1) && DominatorsBelow(E, ranks, i, r)
    requires r > 1 ==> HasDominatorOfRank(E, ranks, i, r - 1)
    ensures Ranked(E, ranks[i := r], r + 1)
  {
    var after := ranks[i := r];
    forall j | 0 <= j < |ranks| && after[j] > 0 ensures RankOf(E, after, j) {
      if j == i {
        if r > 1 {
          var a :| 0 <= a < |ranks| && (a, i) in E && ranks[a] == r - 1;
          assert after[a] == r - 1;
        }
      } else {
        assert RankOf(E, ranks, j);
        if ranks[j] > 1 {
          var a :| 0 <= a < |ranks| && (a, j) in E && ranks[a] == ranks[j] - 1;
          assert after[a] == after[j] - 1;
        }
      }
    }
  }

  lemma NextHasDominator(E: set<(nat, nat)>, ranks: seq<nat>, list: seq<nat>, rest: seq<nat>,
                         next: seq<nat>, next': seq<nat>, i: nat, r: nat)
    requires i < |ranks| && ranks[i] == 0 && r > 0 && Lists(E, list, i)
    requires Front(E, ranks, [i] + rest, next, r + 1)
    requires forall j :: j in next' ==> j in next || j in list
    ensures forall j :: j in next' ==> HasDominatorOfRank(E, ranks[i := r], j, r)
  {
    forall j | j in next' ensures HasDominatorOfRank(E, ranks[i := r], j, r) {
      if j in next {
        assert HasDominatorOfRank(E, ranks, j, r);
        var a :| 0 <= a < |ranks| && (a, j) in E && ranks[a] == r;
        assert ranks[i := r][a] == r;
      } else {
        assert (i, j) in E && ranks[i := r][i] == r;
      }
    }
  }

  /** The unranked points, the measure of the peeling loop. */
  ghost function Unranked(ranks: seq<nat>): set<nat> {
    set i: nat | i < |ranks| && ranks[i] == 0
  }

  lemma AfterPoint(E: set<(nat, nat)>, ranks: seq<nat>, rest: seq<nat>, i: nat, r: nat)
    requires i < |ranks| && ranks[i] == 0
    requires r > 1 ==> forall j :: j in rest ==> HasDominatorOfRank(E, ranks, j, r - 1)
    ensures r > 1 ==> forall j :: j in rest ==> HasDominatorOfRank(E, ranks[i := r], j, r - 1)
    ensures r > 0 ==> Unranked(ranks[i := r]) < Unranked(ranks)
  {
    assert i in Unranked(ranks) && (r > 0 ==> i !in Unranked(ranks[i := r]));
    if r > 1 {
      forall j | j in rest ensures HasDominatorOfRank(E, ranks[i := r], j, r - 1) {
        assert HasDominatorOfRank(E, ranks, j, r - 1);
        var a :| 0 <= a < |ranks| && (a, j) in E && ranks[a] == r - 1;
        assert ranks[i := r][a] == r - 1;
      }
    }
  }

  /** The state of the sweep over one front: rest is still to do, next is the front after it. */
  ghost predicate Sweep(E: set<(nat, nat)>, ranks: seq<nat>, count: seq<nat>, rest: seq<nat>, next: seq<nat>, r: nat) {
    && Counts(E, ranks, count)
    && Ranked(E, ranks, r + 1)
    && Remaining(E, ranks, rest, r)
    && Front(E, ranks, rest, next, r + 1)
    && (r > 1 ==> forall j :: j in rest ==> HasDominatorOfRank(E, ranks, j, r - 1))
  }

  lemma SweepHead(E: set<(nat, nat)>, ranks: seq<nat>, count: seq<nat>, i: nat, rest: seq<nat>, next: seq<nat>, r: nat)
    requires Sweep(E, ranks, count, [i] + rest, next, r)
    ensures i !in rest && Remaining(E, ranks, rest, r)
    ensures Ready(E, ranks, i) && DominatorsBelow(E, ranks, i, r)
    ensures r > 1 ==>
              HasDominatorOfRank(E, ranks, i, r - 1) && forall j :: j in rest ==> HasDominatorOfRank(E, ranks, j, r - 1)
  {
    var all := [i] + rest;
    assert all[0] == i && i in all;
    assert forall j :: j in rest ==> j in all;
    assert forall k :: 0 <= k < |rest| ==> rest[k] == all[k + 1];
  }

  /** One point of the front: it gets rank r, its points lose a dominator, some join the next front. */
  method PeelPoint(ghost E: set<(nat, nat)>, list: seq<nat>, i: nat, r: nat, ranks: seq<nat>, count: seq<nat>,
                   front: seq<nat>, ghost rest: seq<nat>)
    returns (ranks': seq<nat>, count': seq<nat>, next: seq<nat>)
    requires r > 0 && Asymmetric(E, |ranks|) && Lists(E, list, i)
    requires Sweep(E, ranks, count, [i] + rest, front, r)
    ensures i < |ranks| && ranks' == ranks[i := r]
    ensures Sweep(E, ranks', count', rest, next, r)
    ensures Unranked(ranks') < Unranked(ranks)
  {
    SweepHead(E, ranks, count, i, rest, front, r);
    ranks', count', next := ranks[i := r], count, front;
    RankingOne(E, ranks, count, list, i, r);
    RemainingAfter(E, ranks, rest, i, r);
    RankedAfter(E, ranks, i, r);
    AfterPoint(E, ranks, rest, i, r);
    for m := 0 to |list|
      invariant Decremented(E, ranks', count', list, m)
      invariant Appended(E, ranks, ranks', [i] + rest, list, m, next)
      invariant forall j :: j in next ==> j in front || j in list
    {
      var j := list[m];
      assert (i, j) in E;
      DecrementOne(E, ranks', count', list, m);
      AppendOne(E, ranks, ranks', [i] + rest, list, m, next, i);
      count' := count'[j := count'[j] - 1];
      assert count'[j] == |Pending(E, ranks', j)|;
      if count'[j] == 0 {
        next := next + [j];
      }
    }
    AllAppended(E, ranks, rest, list, next, i, r);
    NextHasDominator(E, ranks, list, rest, front, next, i, r);
    assert list[|list|..] == [];
  }

  /** A nonempty set of points holds one that no other point of the set dominates. */
  lemma {:induction false} Undominated(E: set<(nat, nat)>, n: nat, S: set<nat>) returns (j: nat)
    requires StrictOrder(E, n) && S != {}
    ensures j in S && forall a :: a in S ==> (a, j) !in E
  {
    var i :| i in S;
    var above := set a | a in S && (a, i) in E;
    if above == {} {
      j := i;
      assert forall a :: a in S && (a, i) in E ==> a in above;
    } else {
      assert i !in above;
      assert above < S;
      j := Undominated(E, n, above);
      forall a | a in S && (a, j) in E ensures a in above {
        assert (j, i) in E;
      }
    }
  }

  /** While a point has no rank, some point is ready. */
  lemma SomeReady(E: set<(nat, nat)>, ranks: seq<nat>, i: nat) returns (j: nat)
    requires StrictOrder(E, |ranks|) && i < |ranks| && ranks[i] == 0
    ensures Ready(E, ranks, j)
  {
    assert i in Unranked(ranks);
    j := Undominated(E, |ranks|, Unranked(ranks));
    assert forall a :: a in Pending(E, ranks, j) ==> a in Unranked(ranks);
  }

  /** An empty front means that every point has its rank. */
  lemma AllRanked(E: set<(nat, nat)>, ranks: seq<nat>)
    requires StrictOrder(E, |ranks|) && forall j :: !Ready(E, ranks, j)
    ensures forall i :: 0 <= i < |ranks| ==> ranks[i] > 0
  {
    forall i | 0 <= i < |ranks| ensures ranks[i] > 0 {
      if ranks[i] == 0 {
        var j := SomeReady(E, ranks, i);
      }
    }
  }

  /** A finished ranking over the edges is a ranking of the points. */
  lemma RankingOfPoints(points: seq<Point>, ranks: seq<nat>, r: nat)
    requires Sortable(points) && |ranks| == |points| && Ranked(Edges(points), ranks, r)
    requires forall i :: 0 <= i < |ranks| ==> ranks[i] > 0
    ensures IsRanking(points, ranks)
  {
    forall i | 0 <= i < |points| ensures RankedAt(points, ranks, i) {
      assert RankOf(Edges(points), ranks, i);
      forall j | 0 <= j < |points| && Dom(points, j, i) ensures ranks[j] < ranks[i] {
        assert (j, i) in Edges(points);
      }
      if ranks[i] > 1 {
        var j :| 0 <= j < |ranks| && (j, i) in Edges(points) && ranks[j] == ranks[i] - 1;
        assert Dom(points, j, i);
      }
    }
  }

  lemma FrontBegins(E: set<(nat, nat)>, ranks: seq<nat>, front: seq<nat>, r: nat)
    requires Ranked(E, ranks, r) && Front(E, ranks, [], front, r) && r > 0
    ensures Ranked(E, ranks, r + 1)
    ensures Remaining(E, ranks, front, r)
    ensures Front(E, ranks, front, [], r + 1)
  {
    forall i | 0 <= i < |ranks| && ranks[i] > 0 ensures RankOf(E, ranks, i) {}
    forall j | j in front ensures Ready(E, ranks, j) && DominatorsBelow(E, ranks, j, r) {
      forall a | 0 <= a < |ranks| && (a, j) in E ensures 0 < ranks[a] < r {
        assert a !in Pending(E, ranks, j);
      }
    }
  }

  datatype Error = ValueError

  /** Before any rank is given, the counters are the numbers of dominators. */
  lemma CountsAtStart(E: set<(nat, nat)>, n: nat, dominatedBy: seq<seq<nat>>, count: seq<nat>, ranks: seq<nat>)
    requires Asymmetric(E, n) && Filled(E, n, dominatedBy, count, n, n + 1)
    requires |ranks| == n && forall i :: 0 <= i < n ==> ranks[i] == 0
    ensures Counts(E, ranks, count)
    ensures forall i :: 0 <= i < n ==> Lists(E, dominatedBy[i], i)
  {
    forall b: nat | b < n ensures count[b] == |Pending(E, ranks, b)| {
      assert Pending(E, ranks, b) == DominatorsOf(E, n, b, n, n + 1);
    }
    forall i: nat | i < n ensures Lists(E, dominatedBy[i], i) {
      assert ListFilled(E, dominatedBy[i], i, n, n + 1);
    }
  }

  /** The positions of a value, ascending. */
  function Positions(s: seq<nat>, v: nat): (p: seq<nat>)
    ensures forall i: nat :: i in p <==> i < |s| && s[i] == v
    ensures forall k :: 0 <= k < |p| ==> p[k] < |s|
    ensures forall k, l :: 0 <= k < l < |p| ==> p[k] < p[l]
  {
    if s == [] then []
    else
      var n := |s| - 1;
      Positions(s[..n], v) + (if s[n] == v then [n] else [])
  }

  lemma FirstFront(E: set<(nat, nat)>, ranks: seq<nat>, count: seq<nat>)
    requires Counts(E, ranks, count) && forall i :: 0 <= i < |ranks| ==> ranks[i] == 0
    ensures Front(E, ranks, [], Positions(count, 0), 1)
  {
    forall j: nat ensures j in Positions(count, 0) <==> Ready(E, ranks, j) {
      if j < |ranks| {
        assert count[j] == |Pending(E, ranks, j)|;
      }
    }
  }

  /** All points of one front. */
  method PeelFront(ghost E: set<(nat, nat)>, dominatedBy: seq<seq<nat>>, front: seq<nat>, r: nat,
                   ranks: seq<nat>, count: seq<nat>)
    returns (ranks': seq<nat>, count': seq<nat>, next: seq<nat>)
    requires |dominatedBy| == |ranks| && Asymmetric(E, |ranks|) && r > 0
    requires forall i :: 0 <= i < |ranks| ==> Lists(E, dominatedBy[i], i)
    requires Counts(E, ranks, count) && Ranked(E, ranks, r) && Front(E, ranks, [], front, r)
    ensures |ranks'| == |ranks|
    ensures Counts(E, ranks', count') && Ranked(E, ranks', r + 1) && Front(E, ranks', [], next, r + 1)
    ensures front != [] ==> Unranked(ranks') < Unranked(ranks)
  {
    ranks', count', next := ranks, count, [];
    FrontBegins(E, ranks, front, r);
    for k := 0 to |front|
      invariant |ranks'| == |ranks| && Sweep(E, ranks', count', front[k..], next, r)
      invariant Unranked(ranks') <= Unranked(ranks) && (k > 0 ==> Unranked(ranks') < Unranked(ranks))
    {
      assert front[k..] == [front[k]] + front[k + 1..];
      SweepHead(E, ranks', count', front[k], front[k + 1..], next, r);
      ranks', count', next :=
        PeelPoint(E, dominatedBy[front[k]], front[k], r, ranks', count', next, front[k + 1..]);
    }
    assert front[|front|..] == [];
  }

  /** Fast non-dominated sort: the one ranking of the points, or ValueError. */
  method NonDominatedSort(points: seq<Point>) returns (r: Result<seq<nat>, Error>)
    ensures r.Ok? <==> Sortable(points)
    ensures r.Ok? ==> IsRanking(points, r.value)
  {
    if !Sortable(points) {
      return Err(ValueError);
    }
    ghost var E := Edges(points);
    EdgesAreOrdered(points);
    var dominatedBy, count := CompareAll(points, E);
    var ranks := seq(|points|, _ => 0);
    CountsAtStart(E, |points|, dominatedBy, count, ranks);
    var front := Positions(count, 0);
    FirstFront(E, ranks, count);
    var rank := 1;
    while front != []
      invariant rank > 0 && |ranks| == |points|
      invariant Counts(E, ranks, count) && Ranked(E, ranks, rank) && Front(E, ranks, [], front, rank)
      decreases Unranked(ranks)
    {
      ranks, count, front := PeelFront(E, dominatedBy, front, rank, ranks, count);
      rank := rank + 1;
    }
    AllRanked(E, ranks);
    RankingOfPoints(points, ranks, rank);
    return Ok(ranks);
  }

  // ------------------------------------------------------------------ the front

  /** No point of the input dominates point i. */
  ghost predicate OnFront(points: seq<Point>, i: nat)
    requires Sortable(points) && i < |points|
  {
    forall j :: 0 <= j < |points| ==> !Dom(points, j, i)
  }

  /** The indices, ascending, of all points that no point dominates, duplicates included. */
  method ParetoFront(points: seq<Point>) returns (r: Result<seq<nat>, Error>)
    ensures r.Ok? <==> Sortable(points)
    ensures r.Ok? ==>
              && (forall i: nat :: i in r.value <==> i < |points| && OnFront(points, i))
              && (forall k, l :: 0 <= k < l < |r.value| ==> r.value[k] < r.value[l])
  {
    var ranks :- NonDominatedSort(points);
    RankOneIsFront(points, ranks);
    return Ok(Positions(ranks, 1));
  }

  lemma RankOneIsFront(points: seq<Point>, ranks: seq<nat>)
    requires Sortable(points) && IsRanking(points, ranks)
    ensures forall i :: 0 <= i < |points| ==> (ranks[i] == 1 <==> OnFront(points, i))
  {
    forall i | 0 <= i < |points| ensures ranks[i] == 1 <==> OnFront(points, i) {
      assert RankedAt(points, ranks, i);
      forall j | 0 <= j < |points| ensures ranks[i] == 1 ==> !Dom(points, j, i) {
        assert RankedAt(points, ranks, j);
      }
    }
  }
}

/**
 The batch-synchronous Artificial Bee Colony optimizer (abmem/services/hpo/abc_optimizer.py).

 BeeColonySpec states what a run means in terms of the log of all evaluated candidates; the
 class of BeeColony is the optimizer, whose fields are at every phase boundary functions of
 that log.
 */
module BeeColonySpec {
  import opened Wrappers
  import opened Floats
  import Pareto

  type Vec = seq<real>

  datatype Phase = INIT | EMPLOYED | ONLOOKER | SCOUT

  /** A unit-cube point submitted for evaluation. */
  datatype Request = Request(iteration: nat, phase: Phase, source: nat, x: Vec)

  /** (agent score, market score), larger is better. */
  datatype Objectives = Objectives(agent: Float, market: Float) {
    predicate IsFinite() { agent.Finite? && market.Finite? }

    function Point(): Pareto.Point { [agent, market] }

    /** Pareto dominance of two objective pairs, see DominatesIsPareto. */
    predicate Dominates(o: Objectives) {
      Ge(agent, o.agent) && Ge(market, o.market) && (Gt(agent, o.agent) || Gt(market, o.market))
    }
  }

  datatype CandidateScore = CandidateScore(request: Request, objectives: Objectives)

  datatype Weights = Weights(agent: real, market: real)

  type Log = seq<CandidateScore>

  predicate InUnitCube(x: Vec) {
    forall j :: 0 <= j < |x| ==> 0.0 <= x[j] <= 1.0
  }

  // ------------------------------------------------------------------ scores

  /** The weighted scalar objective, -inf for a failed evaluation. */
  function WeightedScore(o: Objectives, w: Weights): (score: Float)
    ensures score.Finite? || score.NegInf?
  {
    if o.IsFinite() then Finite(w.agent * o.agent.v + w.market * o.market.v) else NegInf
  }

  /** A weight counts for its own objective, and the score is linear in the weights; it is -inf as soon as one failed. */
  lemma WeightsCount(o: Objectives, v: Weights, w: Weights, c: real)
    requires o.IsFinite()
    ensures WeightedScore(o, Weights(1.0, 0.0)) == o.agent && WeightedScore(o, Weights(0.0, 1.0)) == o.market
    ensures var combined := WeightedScore(o, Weights(v.agent + c * w.agent, v.market + c * w.market));
            && combined.Finite? && WeightedScore(o, v).Finite? && WeightedScore(o, w).Finite?
            && combined.v == WeightedScore(o, v).v + c * WeightedScore(o, w).v
  {
    Distribute(v.agent, c, w.agent, o.agent.v);
    Distribute(v.market, c, w.market, o.market.v);
    assert c * (w.agent * o.agent.v + w.market * o.market.v) == c * (w.agent * o.agent.v) + c * (w.market * o.market.v);
  }

  lemma Distribute(a: real, c: real, b: real, x: real)
    ensures (a + c * b) * x == a * x + c * (b * x)
  {
    assert c * b * x == c * (b * x);
  }

  lemma FailedScore(o: Objectives, w: Weights)
    ensures WeightedScore(o, w).NegInf? <==> !o.agent.Finite? || !o.market.Finite?
  {
  }

  function Scalar(s: CandidateScore, w: Weights): (score: Float)
    ensures score.Finite? || score.NegInf?
  {
    WeightedScore(s.objectives, w)
  }

  /** What _best holds after a log: the first candidate that no other one beats. */
  function FirstBest(log: Log, w: Weights): (best: Option<CandidateScore>)
    ensures best.None? <==> log == []
  {
    if log == [] then None
    else
      var n := |log| - 1;
      var best := FirstBest(log[..n], w);
      if best.None? || Gt(Scalar(log[n], w), Scalar(best.value, w)) then Some(log[n]) else best
  }

  /** What _best_score holds after a log. */
  function BestScalar(log: Log, w: Weights): (score: Float)
    ensures score.Finite? || score.NegInf?
  {
    match FirstBest(log, w)
    case None => NegInf
    case Some(s) => Scalar(s, w)
  }

  /** Candidate k is the first maximum of the log. */
  predicate IsFirstMaximum(log: Log, k: nat, w: Weights) {
    && k < |log|
    && (forall j :: 0 <= j < |log| ==> Ge(Scalar(log[k], w), Scalar(log[j], w)))
    && (forall j :: 0 <= j < k ==> Gt(Scalar(log[k], w), Scalar(log[j], w)))
  }

  lemma FirstMaximumKept(log: Log, k: nat, s: CandidateScore, w: Weights)
    requires IsFirstMaximum(log, k, w) && !Gt(Scalar(s, w), Scalar(log[k], w))
    ensures IsFirstMaximum(log + [s], k, w)
  {}

  lemma FirstMaximumReplaced(log: Log, k: nat, s: CandidateScore, w: Weights)
    requires IsFirstMaximum(log, k, w) && Gt(Scalar(s, w), Scalar(log[k], w))
    ensures IsFirstMaximum(log + [s], |log|, w)
  {}

  /** FirstBest names the first maximum of the whole log, BestScalar its score. */
  lemma {:induction false} FirstBestIsFirstMaximum(log: Log, w: Weights) returns (k: nat)
    requires log != []
    ensures IsFirstMaximum(log, k, w)
    ensures FirstBest(log, w) == Some(log[k]) && BestScalar(log, w) == Scalar(log[k], w)
  {
    var n := |log| - 1;
    var before, s := log[..n], log[n];
    assert before + [s] == log;
    if n == 0 {
      k := 0;
    } else {
      k := FirstBestIsFirstMaximum(before, w);
      if Gt(Scalar(s, w), Scalar(before[k], w)) {
        FirstMaximumReplaced(before, k, s, w);
        k := n;
      } else {
        FirstMaximumKept(before, k, s, w);
      }
    }
  }

  lemma FirstBestExtended(log: Log, s: CandidateScore, w: Weights)
    ensures FirstBest(log + [s], w) ==
            if log == [] || Gt(Scalar(s, w), BestScalar(log, w)) then Some(s) else FirstBest(log, w)
  {
    assert (log + [s])[..|log|] == log;
  }

  /** Adding evaluations never lowers the best score. */
  lemma {:induction false} BestScalarMonotone(log: Log, k: nat, w: Weights)
    requires k <= |log|
    ensures Ge(BestScalar(log, w), BestScalar(log[..k], w))
  {
    if k < |log| {
      BestScalarMonotone(log[..|log| - 1], k, w);
      assert log[..|log| - 1][..k] == log[..k];
    } else {
      assert log[..k] == log;
    }
  }

  // ------------------------------------------------------------------ the archive

  lemma DominatesIsPareto(a: Objectives, b: Objectives)
    ensures a.Dominates(b) <==> Pareto.Dominates(a.Point(), b.Point())
  {
    var p, q := a.Point(), b.Point();
    assert p[0] == a.agent && p[1] == a.market && q[0] == b.agent && q[1] == b.market;
    if a.Dominates(b) {
      assert Gt(p[0], q[0]) || Gt(p[1], q[1]);
    }
  }

  predicate Beats(a: CandidateScore, b: CandidateScore) {
    a.objectives.IsFinite() && a.objectives.Dominates(b.objectives)
  }

  /** A finite candidate that no finite candidate of the pool dominates. */
  predicate NonDominated(s: CandidateScore, pool: Log) {
    s.objectives.IsFinite() && forall k :: 0 <= k < |pool| ==> !Beats(pool[k], s)
  }

  /** The non-dominated candidates of a log against a pool, in submission order. */
  function Select(log: Log, pool: Log): Log {
    if log == [] then []
    else
      var n := |log| - 1;
      Select(log[..n], pool) + (if NonDominated(log[n], pool) then [log[n]] else [])
  }

  lemma {:induction false} SelectMembers(log: Log, pool: Log)
    ensures forall s :: s in Select(log, pool) <==> s in log && NonDominated(s, pool)
  {
    if log != [] {
      SelectMembers(log[..|log| - 1], pool);
    }
  }

  /** What the archive must hold: the finite candidates no finite candidate dominates. */
  function FrontOf(log: Log): Log {
    Select(log, log)
  }

  /** The update of _record, on the archive alone. */
  function Archived(archive: Log, s: CandidateScore): Log {
    if !s.objectives.IsFinite() then archive
    else if exists k :: 0 <= k < |archive| && archive[k].objectives.Dominates(s.objectives) then archive
    else Without(archive, s) + [s]
  }

  /** The archive entries s does not dominate. */
  function Without(archive: Log, s: CandidateScore): Log {
    if archive == [] then []
    else
      var n := |archive| - 1;
      Without(archive[..n], s)
      + (if s.objectives.Dominates(archive[n].objectives) then [] else [archive[n]])
  }

  lemma BeatsTransitive(a: CandidateScore, b: CandidateScore, c: CandidateScore)
    requires Beats(a, b) && Beats(b, c)
    ensures Beats(a, c)
  {}

  /** How far a candidate is from the front: the finite candidates of the log that dominate it. */
  ghost function Above(log: Log, s: CandidateScore): set<CandidateScore> {
    set q | q in log && Beats(q, s)
  }

  /** A candidate dominated by a finite candidate of the log is dominated by one of its front. */
  lemma {:induction false} DominatedByFront(log: Log, s: CandidateScore, q: CandidateScore)
    returns (f: CandidateScore)
    requires q in log && Beats(q, s)
    ensures f in FrontOf(log) && Beats(f, s)
    decreases Above(log, q)
  {
    if NonDominated(q, log) {
      f := q;
    } else {
      var k :| 0 <= k < |log| && Beats(log[k], q);
      BeatsTransitive(log[k], q, s);
      forall p | p in Above(log, log[k]) ensures p in Above(log, q) {
        BeatsTransitive(p, log[k], q);
      }
      assert log[k] in Above(log, q) && log[k] !in Above(log, log[k]);
      f := DominatedByFront(log, s, log[k]);
    }
    SelectMembers(log, log);
  }

  /** Selecting against a larger pool drops exactly what the new candidate dominates. */
  lemma {:induction false} SelectExtended(log: Log, pool: Log, s: CandidateScore)
    requires s.objectives.IsFinite()
    ensures Select(log, pool + [s]) == Without(Select(log, pool), s)
  {
    if log != [] {
      var n := |log| - 1;
      SelectExtended(log[..n], pool, s);
      ExtendedPool(log[n], pool, s);
      WithoutAppend(Select(log[..n], pool), if NonDominated(log[n], pool) then [log[n]] else [], s);
    }
  }

  lemma ExtendedPool(c: CandidateScore, pool: Log, s: CandidateScore)
    ensures NonDominated(c, pool + [s]) <==> NonDominated(c, pool) && !Beats(s, c)
  {
    var pool' := pool + [s];
    assert pool'[|pool|] == s;
    assert forall k :: 0 <= k < |pool| ==> pool'[k] == pool[k];
  }

  lemma WithoutAppend(a: Log, b: Log, s: CandidateScore)
    requires |b| <= 1
    ensures Without(a + b, s) == Without(a, s) + Without(b, s)
  {
    if b != [] {
      assert (a + b)[..|a|] == a;
    } else {
      assert a + b == a;
    }
  }

  /** A pool candidate that is dominated or not finite changes no selection. */
  lemma {:induction false} SelectUnchanged(log: Log, pool: Log, s: CandidateScore, f: CandidateScore)
    requires s.objectives.IsFinite() ==> f in pool && Beats(f, s)
    ensures Select(log, pool + [s]) == Select(log, pool)
  {
    if log != [] {
      var n := |log| - 1;
      SelectUnchanged(log[..n], pool, s, f);
      ExtendedPool(log[n], pool, s);
      if Beats(s, log[n]) {
        BeatsTransitive(f, s, log[n]);
      }
    }
  }

  /** One record step keeps the archive equal to the front of everything evaluated. */
  lemma ArchiveStep(log: Log, s: CandidateScore)
    ensures Archived(FrontOf(log), s) == FrontOf(log + [s])
  {
    var log', front := log + [s], FrontOf(log);
    assert log'[..|log|] == log;
    SelectMembers(log, log);
    ExtendedPool(s, log, s);
    if !s.objectives.IsFinite() {
      SelectUnchanged(log, log, s, s);
    } else if exists k :: 0 <= k < |front| && front[k].objectives.Dominates(s.objectives) {
      var k :| 0 <= k < |front| && front[k].objectives.Dominates(s.objectives);
      assert front[k] in front;
      SelectUnchanged(log, log, s, front[k]);
    } else {
      assert NonDominated(s, log) by {
        forall q | q in log ensures !Beats(q, s) {
          if Beats(q, s) {
            var f := DominatedByFront(log, s, q);
          }
        }
      }
      SelectExtended(log, log, s);
    }
  }

  /** The fields _record keeps. */
  datatype Recorded = Recorded(best: Option<CandidateScore>, bestScore: Float, archive: Log)

  /** One call of _record. */
  function Record(r: Recorded, s: CandidateScore, w: Weights): Recorded {
    var scalar := Scalar(s, w);
    var better := r.best.None? || Gt(scalar, r.bestScore);
    Recorded(if better then Some(s) else r.best, if better then scalar else r.bestScore, Archived(r.archive, s))
  }

  /** What _record leaves after a log of evaluations. */
  function RecordedOf(log: Log, w: Weights): Recorded {
    if log == [] then Recorded(None, NegInf, [])
    else Record(RecordedOf(log[..|log| - 1], w), log[|log| - 1], w)
  }

  /** After any log, the best candidate is the first maximum, the best score the maximum and the
      archive the front of everything evaluated. */
  lemma {:induction false} RecordedIsBestAndFront(log: Log, w: Weights)
    ensures RecordedOf(log, w) == Recorded(FirstBest(log, w), BestScalar(log, w), FrontOf(log))
  {
    if log != [] {
      var n := |log| - 1;
      RecordedIsBestAndFront(log[..n], w);
      assert log[..n] + [log[n]] == log;
      FirstBestExtended(log[..n], log[n], w);
      ArchiveStep(log[..n], log[n]);
    }
  }

  // ------------------------------------------------------------------ agreement with the batch front

  /** The candidates with finite objectives, in submission order. */
  function FiniteOf(log: Log): (f: Log)
    ensures forall k :: 0 <= k < |f| ==> f[k].objectives.IsFinite()
  {
    if log == [] then []
    else
      var n := |log| - 1;
      FiniteOf(log[..n]) + (if log[n].objectives.IsFinite() then [log[n]] else [])
  }

  lemma {:induction false} FiniteMembers(log: Log)
    ensures forall s :: s in FiniteOf(log) <==> s in log && s.objectives.IsFinite()
  {
    if log != [] {
      FiniteMembers(log[..|log| - 1]);
    }
  }

  function Points(log: Log): seq<Pareto.Point> {
    seq(|log|, i requires 0 <= i < |log| => log[i].objectives.Point())
  }

  function Pick(log: Log, indices: seq<nat>): Log
    requires forall k :: 0 <= k < |indices| ==> indices[k] < |log|
  {
    if indices == [] then []
    else
      var m := |indices| - 1;
      Pick(log, indices[..m]) + [log[indices[m]]]
  }

  lemma {:induction false} PickFromPrefix(log: Log, n: nat, indices: seq<nat>)
    requires n <= |log| && forall k :: 0 <= k < |indices| ==> indices[k] < n
    ensures Pick(log[..n], indices) == Pick(log, indices)
  {
    if indices != [] {
      PickFromPrefix(log, n, indices[..|indices| - 1]);
    }
  }

  /** The ascending positions of a selection. */
  function SelectedAt(log: Log, pool: Log): (p: seq<nat>)
    ensures forall k :: 0 <= k < |p| ==> p[k] < |log|
    ensures forall k, l :: 0 <= k < l < |p| ==> p[k] < p[l]
  {
    if log == [] then []
    else
      var n := |log| - 1;
      SelectedAt(log[..n], pool) + (if NonDominated(log[n], pool) then [n] else [])
  }

  lemma {:induction false} SelectedAtMembers(log: Log, pool: Log, i: nat)
    ensures i in SelectedAt(log, pool) <==> i < |log| && NonDominated(log[i], pool)
  {
    if log != [] {
      SelectedAtMembers(log[..|log| - 1], pool, i);
    }
  }

  lemma {:induction false} PickSelected(log: Log, pool: Log)
    ensures Pick(log, SelectedAt(log, pool)) == Select(log, pool)
  {
    if log != [] {
      var n := |log| - 1;
      var before, p := SelectedAt(log[..n], pool), SelectedAt(log, pool);
      PickSelected(log[..n], pool);
      PickFromPrefix(log, n, before);
      if NonDominated(log[n], pool) {
        assert p[..|p| - 1] == before;
      } else {
        assert p == before;
      }
    }
  }

  lemma SelectSnoc(log: Log, s: CandidateScore, pool: Log)
    ensures Select(log + [s], pool) == Select(log, pool) + (if NonDominated(s, pool) then [s] else [])
  {
    assert (log + [s])[..|log|] == log;
  }

  lemma {:induction false} SelectFinite(log: Log, pool: Log)
    ensures Select(FiniteOf(log), pool) == Select(log, pool)
  {
    if log != [] {
      var n := |log| - 1;
      SelectFinite(log[..n], pool);
      if log[n].objectives.IsFinite() {
        SelectSnoc(FiniteOf(log[..n]), log[n], pool);
      } else {
        assert FiniteOf(log) == FiniteOf(log[..n]);
      }
    }
  }

  lemma HasMember(p: seq<nat>)
    ensures p == [] || exists i :: i in p
  {
    if p != [] {
      assert p[0] in p;
    }
  }

  predicate Ascending(p: seq<nat>) {
    forall k, l :: 0 <= k < l < |p| ==> p[k] < p[l]
  }

  ghost predicate SameMembers(p: seq<nat>, q: seq<nat>) {
    forall i: nat :: i in p <==> i in q
  }

  lemma LastIsLargest(p: seq<nat>, i: nat)
    requires Ascending(p) && i in p
    ensures i <= p[|p| - 1]
    ensures i in p[..|p| - 1] <==> i != p[|p| - 1]
  {
    assert p == p[..|p| - 1] + [p[|p| - 1]];
  }

  lemma SameLast(p: seq<nat>, q: seq<nat>)
    requires Ascending(p) && Ascending(q) && SameMembers(p, q) && p != []
    ensures q != [] && p[|p| - 1] == q[|q| - 1]
  {
    assert p[|p| - 1] in p;
    LastIsLargest(q, p[|p| - 1]);
    assert q[|q| - 1] in q;
    LastIsLargest(p, q[|q| - 1]);
  }

  /** Ascending lists with the same members are equal. */
  lemma {:induction false} AscendingUnique(p: seq<nat>, q: seq<nat>)
    requires Ascending(p) && Ascending(q) && SameMembers(p, q)
    ensures p == q
  {
    if p == [] {
      HasMember(q);
    } else {
      SameLast(p, q);
      var p', q' := p[..|p| - 1], q[..|q| - 1];
      forall i: nat
        ensures i in p' <==> i in q'
      {
        if i in p {
          LastIsLargest(p, i);
          LastIsLargest(q, i);
        }
      }
      AscendingUnique(p', q');
      assert p == p' + [p[|p| - 1]] && q == q' + [q[|q| - 1]];
    }
  }

  /** The incremental archive agrees with the batch Pareto front of the finite candidates. */
  lemma ArchiveIsParetoFront(log: Log, indices: seq<nat>)
    requires forall i: nat :: i in indices <==> i < |FiniteOf(log)| && Pareto.OnFront(Points(FiniteOf(log)), i)
    requires forall k :: 0 <= k < |indices| ==> indices[k] < |FiniteOf(log)|
    requires forall k, l :: 0 <= k < l < |indices| ==> indices[k] < indices[l]
    ensures FrontOf(log) == Pick(FiniteOf(log), indices)
  {
    var finite := FiniteOf(log);
    forall i: nat ensures i in indices <==> i in SelectedAt(finite, log) {
      SelectedAtMembers(finite, log, i);
      if i < |finite| {
        OnFrontIsNonDominated(log, i);
      }
    }
    AscendingUnique(indices, SelectedAt(finite, log));
    PickSelected(finite, log);
    SelectFinite(log, log);
  }

  lemma OnFrontIsNonDominated(log: Log, i: nat)
    requires i < |FiniteOf(log)|
    ensures Pareto.OnFront(Points(FiniteOf(log)), i) <==> NonDominated(FiniteOf(log)[i], log)
  {
    var finite := FiniteOf(log);
    var points := Points(finite);
    var s := finite[i];
    FiniteMembers(log);
    assert s in finite;
    forall j | 0 <= j < |points| ensures Pareto.Dom(points, j, i) <==> Beats(finite[j], s) {
      assert finite[j] in finite;
      DominatesIsPareto(finite[j].objectives, s.objectives);
    }
    if k :| 0 <= k < |log| && Beats(log[k], s) {
      assert log[k] in finite;
      var j :| 0 <= j < |finite| && finite[j] == log[k];
      assert Pareto.Dom(points, j, i);
    }
    if j :| 0 <= j < |points| && Beats(finite[j], s) {
      assert finite[j] in finite && finite[j] in log;
      var k :| 0 <= k < |log| && log[k] == finite[j];
      assert Beats(log[k], s);
    }
  }

  // ------------------------------------------------------------------ food sources

  /** Initial and scout candidates are always taken, the others only when they beat the source. */
  predicate Taken(before: Log, s: CandidateScore, w: Weights)
    decreases |before|, 2
  {
    || s.request.phase in {INIT, SCOUT}
    || Gt(Scalar(s, w), HeldScore(before, s.request.source, w))
  }

  /** The candidate that source i holds after a log: the last one of i that was taken. */
  function Holder(log: Log, i: nat, w: Weights): Option<CandidateScore>
    decreases |log|, 0
  {
    if log == [] then None
    else
      var n := |log| - 1;
      if log[n].request.source == i && Taken(log[..n], log[n], w) then Some(log[n]) else Holder(log[..n], i, w)
  }

  /** The score of source i after a log, -inf before it is initialised. */
  function HeldScore(log: Log, i: nat, w: Weights): (score: Float)
    ensures score.Finite? || score.NegInf?
    decreases |log|, 1
  {
    match Holder(log, i, w)
    case None => NegInf
    case Some(s) => Scalar(s, w)
  }

  /** The candidates of source i rejected since it was last set. */
  function RejectedSince(log: Log, i: nat, w: Weights): nat {
    if log == [] then 0
    else
      var n := |log| - 1;
      if log[n].request.source != i then RejectedSince(log[..n], i, w)
      else if Taken(log[..n], log[n], w) then 0
      else RejectedSince(log[..n], i, w) + 1
  }

  /** How one more candidate changes a source. */
  lemma HolderExtended(log: Log, s: CandidateScore, i: nat, w: Weights)
    ensures Holder(log + [s], i, w) ==
            if s.request.source == i && Taken(log, s, w) then Some(s) else Holder(log, i, w)
    ensures RejectedSince(log + [s], i, w) ==
            if s.request.source != i then RejectedSince(log, i, w)
            else if Taken(log, s, w) then 0 else RejectedSince(log, i, w) + 1
  {
    assert (log + [s])[..|log|] == log;
  }

  /** The score of a source drops only when an initial or scout candidate replaces it. */
  lemma ScoreDropsOnlyByScout(log: Log, s: CandidateScore, i: nat, w: Weights)
    requires Gt(HeldScore(log, i, w), HeldScore(log + [s], i, w))
    ensures s.request.source == i && s.request.phase in {INIT, SCOUT}
  {
    HolderExtended(log, s, i, w);
  }

  /** The holder of a source is one of its candidates, every later one was rejected because it
      did not beat the holder, and the trial counter is their number. */
  lemma {:induction false} HolderIsLastTaken(log: Log, i: nat, w: Weights) returns (k: nat)
    requires Holder(log, i, w).Some?
    ensures k < |log| && log[k] == Holder(log, i, w).value && log[k].request.source == i
    ensures RejectedSince(log, i, w) == CountOf(log[k + 1..], i)
    ensures forall l :: k < l < |log| && log[l].request.source == i ==>
              log[l].request.phase !in {INIT, SCOUT} && !Gt(Scalar(log[l], w), Scalar(log[k], w))
    ensures log[k].request.phase in {INIT, SCOUT} || Gt(Scalar(log[k], w), HeldScore(log[..k], i, w))
  {
    var n := |log| - 1;
    var before := log[..n];
    assert before + [log[n]] == log;
    HolderExtended(before, log[n], i, w);
    if log[n].request.source == i && Taken(before, log[n], w) {
      k := n;
    } else {
      k := HolderIsLastTaken(before, i, w);
      assert log[k + 1..][..n - k - 1] == before[k + 1..];
      assert before[..k] == log[..k];
      forall l | k < l < |log| && log[l].request.source == i
        ensures log[l].request.phase !in {INIT, SCOUT} && !Gt(Scalar(log[l], w), Scalar(log[k], w))
      {
        if l < n {
          assert before[l] == log[l];
        }
      }
    }
  }

  /** Without a holder, every candidate of the source counts as rejected. */
  lemma {:induction false} NoHolderYet(log: Log, i: nat, w: Weights)
    requires Holder(log, i, w).None?
    ensures RejectedSince(log, i, w) == CountOf(log, i)
  {
    if log != [] {
      NoHolderYet(log[..|log| - 1], i, w);
    }
  }

  function CountOf(log: Log, i: nat): nat {
    if log == [] then 0
    else
      var n := |log| - 1;
      CountOf(log[..n], i) + (if log[n].request.source == i then 1 else 0)
  }

  // ------------------------------------------------------------------ roulette wheel

  /** ABC fitness of a score: 1 / (1 + c) for the cost c = -score >= 0, else 1 + |c|; 0 for -inf. */
  function Fitness(score: Float): (fit: real)
    requires score.Finite? || score.NegInf?
    ensures fit >= 0.0
    ensures score.Finite? <==> fit > 0.0
  {
    if score.NegInf? then 0.0
    else
      var cost := -score.v;
      if cost >= 0.0 then 1.0 / (1.0 + cost) else 1.0 + (-cost)
  }

  /** A score of at most 0 has the fitness 1 / (1 - score), a positive one 1 + score, a failed one none. */
  lemma FitnessIs(score: Float)
    requires score.Finite? || score.NegInf?
    ensures score.Finite? && score.v <= 0.0 ==> Fitness(score) * (1.0 - score.v) == 1.0
    ensures score.Finite? && score.v >= 0.0 ==> Fitness(score) == 1.0 + score.v
    ensures score.NegInf? ==> Fitness(score) == 0.0
  {
    if score.Finite? && score.v <= 0.0 {
      Reciprocal(1.0 - score.v);
      assert 1.0 + (-score.v) == 1.0 - score.v;
    }
  }

  /** Fitness orders sources exactly as their scores do. */
  lemma FitnessOrders(a: Float, b: Float)
    requires (a.Finite? || a.NegInf?) && (b.Finite? || b.NegInf?)
    ensures Gt(a, b) <==> Fitness(a) > Fitness(b)
  {
    if a.Finite? && b.Finite? {
      if a.v < 0.0 { ReciprocalBelowOne(-a.v); }
      if b.v < 0.0 { ReciprocalBelowOne(-b.v); }
      if a.v <= 0.0 && b.v <= 0.0 {
        if a.v > b.v { ReciprocalOrder(-a.v, -b.v); }
        if a.v < b.v { ReciprocalOrder(-b.v, -a.v); }
      }
    }
  }

  lemma ReciprocalBelowOne(c: real)
    requires c > 0.0
    ensures 0.0 < 1.0 / (1.0 + c) < 1.0
  {}

  lemma ReciprocalOrder(c: real, d: real)
    requires 0.0 <= c < d
    ensures 1.0 / (1.0 + c) > 1.0 / (1.0 + d)
  {
    var x, y := 1.0 / (1.0 + c), 1.0 / (1.0 + d);
    assert x * (1.0 + c) == 1.0 && y * (1.0 + d) == 1.0;
    assert x > 0.0 && y > 0.0;
    calc {
      x - y;
      x * (y * (1.0 + d)) - y * (x * (1.0 + c));
      (x * y) * (d - c);
    }
    assert x * y > 0.0;
  }

  function Sum(s: seq<real>): real {
    if s == [] then 0.0 else Sum(s[..|s| - 1]) + s[|s| - 1]
  }

  lemma {:induction false} SumNonNegative(s: seq<real>)
    requires forall i :: 0 <= i < |s| ==> s[i] >= 0.0
    ensures Sum(s) >= 0.0
    ensures Sum(s) == 0.0 <==> forall i :: 0 <= i < |s| ==> s[i] == 0.0
  {
    if s != [] {
      SumNonNegative(s[..|s| - 1]);
    }
  }

  /** Every entry divided by a total. */
  function Divided(s: seq<real>, total: real): (t: seq<real>)
    requires total > 0.0
    ensures |t| == |s|
  {
    if s == [] then [] else Divided(s[..|s| - 1], total) + [s[|s| - 1] / total]
  }

  lemma {:induction false} DividedAt(s: seq<real>, total: real, i: nat)
    requires total > 0.0 && i < |s|
    ensures Divided(s, total)[i] == s[i] / total
  {
    if i < |s| - 1 {
      DividedAt(s[..|s| - 1], total, i);
    }
  }

  lemma {:induction false} SumDivided(s: seq<real>, total: real)
    requires total > 0.0
    ensures Sum(Divided(s, total)) * total == Sum(s)
  {
    if s != [] {
      var n := |s| - 1;
      SumDivided(s[..n], total);
      var d := Divided(s, total);
      assert d[..n] == Divided(s[..n], total) && d[n] == s[n] / total;
      assert (s[n] / total) * total == s[n];
      assert (Sum(d[..n]) + d[n]) * total == Sum(d[..n]) * total + d[n] * total;
    }
  }

  /** np.full(n, c). */
  function Full(n: nat, c: real): (s: seq<real>)
    ensures |s| == n && forall i :: 0 <= i < n ==> s[i] == c
  {
    if n == 0 then [] else Full(n - 1, c) + [c]
  }

  lemma {:induction false} SumFull(n: nat, c: real)
    ensures Sum(Full(n, c)) == (n as real) * c
  {
    if n > 0 {
      SumFull(n - 1, c);
      assert Full(n, c)[..n - 1] == Full(n - 1, c);
      OneMoreTimes(n - 1, c);
    }
  }

  lemma OneMoreTimes(n: nat, c: real)
    ensures (n as real) * c + c == ((n + 1) as real) * c
  {
    var x := n as real;
    assert (n + 1) as real == x + 1.0;
    assert (x + 1.0) * c == x * c + c;
  }

  /** Roulette probabilities, uniform when every fitness is zero. */
  function OnlookerProbabilities(fit: seq<real>): (p: seq<real>)
    requires |fit| > 0
    ensures |p| == |fit|
  {
    var total := Sum(fit);
    if total <= 0.0 then Full(|fit|, 1.0 / (|fit| as real))
    else Divided(fit, total)
  }

  /** The probabilities sum to 1. */
  lemma ProbabilitiesSumToOne(fit: seq<real>)
    requires |fit| > 0
    ensures Sum(OnlookerProbabilities(fit)) == 1.0
  {
    var total := Sum(fit);
    if total <= 0.0 {
      SumFull(|fit|, 1.0 / (|fit| as real));
      Reciprocal(|fit| as real);
    } else {
      SumDivided(fit, total);
      CancelFactor(Sum(Divided(fit, total)), total, Sum(fit));
    }
  }

  lemma Reciprocal(c: real)
    requires c > 0.0
    ensures c * (1.0 / c) == 1.0
  {}

  lemma CancelFactor(x: real, c: real, d: real)
    requires c > 0.0 && x * c == d && d == c
    ensures x == 1.0
  {
    assert (x - 1.0) * c == 0.0;
  }

  /** The probabilities are in proportion to the fitness, or all equal when none is positive. */
  lemma ProbabilityIs(fit: seq<real>, i: nat)
    requires (forall i :: 0 <= i < |fit| ==> fit[i] >= 0.0) && i < |fit|
    ensures var p := OnlookerProbabilities(fit);
            if exists k :: 0 <= k < |fit| && fit[k] > 0.0 then p[i] * Sum(fit) == fit[i]
            else p[i] * (|fit| as real) == 1.0
  {
    hide Sum, Divided, Full;
    SumNonNegative(fit);
    if k :| 0 <= k < |fit| && fit[k] > 0.0 {
      assert Sum(fit) > 0.0;
      DividedAt(fit, Sum(fit), i);
      QuotientTimes(fit[i], Sum(fit));
    } else {
      assert forall k :: 0 <= k < |fit| ==> fit[k] == 0.0;
      Reciprocal(|fit| as real);
    }
  }

  lemma QuotientTimes(x: real, c: real)
    requires c > 0.0
    ensures x / c * c == x
  {
  }

  lemma ProbabilitiesNonNegative(fit: seq<real>, i: nat)
    requires forall i :: 0 <= i < |fit| ==> fit[i] >= 0.0
    requires i < |fit|
    ensures OnlookerProbabilities(fit)[i] >= 0.0
  {
    if Sum(fit) > 0.0 {
      DividedAt(fit, Sum(fit), i);
      QuotientOrder(fit[i], 0.0, Sum(fit));
    }
  }

  /** When some fitness is positive, the probabilities order the sources as their fitness does,
      and only sources of positive fitness can be drawn. */
  lemma ProbabilitiesOrder(fit: seq<real>, some: nat, i: nat, j: nat)
    requires forall i :: 0 <= i < |fit| ==> fit[i] >= 0.0
    requires some < |fit| && fit[some] > 0.0 && i < |fit| && j < |fit|
    ensures var p := OnlookerProbabilities(fit);
            (p[i] > p[j] <==> fit[i] > fit[j]) && (p[i] > 0.0 <==> fit[i] > 0.0)
  {
    SumNonNegative(fit);
    var total := Sum(fit);
    DividedAt(fit, total, i);
    DividedAt(fit, total, j);
    QuotientOrder(fit[i], fit[j], total);
    QuotientOrder(fit[i], 0.0, total);
  }

  lemma QuotientOrder(a: real, b: real, c: real)
    requires c > 0.0
    ensures a / c > b / c <==> a > b
  {
    var x, y := a / c, b / c;
    assert x * c == a && y * c == b;
    if x > y { assert (x - y) * c > 0.0; }
    if x < y { assert (y - x) * c > 0.0; }
  }

  /** Inverse-transform choice with probabilities p: the first index whose cumulative sum exceeds u. */
  function Choose(p: seq<real>, u: real, k: nat): (i: nat)
    requires k < |p| && u < Sum(p) && Sum(p[..k]) <= u
    ensures k <= i < |p| && Sum(p[..i]) <= u < Sum(p[..i + 1])
    decreases |p| - k
  {
    assert p[..k + 1][..k] == p[..k] && p[..|p|] == p;
    if u < Sum(p[..k + 1]) then k else Choose(p, u, k + 1)
  }

  /** A source is chosen exactly for the draws in an interval of its own, of length p[i]. */
  lemma ChosenExactlyInInterval(p: seq<real>, u: real, i: nat)
    requires |p| > 0 && Sum(p) == 1.0 && 0.0 <= u < 1.0 && i < |p|
    requires forall i :: 0 <= i < |p| ==> p[i] >= 0.0
    ensures Choose(p, u, 0) == i <==> Sum(p[..i]) <= u < Sum(p[..i]) + p[i]
  {
    assert p[..i + 1][..i] == p[..i];
    var c := Choose(p, u, 0);
    if Sum(p[..i]) <= u < Sum(p[..i]) + p[i] {
      if c < i { PrefixSumsGrow(p, c + 1, i); }
      if c > i { PrefixSumsGrow(p, i + 1, c); }
    }
  }

  lemma {:induction false} PrefixSumsGrow(p: seq<real>, a: nat, b: nat)
    requires a <= b <= |p| && forall i :: 0 <= i < |p| ==> p[i] >= 0.0
    ensures Sum(p[..a]) <= Sum(p[..b])
  {
    if a < b {
      PrefixSumsGrow(p, a, b - 1);
      assert p[..b][..b - 1] == p[..b - 1];
    }
  }

  // ------------------------------------------------------------------ the swarm

  const FAILED_OBJECTIVES: Objectives := Objectives(NegInf, NegInf)

  /** The fields of the optimizer that describe the food sources. */
  datatype Swarm = Swarm(sources: seq<Vec>, objectives: seq<Objectives>, scores: seq<Float>, trials: seq<nat>)

  function HeldObjectives(log: Log, i: nat, w: Weights): Objectives {
    match Holder(log, i, w)
    case None => FAILED_OBJECTIVES
    case Some(s) => s.objectives
  }

  function HeldPoint(log: Log, i: nat, w: Weights, dim: nat): Vec {
    match Holder(log, i, w)
    case None => Full(dim, 0.0)
    case Some(s) => s.request.x
  }

  /** The first n food sources after a log. */
  function SwarmOf(log: Log, n: nat, w: Weights, dim: nat): (swarm: Swarm)
    ensures |swarm.sources| == |swarm.objectives| == |swarm.scores| == |swarm.trials| == n
  {
    if n == 0 then Swarm([], [], [], [])
    else
      var swarm := SwarmOf(log, n - 1, w, dim);
      Swarm(swarm.sources + [HeldPoint(log, n - 1, w, dim)],
            swarm.objectives + [HeldObjectives(log, n - 1, w)],
            swarm.scores + [HeldScore(log, n - 1, w)],
            swarm.trials + [RejectedSince(log, n - 1, w)])
  }

  lemma {:induction false} SwarmAt(log: Log, n: nat, w: Weights, dim: nat, i: nat)
    requires i < n
    ensures var swarm := SwarmOf(log, n, w, dim);
            && swarm.sources[i] == HeldPoint(log, i, w, dim)
            && swarm.objectives[i] == HeldObjectives(log, i, w)
            && swarm.scores[i] == HeldScore(log, i, w) == WeightedScore(swarm.objectives[i], w)
            && swarm.trials[i] == RejectedSince(log, i, w)
  {
    if i < n - 1 {
      SwarmAt(log, n - 1, w, dim, i);
    }
  }

  lemma {:induction false} SwarmOfOthers(log: Log, s: CandidateScore, n: nat, w: Weights, dim: nat)
    requires s.request.source >= n
    ensures SwarmOf(log + [s], n, w, dim) == SwarmOf(log, n, w, dim)
  {
    if n > 0 {
      SwarmOfOthers(log, s, n - 1, w, dim);
      HolderExtended(log, s, n - 1, w);
    }
  }

  /** A taken candidate becomes its source and resets the counter. */
  lemma {:induction false} SwarmTaken(log: Log, s: CandidateScore, n: nat, w: Weights, dim: nat)
    requires s.request.source < n && Taken(log, s, w)
    ensures var swarm, i := SwarmOf(log, n, w, dim), s.request.source;
            SwarmOf(log + [s], n, w, dim) ==
            Swarm(swarm.sources[i := s.request.x], swarm.objectives[i := s.objectives],
                  swarm.scores[i := Scalar(s, w)], swarm.trials[i := 0])
  {
    HolderExtended(log, s, n - 1, w);
    if s.request.source == n - 1 {
      SwarmOfOthers(log, s, n - 1, w, dim);
    } else {
      SwarmTaken(log, s, n - 1, w, dim);
    }
  }

  /** A rejected candidate only counts as a trial of its source. */
  lemma {:induction false} SwarmRejected(log: Log, s: CandidateScore, n: nat, w: Weights, dim: nat)
    requires s.request.source < n && !Taken(log, s, w)
    ensures var swarm, i := SwarmOf(log, n, w, dim), s.request.source;
            SwarmOf(log + [s], n, w, dim) == swarm.(trials := swarm.trials[i := swarm.trials[i] + 1])
  {
    HolderExtended(log, s, n - 1, w);
    SwarmAt(log, n, w, dim, n - 1);
    if s.request.source == n - 1 {
      SwarmOfOthers(log, s, n - 1, w, dim);
    } else {
      SwarmRejected(log, s, n - 1, w, dim);
    }
  }

  lemma {:induction false} EmptySwarm(n: nat, w: Weights, dim: nat)
    ensures SwarmOf([], n, w, dim) ==
            Swarm(seq(n, _ => Full(dim, 0.0)), seq(n, _ => FAILED_OBJECTIVES), seq(n, _ => NegInf), seq(n, _ => 0))
  {
    var swarm := SwarmOf([], n, w, dim);
    forall i: nat | i < n
      ensures swarm.sources[i] == Full(dim, 0.0) && swarm.objectives[i] == FAILED_OBJECTIVES
           && swarm.scores[i] == NegInf && swarm.trials[i] == 0
    {
      SwarmAt([], n, w, dim, i);
    }
    assert swarm.sources == seq(n, _ => Full(dim, 0.0));
    assert swarm.objectives == seq(n, _ => FAILED_OBJECTIVES);
    assert swarm.scores == seq(n, _ => NegInf);
    assert swarm.trials == seq(n, _ => 0);
  }

  /** A candidate that may be submitted: an existing source and a point of the unit cube. */
  predicate Submittable(r: Request, sn: nat, dim: nat) {
    r.source < sn && |r.x| == dim && InUnitCube(r.x)
  }

  predicate LogOk(log: Log, sn: nat, dim: nat) {
    log == [] || (LogOk(log[..|log| - 1], sn, dim) && Submittable(log[|log| - 1].request, sn, dim))
  }

  lemma {:induction false} LogOkAt(log: Log, sn: nat, dim: nat, k: nat)
    requires LogOk(log, sn, dim) && k < |log|
    ensures Submittable(log[k].request, sn, dim)
  {
    if k < |log| - 1 {
      LogOkAt(log[..|log| - 1], sn, dim, k);
    }
  }

  /** Every food source of a run is a point of the unit cube. */
  lemma SourcesInUnitCube(log: Log, n: nat, w: Weights, dim: nat, i: nat)
    requires i < n && LogOk(log, n, dim)
    ensures var x := SwarmOf(log, n, w, dim).sources[i]; |x| == dim && InUnitCube(x)
  {
    SwarmAt(log, n, w, dim, i);
    if Holder(log, i, w).Some? {
      var k := HolderIsLastTaken(log, i, w);
      LogOkAt(log, n, dim, k);
    }
  }
}

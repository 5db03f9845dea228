/** The observation of a period before it is cleared (abmem/services/agent/observation.py). */
module Observation {
  import opened Wrappers
  import opened Floats
  import opened Experience

  type Lags = seq<nat>

  /** The lag sets the source allows; both are ascending. */
  predicate AllowedLags(lags: Lags) {
    lags == [1, 24] || lags == [1, 24, 168]
  }

  function MaxLag(lags: Lags): nat
    requires AllowedLags(lags)
  {
    lags[|lags| - 1]
  }

  /** The cleared price of each period, None for a period that is not cleared. */
  type History = map<int, Option<Float>>

  predicate Known(ptf: History, period: int) {
    period >= 1 && period in ptf && ptf[period].Some?
  }

  predicate KnownFinite(ptf: History, period: int) {
    Known(ptf, period) && ptf[period].value.Finite?
  }

  datatype Observed = Observed(raw: Option<Vec>, missing: Lags) {
    predicate Complete() { missing == [] }
  }

  /** The prices of the known lags in lag order. */
  function PricesOf(t: int, ptf: History, lags: Lags): Vec {
    if lags == [] then []
    else
      var k := lags[|lags| - 1];
      PricesOf(t, ptf, lags[..|lags| - 1])
      + if KnownFinite(ptf, t - k) then [ptf[t - k].value.v] else []
  }

  function MissingOf(t: int, ptf: History, lags: Lags): Lags {
    if lags == [] then []
    else
      var k := lags[|lags| - 1];
      MissingOf(t, ptf, lags[..|lags| - 1]) + if Known(ptf, t - k) then [] else [k]
  }

  predicate PricesFinite(t: int, ptf: History, lags: Lags) {
    forall i :: 0 <= i < |lags| && Known(ptf, t - lags[i]) ==> ptf[t - lags[i]].value.Finite?
  }

  function ObservationOf(t: int, demand: Float, ptf: History, lags: Lags): Result<Observed, Error> {
    if !AllowedLags(lags) || t < 1 || !PricesFinite(t, ptf, lags) then Err(ValueError)
    else if MissingOf(t, ptf, lags) != [] then Ok(Observed(None, MissingOf(t, ptf, lags)))
    else if !demand.Finite? then Err(ValueError)
    else Ok(Observed(Some([demand.v] + PricesOf(t, ptf, lags)), []))
  }

  /** Builds the observation: the demand is read only when no lag is missing. */
  method BuildObservation(t: int, demand: Float, ptf: History, lags: Lags) returns (r: Result<Observed, Error>)
    ensures r == ObservationOf(t, demand, ptf, lags)
  {
    if !AllowedLags(lags) || t < 1 {
      return Err(ValueError);
    }
    var prices: Vec, missing: Lags := [], [];
    for i := 0 to |lags|
      invariant PricesFinite(t, ptf, lags[..i])
      invariant prices == PricesOf(t, ptf, lags[..i]) && missing == MissingOf(t, ptf, lags[..i])
    {
      var period := t - lags[i];
      assert lags[..i + 1][..i] == lags[..i];
      if !Known(ptf, period) {
        missing := missing + [lags[i]];
      } else if !ptf[period].value.Finite? {
        return Err(ValueError);
      } else {
        prices := prices + [ptf[period].value.v];
      }
    }
    assert lags[..|lags|] == lags;
    if missing != [] {
      return Ok(Observed(None, missing));
    }
    if !demand.Finite? {
      return Err(ValueError);
    }
    return Ok(Observed(Some([demand.v] + prices), []));
  }

  lemma {:induction false} NothingMissing(t: int, ptf: History, lags: Lags)
    ensures MissingOf(t, ptf, lags) == [] <==> forall i :: 0 <= i < |lags| ==> Known(ptf, t - lags[i])
    ensures forall k :: k in MissingOf(t, ptf, lags) <==> k in lags && !Known(ptf, t - k)
  {
    if lags != [] {
      NothingMissing(t, ptf, lags[..|lags| - 1]);
      assert forall i :: 0 <= i < |lags| - 1 ==> lags[..|lags| - 1][i] == lags[i];
    }
  }

  /** Only prices of earlier periods are read. */
  lemma {:induction false} SamePast(t: int, ptf: History, ptf': History, lags: Lags)
    requires forall i :: 0 <= i < |lags| ==> lags[i] >= 1
    requires forall p :: 1 <= p < t ==> (p in ptf <==> p in ptf') && (p in ptf ==> ptf[p] == ptf'[p])
    ensures MissingOf(t, ptf, lags) == MissingOf(t, ptf', lags) && PricesOf(t, ptf, lags) == PricesOf(t, ptf', lags)
    ensures PricesFinite(t, ptf, lags) <==> PricesFinite(t, ptf', lags)
  {
    if lags != [] {
      SamePast(t, ptf, ptf', lags[..|lags| - 1]);
      forall i | 0 <= i < |lags|
        ensures Known(ptf, t - lags[i]) <==> Known(ptf', t - lags[i])
        ensures Known(ptf, t - lags[i]) ==> ptf[t - lags[i]] == ptf'[t - lags[i]]
      {
      }
    }
  }

  /** The observation of period t is the same for any two histories that agree on the periods before t. */
  lemma NoLookAhead(t: int, demand: Float, ptf: History, ptf': History, lags: Lags)
    requires forall p :: 1 <= p < t ==> (p in ptf <==> p in ptf') && (p in ptf ==> ptf[p] == ptf'[p])
    ensures ObservationOf(t, demand, ptf, lags) == ObservationOf(t, demand, ptf', lags)
  {
    if AllowedLags(lags) {
      SamePast(t, ptf, ptf', lags);
    }
  }

  /** Every period before t is cleared with a finite price. */
  predicate ClearedBefore(ptf: History, t: int) {
    forall p :: 1 <= p < t ==> KnownFinite(ptf, p)
  }

  /** In a run the observation is complete from the period after the largest lag on. */
  lemma CompleteFrom(t: int, demand: Float, ptf: History, lags: Lags)
    requires AllowedLags(lags) && t >= 1 && demand.Finite? && ClearedBefore(ptf, t)
    ensures var o := ObservationOf(t, demand, ptf, lags);
            o.Ok? && (o.value.Complete() <==> t > MaxLag(lags)) && (o.value.raw.Some? <==> o.value.Complete())
    ensures t > MaxLag(lags) ==>
              |ObservationOf(t, demand, ptf, lags).value.raw.value| == 1 + |lags|
  {
    NothingMissing(t, ptf, lags);
    forall i | 0 <= i < |lags|
      ensures Known(ptf, t - lags[i]) <==> t > lags[i]
      ensures Known(ptf, t - lags[i]) ==> KnownFinite(ptf, t - lags[i])
    {
      assert t > lags[i] ==> KnownFinite(ptf, t - lags[i]);
    }
    assert t > MaxLag(lags) <==> forall i :: 0 <= i < |lags| ==> t > lags[i];
    if t > MaxLag(lags) {
      AllPrices(t, ptf, lags);
    }
  }

  /** A complete observation is the demand of the period, then the price of each lag in lag order. */
  lemma ObservationIs(t: int, demand: Float, ptf: History, lags: Lags)
    requires ObservationOf(t, demand, ptf, lags).Ok? && ObservationOf(t, demand, ptf, lags).value.raw.Some?
    ensures var raw := ObservationOf(t, demand, ptf, lags).value.raw.value;
            && |raw| == 1 + |lags| && demand == Finite(raw[0])
            && forall i :: 0 <= i < |lags| ==>
                 t - lags[i] >= 1 && t - lags[i] in ptf && ptf[t - lags[i]] == Some(Finite(raw[1 + i]))
  {
    NothingMissing(t, ptf, lags);
    assert PricesFinite(t, ptf, lags);
    forall i | 0 <= i < |lags| ensures KnownFinite(ptf, t - lags[i]) {
      assert Known(ptf, t - lags[i]);
    }
    AllPrices(t, ptf, lags);
  }

  lemma {:induction false} AllPrices(t: int, ptf: History, lags: Lags)
    requires forall i :: 0 <= i < |lags| ==> KnownFinite(ptf, t - lags[i])
    ensures |PricesOf(t, ptf, lags)| == |lags|
    ensures forall i :: 0 <= i < |lags| ==>
              KnownFinite(ptf, t - lags[i]) && PricesOf(t, ptf, lags)[i] == ptf[t - lags[i]].value.v
  {
    if lags != [] {
      AllPrices(t, ptf, lags[..|lags| - 1]);
    }
  }
}

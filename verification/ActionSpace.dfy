/**
 The affine map between normalised actions in [-1, 1] and offer prices in whole cents. Decimals and
 floats are reals up to rounding; non-finite inputs are kept.
 */
module ActionSpace {
  import opened Wrappers
  import opened Floats

  datatype Error = ValueError

  function Clip(x: real, low: real, high: real): real {
    var raised := if x < low then low else x;
    if raised > high then high else raised
  }

  // ---------------------------------------------------------------- rounding

  /** The integer nearest to x, the even one of two. */
  function RoundHalfEven(x: real): (n: int)
    ensures x - 0.5 <= n as real <= x + 0.5
    ensures n as real == x + 0.5 || n as real == x - 0.5 ==> n % 2 == 0
  {
    var f := x.Floor;
    var d := x - f as real;
    if d < 0.5 then f else if d > 0.5 then f + 1 else if f % 2 == 0 then f else f + 1
  }

  function Cents(n: int): real {
    n as real / 100.0
  }

  function Quantize(x: real): real {
    Cents(RoundHalfEven(x * 100.0))
  }

  /** The number of cents that a price is, or the next lower one. */
  function CentsIn(x: real): int { (x * 100.0).Floor }

  predicate WholeCents(x: real) { x == Cents(CentsIn(x)) }

  lemma CentsAreWhole(n: int)
    ensures CentsIn(Cents(n)) == n && WholeCents(Cents(n))
  {
    assert Cents(n) * 100.0 == n as real;
  }

  lemma RoundingIsUnique(x: real, n: int)
    requires x - 0.5 < n as real < x + 0.5 || ((n as real == x + 0.5 || n as real == x - 0.5) && n % 2 == 0)
    ensures RoundHalfEven(x) == n
  {
    assert -1.0 <= (RoundHalfEven(x) - n) as real <= 1.0;
  }

  lemma RoundingIsMonotone(x: real, y: real)
    requires x <= y
    ensures RoundHalfEven(x) <= RoundHalfEven(y)
  {
    assert (RoundHalfEven(x) - RoundHalfEven(y)) as real <= 1.0 + x - y;
  }

  lemma QuantizeWhole(n: int)
    ensures Quantize(Cents(n)) == Cents(n)
  {
    assert Cents(n) * 100.0 == n as real;
    RoundingIsUnique(n as real, n);
  }

  lemma QuantizeIsMonotone(x: real, y: real)
    requires x <= y
    ensures Quantize(x) <= Quantize(y)
  {
    RoundingIsMonotone(x * 100.0, y * 100.0);
  }

  // ---------------------------------------------------------------- the maps

  /** The price before quantisation. */
  function Affine(u: real, low: real, high: real): real {
    low + (Clip(u, -1.0, 1.0) + 1.0) / 2.0 * (high - low)
  }

  function PriceOf(u: real, low: real, high: real): real {
    Clip(Quantize(Affine(u, low, high)), low, high)
  }

  function ActionOf(p: real, low: real, high: real): real
    requires low < high
  {
    Clip(2.0 * (p - low) / (high - low) - 1.0, -1.0, 1.0)
  }

  // ---------------------------------------------------------------- arithmetic

  lemma TimesMonotone(a: real, b: real, s: real)
    requires a <= b && 0.0 <= s
    ensures a * s <= b * s
  {
  }

  lemma DivideTimes(x: real, s: real)
    requires s != 0.0
    ensures x / s * s == x
  {
  }

  /** (b - a) / 2 of the span s. */
  function Shift(a: real, b: real, s: real): real {
    (b - a) / 2.0 * s
  }

  lemma ShiftMonotone(a: real, b: real, s: real)
    requires a <= b && 0.0 <= s
    ensures 0.0 <= Shift(a, b, s)
  {
    TimesMonotone(0.0, (b - a) / 2.0, s);
  }

  lemma ShiftWhole(s: real)
    ensures Shift(-1.0, 1.0, s) == s
  {
  }

  lemma ShiftAdds(a: real, b: real, c: real, s: real)
    ensures Shift(a, b, s) + Shift(b, c, s) == Shift(a, c, s)
  {
    var x, y := (b - a) / 2.0, (c - b) / 2.0;
    assert x * s + y * s == (x + y) * s;
    assert x + y == (c - a) / 2.0;
  }

  lemma AffineIsShift(u: real, low: real, high: real)
    ensures Affine(u, low, high) == low + Shift(-1.0, Clip(u, -1.0, 1.0), high - low)
  {
  }

  /** On [-1, 1] the map is affine with slope (high - low) / 2. */
  lemma AffineDifference(u: real, v: real, low: real, high: real)
    ensures Affine(v, low, high) - Affine(u, low, high) == Shift(Clip(u, -1.0, 1.0), Clip(v, -1.0, 1.0), high - low)
  {
    AffineIsShift(u, low, high);
    AffineIsShift(v, low, high);
    ShiftAdds(-1.0, Clip(u, -1.0, 1.0), Clip(v, -1.0, 1.0), high - low);
  }

  lemma AffineInside(u: real, low: real, high: real)
    requires low <= high
    ensures low <= Affine(u, low, high) <= high
  {
    var c, s := Clip(u, -1.0, 1.0), high - low;
    AffineIsShift(u, low, high);
    ShiftMonotone(-1.0, c, s);
    ShiftMonotone(c, 1.0, s);
    ShiftAdds(-1.0, c, 1.0, s);
    ShiftWhole(s);
  }

  lemma UnitQuotient(y: real, s: real)
    requires 0.0 <= y <= s && 0.0 < s
    ensures 0.0 <= y / s <= 1.0
  {
    DivideTimes(y, s);
    var x := y / s;
    assert (1.0 - x) * s == s - x * s;
    if x < 0.0 {
      NegativeTimes(x, s);
    }
    if 1.0 < x {
      NegativeTimes(1.0 - x, s);
    }
  }

  lemma NegativeTimes(x: real, s: real)
    requires x < 0.0 < s
    ensures x * s < 0.0
  {
  }

  /** The price p in bounds comes from an action in [-1, 1] that the map takes back to p. */
  lemma ActionOfInverts(p: real, low: real, high: real)
    requires low < high && low <= p <= high
    ensures -1.0 <= ActionOf(p, low, high) <= 1.0
    ensures ActionOf(p, low, high) == 2.0 * ((p - low) / (high - low)) - 1.0
    ensures Affine(ActionOf(p, low, high), low, high) == p
  {
    var s := high - low;
    var x := (p - low) / s;
    DivideTimes(p - low, s);
    UnitQuotient(p - low, s);
    assert 2.0 * (p - low) / s == 2.0 * x;
  }

  // ---------------------------------------------------------------- the properties

  /** A larger action never gives a smaller price. */
  lemma PriceIsMonotone(u: real, v: real, low: real, high: real)
    requires low <= high && u <= v
    ensures PriceOf(u, low, high) <= PriceOf(v, low, high)
  {
    AffineDifference(u, v, low, high);
    ShiftMonotone(Clip(u, -1.0, 1.0), Clip(v, -1.0, 1.0), high - low);
    QuantizeIsMonotone(Affine(u, low, high), Affine(v, low, high));
  }

  /** Every price is in the bounds, at most half a cent from the affine map, and in whole cents or a bound. */
  lemma PriceIsClose(u: real, low: real, high: real)
    requires low <= high
    ensures low <= PriceOf(u, low, high) <= high
    ensures Affine(u, low, high) - 0.005 <= PriceOf(u, low, high) <= Affine(u, low, high) + 0.005
    ensures PriceOf(u, low, high) in {low, high, Quantize(Affine(u, low, high))}
  {
    AffineInside(u, low, high);
  }

  /** With whole-cent bounds quantisation never leaves them, so the last clip does nothing. */
  lemma WholeBoundsNeedNoClip(u: real, low: int, high: int)
    requires low <= high
    ensures PriceOf(u, Cents(low), Cents(high)) == Quantize(Affine(u, Cents(low), Cents(high)))
  {
    AffineInside(u, Cents(low), Cents(high));
    QuantizeWhole(low);
    QuantizeWhole(high);
    QuantizeIsMonotone(Cents(low), Affine(u, Cents(low), Cents(high)));
    QuantizeIsMonotone(Affine(u, Cents(low), Cents(high)), Cents(high));
  }

  /**
   The action u gives the cent price p if and only if its affine image is less than half a cent from p, or exactly
   half a cent and p is an even number of cents.
   */
  lemma GivesPriceIff(u: real, p: int, low: int, high: int)
    requires low <= p <= high
    ensures var off := Affine(u, Cents(low), Cents(high)) - Cents(p);
            PriceOf(u, Cents(low), Cents(high)) == Cents(p) <==>
            -0.005 < off < 0.005 || ((off == 0.005 || off == -0.005) && p % 2 == 0)
  {
    WholeBoundsNeedNoClip(u, low, high);
    var x := Affine(u, Cents(low), Cents(high)) * 100.0;
    var off := Affine(u, Cents(low), Cents(high)) - Cents(p);
    assert off * 100.0 == x - p as real;
    if -0.005 < off < 0.005 || ((off == 0.005 || off == -0.005) && p % 2 == 0) {
      RoundingIsUnique(x, p);
    }
  }

  /** The stored action may be off by anything below 0.01 / (high - low): it still gives the price back. */
  lemma RoundTrip(p: int, u: real, low: int, high: int)
    requires low <= p <= high && low < high
    requires var exact := ActionOf(Cents(p), Cents(low), Cents(high));
             -(0.01 / (Cents(high) - Cents(low))) < u - exact < 0.01 / (Cents(high) - Cents(low))
    ensures PriceOf(u, Cents(low), Cents(high)) == Cents(p)
  {
    var s, exact := Cents(high) - Cents(low), ActionOf(Cents(p), Cents(low), Cents(high));
    ActionOfInverts(Cents(p), Cents(low), Cents(high));
    AffineDifference(exact, u, Cents(low), Cents(high));
    SmallShift(exact, Clip(u, -1.0, 1.0), s) by { ClipNearer(exact, u, 0.01 / s); }
    GivesPriceIff(u, p, low, high);
  }

  lemma ClipNearer(exact: real, u: real, d: real)
    requires -1.0 <= exact <= 1.0 && -d < u - exact < d
    ensures -d < Clip(u, -1.0, 1.0) - exact < d
  {
  }

  lemma SmallShift(a: real, b: real, s: real)
    requires 0.0 < s && -(0.01 / s) < b - a < 0.01 / s
    ensures -0.005 < Shift(a, b, s) < 0.005
  {
    SmallTimes(b - a, 0.01, s);
    var e := b - a;
    assert e / 2.0 * s == e * s / 2.0;
  }

  lemma SmallTimes(e: real, d: real, s: real)
    requires 0.0 < s && -(d / s) < e < d / s
    ensures -d < e * s < d
  {
    var q := d / s;
    DivideTimes(d, s);
    NegativeTimes(e - q, s);
    NegativeTimes(-q - e, s);
    assert (e - q) * s == e * s - q * s;
    assert (-q - e) * s == -(q * s) - e * s;
  }

  /** The bound is the best possible one: at an error of 0.01 / (high - low) an odd price is lost. */
  lemma RoundTripBoundIsTight(p: int, low: int, high: int)
    requires low <= p < high && p % 2 != 0
    ensures var s := Cents(high) - Cents(low);
            PriceOf(ActionOf(Cents(p), Cents(low), Cents(high)) + 0.01 / s, Cents(low), Cents(high)) == Cents(p + 1)
  {
    HalfCentUp(Cents(p), Cents(low), Cents(high));
    WholeBoundsNeedNoClip(ActionOf(Cents(p), Cents(low), Cents(high)) + 0.01 / (Cents(high) - Cents(low)), low, high);
    HalfCentRoundsToEven(p);
  }

  lemma HalfCentRoundsToEven(p: int)
    requires p % 2 != 0
    ensures Quantize(Cents(p) + 0.005) == Cents(p + 1)
  {
    assert (Cents(p) + 0.005) * 100.0 == p as real + 0.5;
    RoundingIsUnique(p as real + 0.5, p + 1);
  }

  lemma HalfCentUp(p: real, low: real, high: real)
    requires low <= p <= high - 0.01
    ensures Affine(ActionOf(p, low, high) + 0.01 / (high - low), low, high) == p + 0.005
  {
    var s, exact := high - low, ActionOf(p, low, high);
    ActionOfInverts(p, low, high);
    RoomForOneCent(p, low, high);
    AffineDifference(exact, exact + 0.01 / s, low, high);
    TieShift(exact, s);
  }

  lemma RoomForOneCent(p: real, low: real, high: real)
    requires low <= p <= high - 0.01
    ensures var u := ActionOf(p, low, high) + 0.01 / (high - low);
            -1.0 <= u <= 1.0
  {
    ActionOfInverts(p, low, high);
    ActionOfInverts(p + 0.01, low, high);
    OneCentStep(p - low, high - low);
    assert p + 0.01 - low == p - low + 0.01;
  }

  lemma OneCentStep(y: real, s: real)
    requires 0.0 < s
    ensures (y + 0.01) / s == y / s + 0.01 / s && 0.0 < 0.01 / s
  {
    DividePositive(0.01, s);
  }

  lemma TieShift(a: real, s: real)
    requires 0.0 < s
    ensures Shift(a, a + 0.01 / s, s) == 0.005
  {
    var q := 0.01 / s;
    DivideTimes(0.01, s);
    assert q / 2.0 * s == q * s / 2.0;
  }

  /** What the runtime relies on: the stored action gives exactly the submitted price. */
  lemma StoredActionGivesAppliedPrice(u: real, low: int, high: int)
    requires low < high
    ensures var p := PriceOf(u, Cents(low), Cents(high));
            PriceOf(ActionOf(p, Cents(low), Cents(high)), Cents(low), Cents(high)) == p
  {
    WholeBoundsNeedNoClip(u, low, high);
    PriceIsClose(u, Cents(low), Cents(high));
    var n := RoundHalfEven(Affine(u, Cents(low), Cents(high)) * 100.0);
    DividePositive(0.01, Cents(high) - Cents(low));
    RoundTrip(n, ActionOf(Cents(n), Cents(low), Cents(high)), low, high);
  }

  lemma DividePositive(x: real, s: real)
    requires 0.0 < x && 0.0 < s
    ensures 0.0 < x / s
  {
    DivideTimes(x, s);
  }

  /** With whole-cent bounds every price of an action is in whole cents. */
  lemma PriceIsWhole(u: real, low: real, high: real)
    requires low <= high && WholeCents(low) && WholeCents(high)
    ensures WholeCents(PriceOf(u, low, high))
  {
    PriceIsClose(u, low, high);
    CentsAreWhole(RoundHalfEven(Affine(u, low, high) * 100.0));
  }

  /** Any whole-cent price in the bounds comes back from its action, not only the price of an action. */
  lemma WholePriceReturns(p: real, low: real, high: real)
    requires low <= p <= high && low < high && WholeCents(p) && WholeCents(low) && WholeCents(high)
    ensures PriceOf(ActionOf(p, low, high), low, high) == p
  {
    DividePositive(0.01, high - low);
    RoundTrip(CentsIn(p), ActionOf(p, low, high), CentsIn(low), CentsIn(high));
  }

  // ---------------------------------------------------------------- the two functions of the module

  predicate AllFinite(xs: seq<Float>) {
    forall i :: 0 <= i < |xs| ==> xs[i].Finite?
  }

  predicate BoundsOk(low: Float, high: Float, strict: bool) {
    low.Finite? && high.Finite? && low.v <= high.v && (strict ==> low.v < high.v)
  }

  method ToPrice(u: seq<Float>, low: Float, high: Float) returns (r: Result<seq<real>, Error>)
    ensures r.Ok? <==> BoundsOk(low, high, false) && AllFinite(u)
    ensures r.Ok? ==> |r.value| == |u| && forall i :: 0 <= i < |u| ==> r.value[i] == PriceOf(u[i].v, low.v, high.v)
  {
    if !BoundsOk(low, high, false) || !AllFinite(u) {
      return Err(ValueError);
    }
    var prices: seq<real> := [];
    for i := 0 to |u|
      invariant |prices| == i && forall k :: 0 <= k < i ==> prices[k] == PriceOf(u[k].v, low.v, high.v)
    {
      var price := Affine(u[i].v, low.v, high.v);
      price := Quantize(price);
      prices := prices + [Clip(price, low.v, high.v)];
    }
    return Ok(prices);
  }

  method FromPrice(prices: seq<Float>, low: Float, high: Float) returns (r: Result<seq<real>, Error>)
    ensures r.Ok? <==> BoundsOk(low, high, true) && AllFinite(prices)
    ensures r.Ok? ==>
              |r.value| == |prices| && forall i :: 0 <= i < |prices| ==> r.value[i] == ActionOf(prices[i].v, low.v, high.v)
  {
    if !BoundsOk(low, high, true) {
      return Err(ValueError);
    }
    var span := high.v - low.v;
    var actions := new real[|prices|];
    for i := 0 to |prices|
      invariant AllFinite(prices[..i])
      invariant forall k :: 0 <= k < i ==> prices[k].Finite? && actions[k] == ActionOf(prices[k].v, low.v, high.v)
    {
      if !prices[i].Finite? {
        return Err(ValueError);
      }
      actions[i] := Clip(2.0 * (prices[i].v - low.v) / span - 1.0, -1.0, 1.0);
    }
    return Ok(actions[..]);
  }
}

/**
 The search space and its unit cube (abmem/services/hpo/param_space.py), with its linear, log and int scales.
 */
module ParamSpace {
  import opened Wrappers

  datatype Scale = Linear | Logarithmic | Integral

  /** What the log scale uses of log10 and of powers of 10: both keep the order, and the power undoes the logarithm. */
  datatype LogPair = LogPair(log: real -> real, pow: real -> real) {
    ghost predicate Valid() {
      && (forall v: real, w: real :: 0.0 < v < w ==> log(v) < log(w))
      && (forall a: real, b: real :: a <= b ==> pow(a) <= pow(b))
      && (forall v: real :: v > 0.0 ==> pow(log(v)) == v)
    }
  }

  type Logarithm = l: LogPair | l.Valid() witness LogPair(x => x, x => x)

  datatype Value = Real(r: real) | Int(i: int)

  datatype Error = ValueError | KeyError

  predicate IsInteger(x: real) {
    (x.Floor as real) == x
  }

  datatype ParamSpec = ParamSpec(name: string, low: real, high: real, scale: Scale) {
    /** The checks of the constructor. */
    predicate Valid() {
      && name != "" && low < high
      && (scale == Logarithmic ==> low > 0.0)
      && (scale == Integral ==> IsInteger(low) && IsInteger(high))
    }

    function Count(): (n: int)
      requires Valid() && scale == Integral
      ensures n >= 2
    {
      high.Floor - low.Floor + 1
    }

    /** The parameter values to_unit accepts. */
    predicate Accepts(v: real) {
      low <= v <= high && (scale == Integral ==> IsInteger(v))
    }

    function ToUnit(l: Logarithm, v: real): (u: Result<real, Error>)
      requires Valid()
      ensures u.Ok? <==> Accepts(v)
      ensures u.Ok? ==> 0.0 <= u.value <= 1.0
    {
      if !Accepts(v) then Err(ValueError)
      else if scale == Linear then Ok(ClipUnit((v - low) / (high - low)))
      else if scale == Logarithmic then Ok(ClipUnit((l.log(v) - l.log(low)) / (l.log(high) - l.log(low))))
      else Ok(ClipUnit((v - low + 0.5) / (Count() as real)))
    }

    /** Width of the range on the scale: of the values, of their logarithms, or the number of integers. */
    function Width(l: Logarithm): (w: real)
      requires Valid()
      ensures w > 0.0
    {
      match scale
      case Linear => high - low
      case Logarithmic => l.log(high) - l.log(low)
      case Integral => Count() as real
    }

    /** The clipped coordinate on the scale, counted from the lower bound. */
    function Scaled(l: Logarithm, u: real): (p: real)
      requires Valid()
      ensures 0.0 <= p <= Width(l)
    {
      Scaling(ClipUnit(u), Width(l));
      Times(ClipUnit(u), Width(l))
    }

    function FromUnit(l: Logarithm, u: real): (v: Value)
      requires Valid()
      ensures v.Int? <==> scale == Integral
      ensures Accepts(AsReal(v))
    {
      match scale
      case Linear => Real(Within(low + Scaled(l, u), low, high))
      case Logarithmic => Real(Within(l.pow(l.log(low) + Scaled(l, u)), low, high))
      case Integral => Int(IntegerAt(Scaled(l, u), low.Floor, high.Floor))
    }
  }

  function Within(v: real, low: real, high: real): real {
    Min(high, Max(low, v))
  }

  /** The integer whose unit interval, counted from low, holds p. */
  function IntegerAt(p: real, low: int, high: int): int {
    IMin(high, low + p.Floor)
  }

  function Min(a: real, b: real): real { if a <= b then a else b }

  function Max(a: real, b: real): real { if a >= b then a else b }

  function IMin(a: int, b: int): int { if a <= b then a else b }

  function ClipUnit(u: real): (c: real)
    ensures 0.0 <= c <= 1.0
  {
    Min(1.0, Max(0.0, u))
  }

  function AsReal(v: Value): real {
    match v
    case Real(r) => r
    case Int(i) => i as real
  }

  function Times(u: real, c: real): real { u * c }

  lemma Scaling(u: real, c: real)
    requires 0.0 <= u <= 1.0 && c > 0.0
    ensures 0.0 <= Times(u, c) <= c
  {
    assert (1.0 - u) * c >= 0.0;
  }

  lemma NonNegativeFactor(x: real, c: real)
    requires c > 0.0 && x * c >= 0.0
    ensures x >= 0.0
  {}

  lemma QuotientBounds(a: real, b: real)
    requires 0.0 <= a <= b && b > 0.0
    ensures 0.0 <= a / b <= 1.0 && (a / b) * b == a
  {
    var q := a / b;
    assert q * b == a;
    NonNegativeFactor(q, b);
    assert (1.0 - q) * b == b - a;
    NonNegativeFactor(1.0 - q, b);
  }

  /** Dividing by a width and multiplying again changes nothing, and nothing is clipped. */
  lemma RatioBack(a: real, b: real)
    requires 0.0 <= a <= b && b > 0.0
    ensures Times(ClipUnit(ClipUnit(a / b)), b) == a
  {
    QuotientBounds(a, b);
  }

  // ------------------------------------------------------------------ one parameter

  lemma LinearRoundTrip(l: Logarithm, spec: ParamSpec, v: real)
    requires spec.Valid() && spec.Accepts(v) && spec.scale == Linear
    ensures spec.FromUnit(l, spec.ToUnit(l, v).value) == Real(v)
  {
    hide Times, ClipUnit;
    RatioBack(v - spec.low, spec.high - spec.low);
  }

  lemma LogRoundTrip(l: Logarithm, spec: ParamSpec, v: real)
    requires spec.Valid() && spec.Accepts(v) && spec.scale == Logarithmic
    ensures spec.FromUnit(l, spec.ToUnit(l, v).value) == Real(v)
  {
    hide Times, ClipUnit;
    RatioBack(l.log(v) - l.log(spec.low), l.log(spec.high) - l.log(spec.low));
  }

  lemma IntegerRoundTrip(l: Logarithm, spec: ParamSpec, v: real)
    requires spec.Valid() && spec.Accepts(v) && spec.scale == Integral
    ensures spec.FromUnit(l, spec.ToUnit(l, v).value) == Int(v.Floor)
  {
    var n := spec.Count() as real;
    hide Times, ClipUnit;
    RatioBack(v - spec.low + 0.5, n);
    HalfAbove(v.Floor - spec.low.Floor);
  }

  lemma HalfAbove(k: int)
    ensures ((k as real) + 0.5).Floor == k
  {}

  /** from_unit undoes to_unit on every valid value. */
  lemma SpecRoundTrip(l: Logarithm, spec: ParamSpec, v: real)
    requires spec.Valid() && spec.Accepts(v)
    ensures AsReal(spec.FromUnit(l, spec.ToUnit(l, v).value)) == v
  {
    match spec.scale
    case Linear => LinearRoundTrip(l, spec, v);
    case Logarithmic => LogRoundTrip(l, spec, v);
    case Integral => IntegerRoundTrip(l, spec, v);
  }

  lemma Product(a: real, b: real, c: real)
    requires a <= b && c > 0.0
    ensures Times(a, c) <= Times(b, c)
  {
    assert (b - a) * c >= 0.0;
  }

  lemma IntegerAtMonotone(p: real, q: real, low: int, high: int)
    requires p <= q
    ensures IntegerAt(p, low, high) <= IntegerAt(q, low, high)
  {}

  lemma WithinMonotone(v: real, w: real, low: real, high: real)
    requires v <= w
    ensures Within(v, low, high) <= Within(w, low, high)
  {}

  lemma ScaledMonotone(l: Logarithm, spec: ParamSpec, u: real, u': real)
    requires spec.Valid() && u <= u'
    ensures spec.Scaled(l, u) <= spec.Scaled(l, u')
  {
    Product(ClipUnit(u), ClipUnit(u'), spec.Width(l));
  }

  /** A larger coordinate never gives a smaller value. */
  lemma FromUnitMonotone(l: Logarithm, spec: ParamSpec, u: real, u': real)
    requires spec.Valid() && u <= u'
    ensures AsReal(spec.FromUnit(l, u)) <= AsReal(spec.FromUnit(l, u'))
  {
    var p, q := spec.Scaled(l, u), spec.Scaled(l, u');
    ScaledMonotone(l, spec, u, u');
    match spec.scale
    case Linear =>
      WithinMonotone(spec.low + p, spec.low + q, spec.low, spec.high);
    case Logarithmic =>
      var a, b := l.pow(l.log(spec.low) + p), l.pow(l.log(spec.low) + q);
      WithinMonotone(a, b, spec.low, spec.high);
    case Integral =>
      IntegerAtMonotone(p, q, spec.low.Floor, spec.high.Floor);
  }

  /** The integer v owns exactly the coordinates of its interval of width 1 / n; the right end of
      the cube belongs to the largest integer. */
  lemma IntegerInterval(l: Logarithm, spec: ParamSpec, u: real, v: int)
    requires spec.Valid() && spec.scale == Integral && 0.0 <= u <= 1.0
    requires spec.low.Floor <= v <= spec.high.Floor
    ensures var n := spec.Count() as real;
            var k := (v - spec.low.Floor) as real;
            spec.FromUnit(l, u) == Int(v) <==> (k <= u * n < k + 1.0 || (u == 1.0 && v == spec.high.Floor))
  {
    var n := spec.Count() as real;
    Scaling(u, n);
    var p := u * n;
    if u < 1.0 {
      assert (1.0 - u) * n > 0.0;
      assert p.Floor < spec.Count();
    }
  }

  // ------------------------------------------------------------------ the space

  predicate ValidSpace(specs: seq<ParamSpec>) {
    && specs != []
    && (forall i :: 0 <= i < |specs| ==> specs[i].Valid())
    && (forall i, j :: 0 <= i < j < |specs| ==> specs[i].name != specs[j].name)
  }

  /** Parameter values by name, in dimension order. */
  function Decode(l: Logarithm, specs: seq<ParamSpec>, x: seq<real>): (r: Result<map<string, Value>, Error>)
    requires forall i :: 0 <= i < |specs| ==> specs[i].Valid()
    ensures r.Ok? <==> |x| == |specs|
  {
    if |x| != |specs| then Err(ValueError)
    else if specs == [] then Ok(map[])
    else
      var n := |specs| - 1;
      var rest := Decode(l, specs[..n], x[..n]).value;
      Ok(rest[specs[n].name := specs[n].FromUnit(l, x[n])])
  }

  function Encode(l: Logarithm, specs: seq<ParamSpec>, params: map<string, real>): (r: Result<seq<real>, Error>)
    requires forall i :: 0 <= i < |specs| ==> specs[i].Valid()
    ensures r.Ok? ==> |r.value| == |specs|
  {
    if specs == [] then Ok([])
    else
      var n := |specs| - 1;
      var rest :- Encode(l, specs[..n], params);
      if specs[n].name !in params then Err(KeyError)
      else
        var u :- specs[n].ToUnit(l, params[specs[n].name]);
        Ok(rest + [u])
  }

  predicate ValidParams(specs: seq<ParamSpec>, params: map<string, real>) {
    forall i :: 0 <= i < |specs| ==> specs[i].name in params && specs[i].Accepts(params[specs[i].name])
  }

  lemma {:induction false} EncodeAccepts(l: Logarithm, specs: seq<ParamSpec>, params: map<string, real>)
    requires forall i :: 0 <= i < |specs| ==> specs[i].Valid()
    ensures Encode(l, specs, params).Ok? <==> ValidParams(specs, params)
  {
    if specs != [] {
      var n := |specs| - 1;
      EncodeAccepts(l, specs[..n], params);
      if ValidParams(specs, params) {
        assert ValidParams(specs[..n], params);
      }
      if Encode(l, specs, params).Ok? {
        forall i | 0 <= i < |specs| ensures specs[i].name in params && specs[i].Accepts(params[specs[i].name]) {
          if i < n {
            assert specs[..n][i] == specs[i];
          }
        }
      }
    }
  }

  function Names(specs: seq<ParamSpec>): set<string> {
    if specs == [] then {} else Names(specs[..|specs| - 1]) + {specs[|specs| - 1].name}
  }

  /** Decoding yields exactly the parameters of the space, each from its own coordinate. */
  lemma {:induction false} DecodeKeys(l: Logarithm, specs: seq<ParamSpec>, x: seq<real>)
    requires forall i :: 0 <= i < |specs| ==> specs[i].Valid()
    requires |x| == |specs|
    ensures Decode(l, specs, x).value.Keys == Names(specs)
  {
    if specs != [] {
      DecodeKeys(l, specs[..|specs| - 1], x[..|specs| - 1]);
    }
  }

  lemma {:induction false} DecodeAt(l: Logarithm, specs: seq<ParamSpec>, x: seq<real>, i: nat)
    requires forall i :: 0 <= i < |specs| ==> specs[i].Valid()
    requires forall i, j :: 0 <= i < j < |specs| ==> specs[i].name != specs[j].name
    requires |x| == |specs| && i < |specs|
    ensures specs[i].name in Decode(l, specs, x).value
    ensures Decode(l, specs, x).value[specs[i].name] == specs[i].FromUnit(l, x[i])
  {
    if i < |specs| - 1 {
      DecodeAt(l, specs[..|specs| - 1], x[..|specs| - 1], i);
    }
  }

  /** decode(encode(params)) is the identity on valid parameters. */
  lemma EncodeDecodeRoundTrip(l: Logarithm, specs: seq<ParamSpec>, params: map<string, real>)
    requires ValidSpace(specs) && ValidParams(specs, params)
    ensures Encode(l, specs, params).Ok?
    ensures var decoded := Decode(l, specs, Encode(l, specs, params).value).value;
            && decoded.Keys == Names(specs)
            && forall i :: 0 <= i < |specs| ==>
                 specs[i].name in decoded && AsReal(decoded[specs[i].name]) == params[specs[i].name]
  {
    EncodeAccepts(l, specs, params);
    var x := Encode(l, specs, params).value;
    var decoded := Decode(l, specs, x).value;
    DecodeKeys(l, specs, x);
    forall i | 0 <= i < |specs|
      ensures specs[i].name in decoded && AsReal(decoded[specs[i].name]) == params[specs[i].name]
    {
      EncodeAt(l, specs, params, i);
      DecodeAt(l, specs, x, i);
      SpecRoundTrip(l, specs[i], params[specs[i].name]);
    }
  }

  lemma {:induction false} EncodeAt(l: Logarithm, specs: seq<ParamSpec>, params: map<string, real>, i: nat)
    requires forall i :: 0 <= i < |specs| ==> specs[i].Valid()
    requires Encode(l, specs, params).Ok? && i < |specs|
    ensures specs[i].name in params
    ensures specs[i].ToUnit(l, params[specs[i].name]) == Ok(Encode(l, specs, params).value[i])
  {
    if i < |specs| - 1 {
      EncodeAt(l, specs[..|specs| - 1], params, i);
    }
  }
}

/**
 * The range map: clip to an input range, shape with one of six curves, and remap to an output range.
 * Values are reals.
 */
module RangeMap {
  import opened Reals
  import opened Wrappers

  datatype Curve = Linear | Smoothstep | Smootherstep | EaseIn | EaseOut | EaseInOut

  function ApplyCurve(curve: Curve, t: real): real {
    match curve
    case Linear => t
    case Smoothstep => t * t * (3.0 - 2.0 * t)
    case Smootherstep => t * t * t * (t * (t * 6.0 - 15.0) + 10.0)
    case EaseIn => t * t
    case EaseOut => 1.0 - (1.0 - t) * (1.0 - t)
    case EaseInOut => if t < 0.5 then 2.0 * t * t else 1.0 - 2.0 * (1.0 - t) * (1.0 - t)
  }

  // ---------------------------------------------------------------------------------------
  // The curves
  // ---------------------------------------------------------------------------------------

  /** How far each curve leaves the straight line, as a product that shows where it meets it. */
  lemma CurveOffLine(t: real)
    ensures ApplyCurve(Linear, t) == t
    ensures ApplyCurve(Smoothstep, t) - t == t * (1.0 - t) * (2.0 * t - 1.0)
    ensures ApplyCurve(Smootherstep, t) - t == t * (1.0 - t) * (2.0 * t - 1.0) * (1.0 + 3.0 * t * (1.0 - t))
    ensures ApplyCurve(EaseIn, t) - t == -(t * (1.0 - t)) && ApplyCurve(EaseOut, t) - t == t * (1.0 - t)
    ensures 2.0 * t <= 1.0 ==> ApplyCurve(EaseInOut, t) - t == -(t * (1.0 - 2.0 * t))
    ensures 2.0 * t >= 1.0 ==> ApplyCurve(EaseInOut, t) - t == (1.0 - t) * (2.0 * t - 1.0)
  {
    SmootherOffLine(t);
  }

  lemma SmootherOffLine(t: real)
    ensures ApplyCurve(Smootherstep, t) - t == t * (1.0 - t) * (2.0 * t - 1.0) * (1.0 + 3.0 * t * (1.0 - t))
  {
    var a, b := t * t, t * t * t;
    assert t * (1.0 - t) * (2.0 * t - 1.0) == 3.0 * a - t - 2.0 * b;
    assert (3.0 * a - t - 2.0 * b) * (1.0 + 3.0 * t - 3.0 * a) == 10.0 * b - t - 15.0 * a * a + 6.0 * a * b;
  }

  lemma ProductPositive(a: real, b: real)
    requires a > 0.0 && b > 0.0
    ensures a * b > 0.0
  {
  }

  lemma ProductNotNegative(a: real, b: real)
    requires a >= 0.0 && b >= 0.0
    ensures a * b >= 0.0
  {
  }

  lemma SquareGrows(s: real, t: real)
    requires 0.0 <= s < t
    ensures s * s < t * t
  {
    ProductPositive(t - s, t + s);
    assert t * t - s * s == (t - s) * (t + s);
  }

  function Times(a: real, b: real): real {
    a * b
  }

  lemma SameSign(a: real, b: real)
    requires (a >= 0.0 && b >= 0.0) || (a <= 0.0 && b <= 0.0)
    ensures Times(a, b) >= 0.0 && (a != 0.0 && b != 0.0 ==> Times(a, b) > 0.0)
  {
  }

  function Square(a: real): real {
    Times(a, a)
  }

  /** A sum of squares that is zero only when h is. */
  function Squares(m: real, h: real): real {
    Square(m - Square(m) - Square(h) / 3.0)
    + Times(Square(1.0 - 2.0 * m), Square(h)) / 3.0
    + 4.0 * Square(Square(h)) / 45.0
  }

  lemma SquaresPositive(m: real, h: real)
    requires h != 0.0
    ensures Squares(m, h) > 0.0
  {
    hide Times;
    SameSign(h, h);
    SameSign(Square(h), Square(h));
    SameSign(m - Square(m) - Square(h) / 3.0, m - Square(m) - Square(h) / 3.0);
    SameSign(1.0 - 2.0 * m, 1.0 - 2.0 * m);
    SameSign(Square(1.0 - 2.0 * m), Square(h));
  }

  /** The rise of the smootherstep curve between m - h and m + h, as a sum of squares. */
  lemma SmootherstepRise(m: real, h: real)
    ensures ApplyCurve(Smootherstep, m + h) - ApplyCurve(Smootherstep, m - h) == 60.0 * h * Squares(m, h)
  {
  }

  lemma SmoothstepRises(s: real, t: real)
    requires 0.0 <= s < t <= 1.0
    ensures ApplyCurve(Smoothstep, s) < ApplyCurve(Smoothstep, t)
  {
    var rest := 2.0 * (s * (1.0 - s)) + 2.0 * (t * (1.0 - t)) + s * (1.0 - t) + t * (1.0 - s);
    ProductNotNegative(s, 1.0 - s);
    ProductNotNegative(t, 1.0 - t);
    ProductNotNegative(s, 1.0 - t);
    ProductPositive(t, 1.0 - s);
    ProductPositive(t - s, rest);
    assert ApplyCurve(Smoothstep, t) - ApplyCurve(Smoothstep, s) == (t - s) * rest;
  }

  lemma SmootherstepRises(s: real, t: real)
    requires s < t
    ensures ApplyCurve(Smootherstep, s) < ApplyCurve(Smootherstep, t)
  {
    hide ApplyCurve, Squares;
    var m, h := (s + t) / 2.0, (t - s) / 2.0;
    assert m + h == t && m - h == s;
    SmootherstepRise(m, h);
    SquaresPositive(m, h);
    ProductPositive(60.0 * h, Squares(m, h));
  }

  lemma EaseInOutRises(s: real, t: real)
    requires 0.0 <= s < t <= 1.0
    ensures ApplyCurve(EaseInOut, s) < ApplyCurve(EaseInOut, t)
  {
    if t < 0.5 {
      SquareGrows(s, t);
    } else if s >= 0.5 {
      SquareGrows(1.0 - t, 1.0 - s);
    } else {
      SquareGrows(s, 0.5);
      if t > 0.5 {
        SquareGrows(1.0 - t, 0.5);
      }
    }
  }

  /** Every curve rises strictly on the unit interval. */
  lemma CurveRises(curve: Curve, s: real, t: real)
    requires 0.0 <= s < t <= 1.0
    ensures ApplyCurve(curve, s) < ApplyCurve(curve, t)
  {
    match curve
    case Linear =>
    case Smoothstep => SmoothstepRises(s, t);
    case Smootherstep => SmootherstepRises(s, t);
    case EaseIn => SquareGrows(s, t);
    case EaseOut => SquareGrows(1.0 - t, 1.0 - s);
    case EaseInOut => EaseInOutRises(s, t);
  }

  /** Every curve fixes both ends and so maps the unit interval into itself. */
  lemma CurveInUnit(curve: Curve, t: real)
    requires 0.0 <= t <= 1.0
    ensures ApplyCurve(curve, 0.0) == 0.0 && ApplyCurve(curve, 1.0) == 1.0
    ensures 0.0 <= ApplyCurve(curve, t) <= 1.0
  {
    CurveEnds(curve);
    hide ApplyCurve;
    if t > 0.0 {
      CurveRises(curve, 0.0, t);
    }
    if t < 1.0 {
      CurveRises(curve, t, 1.0);
    }
  }

  lemma CurveEnds(curve: Curve)
    ensures ApplyCurve(curve, 0.0) == 0.0 && ApplyCurve(curve, 1.0) == 1.0
  {
  }

  // ---------------------------------------------------------------------------------------
  // The map
  // ---------------------------------------------------------------------------------------

  datatype Params = Params(inMin: real, inMax: real, outMin: real, outMax: real, curve: Curve)

  function Clipped(lo: real, hi: real, x: real): real {
    Min(hi, Max(lo, x))
  }

  /** Where a value lies in a range that is not empty, and what lies there in another. */
  function Portion(lo: real, hi: real, value: real): real
    requires lo < hi
  {
    (value - lo) / (hi - lo)
  }

  function Between(lo: real, hi: real, t: real): real {
    lo + t * (hi - lo)
  }

  function Mapped(p: Params, x: real): real {
    var inLo, inHi := Min(p.inMin, p.inMax), Max(p.inMin, p.inMax);
    var outLo, outHi := Min(p.outMin, p.outMax), Max(p.outMin, p.outMax);
    if inLo == inHi then outLo
    else Between(outLo, outHi, ApplyCurve(p.curve, Portion(inLo, inHi, Clipped(inLo, inHi, x))))
  }

  lemma SelfQuotient(d: real)
    requires d != 0.0
    ensures d / d == 1.0
  {
  }

  lemma ProductQuotient(t: real, d: real)
    requires d != 0.0
    ensures (t * d) / d == t
  {
    SameFactor(t * d / d, t, d);
  }

  lemma SameFactor(a: real, b: real, d: real)
    requires d != 0.0 && a * d == b * d
    ensures a == b
  {
    assert (a - b) * d == 0.0;
  }

  lemma PortionOf(lo: real, hi: real, t: real)
    requires lo < hi && 0.0 <= t <= 1.0
    ensures lo <= Between(lo, hi, t) <= hi && Portion(lo, hi, Between(lo, hi, t)) == t
  {
    var d := hi - lo;
    ProductNotNegative(t, d);
    ProductNotNegative(1.0 - t, d);
    ProductQuotient(t, d);
    assert Between(lo, hi, t) - lo == t * d;
  }

  /** An input some part of the way through its range goes as far through the output range as the curve says. */
  lemma MappedAlong(p: Params, t: real)
    requires p.inMin != p.inMax && 0.0 <= t <= 1.0
    ensures var (a, b) := if p.inMin < p.inMax then (p.inMin, p.inMax) else (p.inMax, p.inMin);
            var (c, d) := if p.outMin < p.outMax then (p.outMin, p.outMax) else (p.outMax, p.outMin);
            Mapped(p, a + t * (b - a)) == c + ApplyCurve(p.curve, t) * (d - c)
  {
    hide ApplyCurve, Mapped;
    MappedBetween(p, t);
  }

  lemma MappedBetween(p: Params, t: real)
    requires p.inMin != p.inMax && 0.0 <= t <= 1.0
    ensures var (a, b) := if p.inMin < p.inMax then (p.inMin, p.inMax) else (p.inMax, p.inMin);
            var (c, d) := if p.outMin < p.outMax then (p.outMin, p.outMax) else (p.outMax, p.outMin);
            Mapped(p, Between(a, b, t)) == Between(c, d, ApplyCurve(p.curve, t))
  {
    hide ApplyCurve, Portion, Between;
    var (a, b) := if p.inMin < p.inMax then (p.inMin, p.inMax) else (p.inMax, p.inMin);
    PortionOf(a, b, t);
    assert Min(p.inMin, p.inMax) == a && Max(p.inMin, p.inMax) == b;
    assert Clipped(a, b, Between(a, b, t)) == Between(a, b, t);
  }

  lemma PortionRises(lo: real, hi: real, value: real, value': real)
    requires lo < hi
    ensures Portion(lo, hi, value) < Portion(lo, hi, value') <==> value < value'
    ensures Portion(lo, hi, lo) == 0.0 && Portion(lo, hi, hi) == 1.0
  {
    SelfQuotient(hi - lo);
    var d, q, q' := hi - lo, Portion(lo, hi, value), Portion(lo, hi, value');
    assert q * d == value - lo && q' * d == value' - lo;
    assert (q' - q) * d == value' - value;
    if q < q' {
      ProductPositive(q' - q, d);
    } else {
      ProductNotNegative(q - q', d);
      assert (q - q') * d == value - value';
    }
  }

  lemma BetweenRises(lo: real, hi: real, t: real, t': real)
    requires lo <= hi && t <= t'
    ensures Between(lo, hi, t) <= Between(lo, hi, t')
    ensures lo < hi && t < t' ==> Between(lo, hi, t) < Between(lo, hi, t')
    ensures Between(lo, hi, 0.0) == lo && Between(lo, hi, 1.0) == hi
  {
    ProductNotNegative(t' - t, hi - lo);
    if lo < hi && t < t' {
      ProductPositive(t' - t, hi - lo);
    }
    assert (t' - t) * (hi - lo) == t' * (hi - lo) - t * (hi - lo);
  }

  /** The output lies between the output bounds, given either way round, and reaches them at the input bounds. */
  lemma MappedInBounds(p: Params, x: real)
    ensures Min(p.outMin, p.outMax) <= Mapped(p, x) <= Max(p.outMin, p.outMax)
    ensures x <= Min(p.inMin, p.inMax) ==> Mapped(p, x) == Min(p.outMin, p.outMax)
    ensures x >= Max(p.inMin, p.inMax) && p.inMin != p.inMax ==> Mapped(p, x) == Max(p.outMin, p.outMax)
    ensures p.inMin == p.inMax ==> Mapped(p, x) == Min(p.outMin, p.outMax)
  {
    hide ApplyCurve, Portion, Between;
    if p.inMin != p.inMax {
      var inLo, inHi := Min(p.inMin, p.inMax), Max(p.inMin, p.inMax);
      var outLo, outHi := Min(p.outMin, p.outMax), Max(p.outMin, p.outMax);
      var clipped := Clipped(inLo, inHi, x);
      PortionRises(inLo, inHi, clipped, inLo);
      PortionRises(inLo, inHi, inHi, clipped);
      var t := Portion(inLo, inHi, clipped);
      CurveInUnit(p.curve, t);
      BetweenRises(outLo, outHi, 0.0, ApplyCurve(p.curve, t));
      BetweenRises(outLo, outHi, ApplyCurve(p.curve, t), 1.0);
    }
  }

  /** The output never falls as the input grows; inside the input range it rises, unless the output range is a point. */
  lemma MappedRises(p: Params, x: real, x': real)
    requires x < x'
    ensures Mapped(p, x) <= Mapped(p, x')
    ensures Min(p.inMin, p.inMax) <= x && x' <= Max(p.inMin, p.inMax) && p.outMin != p.outMax ==>
              Mapped(p, x) < Mapped(p, x')
  {
    hide ApplyCurve, Portion, Between;
    if p.inMin != p.inMax {
      var inLo, inHi := Min(p.inMin, p.inMax), Max(p.inMin, p.inMax);
      var outLo, outHi := Min(p.outMin, p.outMax), Max(p.outMin, p.outMax);
      var clipped, clipped' := Clipped(inLo, inHi, x), Clipped(inLo, inHi, x');
      PortionRises(inLo, inHi, clipped, inLo);
      PortionRises(inLo, inHi, inHi, clipped');
      PortionRises(inLo, inHi, clipped, clipped');
      if clipped < clipped' {
        var t, t' := Portion(inLo, inHi, clipped), Portion(inLo, inHi, clipped');
        CurveRises(p.curve, t, t');
        BetweenRises(outLo, outHi, ApplyCurve(p.curve, t), ApplyCurve(p.curve, t'));
      }
    }
  }

  /** Exchanging the two bounds of a range changes nothing, so no setting turns the direction round. */
  lemma ExchangedBoundsMapAlike(p: Params, x: real)
    ensures Mapped(p.(inMin := p.inMax, inMax := p.inMin), x) == Mapped(p, x)
    ensures Mapped(p.(outMin := p.outMax, outMax := p.outMin), x) == Mapped(p, x)
  {
    hide ApplyCurve, Portion, Between, Clipped;
  }

  // ---------------------------------------------------------------------------------------
  // The node
  // ---------------------------------------------------------------------------------------

  datatype Field = InMin(v: real) | InMax(v: real) | OutMin(v: real) | OutMax(v: real) | CurveField(c: Curve)

  function Configured(p: Params, field: Field): Params {
    match field
    case InMin(v) => p.(inMin := v)
    case InMax(v) => p.(inMax := v)
    case OutMin(v) => p.(outMin := v)
    case OutMax(v) => p.(outMax := v)
    case CurveField(c) => p.(curve := c)
  }

  class RangeMapNode {
    var inMin: real
    var inMax: real
    var outMin: real
    var outMax: real
    var curve: Curve
    var lastInput: Option<real>
    var lastOutput: Option<real>
    var lastCtx: Option<int>
    var dirty: bool

    function Parameters(): Params
      reads this
    {
      Params(inMin, inMax, outMin, outMax, curve)
    }

    /** What is cached and not dirty is what the last input maps to now. */
    ghost predicate Valid()
      reads this
    {
      && (lastInput.Some? <==> lastOutput.Some?)
      && (!dirty && lastInput.Some? ==> lastOutput == Some(Mapped(Parameters(), lastInput.value)))
    }

    constructor (p: Params)
      ensures Valid() && Parameters() == p && lastOutput.None?
    {
      inMin, inMax, outMin, outMax, curve := p.inMin, p.inMax, p.outMin, p.outMax, p.curve;
      lastInput, lastOutput, lastCtx, dirty := None, None, None, true;
    }

    method OnState(field: Field)
      requires Valid()
      modifies this
      ensures Valid() && Parameters() == Configured(old(Parameters()), field) && lastOutput == old(lastOutput)
    {
      match field {
        case InMin(v) => inMin := v;
        case InMax(v) => inMax := v;
        case OutMin(v) => outMin := v;
        case OutMax(v) => outMax := v;
        case CurveField(c) => curve := c;
      }
      dirty := true;
    }

    /** Caching never shows: a number pulled for the context is mapped with the parameters as they are. */
    method ComputeOutput(input: Option<real>, ctx: int) returns (output: Option<real>)
      requires Valid()
      modifies this
      ensures Valid() && Parameters() == old(Parameters()) && output == lastOutput
      ensures output == if input.None? then old(lastOutput) else Some(Mapped(Parameters(), input.value))
    {
      if input.None? {
        return lastOutput;
      }
      var x := input.value;
      if !dirty && lastCtx.Some? && lastCtx.value == ctx && lastInput.Some? && lastInput.value == x {
        return lastOutput;
      }
      hide ApplyCurve, Portion, Between, Clipped;
      var inLo, inHi, outLo, outHi := inMin, inMax, outMin, outMax;
      if inLo > inHi {
        inLo, inHi := inHi, inLo;
      }
      if outLo > outHi {
        outLo, outHi := outHi, outLo;
      }
      var out := outLo;
      if inHi - inLo != 0.0 {
        var clipped := Clipped(inLo, inHi, x);
        var t := ApplyCurve(curve, Portion(inLo, inHi, clipped));
        out := Between(outLo, outHi, t);
      }
      lastInput, lastOutput, lastCtx, dirty := input, Some(out), Some(ctx), false;
      return lastOutput;
    }
  }
}

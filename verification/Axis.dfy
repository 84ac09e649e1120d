/**
 From a raw axis reading to a Switch stick position: normalise, cut out the dead
 zone, scale, cap, combine the two halves of an axis and stretch to the stick's
 range.  Numbers are exact reals here.
 */
module Axis {

  const JOYSTICK_MAX: int := 0x7FFF
  const JOYSTICK_MIN: int := -0x7FFF

  /** C division by two: towards zero. */
  function Half(n: int): int {
    if n >= 0 then n / 2 else -((-n) / 2)
  }

  /** A float converted to an integer: towards zero. */
  function Truncate(r: real): int {
    if r >= 0.0 then r.Floor else -((-r).Floor)
  }

  function Clamp(r: real): (c: real)
    ensures -1.0 <= c <= 1.0
  {
    if r > 1.0 then 1.0 else if r < -1.0 then -1.0 else r
  }

  /** The reading on each side of the centre as a fraction of that side. */
  function Fraction(value: int, min: int, max: int, center: int): real
    requires min < center < max
  {
    if value < center then ((value - min) as real / (center - min) as real) - 1.0
    else (value - center) as real / (max - center) as real
  }

  function NormalizeAround(value: int, min: int, max: int, center: int): real
    requires min < center < max
  {
    Clamp(Fraction(value, min, max, center))
  }

  function Normalize(value: int, min: int, max: int): real
    requires min < Half(max + min) < max
  {
    NormalizeAround(value, min, max, Half(max + min))
  }

  function Abs(r: real): real {
    if r < 0.0 then -r else r
  }

  /** Nothing below the dead zone d, and the rest moved to start at zero and stretched. */
  function Cut(d: real, scale: real, value: real): real {
    if Abs(value) < d then 0.0
    else if value > 0.0 then (value - d) * scale else (value + d) * scale
  }

  /** What stretches the rest back to the full range. */
  function Scale(d: real): (scale: real)
    requires d < 1.0
  {
    1.0 / (1.0 - d)
  }

  function ApplyDeadzone(percent: nat, value: real): real
    requires percent < 100
  {
    var deadzone := percent as real / 100.0;
    Cut(deadzone, Scale(deadzone), value)
  }

  /** Stick coordinates from fractions; up is negative on the Switch. */
  function ConvertX(x: real): int {
    Truncate(((x + 1.0) * (JOYSTICK_MAX - JOYSTICK_MIN) as real) / 2.0 + JOYSTICK_MIN as real)
  }

  function ConvertY(y: real): int {
    Truncate(-(((y + 1.0) * (JOYSTICK_MAX - JOYSTICK_MIN) as real) / 2.0 + JOYSTICK_MIN as real))
  }

  // ---------------------------------------------------------------- what the steps mean

  /** Twice the half is the number, less its odd one: the range of a 16-bit reading is centred on zero. */
  lemma HalfIsTowardsZero(n: int)
    ensures 2 * Half(n) == (if n % 2 == 0 then n else if n > 0 then n - 1 else n + 1)
    ensures Half(32767 + -32768) == 0
  {
  }

  lemma TruncateIsTowardsZero(r: real)
    ensures r >= 0.0 ==> r - 1.0 < Truncate(r) as real <= r
    ensures r <= 0.0 ==> r <= Truncate(r) as real < r + 1.0
  {
  }

  /** A fraction is the distance from the centre as a part of the distance of the end on the same side. */
  lemma FractionOfSide(value: int, min: int, max: int, center: int)
    requires min < center < max
    ensures var end := if value < center then center - min else max - center;
            Fraction(value, min, max, center) * end as real == (value - center) as real
  {
    if value < center {
      var q := (value - min) as real / (center - min) as real;
      assert q * (center - min) as real == (value - min) as real;
      assert (q - 1.0) * (center - min) as real == q * (center - min) as real - (center - min) as real;
    }
  }

  /** Outside the dead zone the rest of the way is stretched to the full range, whichever the side. */
  lemma DeadzoneIsLinear(percent: nat, value: real)
    requires percent < 100
    ensures var r := ApplyDeadzone(percent, value);
            && (100.0 * Abs(value) < percent as real ==> r == 0.0)
            && (100.0 * value >= percent as real && value > 0.0 ==>
                  r * (100 - percent) as real == 100.0 * value - percent as real)
            && (100.0 * -value >= percent as real && value < 0.0 ==>
                  r * (100 - percent) as real == 100.0 * value + percent as real)
  {
    var d := percent as real / 100.0;
    ScaleStretches(d);
    Stretched(value - d, d, Scale(d));
    Stretched(value + d, d, Scale(d));
  }

  lemma Stretched(rest: real, d: real, scale: real)
    requires (1.0 - d) * scale == 1.0
    ensures rest * scale * (100.0 - 100.0 * d) == 100.0 * rest
  {
    assert rest * scale * (100.0 - 100.0 * d) == 100.0 * (rest * ((1.0 - d) * scale));
  }

  /** A factor is a percentage, and what it takes beyond the range is cut at the end it passes. */
  lemma GainIsPercent(value: real, factor: nat)
    ensures var r, scaled := 100.0 * Gained(value, Gain(factor)), value * factor as real;
            r == if scaled > 100.0 then 100.0 else if scaled < -100.0 then -100.0 else scaled
  {
    var gain := Gain(factor);
    PartOfProduct(value, gain, factor as real);
    ClampedParts(value * gain);
  }

  lemma PartOfProduct(value: real, gain: real, factor: real)
    requires gain == factor / 100.0
    ensures 100.0 * (value * gain) == value * factor
  {
    assert factor == 100.0 * gain;
    assert 100.0 * (value * gain) == value * (100.0 * gain);
  }

  lemma ClampedParts(x: real)
    ensures 100.0 * Clamp(x) == if 100.0 * x > 100.0 then 100.0 else if 100.0 * x < -100.0 then -100.0 else 100.0 * x
  {
  }

  // ---------------------------------------------------------------- order and bounds

  lemma DivideKeepsOrder(a: real, b: real, d: real)
    requires a <= b && d > 0.0
    ensures a / d <= b / d
  {
  }

  lemma MultiplyKeepsOrder(a: real, b: real, f: real)
    requires a <= b && f >= 0.0
    ensures a * f <= b * f
  {
  }

  lemma ProductSign(a: real, f: real)
    requires f >= 0.0
    ensures (a >= 0.0 ==> a * f >= 0.0) && (a <= 0.0 ==> a * f <= 0.0)
  {
  }

  lemma QuotientVersusOne(a: real, d: real)
    requires d > 0.0
    ensures a / d >= 0.0 <==> a >= 0.0
    ensures a / d >= 1.0 <==> a >= d
    ensures a / d <= 1.0 <==> a <= d
  {
    var q := a / d;
    assert q * d == a;
    if q >= 0.0 {
      MultiplyKeepsOrder(0.0, q, d);
    }
    if q >= 1.0 {
      MultiplyKeepsOrder(1.0, q, d);
    }
    if q <= 1.0 {
      MultiplyKeepsOrder(q, 1.0, d);
    }
  }

  lemma FractionSides(value: int, min: int, max: int, center: int)
    requires min < center < max
    ensures value < center ==> Fraction(value, min, max, center) < 0.0
    ensures value >= center ==> Fraction(value, min, max, center) >= 0.0
    ensures min <= value < center ==> Fraction(value, min, max, center) >= -1.0
    ensures center <= value <= max ==> Fraction(value, min, max, center) <= 1.0
    ensures value <= min ==> Fraction(value, min, max, center) <= -1.0
    ensures value >= max ==> Fraction(value, min, max, center) >= 1.0
  {
    if value < center {
      QuotientVersusOne((value - min) as real, (center - min) as real);
      QuotientVersusOne(-((value - min) as real), (center - min) as real);
      assert -((value - min) as real) / (center - min) as real == -((value - min) as real / (center - min) as real);
    } else {
      QuotientVersusOne((value - center) as real, (max - center) as real);
    }
  }

  lemma FractionMonotone(v: int, w: int, min: int, max: int, center: int)
    requires min < center < max && v <= w
    ensures Fraction(v, min, max, center) <= Fraction(w, min, max, center)
  {
    FractionSides(v, min, max, center);
    FractionSides(w, min, max, center);
    if w < center {
      DivideKeepsOrder((v - min) as real, (w - min) as real, (center - min) as real);
    } else if v >= center {
      DivideKeepsOrder((v - center) as real, (w - center) as real, (max - center) as real);
    }
  }

  /** Within the range the clamp has nothing to do. */
  lemma ClampIsIdle(value: int, min: int, max: int, center: int)
    requires min < center < max && min <= value <= max
    ensures NormalizeAround(value, min, max, center) == Fraction(value, min, max, center)
    ensures -1.0 <= Fraction(value, min, max, center) <= 1.0
  {
    FractionSides(value, min, max, center);
  }

  lemma NormalizeMonotone(v: int, w: int, min: int, max: int)
    requires min < Half(max + min) < max && v <= w
    ensures Normalize(v, min, max) <= Normalize(w, min, max)
  {
    FractionMonotone(v, w, min, max, Half(max + min));
  }

  /** Both ends and everything beyond them are reached. */
  lemma NormalizeEnds(value: int, min: int, max: int)
    requires min < Half(max + min) < max
    ensures value <= min ==> Normalize(value, min, max) == -1.0
    ensures value >= max ==> Normalize(value, min, max) == 1.0
  {
    FractionSides(value, min, max, Half(max + min));
  }

  lemma ScaleStretches(d: real)
    requires d < 1.0
    ensures Scale(d) > 0.0 && (1.0 - d) * Scale(d) == 1.0
  {
  }

  lemma CutMonotone(d: real, scale: real, v: real, w: real)
    requires d >= 0.0 && scale > 0.0 && v <= w
    ensures Cut(d, scale, v) <= Cut(d, scale, w)
  {
    if Abs(v) < d {
      ProductSign(w - d, scale);
    } else if v > 0.0 {
      MultiplyKeepsOrder(v - d, w - d, scale);
    } else if Abs(w) < d || w > 0.0 {
      ProductSign(v + d, scale);
      ProductSign(w - d, scale);
    } else {
      MultiplyKeepsOrder(v + d, w + d, scale);
    }
  }

  lemma DeadzoneMonotone(percent: nat, v: real, w: real)
    requires percent < 100 && v <= w
    ensures ApplyDeadzone(percent, v) <= ApplyDeadzone(percent, w)
  {
    var d := percent as real / 100.0;
    ScaleStretches(d);
    CutMonotone(d, Scale(d), v, w);
  }

  lemma DeadzoneEnds(percent: nat)
    requires percent < 100
    ensures ApplyDeadzone(percent, 1.0) == 1.0 && ApplyDeadzone(percent, -1.0) == -1.0
  {
    var d := percent as real / 100.0;
    ScaleStretches(d);
    assert (-1.0 + d) * Scale(d) == -((1.0 - d) * Scale(d));
  }

  lemma TruncateMonotone(a: real, b: real)
    requires a <= b
    ensures Truncate(a) <= Truncate(b)
  {
  }

  lemma ConvertIsScaling(x: real)
    ensures ConvertX(x) == Truncate(32767.0 * x) && ConvertY(x) == -Truncate(32767.0 * x)
  {
    assert ((x + 1.0) * 65534.0) / 2.0 + -32767.0 == 32767.0 * x;
  }

  // ---------------------------------------------------------------- the whole pipeline

  function Gain(factor: nat): (g: real)
    ensures g >= 0.0
  {
    factor as real / 100.0
  }

  function Gained(value: real, gain: real): real {
    Clamp(value * gain)
  }

  /** An axis bound to the negative and positive direction of one stick axis, scaled by a percentage. */
  function AxisValue(raw: int, min: int, max: int, deadzone: nat, factor: nat): real
    requires min < Half(max + min) < max && deadzone < 100
  {
    Gained(ApplyDeadzone(deadzone, Normalize(raw, min, max)), Gain(factor))
  }

  lemma GainedMonotone(a: real, b: real, gain: real)
    requires a <= b && gain >= 0.0
    ensures Gained(a, gain) <= Gained(b, gain)
  {
    MultiplyKeepsOrder(a, b, gain);
    ClampMonotone(a * gain, b * gain);
  }

  lemma ClampMonotone(a: real, b: real)
    requires a <= b
    ensures Clamp(a) <= Clamp(b)
  {
  }

  lemma CutAndGainedMonotone(a: real, b: real, deadzone: nat, gain: real)
    requires a <= b && deadzone < 100 && gain >= 0.0
    ensures Gained(ApplyDeadzone(deadzone, a), gain) <= Gained(ApplyDeadzone(deadzone, b), gain)
  {
    DeadzoneMonotone(deadzone, a, b);
    GainedMonotone(ApplyDeadzone(deadzone, a), ApplyDeadzone(deadzone, b), gain);
  }

  lemma AxisValueMonotone(v: int, w: int, min: int, max: int, deadzone: nat, factor: nat)
    requires min < Half(max + min) < max && deadzone < 100 && v <= w
    ensures AxisValue(v, min, max, deadzone, factor) <= AxisValue(w, min, max, deadzone, factor)
  {
    NormalizeMonotone(v, w, min, max);
    CutAndGainedMonotone(Normalize(v, min, max), Normalize(w, min, max), deadzone, Gain(factor));
  }

  /** The stick position follows the reading: never backwards in x, never forwards in y. */
  lemma StickFollowsReading(v: int, w: int, min: int, max: int, deadzone: nat, factor: nat)
    requires min < Half(max + min) < max && deadzone < 100 && v <= w
    ensures ConvertX(AxisValue(v, min, max, deadzone, factor)) <= ConvertX(AxisValue(w, min, max, deadzone, factor))
    ensures ConvertY(AxisValue(v, min, max, deadzone, factor)) >= ConvertY(AxisValue(w, min, max, deadzone, factor))
  {
    var a, b := AxisValue(v, min, max, deadzone, factor), AxisValue(w, min, max, deadzone, factor);
    AxisValueMonotone(v, w, min, max, deadzone, factor);
    ConvertIsScaling(a);
    ConvertIsScaling(b);
    TruncateMonotone(32767.0 * a, 32767.0 * b);
  }

  lemma StickInRange(raw: int, min: int, max: int, deadzone: nat, factor: nat)
    requires min < Half(max + min) < max && deadzone < 100
    ensures JOYSTICK_MIN <= ConvertX(AxisValue(raw, min, max, deadzone, factor)) <= JOYSTICK_MAX
    ensures JOYSTICK_MIN <= ConvertY(AxisValue(raw, min, max, deadzone, factor)) <= JOYSTICK_MAX
  {
    var a := AxisValue(raw, min, max, deadzone, factor);
    ConvertIsScaling(a);
    TruncateMonotone(-32767.0, 32767.0 * a);
    TruncateMonotone(32767.0 * a, 32767.0);
  }

  /** A reading inside the dead zone leaves the stick centred. */
  lemma DeadzoneCentres(raw: int, min: int, max: int, deadzone: nat, factor: nat)
    requires min < Half(max + min) < max && deadzone < 100
    requires Abs(Normalize(raw, min, max)) < deadzone as real / 100.0
    ensures ConvertX(AxisValue(raw, min, max, deadzone, factor)) == 0
    ensures ConvertY(AxisValue(raw, min, max, deadzone, factor)) == 0
  {
    ConvertIsScaling(0.0);
  }

  /** The reading's two ends move the stick to its two ends exactly when the factor is at least one hundred percent. */
  lemma EndsReachEnds(min: int, max: int, deadzone: nat, factor: nat)
    requires min < Half(max + min) < max && deadzone < 100
    ensures ConvertX(AxisValue(max, min, max, deadzone, factor)) == JOYSTICK_MAX <==> factor >= 100
    ensures ConvertX(AxisValue(min, min, max, deadzone, factor)) == JOYSTICK_MIN <==> factor >= 100
  {
    NormalizeEnds(min, min, max);
    NormalizeEnds(max, min, max);
    DeadzoneEnds(deadzone);
    var f := Gain(factor);
    assert f >= 1.0 <==> factor >= 100;
    ConvertIsScaling(Clamp(f));
    ConvertIsScaling(Clamp(-f));
    assert 1.0 * f == f && -1.0 * f == -f;
    TruncateBelow(f);
  }

  lemma TruncateBelow(f: real)
    requires f >= 0.0
    ensures Truncate(32767.0 * Clamp(f)) == 32767 <==> f >= 1.0
    ensures Truncate(32767.0 * Clamp(-f)) == -32767 <==> f >= 1.0
  {
  }
}

/** From a transmission to a motor position and back, for any angle function in
    the role of `acos(sqrt(t))` in degrees. */
module Transmission {
  import opened Timer

  const CAL_SCALE: real := -43.3333   // steps per degree
  const CAL_OFFSET: int := 3900

  /** Falls from at most 90 to at least 0 degrees as the transmission grows. */
  ghost predicate AngleFunction(angle: real -> real) {
    && (forall t :: 0.0 <= t <= 1.0 ==> 0.0 <= angle(t) <= 90.0)
    && (forall t, u :: 0.0 <= t <= u <= 1.0 ==> angle(t) >= angle(u))
  }

  /** `trans_to_steps`: the product is cut toward zero before the offsets go on. */
  function TransToSteps(angle: real -> real, t: real, offset: int): int {
    Trunc(CAL_SCALE * angle(t)) + offset + CAL_OFFSET
  }

  /** The angle `steps_to_trans` takes the cosine of. */
  function StepsToAngle(steps: int, offset: int): real {
    (steps - offset - CAL_OFFSET) as real / CAL_SCALE
  }

  /** Default calibration keeps every target within 1..3900 steps of the offset. */
  lemma TargetBound(angle: real -> real, t: real, offset: int)
    requires AngleFunction(angle) && 0.0 <= t <= 1.0
    ensures offset + 1 <= TransToSteps(angle, t, offset) <= offset + CAL_OFFSET
  {
    ScaledBound(angle(t));
  }

  lemma ScaledBound(a: real)
    requires 0.0 <= a <= 90.0
    ensures -3899.997 <= CAL_SCALE * a <= 0.0
    ensures -3899 <= Trunc(CAL_SCALE * a) <= 0
  {
    var x := CAL_SCALE * a;
    var n := Trunc(x);
    assert n as real - 1.0 < x <= n as real;
    assert (n as real) >= -3899.997;
  }

  /** More transmission never means a smaller target. */
  lemma TargetMonotone(angle: real -> real, t: real, u: real, offset: int)
    requires AngleFunction(angle) && 0.0 <= t <= u <= 1.0
    ensures TransToSteps(angle, t, offset) <= TransToSteps(angle, u, offset)
  {
    var x, y := CAL_SCALE * angle(t), CAL_SCALE * angle(u);
    assert x <= y <= 0.0;
    var n, m := Trunc(x), Trunc(y);
    assert n as real - 1.0 < x <= y <= m as real;
  }

  /** Going there and reading the angle back loses less than one step. */
  lemma AngleRecovered(angle: real -> real, t: real, offset: int)
    requires AngleFunction(angle) && 0.0 <= t <= 1.0
    ensures var back := StepsToAngle(TransToSteps(angle, t, offset), offset);
      0.0 <= angle(t) - back < 1.0 / 43.3333
  {
    var a := angle(t);
    var x := CAL_SCALE * a;
    var n := Trunc(x);
    var back := n as real / CAL_SCALE;
    assert n as real - 1.0 < x <= n as real <= 0.0 by {
      ScaledBound(a);
    }
    assert back * 43.3333 == -(n as real);
    assert (a - back) * 43.3333 == n as real - x;
  }

  /** Where the optics physically end up: the counter target plus the counter's
      bias.  For a given transmission it depends on offset and bias only through
      their sum, and on nothing else. */
  lemma PhysicalTargetIsLedger(angle: real -> real, t: real, offset: int, bias: int, offset': int, bias': int)
    ensures TransToSteps(angle, t, offset) + bias == TransToSteps(angle, t, offset') + bias'
       <==> offset + bias == offset' + bias'
  {
  }
}

/**
 * `Step2ShrinkAndExtendArrow`: the hand alone, rotating through two turns,
 * one step shorter each hour of the first turn and one step longer each
 * hour of the second.
 */
module ShrinkArrow {
  import opened ClockGeometry

  /** Where the hand ends at `animationAngle` in a viewport `height` high,
      with one step = height / 24. */
  function ArrowEndY(angle: real, height: real): (y: real)
    ensures Hour(angle) == 11 || Hour(angle) == 12 ==> y == height / 2.0
  {
    HandEndY(height, HandLength(height / 24.0, Hour(angle)))
  }

  /** The end stays between the centre and eleven steps above it. */
  lemma ArrowInViewport(angle: real, height: real)
    requires 0.0 <= angle < 720.0 && height >= 0.0
    ensures height / 2.0 - 11.0 * height / 24.0 <= ArrowEndY(angle, height) <= height / 2.0
  {
    HandStaysInViewport(height, Hour(angle));
  }

  /** As the angle grows the hand shrinks through the first turn (its end
      moves down toward the centre) and extends through the second (its end
      moves back up), strictly from one hour to the next. */
  lemma ArrowShrinksThenExtends(a: real, b: real, height: real)
    requires 0.0 <= a <= b && height > 0.0
    ensures Hour(b) <= 11 ==> ArrowEndY(a, height) <= ArrowEndY(b, height)
    ensures 12 <= Hour(a) ==> ArrowEndY(a, height) >= ArrowEndY(b, height)
    ensures Hour(a) < Hour(b) <= 11 ==> ArrowEndY(a, height) < ArrowEndY(b, height)
    ensures 12 <= Hour(a) < Hour(b) ==> ArrowEndY(a, height) > ArrowEndY(b, height)
  {
    HourMonotone(a, b);
    if Hour(a) < Hour(b) {
      HandLengthMonotone(height / 24.0, Hour(a), Hour(b));
    }
  }
}

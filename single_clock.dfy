/**
 * `SingleClockAnimationProgress`: one frame of the clock computed from the
 * angle alone. The hour, the visibility of the dots, their progress and the
 * assemble value are all recomputed from the angle; nothing is remembered
 * from one frame to the next except the stroke width.
 */
module SingleClock {
  import opened ClockGeometry

  /** One step of the hand: `calculate...(size.height / 2, ...)` divides the
      half height into twelve steps. */
  function StepHeight(height: real): (step: real)
    ensures step == height / 24.0
  {
    (height / 2.0) / 12.0
  }

  /** The frame drawn for `animationAngle`, in a viewport `widthPx` pixels
      wide (the stroke width) and `height` high (the draw scope); `easing`
      stands for `LinearOutSlowInEasing`. */
  function ProgressFrame(angle: real, widthPx: int, height: real, easing: real -> real): (f: DialFrame)
    ensures f.hour == Hour(angle)
    ensures |f.dotMarks| == DotCount
    ensures DrawnPattern(f.dotMarks) == DotsVisibility(Hour(angle))
    ensures forall i :: 0 <= i < DotCount && f.dotMarks[i].Segment? ==>
      f.dotMarks[i].endY - f.dotMarks[i].startY == StrokeWidth(widthPx)
    ensures f.assembleMark.Segment? <==> angle >= 360.0
    ensures f.assembleMark.Segment? ==>
      f.assembleMark.endY - f.assembleMark.startY == StrokeWidth(widthPx)
  {
    var hour := Hour(angle);
    var visible := DotsVisibility(hour);
    var positions := DotsPositions(angle, easing);
    var assembleValue := AssembleValue(angle);
    var strokeWidth := StrokeWidth(widthPx);
    var stepHeight := StepHeight(height);
    var dots := seq(DotCount, i requires 0 <= i < DotCount =>
      if visible[i] then DotMark(strokeWidth, DisassembleDistance(stepHeight, i), 1.0 - positions[i])
      else Hidden);
    assert DrawnPattern(dots) == visible;
    DialFrame(
      hour,
      HandEndY(height, HandLength(stepHeight, hour)),
      if assembleValue != -1.0 then DotMark(strokeWidth, AssembleDistance(stepHeight, hour), assembleValue)
      else Hidden,
      dots)
  }

  /** The visible dots are counted by the closed form: h+1 in the first half
      of the day, 23-h in the second. */
  lemma DrawnDotCount(angle: real, widthPx: int, height: real, easing: real -> real)
    requires 0.0 <= angle < 720.0
    ensures var f := ProgressFrame(angle, widthPx, height, easing);
      CountTrue(DrawnPattern(f.dotMarks)) == VisibleCount(Hour(angle)) &&
      (Hour(angle) <= 11 ==> CountTrue(DrawnPattern(f.dotMarks)) == Hour(angle) + 1) &&
      (Hour(angle) >= 12 ==> CountTrue(DrawnPattern(f.dotMarks)) == 23 - Hour(angle))
  {
    VisibleDotCount(Hour(angle));
  }

  /** For every angle the animation or the slider can produce, the hand's end
      lies between the top edge and the centre; before the last instant it is
      at most eleven steps above the centre. */
  lemma HandWithinDial(angle: real, widthPx: int, height: real, easing: real -> real)
    requires 0.0 <= angle <= 720.0 && height >= 0.0
    ensures var y := ProgressFrame(angle, widthPx, height, easing).handEndY;
      0.0 <= y <= height / 2.0 &&
      (angle < 720.0 ==> height / 2.0 - 11.0 * height / 24.0 <= y)
  {
    HandStaysInViewport(height, Hour(angle));
  }

  /** A visible dot whose 60 degrees of travel are over sits on the dial's
      edge, provided the easing curve ends at 1. */
  lemma ArrivedDotOnEdge(angle: real, widthPx: int, height: real, easing: real -> real, i: int)
    requires 0 <= i < DotCount
    requires easing(1.0) == 1.0
    requires angle >= (30 * i + 60) as real
    ensures var m := ProgressFrame(angle, widthPx, height, easing).dotMarks[i];
      m.Segment? ==> m.startY == 0.0
  {
    assert DotProgress(angle, i) == 1.0;
  }

  /** The right end of the slider is hour 24, not hour 0: the hand reaches
      the top edge, no dot is drawn, and the assembling dot sits at the edge. */
  lemma FullSliderFrame(widthPx: int, height: real, easing: real -> real)
    ensures var f := ProgressFrame(SliderAngle(1.0), widthPx, height, easing);
      f.hour == 24 &&
      f.handEndY == 0.0 &&
      (forall i :: 0 <= i < DotCount ==> f.dotMarks[i] == Hidden) &&
      f.assembleMark == FixedDotMark(StrokeWidth(widthPx))
  {
    var f := ProgressFrame(720.0, widthPx, height, easing);
    assert Hour(720.0) == 24;
    assert AssembleValue(720.0) == 0.0;
    assert HandLength(StepHeight(height), 24) == StepHeight(height) * 12.0;
    forall i | 0 <= i < DotCount ensures f.dotMarks[i] == Hidden {
      assert !DrawnPattern(f.dotMarks)[i];
    }
  }
}

/**
 * `Step3AddDots`: the hand shrinks and grows with the hour, and the dots of
 * the trailing window are drawn as fixed segments at the dial's edge. There
 * is no assembling dot yet, and nothing is remembered between frames.
 */
module AddDots {
  import opened ClockGeometry

  /** The frame drawn at `animationAngle` in a viewport `widthPx` pixels
      wide and `height` high. */
  function AddDotsFrame(angle: real, widthPx: int, height: real): (f: DialFrame)
    ensures f.hour == Hour(angle)
    ensures f.assembleMark == Hidden
    ensures |f.dotMarks| == DotCount
    ensures DrawnPattern(f.dotMarks) == DotsVisibility(Hour(angle))
    ensures forall i :: 0 <= i < DotCount && f.dotMarks[i].Segment? ==>
      f.dotMarks[i] == FixedDotMark(StrokeWidth(widthPx))
  {
    var currentHour := Hour(angle);
    var visible := DotsVisibility(currentHour);
    var strokeWidth := StrokeWidth(widthPx);
    var stepHeight := height / 24.0;
    var dots := seq(DotCount, i requires 0 <= i < DotCount =>
      if visible[i] then FixedDotMark(strokeWidth) else Hidden);
    assert DrawnPattern(dots) == visible;
    DialFrame(currentHour, HandEndY(height, HandLength(stepHeight, currentHour)), Hidden, dots)
  }

  /** The drawn dots are one run of consecutive indices ending at
      min(h, 11), h + 1 of them in the first half of the day and 23 - h in
      the second, each a segment from the edge one stroke long. */
  lemma DrawnDotsAreTrailingRun(angle: real, widthPx: int, height: real)
    requires 0.0 <= angle < 720.0
    ensures var f := AddDotsFrame(angle, widthPx, height);
      var h := Hour(angle);
      (forall i :: 0 <= i < DotCount ==>
         (f.dotMarks[i].Segment? <==> Max(0, h - 11) <= i <= Min(h, 11))) &&
      (h <= 11 ==> CountTrue(DrawnPattern(f.dotMarks)) == h + 1) &&
      (h >= 12 ==> CountTrue(DrawnPattern(f.dotMarks)) == 23 - h) &&
      (forall i :: 0 <= i < DotCount && f.dotMarks[i].Segment? ==>
         f.dotMarks[i].startY == 0.0 && f.dotMarks[i].endY == StrokeWidth(widthPx))
  {
    var f := AddDotsFrame(angle, widthPx, height);
    var h := Hour(angle);
    forall i | 0 <= i < DotCount
      ensures f.dotMarks[i].Segment? <==> Max(0, h - 11) <= i <= Min(h, 11)
    {
      VisibleDotsAreOneRun(h, i);
      assert DrawnPattern(f.dotMarks)[i] == DotsVisibility(h)[i];
    }
    VisibleDotCount(h);
  }

  /** During the day the hand's end stays between the centre and eleven
      steps above it, inside the viewport. */
  lemma AddDotsHandInViewport(angle: real, widthPx: int, height: real)
    requires 0.0 <= angle < 720.0 && height >= 0.0
    ensures var y := AddDotsFrame(angle, widthPx, height).handEndY;
      height / 2.0 - 11.0 * height / 24.0 <= y <= height / 2.0
  {
    HandStaysInViewport(height, Hour(angle));
  }
}

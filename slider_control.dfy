/**
 * `Step7SliderControl`: the clock driven by a slider. The angle comes from
 * the slider; `currentHour` is remembered and only caught up with the angle
 * by an effect that runs after the frame is composed. Visibility and the
 * hand follow `currentHour`; the dot progress and the assembling value
 * follow the angle directly.
 */
module SliderControl {
  import opened ClockGeometry
  import SingleClock

  /** The frame drawn for `animationAngle` while `currentHour` holds
      `currentHour`; `easing` stands for `LinearOutSlowInEasing`. */
  function SliderFrame(angle: real, currentHour: int, widthPx: int, height: real, easing: real -> real): (f: DialFrame)
    ensures f.hour == currentHour
    ensures f.handEndY == HandEndY(height, HandLength(height / 24.0, currentHour))
    ensures |f.dotMarks| == DotCount
    ensures DrawnPattern(f.dotMarks) == DotsVisibility(currentHour)
    ensures forall i :: 0 <= i < DotCount && f.dotMarks[i].Segment? ==>
      f.dotMarks[i].endY - f.dotMarks[i].startY == StrokeWidth(widthPx) &&
      f.dotMarks[i].startY == height / 24.0 * i as real * (1.0 - easing(DotProgress(angle, i)))
    ensures f.assembleMark.Segment? <==> angle >= 360.0
    ensures f.assembleMark.Segment? ==>
      f.assembleMark.startY == AssembleDistance(height / 24.0, currentHour) * AssembleValue(angle)
  {
    var visible := DotsVisibility(currentHour);
    var positions := DotsPositions(angle, easing);
    var assembleValue := AssembleValue(angle);
    var strokeWidth := StrokeWidth(widthPx);
    var stepHeight := height / 24.0;
    var dots := seq(DotCount, i requires 0 <= i < DotCount =>
      if visible[i] then DotMark(strokeWidth, DisassembleDistance(stepHeight, i), 1.0 - positions[i])
      else Hidden);
    assert DrawnPattern(dots) == visible;
    DialFrame(
      currentHour,
      HandEndY(height, HandLength(stepHeight, currentHour)),
      if assembleValue != -1.0 then DotMark(strokeWidth, AssembleDistance(stepHeight, currentHour), assembleValue)
      else Hidden,
      dots)
  }

  /** Once the effect has caught `currentHour` up with the angle, the slider
      clock draws exactly the frame the single clock draws for that angle. */
  lemma CaughtUpFrameIsSingleClockFrame(angle: real, widthPx: int, height: real, easing: real -> real)
    ensures SliderFrame(angle, Hour(angle), widthPx, height, easing) ==
            SingleClock.ProgressFrame(angle, widthPx, height, easing)
  {
    assert SingleClock.StepHeight(height) == height / 24.0;
  }

  /** A visible dot whose travel is over (its 60 degrees have passed and the
      easing curve ends at 1) is drawn at the top edge, y = 0. */
  lemma ArrivedSliderDotOnEdge(angle: real, currentHour: int, widthPx: int, height: real,
                               easing: real -> real, i: int)
    requires 0 <= i < DotCount
    requires easing(1.0) == 1.0
    requires angle >= (30 * i + 60) as real
    ensures var m := SliderFrame(angle, currentHour, widthPx, height, easing).dotMarks[i];
      m.Segment? ==> m.startY == 0.0
  {
    assert DotProgress(angle, i) == 1.0;
  }

  /** The composable's remembered `currentHour`. */
  class SliderClock {
    var currentHour: int

    constructor ()
      ensures currentHour == 0
    {
      currentHour := 0;
    }

    /** `LaunchedEffect(animationAngle)`: the hour is overwritten only when
        the angle's hour differs, so applying the same angle twice changes
        nothing the second time. */
    method OnAngle(angle: real)
      modifies this
      ensures currentHour == Hour(angle)
      ensures old(currentHour) == Hour(angle) ==> unchanged(this)
    {
      var newCurrentHour := Hour(angle);
      if newCurrentHour != currentHour {
        currentHour := newCurrentHour;
      }
    }
  }

  /** The slider's frame after the effect, and its frame before the effect
      on an angle that crossed into a new hour: the latter still shows the
      previous hour's dots and hand for one composition. */
  method SlideTo(clock: SliderClock, angle: real, widthPx: int, height: real, easing: real -> real)
    returns (before: DialFrame, after: DialFrame)
    modifies clock
    ensures before.hour == old(clock.currentHour)
    ensures before.handEndY == HandEndY(height, HandLength(height / 24.0, old(clock.currentHour)))
    ensures DrawnPattern(before.dotMarks) == DotsVisibility(old(clock.currentHour))
    ensures after == SingleClock.ProgressFrame(angle, widthPx, height, easing)
    ensures clock.currentHour == Hour(angle)
  {
    before := SliderFrame(angle, clock.currentHour, widthPx, height, easing);
    clock.OnAngle(angle);
    after := SliderFrame(angle, clock.currentHour, widthPx, height, easing);
    CaughtUpFrameIsSingleClockFrame(angle, widthPx, height, easing);
  }
}

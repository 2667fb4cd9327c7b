/**
 * `Step4AssembleAnimation`: the hour is derived from the angle on every
 * composition, the dots are drawn as fixed segments at the edge, and one
 * animatable value carries the assembling dot. An effect keyed on the hour
 * restarts that value from 0 toward 1 each time the hour changes, and once
 * on the first composition.
 */
module AssembleAnimation {
  import opened ClockGeometry
  import opened Animation

  /** The remembered state: the key of the last launched effect (none before
      the first composition) and `assembleAnim`. */
  datatype AssembleState = AssembleState(launched: bool, effectHour: int, assemble: Anim)

  /** `Animatable(-1f)`, before any effect has run. */
  function Initial(): (s: AssembleState)
    ensures !s.launched && !s.assemble.Active()
  {
    AssembleState(false, 0, Inactive)
  }

  /** What the state may hold: the sentinel before the first effect, and
      afterwards the tween started for the hour of the last effect. */
  predicate Consistent(s: AssembleState)
  {
    if s.launched then s.assemble == Anim(0.0, Tweening(1.0, AssembleTweenMs(s.effectHour)))
    else s.assemble == Inactive
  }

  /** One composition at `angle`: `LaunchedEffect(currentHour)` runs when its
      key is new (the first composition, or a changed hour), snapping the
      value to 0 and starting a tween to 1 over `50 * (24 - h)` ms. */
  function Compose(s: AssembleState, angle: real): (r: AssembleState)
    ensures r.launched && r.effectHour == Hour(angle)
    ensures s.launched && s.effectHour == Hour(angle) ==> r == s
    ensures !s.launched || s.effectHour != Hour(angle) ==>
      r.assemble == Anim(0.0, Tweening(1.0, AssembleTweenMs(Hour(angle))))
  {
    var currentHour := Hour(angle);
    if s.launched && s.effectHour == currentHour then s
    else AssembleState(true, currentHour, s.assemble.SnapTo(0.0).AnimateTo(1.0, AssembleTweenMs(currentHour)))
  }

  /** Compositions keep the state consistent, and during the day every tween
      they start lasts between 50 ms and 1.2 s and starts from 0. */
  lemma ComposePreservesConsistency(s: AssembleState, angle: real)
    requires Consistent(s)
    ensures Consistent(Compose(s, angle))
    ensures var r := Compose(s, angle);
      0.0 <= angle < 720.0 ==>
        r.assemble.value == 0.0 && 50 <= r.assemble.motion.durationMs <= 1200
  {
    var r := Compose(s, angle);
    if 0.0 <= angle < 720.0 {
      assert 0 <= Hour(angle) <= 23;
      assert r.assemble.motion.durationMs == AssembleTweenMs(Hour(angle));
    }
  }

  /** The frame drawn at `angle` from the remembered state. */
  function AssembleFrame(s: AssembleState, angle: real, widthPx: int, height: real): (f: DialFrame)
    ensures f.hour == Hour(angle)
    ensures |f.dotMarks| == DotCount
    ensures DrawnPattern(f.dotMarks) == DotsVisibility(Hour(angle))
    ensures forall i :: 0 <= i < DotCount && f.dotMarks[i].Segment? ==>
      f.dotMarks[i] == FixedDotMark(StrokeWidth(widthPx))
    ensures f.assembleMark.Segment? <==> s.assemble.Active()
    ensures f.assembleMark.Segment? ==>
      f.assembleMark.startY == AssembleDistance(height / 24.0, Hour(angle)) * s.assemble.value
  {
    var currentHour := Hour(angle);
    var visible := DotsVisibility(currentHour);
    var strokeWidth := StrokeWidth(widthPx);
    var stepHeight := height / 24.0;
    var dots := seq(DotCount, i requires 0 <= i < DotCount =>
      if visible[i] then FixedDotMark(strokeWidth) else Hidden);
    assert DrawnPattern(dots) == visible;
    DialFrame(
      currentHour,
      HandEndY(height, HandLength(stepHeight, currentHour)),
      if s.assemble.value != -1.0 then DotMark(strokeWidth, AssembleDistance(stepHeight, currentHour), s.assemble.value)
      else Hidden,
      dots)
  }

  /** Before the first effect has run no assembling dot is drawn. */
  lemma NothingAssemblesAtFirst(angle: real, widthPx: int, height: real)
    ensures AssembleFrame(Initial(), angle, widthPx, height).assembleMark == Hidden
  {
  }

  /** Right after an hour begins, its assembling dot is drawn at the edge;
      at the end of its tween it sits where the hand's tip will be in the
      next hour (in the second half of the day). */
  lemma AssemblingDotPath(s: AssembleState, angle: real, widthPx: int, height: real)
    requires !s.launched || s.effectHour != Hour(angle)
    requires 11 <= Hour(angle)
    ensures var f := AssembleFrame(Compose(s, angle), angle, widthPx, height);
      f.assembleMark.Segment? && f.assembleMark.startY == 0.0
    ensures var r := Compose(s, angle);
      var arrived := r.(assemble := r.assemble.SnapTo(r.assemble.motion.target));
      AssembleFrame(arrived, angle, widthPx, height).assembleMark.startY ==
      HandEndY(height, HandLength(height / 24.0, Hour(angle) + 1))
  {
    var step := height / 24.0;
    AssembleLandsOnNextTip(step, Hour(angle));
    assert 24.0 * step == height;
  }

  /** The dots drawn number h + 1 in the first half of the day and 23 - h in
      the second. */
  lemma AssembleDotCount(s: AssembleState, angle: real, widthPx: int, height: real)
    requires 0.0 <= angle < 720.0
    ensures var n := CountTrue(DrawnPattern(AssembleFrame(s, angle, widthPx, height).dotMarks));
      (Hour(angle) <= 11 ==> n == Hour(angle) + 1) &&
      (Hour(angle) >= 12 ==> n == 23 - Hour(angle))
  {
    VisibleDotCount(Hour(angle));
  }

  /** The remembered `assembleAnim` and the key of the last launched effect. */
  class AssembleClock {
    var launched: bool
    var effectHour: int
    var assembleAnim: Anim

    function State(): (s: AssembleState)
      reads this
      ensures s.launched == launched && s.effectHour == effectHour && s.assemble == assembleAnim
    {
      AssembleState(launched, effectHour, assembleAnim)
    }

    constructor ()
      ensures State() == Initial()
    {
      launched := false;
      effectHour := 0;
      assembleAnim := Inactive;
    }

    /** One composition: derive the hour and run the effect if its key is new. */
    method OnCompose(angle: real)
      modifies this
      ensures State() == Compose(old(State()), angle)
    {
      var currentHour := Hour(angle);
      if !launched || effectHour != currentHour {
        launched := true;
        effectHour := currentHour;
        assembleAnim := assembleAnim.SnapTo(0.0);
        assembleAnim := assembleAnim.AnimateTo(1.0, AssembleTweenMs(currentHour));
      }
    }
  }
}

/**
 * The arithmetic every clock variant shares, stated once: the hour bucket of
 * an angle, the trailing window of visible dots, the folding hand length, the
 * assemble and disassemble distances, the clamped progress of a dot, the
 * assemble value, the stroke width and the little vertical segment every dot
 * is drawn as (in the frame rotated to that dot's angle, y growing away from
 * the dial's edge toward its centre).
 */
module ClockGeometry {
  import opened KotlinNumerics

  /** Number of dots on the dial, one every 30 degrees. */
  const DotCount: int := 12

  // ---------------------------------------------------------------- hours

  /** `angle.toInt() / 30`: the hour bucket. It is never reduced modulo 24. */
  function Hour(angle: real): (h: int)
    ensures angle >= 0.0 ==> 0 <= h && (30 * h) as real <= angle < (30 * h + 30) as real
    ensures 0.0 <= angle < 720.0 ==> h <= 23
  {
    TruncDiv(TruncToInt(angle), 30)
  }

  /** The integer truncation inside `Hour` is invisible: the bucket is the floor of angle / 30. */
  lemma HourIsFloorOfThirtieth(angle: real)
    requires angle >= 0.0
    ensures Hour(angle) == (angle / 30.0).Floor
  {
    TruncThenDiv30IsFloor(angle);
  }

  /** A later angle never falls in an earlier bucket. */
  lemma HourMonotone(a: real, b: real)
    requires 0.0 <= a <= b
    ensures Hour(a) <= Hour(b)
  {
    HourIsFloorOfThirtieth(a);
    HourIsFloorOfThirtieth(b);
  }

  /** The slider maps its progress linearly onto two full turns. */
  function SliderAngle(progress: real): (angle: real)
    ensures 0.0 <= progress <= 1.0 ==> 0.0 <= angle <= 720.0
    ensures progress == 0.0 ==> angle == 0.0
    ensures progress == 1.0 ==> angle == 720.0
  {
    progress * 720.0
  }

  /** Every slider position gives an hour in [0, 24]; 24 is reached exactly at
      the right end of the slider and does not wrap to 0. */
  lemma SliderHour(progress: real)
    requires 0.0 <= progress <= 1.0
    ensures 0 <= Hour(SliderAngle(progress)) <= 24
    ensures Hour(SliderAngle(progress)) == 24 <==> progress == 1.0
  {
    var angle := SliderAngle(progress);
    if progress < 1.0 {
      assert angle < 720.0;
    }
  }

  // ----------------------------------------------------- visibility window

  /** The `when` chain deciding whether dot `index` is shown at `hour`. */
  function DotVisible(index: int, hour: int): (visible: bool)
    ensures visible <==> hour - 12 < index <= hour
  {
    if index > hour then false
    else if index > hour - 12 then true
    else false
  }

  /** `hours.map { ... }` over the indices 0 to 11. */
  function DotsVisibility(hour: int): (v: seq<bool>)
    ensures |v| == DotCount
    ensures forall i :: 0 <= i < DotCount ==> v[i] == DotVisible(i, hour)
  {
    seq(DotCount, i => DotVisible(i, hour))
  }

  /** The visible dots form one run of consecutive indices ending at min(hour, 11). */
  lemma VisibleDotsAreOneRun(hour: int, i: int)
    requires 0 <= i < DotCount
    ensures DotsVisibility(hour)[i] <==> Max(0, hour - 11) <= i <= Min(hour, 11)
  {
  }

  function Min(a: int, b: int): int { if a <= b then a else b }
  function Max(a: int, b: int): int { if a >= b then a else b }

  /** Number of `true` entries. */
  function CountTrue(s: seq<bool>): (n: nat)
    ensures n <= |s|
  {
    if s == [] then 0 else CountTrue(s[..|s| - 1]) + (if s[|s| - 1] then 1 else 0)
  }

  /** How many dots are visible at `hour`, in closed form. */
  function VisibleCount(hour: int): int
  {
    if hour < 0 then 0
    else if hour < 12 then hour + 1
    else if hour < 24 then 23 - hour
    else 0
  }

  /** The first `n` dots hold exactly the part of the window below `n`. */
  lemma {:induction false} VisiblePrefixCount(hour: int, n: int)
    requires 0 <= n <= DotCount
    ensures CountTrue(DotsVisibility(hour)[..n]) == Max(0, Min(hour, n - 1) - Max(0, hour - 11) + 1)
  {
    var v := DotsVisibility(hour);
    if n > 0 {
      VisiblePrefixCount(hour, n - 1);
      assert v[..n][..n - 1] == v[..n - 1];
      assert v[..n][n - 1] == DotVisible(n - 1, hour);
    }
  }

  /** h+1 dots for hours 0..11, 23-h for hours 12..23, none from hour 23 on. */
  lemma VisibleDotCount(hour: int)
    ensures CountTrue(DotsVisibility(hour)) == VisibleCount(hour)
    ensures 0 <= hour <= 11 ==> VisibleCount(hour) == hour + 1
    ensures 12 <= hour <= 23 ==> VisibleCount(hour) == 23 - hour
    ensures VisibleCount(hour) <= DotCount
  {
    var v := DotsVisibility(hour);
    VisiblePrefixCount(hour, DotCount);
    assert v[..DotCount] == v;
  }

  // ------------------------------------------------------------ hand length

  /** Steps of the hand: 11 - h in the first half (one step is kept back for
      the first dot to assemble into), h - 12 in the second. */
  function HandSteps(hour: int): (steps: int)
    ensures 0 <= hour <= 23 ==> 0 <= steps <= 11
    ensures steps == 0 <==> hour == 11 || hour == 12
    ensures hour == 0 || hour == 23 ==> steps == 11
    ensures hour == 24 ==> steps == 12
  {
    if hour < 12 then 12 - 1 - hour else hour - 12
  }

  /** The hand shortens by one step per hour over the first twelve hours and
      lengthens by one step per hour over the next twelve. */
  lemma HandFoldsThenUnfolds(h1: int, h2: int)
    requires h1 < h2
    ensures h2 <= 11 ==> HandSteps(h1) - HandSteps(h2) == h2 - h1
    ensures 12 <= h1 ==> HandSteps(h2) - HandSteps(h1) == h2 - h1
  {
  }

  /** `stepHeight * (11 - h)` or `stepHeight * (h - 12)`. */
  function HandLength(stepHeight: real, hour: int): (len: real)
    ensures hour <= 11 ==> len == stepHeight * (11 - hour) as real
    ensures hour >= 12 ==> len == stepHeight * (hour - 12) as real
  {
    stepHeight * HandSteps(hour) as real
  }

  /** The hand is never longer than eleven steps during the day, and with a
      positive step it vanishes exactly at hours 11 and 12. */
  lemma HandLengthBounds(stepHeight: real, hour: int)
    ensures stepHeight >= 0.0 && 0 <= hour <= 23 ==>
      0.0 <= HandLength(stepHeight, hour) <= stepHeight * 11.0
    ensures stepHeight > 0.0 ==>
      (HandLength(stepHeight, hour) == 0.0 <==> hour == 11 || hour == 12)
  {
    var steps := HandSteps(hour) as real;
    assert HandLength(stepHeight, hour) == stepHeight * steps;
    if stepHeight >= 0.0 && 0 <= hour <= 23 {
      assert 0.0 <= steps <= 11.0;
      ScaleMonotone(stepHeight, 0.0, steps);
      ScaleMonotone(stepHeight, steps, 11.0);
      assert stepHeight * steps <= stepHeight * 11.0;
      assert HandLength(stepHeight, hour) <= stepHeight * 11.0;
    }
    if stepHeight > 0.0 && steps != 0.0 {
      if steps > 0.0 { ScaleLt(stepHeight, 0.0, steps); } else { ScaleLt(stepHeight, steps, 0.0); }
    }
  }

  /** With a positive step the hand length is strictly decreasing on hours
      0..11 and strictly increasing on hours 12..23. */
  lemma HandLengthMonotone(stepHeight: real, h1: int, h2: int)
    requires stepHeight > 0.0 && 0 <= h1 < h2
    ensures h2 <= 11 ==> HandLength(stepHeight, h1) > HandLength(stepHeight, h2)
    ensures 12 <= h1 ==> HandLength(stepHeight, h1) < HandLength(stepHeight, h2)
  {
    HandFoldsThenUnfolds(h1, h2);
    if h2 <= 11 {
      LongerHand(stepHeight, h2, h1);
    } else if 12 <= h1 {
      LongerHand(stepHeight, h1, h2);
    }
  }

  /** More steps make a longer hand. */
  lemma LongerHand(stepHeight: real, h1: int, h2: int)
    requires stepHeight > 0.0 && HandSteps(h1) < HandSteps(h2)
    ensures HandLength(stepHeight, h1) < HandLength(stepHeight, h2)
  {
    ScaleLt(stepHeight, HandSteps(h1) as real, HandSteps(h2) as real);
  }

  /** Where the hand ends, measured from the top of a viewport `height` tall:
      the hand starts at the centre and points up. */
  function HandEndY(height: real, handLength: real): (y: real)
    ensures handLength == 0.0 ==> y == height / 2.0
    ensures handLength == height / 2.0 ==> y == 0.0
    ensures 0.0 <= handLength <= height / 2.0 ==> 0.0 <= y <= height / 2.0
    ensures handLength > 0.0 ==> y < height / 2.0
  {
    height / 2.0 - handLength
  }

  /** With one step = height / 24 the hand's end stays between the centre and
      11/24 of the height above it for every hour of the day, and reaches the
      top edge at hour 24. */
  lemma HandStaysInViewport(height: real, hour: int)
    requires height >= 0.0 && 0 <= hour <= 24
    ensures var y := HandEndY(height, HandLength(height / 24.0, hour));
      0.0 <= y <= height / 2.0 &&
      (hour <= 23 ==> height / 2.0 - 11.0 * height / 24.0 <= y)
  {
    var step := height / 24.0;
    HandLengthBounds(step, hour);
    if hour == 24 {
      assert HandLength(step, hour) == step * 12.0 == height / 2.0;
    }
  }

  // ------------------------------------------------- assemble / disassemble

  /** `stepHeight * (24 - h - 1)`: how far the assembling dot travels. */
  function AssembleDistance(stepHeight: real, hour: int): (d: real)
    ensures stepHeight >= 0.0 && hour <= 23 ==> d >= 0.0
    ensures stepHeight > 0.0 ==> (d > 0.0 <==> hour <= 22) && (d == 0.0 <==> hour == 23)
  {
    var fixedHour := 24 - hour - 1;
    stepHeight * fixedHour as real
  }

  /** `stepHeight * index`: how far a disassembling dot starts from the edge. */
  function DisassembleDistance(stepHeight: real, index: int): (d: real)
    ensures stepHeight >= 0.0 && index >= 0 ==> d >= 0.0
    ensures stepHeight > 0.0 ==> (d == 0.0 <==> index == 0)
  {
    stepHeight * index as real
  }

  /** In the first half of the day the hand loses one step each hour, and
      dot i starts its travel exactly where the hand's tip was in hour
      i - 1: the dot is the step the hand has just given up. */
  lemma DisassembleStartsAtLostTip(stepHeight: real, index: int)
    requires 0 <= index <= 12
    ensures DisassembleDistance(stepHeight, index) ==
            HandEndY(24.0 * stepHeight, HandLength(stepHeight, index - 1))
  {
    var k := (12 - index) as real;
    assert HandLength(stepHeight, index - 1) == stepHeight * k;
    assert DisassembleDistance(stepHeight, index) == stepHeight * (12.0 - k);
    assert stepHeight * (12.0 - k) == 12.0 * stepHeight - stepHeight * k;
  }

  /** In the second half the hand gains one step each hour, and the
      assembling dot of hour h travels to where the hand's tip will be in
      hour h + 1: it becomes the step the hand is about to gain. */
  lemma AssembleLandsOnNextTip(stepHeight: real, hour: int)
    requires 11 <= hour
    ensures AssembleDistance(stepHeight, hour) ==
            HandEndY(24.0 * stepHeight, HandLength(stepHeight, hour + 1))
  {
    var k := (hour - 11) as real;
    assert HandLength(stepHeight, hour + 1) == stepHeight * k;
    assert AssembleDistance(stepHeight, hour) == stepHeight * (12.0 - k);
    assert stepHeight * (12.0 - k) == 12.0 * stepHeight - stepHeight * k;
  }

  // -------------------------------------------------------- dot progress

  /** The fraction `angleToFraction` hands to its easing curve. */
  function ProgressFraction(angle: real, startAngle: real, degreeLimit: real): (f: real)
    requires degreeLimit > 0.0
    ensures 0.0 <= f <= 1.0
    ensures angle <= startAngle ==> f == 0.0
    ensures angle >= startAngle + degreeLimit ==> f == 1.0
    ensures startAngle <= angle <= startAngle + degreeLimit ==> f * degreeLimit == angle - startAngle
  {
    var currentDeg := CoerceIn(angle - startAngle, 0.0, degreeLimit);
    currentDeg / degreeLimit
  }

  /** A dot only ever moves forward as the angle grows. */
  lemma ProgressFractionMonotone(a: real, b: real, startAngle: real, degreeLimit: real)
    requires degreeLimit > 0.0 && a <= b
    ensures ProgressFraction(a, startAngle, degreeLimit) <= ProgressFraction(b, startAngle, degreeLimit)
  {
    var ca := CoerceIn(a - startAngle, 0.0, degreeLimit);
    var cb := CoerceIn(b - startAngle, 0.0, degreeLimit);
    assert ca <= cb;
    assert ProgressFraction(a, startAngle, degreeLimit) == ca / degreeLimit;
    assert ProgressFraction(b, startAngle, degreeLimit) == cb / degreeLimit;
    DivideMonotone(ca, cb, degreeLimit);
  }

  /** `angleToFraction`: the eased progress; the easing curve is a parameter. */
  function AngleToFraction(angle: real, startAngle: real, degreeLimit: real, easing: real -> real): (r: real)
    requires degreeLimit > 0.0
    ensures angle <= startAngle ==> r == easing(0.0)
    ensures angle >= startAngle + degreeLimit ==> r == easing(1.0)
    ensures startAngle <= angle <= startAngle + degreeLimit ==>
      r == easing((angle - startAngle) / degreeLimit)
  {
    easing(ProgressFraction(angle, startAngle, degreeLimit))
  }

  /** Dot i starts moving at 30·i degrees and arrives 60 degrees later. */
  function DotProgress(angle: real, index: int): (f: real)
    ensures 0.0 <= f <= 1.0
    ensures angle <= (30 * index) as real ==> f == 0.0
    ensures angle >= (30 * index + 60) as real ==> f == 1.0
  {
    ProgressFraction(angle, (index * 30) as real, 60.0)
  }

  /** `dotsPositions`: the eased progress of each of the twelve dots. */
  function DotsPositions(angle: real, easing: real -> real): (p: seq<real>)
    ensures |p| == DotCount
    ensures forall i :: 0 <= i < DotCount ==> p[i] == easing(DotProgress(angle, i))
  {
    seq(DotCount, i => AngleToFraction(angle, (i * 30) as real, 60.0, easing))
  }

  // --------------------------------------------------------- assemble value

  /** `if (angle >= 360) (angle % 30) / 30 else -1`: the sentinel -1 during the
      first turn, afterwards how far the angle has gone into its hour. */
  function AssembleValue(angle: real): (v: real)
    ensures angle < 360.0 ==> v == -1.0
    ensures angle >= 360.0 ==> 0.0 <= v < 1.0
    ensures angle >= 360.0 ==> angle == 30.0 * (Hour(angle) as real + v)
  {
    if angle >= 360.0 then
      HourIsFloorOfThirtieth(angle);
      FloatRem30(angle) / 30.0
    else -1.0
  }

  /** The assembling segment is drawn exactly in the second turn. */
  lemma AssembleDrawnInSecondTurn(angle: real)
    ensures AssembleValue(angle) != -1.0 <==> angle >= 360.0
  {
  }

  // ------------------------------------------------------ strokes and marks

  /** `(width / 24).toFloat()` for a viewport `widthPx` pixels wide. */
  function StrokeWidth(widthPx: int): (w: real)
    ensures widthPx >= 0 ==> 0.0 <= 24.0 * w <= widthPx as real < 24.0 * w + 24.0
    ensures w == w.Floor as real
  {
    TruncDiv(widthPx, 24) as real
  }

  /** What is drawn for one dot or the assembling dot: nothing, or a vertical
      segment between two y coordinates. */
  datatype Mark = Hidden | Segment(startY: real, endY: real)

  /** A dot `strokeWidth` long, centred half a stroke plus `distance * remaining`
      from the edge; the half strokes cancel, so it starts exactly at
      `distance * remaining`. */
  function DotMark(strokeWidth: real, distance: real, remaining: real): (m: Mark)
    ensures m.Segment? && m.endY - m.startY == strokeWidth
    ensures m.startY == distance * remaining
  {
    var halfStroke := strokeWidth / 2.0;
    var positionY := halfStroke + distance * remaining;
    Segment(positionY - halfStroke, positionY + halfStroke)
  }

  /** The settled dot of the simpler variants: from the edge to one stroke in. */
  function FixedDotMark(strokeWidth: real): (m: Mark)
    ensures m.Segment? && m.startY == 0.0 && m.endY - m.startY == strokeWidth
  {
    Segment(0.0, strokeWidth)
  }

  /** A moving dot with nothing left to travel is drawn exactly like the fixed dot. */
  lemma ArrivedDotIsFixedDot(strokeWidth: real, distance: real)
    ensures DotMark(strokeWidth, distance, 0.0) == FixedDotMark(strokeWidth)
  {
  }

  /** Which of the dots a frame draws. */
  function DrawnPattern(marks: seq<Mark>): (p: seq<bool>)
    ensures |p| == |marks|
    ensures forall i :: 0 <= i < |marks| ==> (p[i] <==> marks[i].Segment?)
  {
    seq(|marks|, i requires 0 <= i < |marks| => marks[i].Segment?)
  }

  /** Everything one frame of a clock draws: the hour it is keyed on, the
      y coordinate of the hand's end, the assembling dot riding on the
      hand, and the twelve dots. */
  datatype DialFrame = DialFrame(hour: int, handEndY: real, assembleMark: Mark, dotMarks: seq<Mark>)
}

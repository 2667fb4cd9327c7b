/**
 * `ClockAnimation`: the clock whose dots are brought out and taken back by
 * their own animations. It remembers the current hour, one assembling
 * animation riding on the hand and one animation per dot; each frame either
 * changes nothing or moves to a new hour, and a new hour activates one dot
 * (first half of the day) or retires one and starts the assembling dot
 * (second half).
 *
 * The two coroutine effects are run one after the other: the angle effect
 * (which in the program hands the new hour over through a conflated
 * channel) and then the hour effect.
 */
module ParallelClock {
  import opened ClockGeometry
  import opened Animation
  import SingleClock

  /** The remembered state: `currentHour`, `assembleAnim` and the twelve
      `disassembleAnimations`. */
  datatype ClockState = ClockState(currentHour: int, assemble: Anim, slots: seq<Anim>)

  predicate WellFormed(s: ClockState)
  {
    |s.slots| == DotCount
  }

  predicate AllInactive(s: ClockState)
    requires WellFormed(s)
  {
    forall i :: 0 <= i < DotCount ==> s.slots[i] == Inactive
  }

  /** What each slot may hold: the sentinel, or dot i moving out from 0 to 1
      over `DotTweenMs(i)`. */
  predicate SlotConsistent(i: int, a: Anim)
  {
    a == Inactive || a == Anim(0.0, Tweening(1.0, DotTweenMs(i)))
  }

  /** What the assembling animation may hold: the sentinel, or moving from
      0.1 to 1 over the duration of some hour of the second half. */
  predicate AssembleConsistent(a: Anim)
  {
    a == Inactive ||
    (a.value == 0.1 && a.motion.Tweening? && a.motion.target == 1.0 &&
     50 <= a.motion.durationMs <= 600)
  }

  /** The invariant the class keeps: every animated value starts and ends
      inside [0, 1] unless it is the sentinel. */
  predicate Consistent(s: ClockState)
  {
    WellFormed(s) &&
    AssembleConsistent(s.assemble) &&
    forall i :: 0 <= i < DotCount ==> SlotConsistent(i, s.slots[i])
  }

  /** Hour 0, no assembling dot, no dot drawn. */
  function Initial(): (s: ClockState)
    ensures Consistent(s) && AllInactive(s)
    ensures s.currentHour == 0 && !s.assemble.Active()
  {
    ClockState(0, Inactive, seq(DotCount, _ => Inactive))
  }

  datatype AngleOutcome = AngleOutcome(state: ClockState, sent: bool)

  /** The effect keyed on the angle: a new hour is stored, handed on, and the
      assembling dot is hidden at once so that it does not jump. */
  function AngleEffect(s: ClockState, angle: real): (r: AngleOutcome)
    ensures r.sent <==> Hour(angle) != s.currentHour
    ensures !r.sent ==> r.state == s
    ensures r.state.currentHour == Hour(angle)
    ensures r.state.slots == s.slots
    ensures r.sent ==> r.state.assemble == Inactive
  {
    var newCurrentHour := Hour(angle);
    if newCurrentHour != s.currentHour then
      AngleOutcome(s.(currentHour := newCurrentHour, assemble := s.assemble.SnapTo(-1.0)), true)
    else AngleOutcome(s, false)
  }

  datatype HourOutcome = HourOutcome(state: ClockState, ok: bool)

  /** The effect collecting the new hour. An hour outside 0..23 indexes the
      list out of bounds; `ok` is then false and the state is what was
      written before the failing access. */
  function HourEffect(s: ClockState): (r: HourOutcome)
    requires WellFormed(s)
    ensures WellFormed(r.state) && r.state.currentHour == s.currentHour
    ensures r.ok <==> 0 <= s.currentHour <= 23
    ensures var h := s.currentHour;
      0 <= h < 12 ==>
        r.state.slots[h] == Anim(0.0, Tweening(1.0, 25 * h)) &&
        r.state.assemble == Inactive &&
        forall i :: 0 <= i < DotCount && i != h ==> r.state.slots[i] == s.slots[i]
    ensures var h := s.currentHour;
      12 <= h < 24 ==>
        r.state.slots[h - 12] == Inactive &&
        r.state.assemble == Anim(0.1, Tweening(1.0, 50 * (24 - h))) &&
        forall i :: 0 <= i < DotCount && i != h - 12 ==> r.state.slots[i] == s.slots[i]
    ensures !r.ok ==> r.state.slots == s.slots
  {
    var h := s.currentHour;
    if h < 12 then
      var s1 := s.(assemble := s.assemble.SnapTo(-1.0));
      if h < 0 then HourOutcome(s1, false)
      else
        var slot := s1.slots[h].SnapTo(0.0).AnimateTo(1.0, DotTweenMs(h));
        HourOutcome(s1.(slots := s1.slots[h := slot]), true)
    else
      if h - 12 >= DotCount then HourOutcome(s, false)
      else
        var s1 := s.(slots := s.slots[h - 12 := s.slots[h - 12].SnapTo(-1.0)]);
        HourOutcome(s1.(assemble := s1.assemble.SnapTo(0.1).AnimateTo(1.0, AssembleTweenMs(h))), true)
  }

  /** One frame: the angle effect, then the hour effect if a new hour was handed on. */
  function Frame(s: ClockState, angle: real): (r: HourOutcome)
    requires WellFormed(s)
    ensures WellFormed(r.state)
    ensures Hour(angle) == s.currentHour ==> r == HourOutcome(s, true)
    ensures r.state.currentHour == Hour(angle)
  {
    var a := AngleEffect(s, angle);
    if a.sent then HourEffect(a.state) else HourOutcome(a.state, true)
  }

  /** The hour effect never breaks the invariant, whatever the hour. */
  lemma HourEffectPreservesConsistency(s: ClockState)
    requires Consistent(s)
    ensures Consistent(HourEffect(s).state)
  {
    var r := HourEffect(s);
    var h := s.currentHour;
    forall i | 0 <= i < DotCount ensures SlotConsistent(i, r.state.slots[i]) {
      if 0 <= h < 12 && i == h {
        assert r.state.slots[i] == Anim(0.0, Tweening(1.0, DotTweenMs(i)));
      }
    }
  }

  /** Nor does a frame, whatever the angle. */
  lemma FramePreservesConsistency(s: ClockState, angle: real)
    requires Consistent(s)
    ensures Consistent(Frame(s, angle).state)
  {
    var a := AngleEffect(s, angle);
    if a.sent {
      HourEffectPreservesConsistency(a.state);
    }
  }

  /** The frame for a new hour, as a function of the hour alone. */
  function NewHour(s: ClockState, hour: int): (r: ClockState)
    requires WellFormed(s)
    ensures WellFormed(r) && r.currentHour == hour
  {
    HourEffect(s.(currentHour := hour, assemble := Inactive)).state
  }

  /** A frame whose angle lies in a new hour is exactly `NewHour`. */
  lemma FrameInNewHour(s: ClockState, angle: real)
    requires WellFormed(s) && Hour(angle) != s.currentHour
    ensures Frame(s, angle).state == NewHour(s, Hour(angle))
  {
  }

  /** The frames of hours `start`, `start + 1`, ..., `stop - 1`, one after the other. */
  function RunHours(s: ClockState, start: int, stop: int): (r: ClockState)
    requires WellFormed(s) && start <= stop
    ensures WellFormed(r)
    ensures start == stop ==> r == s
    ensures start < stop ==> r.currentHour == stop - 1
    decreases stop - start
  {
    if stop == start then s else NewHour(RunHours(s, start, stop - 1), stop - 1)
  }

  /** The frames drawn at `angles`, one after the other. */
  function RunFrames(s: ClockState, angles: seq<real>): (r: ClockState)
    requires WellFormed(s)
    ensures WellFormed(r)
    ensures angles != [] ==> r.currentHour == Hour(angles[|angles| - 1])
  {
    if angles == [] then s
    else Frame(RunFrames(s, angles[..|angles| - 1]), angles[|angles| - 1]).state
  }

  /** Frames at one angle per hour, for hours `start` .. `stop - 1` in order,
      do exactly what `RunHours` does, provided the remembered hour is not
      already `start` (otherwise the first hour's frames hand nothing on). */
  lemma {:induction false} RunFramesIsRunHours(s: ClockState, angles: seq<real>, start: int, stop: int)
    requires WellFormed(s) && start <= stop && |angles| == stop - start
    requires forall k :: 0 <= k < |angles| ==> Hour(angles[k]) == start + k
    requires s.currentHour != start
    ensures RunFrames(s, angles) == RunHours(s, start, stop)
    decreases stop - start
  {
    if start < stop {
      var prefix := angles[..|angles| - 1];
      RunFramesIsRunHours(s, prefix, start, stop - 1);
      var prev := RunFrames(s, prefix);
      assert Hour(angles[|angles| - 1]) == stop - 1;
      assert prev.currentHour != stop - 1;
      FrameInNewHour(prev, angles[|angles| - 1]);
    }
  }

  /** Going through hours keeps the invariant. */
  lemma {:induction false} RunHoursConsistent(s: ClockState, start: int, stop: int)
    requires Consistent(s) && start <= stop
    ensures Consistent(RunHours(s, start, stop))
    decreases stop - start
  {
    if start < stop {
      RunHoursConsistent(s, start, stop - 1);
      var prev := RunHours(s, start, stop - 1);
      HourEffectPreservesConsistency(prev.(currentHour := stop - 1, assemble := Inactive));
    }
  }

  /** Starting with every dot hidden and going through the hours from `start`
      to `stop - 1` in order, dot i is active exactly when it has been brought
      out (hour i was run) and not yet taken back (hour i + 12 was not): the
      dots lit are the trailing window of hour `stop - 1`, less any dot whose
      hour came before `start`. */
  lemma {:induction false} RunHoursWindow(s: ClockState, start: int, stop: int)
    requires WellFormed(s) && AllInactive(s)
    requires 0 <= start <= stop <= 24
    ensures forall i :: 0 <= i < DotCount ==>
               (RunHours(s, start, stop).slots[i].Active() <==> start <= i && DotVisible(i, stop - 1))
    decreases stop - start
  {
    if start < stop {
      RunHoursWindow(s, start, stop - 1);
      var prev := RunHours(s, start, stop - 1);
      var h := stop - 1;
      var next := RunHours(s, start, stop);
      assert next == NewHour(prev, h);
      forall i | 0 <= i < DotCount
        ensures next.slots[i].Active() <==> start <= i && DotVisible(i, h)
      {
        if h < 12 {
          if i == h {
            assert next.slots[i] == Anim(0.0, Tweening(1.0, 25 * h));
          } else {
            assert next.slots[i] == prev.slots[i];
          }
        } else {
          if i == h - 12 {
            assert next.slots[i] == Inactive;
          } else {
            assert next.slots[i] == prev.slots[i];
          }
        }
      }
    }
  }

  /** In every lap after the first (one that starts dark from an hour other
      than 0, as `LapEndsDark` leaves it), the dots lit after hour h are
      exactly the window h-12 < i <= h. */
  lemma SteadyLap(s: ClockState, hour: int)
    requires WellFormed(s) && AllInactive(s) && s.currentHour != 0
    requires 0 <= hour <= 23
    ensures forall i :: 0 <= i < DotCount ==>
               (RunHours(s, 0, hour + 1).slots[i].Active() <==> DotVisible(i, hour))
  {
    RunHoursWindow(s, 0, hour + 1);
  }

  /** The same, stated over the program's own frames: from a dark state
      whose remembered hour is not 0, frames at one angle per hour
      0, 1, ..., h light exactly the window of h. */
  lemma SteadyLapFrames(s: ClockState, angles: seq<real>, hour: int)
    requires WellFormed(s) && AllInactive(s) && s.currentHour != 0
    requires 0 <= hour <= 23 && |angles| == hour + 1
    requires forall k :: 0 <= k < |angles| ==> Hour(angles[k]) == k
    ensures forall i :: 0 <= i < DotCount ==>
               (RunFrames(s, angles).slots[i].Active() <==> DotVisible(i, hour))
  {
    RunFramesIsRunHours(s, angles, 0, hour + 1);
    SteadyLap(s, hour);
  }

  /** After hour 23 every dot is hidden again, so the next lap starts from
      the same picture as this one. */
  lemma LapEndsDark(s: ClockState)
    requires Consistent(s) && AllInactive(s)
    ensures Consistent(RunHours(s, 0, 24)) && AllInactive(RunHours(s, 0, 24))
    ensures RunHours(s, 0, 24).currentHour == 23
  {
    RunHoursWindow(s, 0, 24);
    RunHoursConsistent(s, 0, 24);
    var e := RunHours(s, 0, 24);
    forall i | 0 <= i < DotCount ensures e.slots[i] == Inactive {
      assert !e.slots[i].Active();
      assert SlotConsistent(i, e.slots[i]);
    }
  }

  /** The program's first lap (from `Initial()`, with hour 0 handing nothing
      on) also ends dark with `currentHour` at 23, so the second lap starts
      from a state `SteadyLap` applies to. */
  lemma FirstLapEndsDark()
    ensures Consistent(RunHours(Initial(), 1, 24)) && AllInactive(RunHours(Initial(), 1, 24))
    ensures RunHours(Initial(), 1, 24).currentHour == 23
  {
    FirstLapSkipsDotZero(0.0, 23);
    RunHoursConsistent(Initial(), 1, 24);
    var e := RunHours(Initial(), 1, 24);
    forall i | 0 <= i < DotCount ensures e.slots[i] == Inactive {
      assert !e.slots[i].Active();
      assert SlotConsistent(i, e.slots[i]);
    }
  }

  /** The first lap is different: `currentHour` starts at 0, so the frames of
      hour 0 hand nothing on and dot 0 is not brought out until the second
      lap. From hour 1 on the first lap lights the window less dot 0. */
  lemma FirstLapSkipsDotZero(angle: real, hour: int)
    requires 0.0 <= angle < 30.0
    requires 0 <= hour <= 23
    ensures Frame(Initial(), angle).state == Initial()
    ensures forall i :: 0 <= i < DotCount ==>
               (RunHours(Initial(), 1, hour + 1).slots[i].Active() <==> 1 <= i && DotVisible(i, hour))
    ensures !RunHours(Initial(), 1, hour + 1).slots[0].Active()
  {
    assert Hour(angle) == 0;
    RunHoursWindow(Initial(), 1, hour + 1);
  }

  /** What a frame draws from the remembered state: the hand from
      `currentHour`, the assembling dot when its value is not the sentinel,
      and dot i when its slot is not; every moving dot starts from
      `currentHour` steps (not from its own index, as in the single clock). */
  function Draw(s: ClockState, widthPx: int, height: real): (f: DialFrame)
    requires WellFormed(s)
    ensures f.hour == s.currentHour
    ensures f.handEndY == HandEndY(height, HandLength(height / 24.0, s.currentHour))
    ensures |f.dotMarks| == DotCount
    ensures forall i :: 0 <= i < DotCount ==> (f.dotMarks[i].Segment? <==> s.slots[i].Active())
    ensures forall i :: 0 <= i < DotCount && f.dotMarks[i].Segment? ==>
      f.dotMarks[i].endY - f.dotMarks[i].startY == StrokeWidth(widthPx) &&
      f.dotMarks[i].startY == height / 24.0 * s.currentHour as real * (1.0 - s.slots[i].value)
    ensures f.assembleMark.Segment? <==> s.assemble.Active()
    ensures f.assembleMark.Segment? ==>
      f.assembleMark.endY - f.assembleMark.startY == StrokeWidth(widthPx) &&
      f.assembleMark.startY == AssembleDistance(height / 24.0, s.currentHour) * s.assemble.value
  {
    var strokeWidth := StrokeWidth(widthPx);
    var stepHeight := (height / 2.0) / 12.0;
    assert stepHeight == height / 24.0;
    var hour := s.currentHour;
    DialFrame(
      hour,
      HandEndY(height, HandLength(stepHeight, hour)),
      if s.assemble.value != -1.0 then DotMark(strokeWidth, AssembleDistance(stepHeight, hour), s.assemble.value)
      else Hidden,
      seq(DotCount, i requires 0 <= i < DotCount =>
        if s.slots[i].value == -1.0 then Hidden
        else DotMark(strokeWidth, DisassembleDistance(stepHeight, hour), 1.0 - s.slots[i].value)))
  }

  /** In a steady lap the parallel clock draws the same dots as the single
      clock does for any angle in the same hour. */
  lemma SameDotsAsSingleClock(s: ClockState, angle: real, widthPx: int, height: real, easing: real -> real)
    requires WellFormed(s) && AllInactive(s) && s.currentHour != 0
    requires 0.0 <= angle < 720.0
    ensures DrawnPattern(Draw(RunHours(s, 0, Hour(angle) + 1), widthPx, height).dotMarks) ==
            DrawnPattern(SingleClock.ProgressFrame(angle, widthPx, height, easing).dotMarks)
  {
    var h := Hour(angle);
    SteadyLap(s, h);
    var p := DrawnPattern(Draw(RunHours(s, 0, h + 1), widthPx, height).dotMarks);
    var q := DrawnPattern(SingleClock.ProgressFrame(angle, widthPx, height, easing).dotMarks);
    assert q == DotsVisibility(h);
    assert forall i :: 0 <= i < DotCount ==> p[i] == q[i];
  }

  /** The remembered state of `ClockAnimation`: `currentHour`, `assembleAnim`
      and the twelve `disassembleAnimations`, updated in place by the two
      effects. */
  class ClockAnimation {
    var currentHour: int
    var assembleAnim: Anim
    const disassembleAnimations: array<Anim>

    /** The state as a value, for the specification functions above. */
    function State(): (s: ClockState)
      reads this, disassembleAnimations
      ensures s.currentHour == currentHour && s.assemble == assembleAnim
      ensures s.slots == disassembleAnimations[..]
    {
      ClockState(currentHour, assembleAnim, disassembleAnimations[..])
    }

    /** Twelve slots, each holding the sentinel or its own tween, and the
        assembling value holding the sentinel or a second-half tween. */
    predicate Valid()
      reads this, disassembleAnimations
    {
      disassembleAnimations.Length == DotCount && Consistent(State())
    }

    constructor ()
      ensures Valid() && State() == Initial()
      ensures fresh(disassembleAnimations)
    {
      currentHour := 0;
      assembleAnim := Inactive;
      disassembleAnimations := new Anim[DotCount](_ => Inactive);
    }

    /** `LaunchedEffect(clockAnimation)`: store a new hour, hide the
        assembling dot, and report whether the hour was handed on. */
    method OnAngle(angle: real) returns (sent: bool)
      requires Valid()
      modifies this
      ensures Valid()
      ensures AngleOutcome(State(), sent) == AngleEffect(old(State()), angle)
    {
      var newCurrentHour := Hour(angle);
      sent := false;
      if newCurrentHour != currentHour {
        currentHour := newCurrentHour;
        sent := true;
        assembleAnim := assembleAnim.SnapTo(-1.0);
      }
    }

    /** `LaunchedEffect(currentHourFlow)`: the handling of one hour received
        from the channel. `ok` is false when the hour indexes outside the
        list, which throws in the program; the writes made before the
        failing access stay. */
    method OnHourChanged() returns (ok: bool)
      requires Valid()
      modifies this, disassembleAnimations
      ensures Valid()
      ensures HourOutcome(State(), ok) == HourEffect(old(State()))
    {
      var h := currentHour;
      if h < 12 {
        assembleAnim := assembleAnim.SnapTo(-1.0);
        if h < 0 {
          return false;
        }
        disassembleAnimations[h] := disassembleAnimations[h].SnapTo(0.0);
        disassembleAnimations[h] := disassembleAnimations[h].AnimateTo(1.0, DotTweenMs(h));
      } else {
        if h - 12 >= disassembleAnimations.Length {
          return false;
        }
        disassembleAnimations[h - 12] := disassembleAnimations[h - 12].SnapTo(-1.0);
        assembleAnim := assembleAnim.SnapTo(0.1);
        assembleAnim := assembleAnim.AnimateTo(1.0, AssembleTweenMs(h));
      }
      ok := true;
      HourEffectPreservesConsistency(old(State()));
    }

    /** One frame of the infinite transition: the angle effect and, when it
        handed a new hour on, the hour effect. */
    method OnFrame(angle: real) returns (ok: bool)
      requires Valid()
      modifies this, disassembleAnimations
      ensures Valid()
      ensures HourOutcome(State(), ok) == Frame(old(State()), angle)
    {
      var sent := OnAngle(angle);
      ok := true;
      if sent {
        ok := OnHourChanged();
      }
    }
  }
}

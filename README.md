# ClockProgressAnimation in Dafny

A model of the clock of ClockProgressAnimation, a Jetpack Compose demo. A hand turns through two full turns. In the first turn it sheds one step per hour as a dot that flies out to the dial's edge. In the second turn it takes the dots back one by one, while an "assembling" dot rides in along the hand.

Stripped of drawing calls, every variant of the clock shares one piece of integer and real arithmetic:

- the hour bucket `angle.toInt() / 30`;
- the trailing window of visible dots, `h - 12 < i <= h`;
- the folding hand, `11 - h` steps and then `h - 12` steps;
- the assemble and disassemble distances;
- the clamped progress of each dot;
- the assemble value, `-1` or `(angle % 30) / 30`;
- the stroke width, `width / 24`.

The parallel clock adds a small state machine: a remembered hour, one assembling animation, and twelve per-dot animations updated in place.

Modules:

- `KotlinNumerics`: the Kotlin operators the code depends on, written out. `Float.toInt()` and `Int./` truncate toward zero, `Float.%` (only ever taken by 30) keeps the dividend's sign, and `coerceIn` clamps.
- `ClockGeometry`: the shared arithmetic, defined once, with its properties. It also holds `DialFrame`, which records what one frame draws: the hour, the y of the hand's end, the assembling mark and the twelve dot marks.
- `Animation`: an animatable value, reduced to its current value and its running tween (target and duration), plus the two tween durations.
- `SingleClock`: `SingleClockAnimationProgress`, a frame computed from the angle alone.
- `ParallelClock`: `ClockAnimation`. It is written as pure transition functions on a `ClockState` value and as a class `ClockAnimation` with an `array<Anim>` of twelve slots. Each method of the class is proved equal to its transition function.
- `SliderControl`: `Step7SliderControl`, where `currentHour` is remembered and catches up with the angle one composition late.
- `AssembleAnimation`: `Step4AssembleAnimation`, whose assembling animation is restarted by an effect keyed on the hour.
- `AddDots` and `ShrinkArrow`: `Step3AddDots` and `Step2ShrinkAndExtendArrow`.

Two behaviours of the code worth stating, since a reader might expect otherwise; the model follows the code:

- The hour is never reduced modulo 24. The slider's right end gives angle 720 and hour 24. At hour 24 no dot is visible, the hand reaches the top edge, and the assembling dot sits at the edge (`SingleClock.FullSliderFrame`).
- In the second half of the day the number of visible dots is 23 - h: it falls from 11 at hour 12 to none at hour 23 (`ClockGeometry.VisibleDotCount`).

One behaviour of the parallel clock that the model states rather than hides: `currentHour` starts at 0, so the frames of hour 0 in the very first lap hand nothing on. Dot 0 is therefore not brought out until the second lap (`ParallelClock.FirstLapSkipsDotZero`). The first lap ends dark with `currentHour` at 23 (`ParallelClock.FirstLapEndsDark`), and so does every lap after it. So from the second lap on, so every hour's frames hand the hour on. The dots lit after hour h are then exactly the window of h (`ParallelClock.SteadyLap`, and over the program's own frames `ParallelClock.SteadyLapFrames`). They match the single clock's dots (`ParallelClock.SameDotsAsSingleClock`), and every dot is dark again after hour 23 (`ParallelClock.LapEndsDark`).

## Model

| member | source | states |
|---|---|---|
| KotlinNumerics.TruncToInt | app/src/main/java/com/kpeved/circleAnimation/SingleClockAnimation.kt:106 | `toInt()` gives the integer within one of x on the side of zero, for both signs |
| KotlinNumerics.TruncDiv | app/src/main/java/com/kpeved/circleAnimation/SingleClockAnimation.kt:140 | integer division by a positive divisor: quotient and remainder bounds, truncating toward zero for negative dividends |
| KotlinNumerics.FloatRem30 | app/src/main/java/com/kpeved/circleAnimation/SingleClockAnimation.kt:131 | `% 30` leaves x minus a truncated whole number of 30s, in [0, 30) for x >= 0 and (-30, 0] below |
| KotlinNumerics.CoerceIn | app/src/main/java/com/kpeved/circleAnimation/SingleClockAnimation.kt:204 | the result lies in [lo, hi], equals lo or hi when x is beyond them, and equals x inside |
| KotlinNumerics.TruncThenDiv30IsFloor | app/src/main/java/com/kpeved/circleAnimation/SingleClockAnimation.kt:106 | truncating a non-negative real then integer-dividing by 30 equals flooring the exact quotient |
| ClockGeometry.Hour | app/src/main/java/com/kpeved/circleAnimation/SingleClockAnimation.kt:106 | for angle >= 0 the hour h satisfies 30h <= angle < 30h + 30; it lies in 0..23 during the day |
| ClockGeometry.HourIsFloorOfThirtieth | app/src/main/java/com/kpeved/circleAnimation/SingleClockAnimation.kt:106 | the hour is floor(angle / 30) |
| ClockGeometry.HourMonotone | app/src/main/java/com/kpeved/circleAnimation/tutorial/Step4AssembleAnimation.kt:63-65 | a larger angle never gives an earlier hour |
| ClockGeometry.SliderAngle | app/src/main/java/com/kpeved/circleAnimation/SingleClockAnimation.kt:76-79 | slider progress in [0, 1] maps to an angle in [0, 720]: 0 to 0 and 1 to 720 |
| ClockGeometry.SliderHour | app/src/main/java/com/kpeved/circleAnimation/tutorial/Step7SliderControl.kt:53-57 | every slider position gives an hour in 0..24, and hour 24 exactly at progress 1 (no wrap to 0) |
| ClockGeometry.DotVisible | app/src/main/java/com/kpeved/circleAnimation/SingleClockAnimation.kt:110-114 | the `when` chain is true exactly when h - 12 < i <= h |
| ClockGeometry.DotsVisibility | app/src/main/java/com/kpeved/circleAnimation/SingleClockAnimation.kt:108-116 | twelve entries, entry i being the visibility of dot i |
| ClockGeometry.VisibleDotsAreOneRun | app/src/main/java/com/kpeved/circleAnimation/tutorial/Step3AddDots.kt:66-74 | the visible dots are exactly the indices from max(0, h - 11) to min(h, 11) |
| ClockGeometry.VisibleDotCount | app/src/main/java/com/kpeved/circleAnimation/SingleClockAnimation.kt:108-116 | the number of visible dots is h + 1 for hours 0..11 and 23 - h for hours 12..23 (closed form for every hour) |
| ClockGeometry.HandSteps | app/src/main/java/com/kpeved/circleAnimation/SingleClockAnimation.kt:214-219 | the step count lies in 0..11 during the day, is 0 exactly at hours 11 and 12, 11 at hours 0 and 23, and 12 at hour 24 |
| ClockGeometry.HandLength | app/src/main/java/com/kpeved/circleAnimation/SingleClockAnimation.kt:210-220 | the hand is step·(11 - h) long up to hour 11 and step·(h - 12) from hour 12 on, as in `calculateArmHeight`, `calculateHeight`, `calculateClockHandLength` and `calculateArrowHeight` |
| ClockGeometry.HandLengthBounds | app/src/main/java/com/kpeved/circleAnimation/SingleClockAnimation.kt:210-220 | the hand is between 0 and 11 steps long during the day, and with a positive step it is 0 exactly at hours 11 and 12 |
| ClockGeometry.HandLengthMonotone | app/src/main/java/com/kpeved/circleAnimation/tutorial/Step2ShrinkAndExtendArrow.kt:95-102 | the hand strictly shortens over hours 0..11 and strictly lengthens from hour 12 on |
| ClockGeometry.HandEndY | app/src/main/java/com/kpeved/circleAnimation/SingleClockAnimation.kt:147-150 | the end lies handLength above the centre: at the centre for a zero-length hand, at the top edge for a hand half the height long, inside [0, height/2] for lengths in between, and above the centre for any positive length |
| ClockGeometry.HandStaysInViewport | app/src/main/java/com/kpeved/circleAnimation/tutorial/Step3AddDots.kt:85-92 | with step = height / 24 the hand's end y lies in [height/2 - 11·height/24, height/2] during the day, and in [0, height/2] up to hour 24 |
| ClockGeometry.AssembleDistance | app/src/main/java/com/kpeved/circleAnimation/SingleClockAnimation.kt:222-226 | step·(23 - h) is non-negative during the day, and with a positive step it is positive exactly up to hour 22 and 0 at hour 23 |
| ClockGeometry.DisassembleDistance | app/src/main/java/com/kpeved/circleAnimation/SingleClockAnimation.kt:228-231 | step·i is non-negative, and with a positive step it is 0 exactly for dot 0 |
| ClockGeometry.DisassembleStartsAtLostTip | app/src/main/java/com/kpeved/circleAnimation/SingleClockAnimation.kt:210-231 | dot i starts its travel exactly where the hand's tip was in hour i - 1, the step the hand has just given up |
| ClockGeometry.AssembleLandsOnNextTip | app/src/main/java/com/kpeved/circleAnimation/SingleClockAnimation.kt:210-226 | from hour 11 on, the assembling dot's travel ends exactly where the hand's tip will be in the next hour |
| ClockGeometry.ProgressFraction | app/src/main/java/com/kpeved/circleAnimation/SingleClockAnimation.kt:198-208 | the pre-easing fraction lies in [0, 1]: 0 up to the start angle, 1 from start + limit on, and linear in between |
| ClockGeometry.ProgressFractionMonotone | app/src/main/java/com/kpeved/circleAnimation/SingleClockAnimation.kt:204-206 | the fraction never decreases as the angle grows |
| ClockGeometry.AngleToFraction | app/src/main/java/com/kpeved/circleAnimation/SingleClockAnimation.kt:198-208 | the eased fraction is easing(0) up to the start angle, easing(1) from start + limit on, and easing((angle - start) / limit) in between |
| ClockGeometry.DotProgress | app/src/main/java/com/kpeved/circleAnimation/SingleClockAnimation.kt:118-127 | dot i's fraction lies in [0, 1]: 0 up to 30·i degrees and 1 from 30·i + 60 on |
| ClockGeometry.DotsPositions | app/src/main/java/com/kpeved/circleAnimation/SingleClockAnimation.kt:118-127 | twelve entries, entry i being the eased progress of dot i |
| ClockGeometry.AssembleValue | app/src/main/java/com/kpeved/circleAnimation/SingleClockAnimation.kt:129-133 | -1 below 360 degrees; from 360 on, a value v in [0, 1) with angle = 30·(hour + v) |
| ClockGeometry.AssembleDrawnInSecondTurn | app/src/main/java/com/kpeved/circleAnimation/SingleClockAnimation.kt:158 | the assembling dot is drawn exactly when the angle is at least 360 |
| ClockGeometry.StrokeWidth | app/src/main/java/com/kpeved/circleAnimation/SingleClockAnimation.kt:140 | a whole number w with 24w <= width < 24w + 24 |
| ClockGeometry.DotMark | app/src/main/java/com/kpeved/circleAnimation/SingleClockAnimation.kt:178-183 | the segment is exactly one stroke long and starts at distance·remaining: the half strokes cancel |
| ClockGeometry.FixedDotMark | app/src/main/java/com/kpeved/circleAnimation/tutorial/Step3AddDots.kt:108-109 | the fixed dot runs from y = 0 to one stroke |
| ClockGeometry.ArrivedDotIsFixedDot | app/src/main/java/com/kpeved/circleAnimation/SingleClockAnimation.kt:178-183 | a moving dot with nothing left to travel is drawn exactly like the fixed dot |
| Animation.Anim.SnapTo | app/src/main/java/com/kpeved/circleAnimation/ParallelClockAnimation.kt:97 | `snapTo(v)` sets the value to v and stops any tween; the result is drawn exactly when v is not -1 |
| Animation.Anim.AnimateTo | app/src/main/java/com/kpeved/circleAnimation/ParallelClockAnimation.kt:98-101 | `animateTo` keeps the current value (so whether it is drawn does not change at once) and records a tween to the target over the given duration |
| Animation.DotTweenMs | app/src/main/java/com/kpeved/circleAnimation/ParallelClockAnimation.kt:100 | `50 * h / 2` is 25·h for h >= 0, so it lies in [0, 275] ms over hours 0..11 |
| Animation.AssembleTweenMs | app/src/main/java/com/kpeved/circleAnimation/ParallelClockAnimation.kt:107 | `50 * (24 - h)` lies in [50, 1200] ms during the day, [50, 600] ms in its second half, and is positive up to hour 23 |
| SingleClock.StepHeight | app/src/main/java/com/kpeved/circleAnimation/SingleClockAnimation.kt:211 | a twelfth of half the height is height / 24 |
| SingleClock.ProgressFrame | app/src/main/java/com/kpeved/circleAnimation/SingleClockAnimation.kt:103-194 | the frame is keyed on the angle's hour; it draws exactly the visible dots, each one stroke long; the assembling dot is drawn exactly from 360 degrees on |
| SingleClock.DrawnDotCount | app/src/main/java/com/kpeved/circleAnimation/SingleClockAnimation.kt:174-175 | the frame draws h + 1 dots in the first half of the day and 23 - h in the second |
| SingleClock.HandWithinDial | app/src/main/java/com/kpeved/circleAnimation/SingleClockAnimation.kt:147-150 | for every angle in [0, 720] the hand's end lies between the top edge and the centre, and at most 11 steps above the centre before 720 |
| SingleClock.ArrivedDotOnEdge | app/src/main/java/com/kpeved/circleAnimation/SingleClockAnimation.kt:178-180 | once its 60 degrees are over, a drawn dot starts at the edge, given an easing curve that ends at 1 |
| SingleClock.FullSliderFrame | app/src/main/java/com/kpeved/circleAnimation/SingleClockAnimation.kt:78 | at slider progress 1: hour 24, hand end at the top edge, no dot drawn, assembling dot at the edge |
| ParallelClock.Initial | app/src/main/java/com/kpeved/circleAnimation/ParallelClockAnimation.kt:69-76 | hour 0, the assembling value and all twelve slots at the sentinel -1, and the invariant holds |
| ParallelClock.AngleEffect | app/src/main/java/com/kpeved/circleAnimation/ParallelClockAnimation.kt:80-91 | the new hour is handed on exactly when it differs; the state is then the new hour with the assembling value at -1; otherwise nothing changes |
| ParallelClock.HourEffect | app/src/main/java/com/kpeved/circleAnimation/ParallelClockAnimation.kt:92-111 | for h < 12: slot h tweens from 0 to 1 over 25h ms, the assembling value is -1, and no other slot changes; for 12..23: slot h - 12 is -1, the assembling value tweens from 0.1 to 1 over 50(24 - h) ms, and no other slot changes; outside 0..23 it fails, with the slots untouched |
| ParallelClock.Frame | app/src/main/java/com/kpeved/circleAnimation/ParallelClockAnimation.kt:80-111 | a frame in the current hour changes nothing; every frame leaves the angle's hour as `currentHour` |
| ParallelClock.HourEffectPreservesConsistency | app/src/main/java/com/kpeved/circleAnimation/ParallelClockAnimation.kt:93-111 | after the hour effect every slot holds -1 or its own 0-to-1 tween, and the assembling value holds -1 or a 0.1-to-1 tween of 50..600 ms |
| ParallelClock.FramePreservesConsistency | app/src/main/java/com/kpeved/circleAnimation/ParallelClockAnimation.kt:80-111 | the same invariant survives every frame, whatever the angle |
| ParallelClock.FrameInNewHour | app/src/main/java/com/kpeved/circleAnimation/ParallelClockAnimation.kt:80-111 | a frame whose angle lies in a new hour depends only on that hour |
| ParallelClock.RunHours | app/src/main/java/com/kpeved/circleAnimation/ParallelClockAnimation.kt:80-111 | an empty run leaves the state unchanged; a run of hours start..stop-1 leaves stop - 1 as `currentHour` |
| ParallelClock.RunFrames | app/src/main/java/com/kpeved/circleAnimation/ParallelClockAnimation.kt:80-111 | after a sequence of frames `currentHour` is the hour of the last angle |
| ParallelClock.RunFramesIsRunHours | app/src/main/java/com/kpeved/circleAnimation/ParallelClockAnimation.kt:80-111 | frames at one angle per hour, for consecutive hours from `start`, equal `RunHours` whenever the remembered hour is not `start` |
| ParallelClock.RunHoursConsistent | app/src/main/java/com/kpeved/circleAnimation/ParallelClockAnimation.kt:93-111 | the invariant survives any run of consecutive hours |
| ParallelClock.RunHoursWindow | app/src/main/java/com/kpeved/circleAnimation/ParallelClockAnimation.kt:93-111 | starting dark and running hours start..stop-1, slot i is active exactly when i >= start and i is in the window of hour stop - 1 |
| ParallelClock.SteadyLap | app/src/main/java/com/kpeved/circleAnimation/ParallelClockAnimation.kt:93-111 | in a lap started dark from a remembered hour other than 0, the slots active after hour h are exactly the dots visible at h |
| ParallelClock.SteadyLapFrames | app/src/main/java/com/kpeved/circleAnimation/ParallelClockAnimation.kt:80-111 | the same, over the program's frames: from a dark state whose remembered hour is not 0, frames at one angle per hour 0..h light exactly the window of h |
| ParallelClock.LapEndsDark | app/src/main/java/com/kpeved/circleAnimation/ParallelClockAnimation.kt:102-109 | after hour 23 every slot is back at -1 and the invariant holds, so every lap starts like the last |
| ParallelClock.FirstLapEndsDark | app/src/main/java/com/kpeved/circleAnimation/ParallelClockAnimation.kt:69-111 | the program's first lap, from the initial state through hours 1..23, also ends with every slot at -1, the invariant kept and `currentHour` at 23 |
| ParallelClock.FirstLapSkipsDotZero | app/src/main/java/com/kpeved/circleAnimation/ParallelClockAnimation.kt:69-91 | from the initial state, hour-0 frames change nothing, and in the first lap slot 0 stays dark while the rest follow the window |
| ParallelClock.Draw | app/src/main/java/com/kpeved/circleAnimation/ParallelClockAnimation.kt:114-171 | the hand ends at HandEndY(height, HandLength(height/24, currentHour)); dot i is drawn exactly when its slot is not -1, one stroke long, starting at step·currentHour·(1 - value); the assembling dot is drawn exactly when its value is not -1, starting at AssembleDistance(height/24, currentHour)·value |
| ParallelClock.SameDotsAsSingleClock | app/src/main/java/com/kpeved/circleAnimation/ParallelClockAnimation.kt:152-170 | in a lap started dark from a remembered hour other than 0, the parallel clock draws the same dots as the single clock for any angle of that hour |
| ParallelClock.ClockAnimation.constructor | app/src/main/java/com/kpeved/circleAnimation/ParallelClockAnimation.kt:69-76 | the remembered state is the initial state, with a fresh array of twelve slots |
| ParallelClock.ClockAnimation.OnAngle | app/src/main/java/com/kpeved/circleAnimation/ParallelClockAnimation.kt:80-91 | the fields after the effect and the `sent` flag are exactly `AngleEffect` of the state before; the invariant is kept |
| ParallelClock.ClockAnimation.OnHourChanged | app/src/main/java/com/kpeved/circleAnimation/ParallelClockAnimation.kt:92-111 | the fields and array after the in-place updates, and the failure flag, are exactly `HourEffect` of the state before; the invariant is kept |
| ParallelClock.ClockAnimation.OnFrame | app/src/main/java/com/kpeved/circleAnimation/ParallelClockAnimation.kt:80-111 | one frame of the object is exactly `Frame` of the state before |
| SliderControl.SliderFrame | app/src/main/java/com/kpeved/circleAnimation/tutorial/Step7SliderControl.kt:110-165 | the visible dots, the hand's end y and the assembling dot's distance follow the remembered hour, while dot progress and the assembling value follow the angle: dot i is one stroke long and starts at (height/24)·i·(1 - eased progress); the assembling dot is drawn exactly from 360 degrees on, starting at AssembleDistance(height/24, remembered hour)·AssembleValue(angle) |
| SliderControl.CaughtUpFrameIsSingleClockFrame | app/src/main/java/com/kpeved/circleAnimation/tutorial/Step7SliderControl.kt:95-100 | once the remembered hour equals the angle's hour, the slider clock draws exactly the single clock's frame |
| SliderControl.ArrivedSliderDotOnEdge | app/src/main/java/com/kpeved/circleAnimation/tutorial/Step7SliderControl.kt:150-152 | a drawn dot whose progress is 1 starts at y = 0 |
| SliderControl.SliderClock.constructor | app/src/main/java/com/kpeved/circleAnimation/tutorial/Step7SliderControl.kt:66 | the remembered hour starts at 0 |
| SliderControl.SliderClock.OnAngle | app/src/main/java/com/kpeved/circleAnimation/tutorial/Step7SliderControl.kt:95-100 | afterwards the remembered hour is the angle's hour; when it already was, nothing changes (so a second call is idempotent) |
| SliderControl.SlideTo | app/src/main/java/com/kpeved/circleAnimation/tutorial/Step7SliderControl.kt:63-165 | the frame composed before the effect still shows the previous hour's dots and hand; afterwards the clock remembers the angle's hour, and the frame drawn then is the single clock's frame |
| AssembleAnimation.Initial | app/src/main/java/com/kpeved/circleAnimation/tutorial/Step4AssembleAnimation.kt:78 | no effect has run yet and the assembling value is the sentinel |
| AssembleAnimation.Compose | app/src/main/java/com/kpeved/circleAnimation/tutorial/Step4AssembleAnimation.kt:80-86 | the effect runs on the first composition and on every new hour, restarting the value from 0 toward 1 over 50(24 - h) ms; otherwise nothing changes |
| AssembleAnimation.ComposePreservesConsistency | app/src/main/java/com/kpeved/circleAnimation/tutorial/Step4AssembleAnimation.kt:80-86 | the value always holds the sentinel or the tween of the last effect's hour; during the day each tween starts at 0 and lasts 50..1200 ms |
| AssembleAnimation.AssembleFrame | app/src/main/java/com/kpeved/circleAnimation/tutorial/Step4AssembleAnimation.kt:96-148 | the dots drawn are exactly the visible ones, each the fixed segment at the edge; the assembling dot is drawn exactly when its value is not -1, at step·(23 - h)·value |
| AssembleAnimation.NothingAssemblesAtFirst | app/src/main/java/com/kpeved/circleAnimation/tutorial/Step4AssembleAnimation.kt:116 | before the first effect no assembling dot is drawn |
| AssembleAnimation.AssemblingDotPath | app/src/main/java/com/kpeved/circleAnimation/tutorial/Step4AssembleAnimation.kt:116-119 | from hour 11 on, a new hour's assembling dot is drawn at the edge, and once its tween has reached its target it sits where the hand's tip will be in the next hour |
| AssembleAnimation.AssembleDotCount | app/src/main/java/com/kpeved/circleAnimation/tutorial/Step4AssembleAnimation.kt:68-76 | h + 1 dots are drawn in the first half of the day and 23 - h in the second |
| AssembleAnimation.AssembleClock.constructor | app/src/main/java/com/kpeved/circleAnimation/tutorial/Step4AssembleAnimation.kt:78 | the object starts in the initial state |
| AssembleAnimation.AssembleClock.OnCompose | app/src/main/java/com/kpeved/circleAnimation/tutorial/Step4AssembleAnimation.kt:63-86 | the fields after a composition are exactly `Compose` of the fields before |
| AddDots.AddDotsFrame | app/src/main/java/com/kpeved/circleAnimation/tutorial/Step3AddDots.kt:84-117 | the frame draws no assembling dot, draws exactly the visible dots, and draws each as the fixed segment at the edge |
| AddDots.DrawnDotsAreTrailingRun | app/src/main/java/com/kpeved/circleAnimation/tutorial/Step3AddDots.kt:66-74 | the drawn dots are the run from max(0, h - 11) to min(h, 11): h + 1 of them, then 23 - h; each runs from 0 to one stroke |
| AddDots.AddDotsHandInViewport | app/src/main/java/com/kpeved/circleAnimation/tutorial/Step3AddDots.kt:85-92 | during the day the hand's end lies in [height/2 - 11·height/24, height/2] |
| ShrinkArrow.ArrowEndY | app/src/main/java/com/kpeved/circleAnimation/tutorial/Step2ShrinkAndExtendArrow.kt:76-80 | at hours 11 and 12 the hand has shrunk to nothing: its end is the centre |
| ShrinkArrow.ArrowInViewport | app/src/main/java/com/kpeved/circleAnimation/tutorial/Step2ShrinkAndExtendArrow.kt:73-80 | during the day the hand's end lies in [height/2 - 11·height/24, height/2] |
| ShrinkArrow.ArrowShrinksThenExtends | app/src/main/java/com/kpeved/circleAnimation/tutorial/Step2ShrinkAndExtendArrow.kt:95-102 | as the angle grows, the hand's end moves toward the centre through hours 0..11 and away from it from hour 12 on, strictly from one hour to the next |

## Left out

- Drawing: Compose layout, rotation about the centre, colours and line caps. A frame is reduced to the y coordinates of the hand's end and of each dot in its own rotated frame.
- Floating point: `Float` is modelled as exact `real`. IEEE rounding, and the saturation and NaN cases of `Float.toInt()`, are not modelled.
- Easing curves (`LinearOutSlowInEasing`): passed in as an uninterpreted function. Properties that need the curve to end at 1 say so in their `requires`.
- Animation time: `animateTo` is recorded as its target and duration. The values a tween passes through over time are not modelled, and neither are the infinite transition's timing or the frame rate.
- Coroutines, the conflated channel and `collectLatest` in `ClockAnimation`: the angle effect and the hour effect run one after the other, once per frame. Interleavings, dropped intermediate hours and cancelled tweens are not modelled.
- ClockGeometry.AngleToFraction: requires a positive degree limit. Kotlin would produce NaN for 0 and throw for a negative limit. Every call passes 60.
- ClockAnimation out-of-range hours: an hour outside 0..23 throws on the list access. It is modelled as `ok = false`, keeping the writes made before the access; the exception's propagation is not modelled.
- Previews, `MainActivity` and `Step1RotateArrow`: not part of this model. They only host the composables or rotate the bare hand.

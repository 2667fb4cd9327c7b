/**
 * The part of an animatable float the clocks rely on: its current value,
 * `snapTo` (jump to a value and stop) and `animateTo` (start a tween toward a
 * target), plus the two tween durations the clocks compute from the hour.
 * How the value moves over time is the framework's business; a running tween
 * is recorded by its target and duration.
 */
module Animation {
  import opened KotlinNumerics

  datatype Motion = Idle | Tweening(target: real, durationMs: int)

  datatype Anim = Anim(value: real, motion: Motion) {
    /** `snapTo(v)`: the value jumps to `v` and any running tween stops. */
    function SnapTo(v: real): (r: Anim)
      ensures r.value == v && r.motion == Idle
      ensures r.Active() <==> v != -1.0
    {
      Anim(v, Idle)
    }

    /** `animateTo(target, tween(ms))`: a tween starts from the current value. */
    function AnimateTo(target: real, durationMs: int): (r: Anim)
      ensures r.value == value && r.Active() == Active()
      ensures r.motion.Tweening? && r.motion.target == target && r.motion.durationMs == durationMs
    {
      Anim(value, Tweening(target, durationMs))
    }

    /** The sentinel -1 means "not drawn". */
    predicate Active()
    {
      value != -1.0
    }
  }

  /** `Animatable(-1f)`: the initial, undrawn state. */
  const Inactive: Anim := Anim(-1.0, Idle)

  /** `50 * h / 2` milliseconds: the tween that moves dot h out in the first half of the day. */
  function DotTweenMs(hour: int): (ms: int)
    ensures hour >= 0 ==> ms == 25 * hour
    ensures 0 <= hour <= 11 ==> 0 <= ms <= 275
  {
    TruncDiv(50 * hour, 2)
  }

  /** `50 * (24 - h)` milliseconds: the tween of the assembling dot. It shortens
      as the day goes on, since the assembling dot has less way to go. */
  function AssembleTweenMs(hour: int): (ms: int)
    ensures 0 <= hour <= 23 ==> 50 <= ms <= 1200
    ensures 12 <= hour <= 23 ==> 50 <= ms <= 600
    ensures hour <= 23 ==> ms > 0
  {
    50 * (24 - hour)
  }
}

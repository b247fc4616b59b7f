/**
 * The progress percentage derived from the player store
 * (src/components/VideoPlayer/use-derived-state.ts), over exact reals.
 */
module DerivedState {
  import opened Wrappers

  /**
   * `duration ? (currentTime / duration) * 100 : 0`: an unknown duration and
   * a zero duration (falsy in JavaScript) both give 0.
   */
  function ProgressPercentage(currentTime: real, duration: Option<real>): (r: real)
    ensures duration == None || duration == Some(0.0) ==> r == 0.0
    ensures duration.Some? && duration.value != 0.0 ==> r * duration.value == currentTime * 100.0
  {
    if duration.Some? && duration.value != 0.0 then currentTime / duration.value * 100.0 else 0.0
  }

  /** 30 seconds into a 120-second video is 25 percent. */
  lemma QuarterWay()
    ensures ProgressPercentage(30.0, Some(120.0)) == 25.0
  {
  }

  /** A position within a known positive duration gives a percentage in [0, 100], reaching 100 exactly at the end. */
  lemma ProgressInRange(currentTime: real, duration: real)
    requires 0.0 < duration && 0.0 <= currentTime <= duration
    ensures 0.0 <= ProgressPercentage(currentTime, Some(duration)) <= 100.0
    ensures ProgressPercentage(currentTime, Some(duration)) == 100.0 <==> currentTime == duration
  {
    var r := ProgressPercentage(currentTime, Some(duration));
    assert r * duration == currentTime * 100.0;
    assert (100.0 - r) * duration == (duration - currentTime) * 100.0;
    assert 0.0 <= (duration - currentTime) * 100.0;
    if r == 100.0 {
      assert currentTime * 100.0 == duration * 100.0;
    }
  }

  /** For a fixed positive duration, the percentage never decreases as the position advances. */
  lemma ProgressMonotone(t1: real, t2: real, duration: real)
    requires 0.0 < duration && t1 <= t2
    ensures ProgressPercentage(t1, Some(duration)) <= ProgressPercentage(t2, Some(duration))
  {
    var r1, r2 := ProgressPercentage(t1, Some(duration)), ProgressPercentage(t2, Some(duration));
    assert (r2 - r1) * duration == (t2 - t1) * 100.0;
  }
}

/** The numeric rules of the scroll-driven video scrubber in script.js:
    how a scroll position becomes a target media time, how a reported
    media duration is accepted, how one smoothing tick moves the current
    time toward the target, and when a seek may be written.
    All times are exact reals: media time in seconds, clock time in
    milliseconds. */
module ScrollSync {

  /** Media-time span used before the real duration is known (seconds). */
  const VideoFallbackDuration: real := 18.0
  /** Distance at which the current time snaps onto the target (seconds). */
  const SmallDiffThreshold: real := 0.006
  /** Fraction of the remaining distance closed by one tick. */
  const SmoothFactor: real := 0.45
  /** Minimum spacing of throttled seeks, and the tick cadence (ms). */
  const SeekBatchMs: real := 40.0
  /** Silence after the last scroll input that stops the tick loop (ms). */
  const IdleStopMs: real := 250.0
  /** Upper bound on an accepted media duration: five minutes (seconds). */
  const DurationCap: real := 300.0
  /** Guard below the end of the media used by the interpolation clamp. */
  const EndGuard: real := 0.001
  /** How far the media position may be from a snapped time before a seek. */
  const SeekTolerance: real := 0.001
  /** HAVE_CURRENT_DATA: the least ready state at which seeks are issued. */
  const HaveCurrentData: int := 2

  function Abs(x: real): real { if x < 0.0 then -x else x }
  function Max(a: real, b: real): real { if a < b then b else a }
  function Min(a: real, b: real): real { if a < b then a else b }

  /** The scroll and layout measurements the mapping reads from the page. */
  datatype Viewport = Viewport(pageYOffset: real, scrollTop: real, scrollHeight: real, innerHeight: real)

  /** `pageYOffset || scrollTop || 0`: a zero offset falls through to the
      document element's scrollTop (whose own zero is the final 0). */
  function ScrollPosition(v: Viewport): (y: real)
    ensures y == v.pageYOffset || y == v.scrollTop
    ensures v.pageYOffset != 0.0 ==> y == v.pageYOffset
    ensures y == 0.0 <==> v.pageYOffset == 0.0 && v.scrollTop == 0.0
  {
    if v.pageYOffset != 0.0 then v.pageYOffset else v.scrollTop
  }

  /** The scrollable extent, floored at 1 so that it can divide. */
  function MaxScroll(v: Viewport): (m: real)
    ensures m >= 1.0 && m >= v.scrollHeight - v.innerHeight
    ensures m == 1.0 || m == v.scrollHeight - v.innerHeight
  {
    Max(v.scrollHeight - v.innerHeight, 1.0)
  }

  /** The scroll progress fraction. */
  function ScrollFraction(v: Viewport): (f: real)
    ensures 0.0 <= f <= 1.0
    ensures ScrollPosition(v) <= 0.0 ==> f == 0.0
    ensures ScrollPosition(v) >= MaxScroll(v) ==> f == 1.0
    ensures 0.0 <= ScrollPosition(v) <= MaxScroll(v) ==> f * MaxScroll(v) == ScrollPosition(v)
  {
    var m := MaxScroll(v);
    var q := ScrollPosition(v) / m;
    assert q * m == ScrollPosition(v);
    assert ScrollPosition(v) >= m ==> q >= 1.0;
    assert ScrollPosition(v) <= 0.0 ==> q <= 0.0;
    Min(Max(q, 0.0), 1.0)
  }

  /** The target media time for the current scroll position. */
  function TargetTime(v: Viewport, duration: real): (t: real)
    ensures duration >= 0.0 ==> 0.0 <= t <= duration
    ensures ScrollPosition(v) <= 0.0 ==> t == 0.0
    ensures ScrollPosition(v) >= MaxScroll(v) ==> t == duration
  {
    var f := ScrollFraction(v);
    FractionScales(f, duration);
    f * duration
  }

  lemma FractionScales(f: real, d: real)
    requires 0.0 <= f <= 1.0
    ensures d >= 0.0 ==> 0.0 <= f * d <= d
  {
    if d >= 0.0 {
      assert f * d <= 1.0 * d by {
        assert (1.0 - f) * d >= 0.0;
      }
    }
  }

  /** For one scroll position the target is proportional to the duration:
      changing the duration rescales the target by the same factor. */
  lemma TargetProportional(v: Viewport, d1: real, d2: real)
    ensures TargetTime(v, d1) * d2 == TargetTime(v, d2) * d1
  {
    var f := ScrollFraction(v);
    assert TargetTime(v, d1) == f * d1 && TargetTime(v, d2) == f * d2;
    assert (f * d1) * d2 == (f * d2) * d1;
  }

  /** What the page reports as the media element's duration. */
  datatype ReportedDuration =
    | Finite(seconds: real)
      /** NaN, an infinity, or a value that is not a number at all. */
    | NotFinite

  /** The duration adopted on metadata load. */
  function EffectiveDuration(d: ReportedDuration): (r: real)
    ensures 0.0 < r <= DurationCap
    ensures d.Finite? && 0.0 < d.seconds <= DurationCap ==> r == d.seconds
    ensures d.Finite? && d.seconds > DurationCap ==> r == DurationCap
    ensures !(d.Finite? && d.seconds > 0.0) ==> r == VideoFallbackDuration
  {
    if d.Finite? && d.seconds > 0.0 then Min(d.seconds, DurationCap) else VideoFallbackDuration
  }

  /** `Math.max(lo, Math.min(x, hi))`; it yields lo when hi < lo. */
  function Clamp(x: real, lo: real, hi: real): real
  {
    Max(lo, Min(x, hi))
  }

  /** The tick snaps when the distance to the target is within the threshold. */
  predicate IsSnap(current: real, target: real)
  {
    Abs(target - current) <= SmallDiffThreshold
  }

  /** The current media time after one smoothing tick. */
  function SmoothStep(current: real, target: real, duration: real): (next: real)
    ensures 0.0 <= target <= duration ==> 0.0 <= next <= duration
  {
    var diff := target - current;
    if Abs(diff) <= SmallDiffThreshold then target
    else Clamp(current + diff * SmoothFactor, 0.0, duration - EndGuard)
  }

  /** A throttled seek is due once SeekBatchMs have passed since the last one. */
  predicate SeekDue(now: real, lastSeekAt: real)
  {
    now - lastSeekAt >= SeekBatchMs
  }

  /** On the snap path a seek is written only when the media is noticeably off. */
  predicate SnapSeekNeeded(position: real, current: real)
  {
    Abs(position - current) > SeekTolerance
  }

  /** The tick loop stops once IdleStopMs have passed without scroll input. */
  predicate IdleExpired(now: real, lastScrollTime: real)
  {
    now - lastScrollTime > IdleStopMs
  }

  // ----- one tick ---------------------------------------------------------

  lemma SnapReachesTarget(current: real, target: real, duration: real)
    requires IsSnap(current, target)
    ensures SmoothStep(current, target, duration) == target
  {
  }

  /** Inside the clamp range, a tick that does not snap leaves exactly 55%
      of the distance, on the same side of the target (no overshoot). */
  lemma ContractionInRange(current: real, target: real, duration: real)
    requires !IsSnap(current, target)
    requires 0.0 <= current <= duration - EndGuard
    requires 0.0 <= target <= duration - EndGuard
    ensures Abs(target - SmoothStep(current, target, duration)) == (1.0 - SmoothFactor) * Abs(target - current)
    ensures current < target ==> current < SmoothStep(current, target, duration) < target
    ensures target < current ==> target < SmoothStep(current, target, duration) < current
  {
  }

  /** For any target the mapping can produce, a tick that does not snap
      leaves at most 55% of the distance, whatever the clamp does. */
  lemma DistanceShrinks(current: real, target: real, duration: real)
    requires !IsSnap(current, target)
    requires 0.0 <= target <= duration
    ensures Abs(target - SmoothStep(current, target, duration)) <= (1.0 - SmoothFactor) * Abs(target - current)
  {
    var x := current + (target - current) * SmoothFactor;
    assert Abs(target - x) == (1.0 - SmoothFactor) * Abs(target - current);
    var hi := duration - EndGuard;
    var next := SmoothStep(current, target, duration);
    if x > hi && hi >= 0.0 {
      assert next == hi;
      if target >= hi {
        assert Abs(target - next) <= EndGuard;
      } else {
        assert Abs(target - next) < Abs(target - x);
      }
    } else if hi < 0.0 {
      assert next == 0.0;
      assert Abs(target - next) < EndGuard;
    } else if x < 0.0 {
      assert next == 0.0;
    } else {
      assert next == x;
    }
  }

  /** The distance to the target strictly decreases until it reaches zero. */
  lemma StrictlyCloser(current: real, target: real, duration: real)
    requires 0.0 <= target <= duration
    requires current != target
    ensures Abs(target - SmoothStep(current, target, duration)) < Abs(target - current)
  {
    if !IsSnap(current, target) {
      DistanceShrinks(current, target, duration);
    }
  }

  // ----- repeated ticks with a held target ---------------------------------

  /** The current time after k ticks with the target held fixed. */
  function Smoothed(current: real, target: real, duration: real, k: nat): real
    decreases k
  {
    if k == 0 then current else Smoothed(SmoothStep(current, target, duration), target, duration, k - 1)
  }

  /** Least progress of a tick that does not snap. */
  const MinStep: real := SmoothFactor * SmallDiffThreshold

  /** With the target held, the current time reaches it exactly within k
      ticks once the distance is at most the threshold plus k - 1 least
      steps, and then no tick moves it again. */
  lemma {:induction false} SnapsWithin(current: real, target: real, duration: real, k: nat)
    requires 0.0 <= target <= duration
    requires k >= 1
    requires Abs(target - current) <= SmallDiffThreshold + MinStep * (k - 1) as real
    ensures Smoothed(current, target, duration, k) == target
    decreases k
  {
    var next := SmoothStep(current, target, duration);
    if IsSnap(current, target) {
      StaysAtTarget(target, duration, k - 1);
    } else {
      DistanceShrinks(current, target, duration);
      assert Abs(target - next) <= Abs(target - current) - MinStep;
      if k == 1 {
        assert false;
      }
      SnapsWithin(next, target, duration, k - 1);
    }
  }

  /** Once at the target, ticks leave the current time there. */
  lemma {:induction false} StaysAtTarget(target: real, duration: real, k: nat)
    ensures Smoothed(target, target, duration, k) == target
    decreases k
  {
    if k > 0 {
      assert SmoothStep(target, target, duration) == target;
      StaysAtTarget(target, duration, k - 1);
    }
  }

  /** A number of ticks after which a held target is certainly reached. */
  function TicksToSnap(current: real, target: real): (k: nat)
    ensures k >= 1
    ensures Abs(target - current) <= SmallDiffThreshold + MinStep * (k - 1) as real
  {
    var q := Abs(target - current) / MinStep;
    var n := q.Floor;
    assert n as real <= q < n as real + 1.0;
    assert Abs(target - current) == q * MinStep;
    (if n < 0 then 0 else n) + 1
  }

  /** Convergence: with a held target every later tick count gives exactly the target. */
  lemma Converges(current: real, target: real, duration: real, k: nat)
    requires 0.0 <= target <= duration
    requires k >= TicksToSnap(current, target)
    ensures Smoothed(current, target, duration, k) == target
  {
    var n := TicksToSnap(current, target);
    assert MinStep * (n - 1) as real <= MinStep * (k - 1) as real;
    SnapsWithin(current, target, duration, k);
  }

  // ----- the seek throttle ---------------------------------------------------

  /** The times at which a run of interpolating ticks, at the given clock
      times and starting from the given last-seek time, writes a seek. */
  function ThrottledWrites(lastSeekAt: real, times: seq<real>): (w: seq<real>)
    ensures |w| <= |times|
    ensures forall i :: 0 <= i < |w| ==> w[i] in times
    decreases |times|
  {
    if |times| == 0 then []
    else if SeekDue(times[0], lastSeekAt) then [times[0]] + ThrottledWrites(times[0], times[1..])
    else ThrottledWrites(lastSeekAt, times[1..])
  }

  /** Every throttled write is at least SeekBatchMs after the one before it
      (the first one after the starting last-seek time). */
  lemma {:induction false} ThrottledWritesSpaced(lastSeekAt: real, times: seq<real>)
    ensures var w := ThrottledWrites(lastSeekAt, times);
      (|w| > 0 ==> w[0] - lastSeekAt >= SeekBatchMs) &&
      (forall i :: 0 < i < |w| ==> w[i] - w[i - 1] >= SeekBatchMs)
    decreases |times|
  {
    if |times| > 0 {
      if SeekDue(times[0], lastSeekAt) {
        ThrottledWritesSpaced(times[0], times[1..]);
      } else {
        ThrottledWritesSpaced(lastSeekAt, times[1..]);
      }
    }
  }

  lemma {:induction false} SpacedSpan(w: seq<real>)
    requires |w| > 0
    requires forall i :: 0 < i < |w| ==> w[i] - w[i - 1] >= SeekBatchMs
    ensures w[|w| - 1] - w[0] >= SeekBatchMs * (|w| - 1) as real
    decreases |w|
  {
    if |w| > 1 {
      SpacedSpan(w[..|w| - 1]);
    }
  }

  /** Rate limit: when every tick time lies in a window [lo, hi], the
      throttled writes number at most (hi - lo) / SeekBatchMs + 1. */
  lemma WindowBound(lastSeekAt: real, times: seq<real>, lo: real, hi: real)
    requires forall i :: 0 <= i < |times| ==> lo <= times[i] <= hi
    ensures SeekBatchMs * (|ThrottledWrites(lastSeekAt, times)| as real - 1.0) <= Max(hi - lo, 0.0)
  {
    var w := ThrottledWrites(lastSeekAt, times);
    if |w| > 0 {
      ThrottledWritesSpaced(lastSeekAt, times);
      SpacedSpan(w);
      assert w[0] in times && w[|w| - 1] in times;
    }
  }
}

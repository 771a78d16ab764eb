/** The scroll-driven video engine of script.js in its own imperative
    form: the module-level variables become the fields of one Engine
    object, the media element a Media object, and each handler a method.
    Every method is proved to move the page from state `old(Page())` to
    the transition of the same name in EngineModel. */
module ScrollEngine {
  import opened Options
  import opened ScrollSync
  import EngineModel

  /** The `#bgVideo` element. Its fields are public: playback and loading
      change them between engine calls. */
  class Media {
    var readyState: int
    var position: real
    var duration: ReportedDuration
    /** Every assignment to `currentTime`, in order, with its clock time. */
    var writes: seq<EngineModel.SeekWrite>

    function State(): EngineModel.MediaState
      reads this
    {
      EngineModel.MediaState(readyState, position, duration, writes)
    }

    constructor (readyState: int, position: real, duration: ReportedDuration)
      ensures State() == EngineModel.MediaState(readyState, position, duration, [])
    {
      this.readyState := readyState;
      this.position := position;
      this.duration := duration;
      writes := [];
    }

    /** `try { video.currentTime = t } catch {}`: the write is recorded;
        a rejected one leaves the position as it was and raises nothing. */
    method SetCurrentTime(t: real, now: real, rejected: bool)
      modifies this
      ensures State() == EngineModel.Write(old(State()), t, now, rejected)
    {
      writes := writes + [EngineModel.SeekWrite(t, now)];
      if !rejected {
        position := t;
      }
    }
  }

  class Engine {
    /** The media element, or null when the page has none. */
    const video: Media?

    var videoDuration: real
    var targetVideoTime: real
    var currentVideoTime: real
    var lastScrollTime: real
    var lastSeekAt: real
    /** True exactly while the batch interval is scheduled. */
    var isActiveBatch: bool

    function State(): EngineModel.EngineState
      reads this
    {
      EngineModel.EngineState(videoDuration, targetVideoTime, currentVideoTime,
                              lastScrollTime, lastSeekAt, isActiveBatch)
    }

    /** The engine together with what it sees of the media element. */
    function Page(): EngineModel.PageState
      reads this, video
    {
      EngineModel.PageState(State(), if video == null then None else Some(video.State()))
    }

    ghost predicate Valid()
      reads this
    {
      EngineModel.Inv(State())
    }

    constructor (video: Media?)
      ensures this.video == video
      ensures State() == EngineModel.InitialEngine
      ensures Valid()
    {
      this.video := video;
      videoDuration := VideoFallbackDuration;
      targetVideoTime := 0.0;
      currentVideoTime := 0.0;
      lastScrollTime := 0.0;
      lastSeekAt := 0.0;
      isActiveBatch := false;
    }

    /** Needs only a valid duration, so that the metadata handler can call
        it between adopting a new duration and resetting the current time. */
    method ComputeTargetFromScroll(v: Viewport)
      requires 0.0 < videoDuration <= DurationCap
      modifies this
      ensures 0.0 < videoDuration <= DurationCap
      ensures old(Valid()) ==> Valid()
      ensures Page() == EngineModel.ComputeTarget(old(Page()), v)
    {
      if video == null {
        return;
      }
      targetVideoTime := ScrollFraction(v) * videoDuration;
      assert targetVideoTime == TargetTime(v, videoDuration);
    }

    /** The handler of scroll, wheel and touchmove input at clock time `now`. */
    method MarkScrollUpdated(v: Viewport, now: real, hidden: bool, rejected: bool)
      requires Valid()
      modifies this, video
      ensures Valid()
      ensures Page() == EngineModel.MarkScrollUpdated(old(Page()), v, now, hidden, rejected)
    {
      if video == null {
        return;
      }
      ComputeTargetFromScroll(v);
      lastScrollTime := now;
      if !isActiveBatch {
        StartBatchTimer(now, hidden, rejected);
      }
    }

    /** Activates the batch interval and runs one immediate pass. */
    method StartBatchTimer(now: real, hidden: bool, rejected: bool)
      requires Valid()
      modifies this, video
      ensures Valid()
      ensures Page() == EngineModel.StartBatchTimer(old(Page()), now, hidden, rejected)
    {
      if isActiveBatch || video == null {
        return;
      }
      isActiveBatch := true;
      PerformBatchPass(now, hidden, rejected);
    }

    /** One firing of the batch interval; it fires only while active. */
    method IntervalTick(now: real, hidden: bool, rejected: bool)
      requires Valid() && isActiveBatch
      modifies this, video
      ensures Valid()
      ensures Page() == EngineModel.Tick(old(Page()), now, hidden, rejected)
    {
      if now - lastScrollTime > IdleStopMs {
        StopBatchTimer();
        return;
      }
      PerformBatchPass(now, hidden, rejected);
    }

    method StopBatchTimer()
      requires Valid()
      modifies this
      ensures Valid()
      ensures Page() == EngineModel.StopBatchTimer(old(Page()))
    {
      if !isActiveBatch {
        return;
      }
      isActiveBatch := false;
    }

    /** One interpolation step and at most one seek. */
    method PerformBatchPass(now: real, hidden: bool, rejected: bool)
      requires Valid()
      modifies this, video
      ensures Valid()
      ensures Page() == EngineModel.BatchPass(old(Page()), now, hidden, rejected)
    {
      if video == null || video.readyState < HaveCurrentData || hidden {
        return;
      }
      var diff := targetVideoTime - currentVideoTime;
      if Abs(diff) <= SmallDiffThreshold {
        currentVideoTime := targetVideoTime;
        if Abs(video.position - currentVideoTime) > SeekTolerance {
          video.SetCurrentTime(currentVideoTime, now, rejected);
          lastSeekAt := now;
        }
        return;
      }
      currentVideoTime := currentVideoTime + diff * SmoothFactor;
      currentVideoTime := Max(0.0, Min(currentVideoTime, videoDuration - EndGuard));
      if now - lastSeekAt >= SeekBatchMs {
        video.SetCurrentTime(currentVideoTime, now, rejected);
        lastSeekAt := now;
      }
    }

    method OnHashChange(v: Viewport, now: real, hidden: bool, rejected: bool)
      requires Valid()
      modifies this, video
      ensures Valid()
      ensures Page() == EngineModel.HashChange(old(Page()), v, now, hidden, rejected)
    {
      ComputeTargetFromScroll(v);
      MarkScrollUpdated(v, now, hidden, rejected);
    }

    method OnVisibilityChange(v: Viewport, now: real, hidden: bool, rejected: bool)
      requires Valid()
      modifies this, video
      ensures Valid()
      ensures Page() == EngineModel.VisibilityChange(old(Page()), v, now, hidden, rejected)
    {
      if video == null {
        return;
      }
      if hidden {
        StopBatchTimer();
      } else {
        ComputeTargetFromScroll(v);
        MarkScrollUpdated(v, now, hidden, rejected);
      }
    }

    /** The loadedmetadata handler, registered only when the element exists;
        `now` only timestamps its write. */
    method OnLoadedMetadata(v: Viewport, now: real, rejected: bool)
      requires Valid() && video != null
      modifies this, video
      ensures Valid()
      ensures Page() == EngineModel.LoadedMetadata(old(Page()), v, now, rejected)
    {
      if video.duration.Finite? && video.duration.seconds > 0.0 {
        videoDuration := Min(video.duration.seconds, DurationCap);
      } else {
        videoDuration := VideoFallbackDuration;
      }
      ComputeTargetFromScroll(v);
      currentVideoTime := targetVideoTime;
      video.SetCurrentTime(currentVideoTime, now, rejected);
    }
  }
}

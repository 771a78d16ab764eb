/** The scroll-to-video engine of script.js as values: the module-level
    variables it keeps, the media element it writes to, and one transition
    per handler. The class in engine.dfy is proved to follow these
    transitions; the lemmas here state what the transitions guarantee. */
module EngineModel {
  import opened Options
  import opened ScrollSync

  /** The engine's module-level variables; `isActiveBatch` also stands for
      `batchTimer`, which is non-null exactly while it is true. */
  datatype EngineState = EngineState(
    videoDuration: real,
    targetVideoTime: real,
    currentVideoTime: real,
    lastScrollTime: real,
    lastSeekAt: real,
    isActiveBatch: bool)

  /** One assignment to the media element's `currentTime`: the value
      written and the clock time of the handler that wrote it. */
  datatype SeekWrite = SeekWrite(value: real, at: real)

  /** What the engine sees of the media element: its ready state, its
      playback position, its reported duration, and every write to its
      playback position, in order. */
  datatype MediaState = MediaState(
    readyState: int,
    position: real,
    duration: ReportedDuration,
    writes: seq<SeekWrite>)

  /** The clock times of a sequence of writes. */
  function Times(ws: seq<SeekWrite>): (ts: seq<real>)
    ensures |ts| == |ws|
    ensures forall i :: 0 <= i < |ws| ==> ts[i] == ws[i].at
    decreases |ws|
  {
    if |ws| == 0 then [] else Times(ws[..|ws| - 1]) + [ws[|ws| - 1].at]
  }

  lemma TimesAppend(ws: seq<SeekWrite>, w: SeekWrite)
    ensures Times(ws + [w]) == Times(ws) + [w.at]
  {
    assert (ws + [w])[..|ws|] == ws;
  }

  /** The engine together with the media element, which may be missing. */
  datatype PageState = PageState(engine: EngineState, video: Option<MediaState>)

  const InitialEngine: EngineState := EngineState(VideoFallbackDuration, 0.0, 0.0, 0.0, 0.0, false)

  /** The bounds every handler keeps: a duration in (0, 300] and both
      times in [0, duration]. */
  predicate Inv(e: EngineState)
  {
    0.0 < e.videoDuration <= DurationCap &&
    0.0 <= e.targetVideoTime <= e.videoDuration &&
    0.0 <= e.currentVideoTime <= e.videoDuration
  }

  /** Assigning the media position: the write is always recorded; when the
      element rejects it, the position stays where it was. */
  function Write(m: MediaState, t: real, now: real, rejected: bool): MediaState
  {
    m.(position := if rejected then m.position else t, writes := m.writes + [SeekWrite(t, now)])
  }

  /** Whether a batch pass acts at all: a media element that has current
      data, on a visible page. */
  predicate PassEnabled(p: PageState, hidden: bool)
  {
    p.video.Some? && p.video.value.readyState >= HaveCurrentData && !hidden
  }

  /** computeTargetFromScroll. */
  function ComputeTarget(p: PageState, v: Viewport): (r: PageState)
    ensures Inv(p.engine) ==> Inv(r.engine)
    ensures r.video == p.video
  {
    if p.video.None? then p
    else p.(engine := p.engine.(targetVideoTime := TargetTime(v, p.engine.videoDuration)))
  }

  /** performBatchPass: one smoothing step and at most one seek. */
  function BatchPass(p: PageState, now: real, hidden: bool, rejected: bool): (r: PageState)
    ensures Inv(p.engine) ==> Inv(r.engine)
    ensures r.video.Some? == p.video.Some?
  {
    if !PassEnabled(p, hidden) then p
    else
      var e := p.engine;
      var m := p.video.value;
      var next := SmoothStep(e.currentVideoTime, e.targetVideoTime, e.videoDuration);
      var write :=
        if IsSnap(e.currentVideoTime, e.targetVideoTime) then SnapSeekNeeded(m.position, next)
        else SeekDue(now, e.lastSeekAt);
      if write then
        PageState(e.(currentVideoTime := next, lastSeekAt := now), Some(Write(m, next, now, rejected)))
      else
        PageState(e.(currentVideoTime := next), p.video)
  }

  /** startBatchTimer: activate and run one immediate pass. */
  function StartBatchTimer(p: PageState, now: real, hidden: bool, rejected: bool): (r: PageState)
    ensures Inv(p.engine) ==> Inv(r.engine)
    ensures r.video.Some? == p.video.Some?
  {
    if p.engine.isActiveBatch || p.video.None? then p
    else BatchPass(p.(engine := p.engine.(isActiveBatch := true)), now, hidden, rejected)
  }

  /** stopBatchTimer. */
  function StopBatchTimer(p: PageState): (r: PageState)
    ensures Inv(p.engine) ==> Inv(r.engine)
    ensures r.video == p.video
  {
    if !p.engine.isActiveBatch then p
    else p.(engine := p.engine.(isActiveBatch := false))
  }

  /** The body of the batch interval, which runs only while it is active. */
  function Tick(p: PageState, now: real, hidden: bool, rejected: bool): (r: PageState)
    requires p.engine.isActiveBatch
    ensures Inv(p.engine) ==> Inv(r.engine)
    ensures r.video.Some? == p.video.Some?
  {
    if IdleExpired(now, p.engine.lastScrollTime) then StopBatchTimer(p)
    else BatchPass(p, now, hidden, rejected)
  }

  /** markScrollUpdated: the handler of scroll, wheel and touchmove. */
  function MarkScrollUpdated(p: PageState, v: Viewport, now: real, hidden: bool, rejected: bool): (r: PageState)
    ensures Inv(p.engine) ==> Inv(r.engine)
    ensures r.video.Some? == p.video.Some?
  {
    if p.video.None? then p
    else
      var q := ComputeTarget(p, v);
      var q' := q.(engine := q.engine.(lastScrollTime := now));
      if !q'.engine.isActiveBatch then StartBatchTimer(q', now, hidden, rejected) else q'
  }

  /** The hashchange handler. */
  function HashChange(p: PageState, v: Viewport, now: real, hidden: bool, rejected: bool): (r: PageState)
    ensures Inv(p.engine) ==> Inv(r.engine)
    ensures r.video.Some? == p.video.Some?
  {
    MarkScrollUpdated(ComputeTarget(p, v), v, now, hidden, rejected)
  }

  /** The visibilitychange handler. */
  function VisibilityChange(p: PageState, v: Viewport, now: real, hidden: bool, rejected: bool): (r: PageState)
    ensures Inv(p.engine) ==> Inv(r.engine)
    ensures r.video.Some? == p.video.Some?
  {
    if p.video.None? then p
    else if hidden then StopBatchTimer(p)
    else MarkScrollUpdated(ComputeTarget(p, v), v, now, hidden, rejected)
  }

  /** The loadedmetadata handler, registered only when the element exists:
      adopt the reported duration, re-map the scroll position, put the
      current time on the target and seek there once.
      The handler reads no clock; `now` is only the time its write is logged at. */
  function LoadedMetadata(p: PageState, v: Viewport, now: real, rejected: bool): (r: PageState)
    requires p.video.Some?
    ensures Inv(r.engine)
    ensures r.video.Some?
  {
    var m := p.video.value;
    var q := p.(engine := p.engine.(videoDuration := EffectiveDuration(m.duration)));
    var q' := ComputeTarget(q, v);
    var e := q'.engine.(currentVideoTime := q'.engine.targetVideoTime);
    PageState(e, Some(Write(m, e.currentVideoTime, now, rejected)))
  }

  // ----- properties ------------------------------------------------------

  lemma InitialValid()
    ensures Inv(InitialEngine) && !InitialEngine.isActiveBatch
  {
  }

  /** The mapping never leaves [0, duration], from any scroll inputs. */
  lemma TargetInRange(p: PageState, v: Viewport)
    requires Inv(p.engine) && p.video.Some?
    ensures 0.0 <= ComputeTarget(p, v).engine.targetVideoTime <= p.engine.videoDuration
    ensures ComputeTarget(p, v).engine == p.engine.(targetVideoTime := TargetTime(v, p.engine.videoDuration))
  {
  }

  /** Without media data, or on a hidden page, a pass changes nothing and writes no seek. */
  lemma PassInert(p: PageState, now: real, hidden: bool, rejected: bool)
    requires p.video.None? || p.video.value.readyState < HaveCurrentData || hidden
    ensures BatchPass(p, now, hidden, rejected) == p
  {
  }

  /** The snap path: the current time becomes the target; a seek to it is
      written, and the last-seek time moved, exactly when the media
      position is more than SeekTolerance away. */
  lemma PassSnaps(p: PageState, now: real, hidden: bool, rejected: bool)
    requires PassEnabled(p, hidden)
    requires IsSnap(p.engine.currentVideoTime, p.engine.targetVideoTime)
    ensures var r := BatchPass(p, now, hidden, rejected);
      var m := p.video.value;
      var e := p.engine;
      r.engine.currentVideoTime == e.targetVideoTime &&
      r.engine == e.(currentVideoTime := e.targetVideoTime, lastSeekAt := r.engine.lastSeekAt) &&
      (if SnapSeekNeeded(m.position, e.targetVideoTime)
       then r.engine.lastSeekAt == now && r.video == Some(Write(m, e.targetVideoTime, now, rejected))
       else r.engine.lastSeekAt == e.lastSeekAt && r.video == p.video)
  {
  }

  /** The interpolation path: the current time moves by SmoothStep, and a
      seek is written, and the last-seek time set to now (whether or not
      the element rejects it), exactly when SeekBatchMs have passed;
      otherwise neither the last-seek time nor the media changes. */
  lemma PassInterpolates(p: PageState, now: real, hidden: bool, rejected: bool)
    requires PassEnabled(p, hidden)
    requires !IsSnap(p.engine.currentVideoTime, p.engine.targetVideoTime)
    ensures var r := BatchPass(p, now, hidden, rejected);
      var m := p.video.value;
      var e := p.engine;
      var next := SmoothStep(e.currentVideoTime, e.targetVideoTime, e.videoDuration);
      (if SeekDue(now, e.lastSeekAt)
       then r.engine == e.(currentVideoTime := next, lastSeekAt := now) && r.video == Some(Write(m, next, now, rejected))
       else r.engine == e.(currentVideoTime := next) && r.video == p.video)
  {
  }

  /** A pass moves only the current time toward the held target: the
      distance strictly decreases until it is zero. */
  lemma PassCloser(p: PageState, now: real, hidden: bool, rejected: bool)
    requires Inv(p.engine) && PassEnabled(p, hidden)
    requires p.engine.currentVideoTime != p.engine.targetVideoTime
    ensures var r := BatchPass(p, now, hidden, rejected);
      r.engine.targetVideoTime == p.engine.targetVideoTime &&
      Abs(r.engine.targetVideoTime - r.engine.currentVideoTime) <
        Abs(p.engine.targetVideoTime - p.engine.currentVideoTime)
  {
    StrictlyCloser(p.engine.currentVideoTime, p.engine.targetVideoTime, p.engine.videoDuration);
  }

  /** Starting twice is starting once; starting an active engine does nothing. */
  lemma StartIdempotent(p: PageState, now: real, now': real, hidden: bool, hidden': bool, rej: bool, rej': bool)
    ensures p.engine.isActiveBatch ==> StartBatchTimer(p, now, hidden, rej) == p
    ensures p.video.Some? ==> StartBatchTimer(p, now, hidden, rej).engine.isActiveBatch
    ensures StartBatchTimer(StartBatchTimer(p, now, hidden, rej), now', hidden', rej') == StartBatchTimer(p, now, hidden, rej)
  {
    var q := StartBatchTimer(p, now, hidden, rej);
    if !p.engine.isActiveBatch && p.video.Some? {
      var a := p.(engine := p.engine.(isActiveBatch := true));
      assert q == BatchPass(a, now, hidden, rej);
      assert q.engine.isActiveBatch;
    }
  }

  /** Stopping twice is stopping once; stopping an idle engine does nothing. */
  lemma StopIdempotent(p: PageState)
    ensures !p.engine.isActiveBatch ==> StopBatchTimer(p) == p
    ensures !StopBatchTimer(p).engine.isActiveBatch
    ensures StopBatchTimer(StopBatchTimer(p)) == StopBatchTimer(p)
    ensures StopBatchTimer(p) == p.(engine := p.engine.(isActiveBatch := false))
  {
  }

  /** Scroll input always refreshes the target and the last scroll time and
      leaves the engine active (when the element exists). */
  lemma MarkActivates(p: PageState, v: Viewport, now: real, hidden: bool, rejected: bool)
    requires p.video.Some?
    ensures var r := MarkScrollUpdated(p, v, now, hidden, rejected);
      r.engine.isActiveBatch &&
      r.engine.lastScrollTime == now &&
      r.engine.targetVideoTime == TargetTime(v, p.engine.videoDuration) &&
      r.engine.videoDuration == p.engine.videoDuration
  {
    var q := ComputeTarget(p, v);
    var q' := q.(engine := q.engine.(lastScrollTime := now));
    if !q'.engine.isActiveBatch {
      var a := q'.(engine := q'.engine.(isActiveBatch := true));
      assert MarkScrollUpdated(p, v, now, hidden, rejected) == BatchPass(a, now, hidden, rejected);
    }
  }

  /** Without a media element, no handler changes anything. */
  lemma NoVideoNoOp(p: PageState, v: Viewport, now: real, hidden: bool, rejected: bool)
    requires p.video.None?
    ensures MarkScrollUpdated(p, v, now, hidden, rejected) == p
    ensures HashChange(p, v, now, hidden, rejected) == p
    ensures VisibilityChange(p, v, now, hidden, rejected) == p
    ensures BatchPass(p, now, hidden, rejected) == p
    ensures StartBatchTimer(p, now, hidden, rejected) == p
  {
  }

  /** A tick more than IdleStopMs after the last scroll input deactivates
      the engine and does no pass: nothing else changes. */
  lemma TickIdleStops(p: PageState, now: real, hidden: bool, rejected: bool)
    requires p.engine.isActiveBatch
    requires IdleExpired(now, p.engine.lastScrollTime)
    ensures Tick(p, now, hidden, rejected) == p.(engine := p.engine.(isActiveBatch := false))
  {
  }

  /** A tick within IdleStopMs of the last input is exactly one pass and
      keeps the engine active. */
  lemma TickPasses(p: PageState, now: real, hidden: bool, rejected: bool)
    requires p.engine.isActiveBatch
    requires !IdleExpired(now, p.engine.lastScrollTime)
    ensures Tick(p, now, hidden, rejected) == BatchPass(p, now, hidden, rejected)
    ensures Tick(p, now, hidden, rejected).engine.isActiveBatch
  {
  }

  /** While the page is hidden, no handler writes a seek. */
  lemma HiddenNoWrites(p: PageState, v: Viewport, now: real, rejected: bool)
    requires p.video.Some?
    ensures var r := MarkScrollUpdated(p, v, now, true, rejected);
      r.video == p.video
    ensures HashChange(p, v, now, true, rejected).video == p.video
    ensures VisibilityChange(p, v, now, true, rejected) == StopBatchTimer(p)
    ensures p.engine.isActiveBatch ==> Tick(p, now, true, rejected).video == p.video
  {
    var q := ComputeTarget(p, v);
    var q' := q.(engine := q.engine.(lastScrollTime := now));
    assert BatchPass(q'.(engine := q'.engine.(isActiveBatch := true)), now, true, rejected).video == p.video;
    var h := ComputeTarget(p, v);
    assert HashChange(p, v, now, true, rejected) == MarkScrollUpdated(h, v, now, true, rejected);
    var hq := ComputeTarget(h, v);
    var hq' := hq.(engine := hq.engine.(lastScrollTime := now));
    assert BatchPass(hq'.(engine := hq'.engine.(isActiveBatch := true)), now, true, rejected).video == p.video;
  }

  /** Becoming visible re-maps the scroll position and resumes the engine. */
  lemma VisibleResumes(p: PageState, v: Viewport, now: real, rejected: bool)
    requires p.video.Some?
    ensures var r := VisibilityChange(p, v, now, false, rejected);
      r.engine.isActiveBatch &&
      r.engine.lastScrollTime == now &&
      r.engine.targetVideoTime == TargetTime(v, p.engine.videoDuration)
  {
    MarkActivates(ComputeTarget(p, v), v, now, false, rejected);
  }

  /** On metadata load the duration becomes the capped reported one (or
      the fallback), the current time equals the re-mapped target, and one
      seek to it is written; the activity state and clocks are untouched. */
  lemma MetadataResyncs(p: PageState, v: Viewport, now: real, rejected: bool)
    requires p.video.Some?
    ensures var r := LoadedMetadata(p, v, now, rejected);
      var d := EffectiveDuration(p.video.value.duration);
      r.engine.videoDuration == d &&
      r.engine.targetVideoTime == TargetTime(v, d) &&
      r.engine.currentVideoTime == r.engine.targetVideoTime &&
      r.engine.isActiveBatch == p.engine.isActiveBatch &&
      r.engine.lastSeekAt == p.engine.lastSeekAt &&
      r.engine.lastScrollTime == p.engine.lastScrollTime &&
      r.video == Some(Write(p.video.value, r.engine.currentVideoTime, now, rejected))
  {
  }

  /** The held-scroll scenario: half-way down a page, the fallback duration
      gives a target of 9 s; metadata reporting 42 s moves it to 21 s. */
  lemma MetadataScenario(m: MediaState, rejected: bool)
    requires m.duration == Finite(42.0)
    ensures var v := Viewport(500.0, 0.0, 1100.0, 100.0);
      var p := PageState(InitialEngine, Some(m));
      ComputeTarget(p, v).engine.targetVideoTime == 9.0 &&
      LoadedMetadata(ComputeTarget(p, v), v, 0.0, rejected).engine.targetVideoTime == 21.0 &&
      LoadedMetadata(ComputeTarget(p, v), v, 0.0, rejected).engine.currentVideoTime == 21.0
  {
    var v := Viewport(500.0, 0.0, 1100.0, 100.0);
    assert ScrollFraction(v) == 0.5;
  }

  // ----- runs of passes ----------------------------------------------------

  /** The inputs of one pass: its clock time, visibility and whether the
      element rejects a write. */
  datatype PassInput = PassInput(now: real, hidden: bool, rejected: bool)

  /** The page after a sequence of passes. */
  function Passes(p: PageState, ins: seq<PassInput>): PageState
    decreases |ins|
  {
    if |ins| == 0 then p
    else Passes(BatchPass(p, ins[0].now, ins[0].hidden, ins[0].rejected), ins[1..])
  }

  /** The page after a sequence of interval firings. A firing that finds
      the input idle clears the interval, so no later firing happens. */
  function Ticks(p: PageState, ins: seq<PassInput>): PageState
    decreases |ins|
  {
    if |ins| == 0 || !p.engine.isActiveBatch then p
    else Ticks(Tick(p, ins[0].now, ins[0].hidden, ins[0].rejected), ins[1..])
  }

  /** While no firing finds the input idle, the interval's firings are
      exactly a run of passes. */
  lemma {:induction false} TicksArePasses(p: PageState, ins: seq<PassInput>)
    requires p.engine.isActiveBatch
    requires forall i :: 0 <= i < |ins| ==> !IdleExpired(ins[i].now, p.engine.lastScrollTime)
    ensures Ticks(p, ins) == Passes(p, ins)
    decreases |ins|
  {
    if |ins| > 0 {
      var q := BatchPass(p, ins[0].now, ins[0].hidden, ins[0].rejected);
      TickPasses(p, ins[0].now, ins[0].hidden, ins[0].rejected);
      assert q.engine.lastScrollTime == p.engine.lastScrollTime;
      assert forall i :: 0 <= i < |ins| - 1 ==> ins[1..][i] == ins[i + 1];
      TicksArePasses(q, ins[1..]);
    }
  }

  /** The clock times of the passes of a run that act. */
  function EnabledNows(p: PageState, ins: seq<PassInput>): (ts: seq<real>)
    ensures |ts| <= |ins|
    ensures forall i :: 0 <= i < |ts| ==> exists j :: 0 <= j < |ins| && ts[i] == ins[j].now
    decreases |ins|
  {
    if |ins| == 0 then []
    else
      var rest := EnabledNows(BatchPass(p, ins[0].now, ins[0].hidden, ins[0].rejected), ins[1..]);
      assert forall i :: 0 <= i < |rest| ==> exists j :: 0 <= j < |ins| - 1 && rest[i] == ins[1..][j].now;
      if PassEnabled(p, ins[0].hidden) then [ins[0].now] + rest else rest
  }

  /** A run of passes with no input between them is the smoothing fold:
      the target and duration are held, and the current time is Smoothed
      once per acting pass. */
  lemma {:induction false} PassesSmooth(p: PageState, ins: seq<PassInput>)
    ensures var e := Passes(p, ins).engine;
      e.targetVideoTime == p.engine.targetVideoTime &&
      e.videoDuration == p.engine.videoDuration &&
      e.currentVideoTime == Smoothed(p.engine.currentVideoTime, p.engine.targetVideoTime,
                                     p.engine.videoDuration, |EnabledNows(p, ins)|)
    decreases |ins|
  {
    if |ins| > 0 {
      var q := BatchPass(p, ins[0].now, ins[0].hidden, ins[0].rejected);
      PassesSmooth(q, ins[1..]);
      if PassEnabled(p, ins[0].hidden) {
        assert q.engine.currentVideoTime == SmoothStep(p.engine.currentVideoTime, p.engine.targetVideoTime, p.engine.videoDuration);
      } else {
        assert q == p;
      }
    }
  }

  /** Convergence of the engine itself: once TicksToSnap passes have acted
      with no input in between, the current time is exactly the target. */
  lemma PassesConverge(p: PageState, ins: seq<PassInput>)
    requires Inv(p.engine)
    requires |EnabledNows(p, ins)| >= TicksToSnap(p.engine.currentVideoTime, p.engine.targetVideoTime)
    ensures Passes(p, ins).engine.currentVideoTime == p.engine.targetVideoTime
  {
    PassesSmooth(p, ins);
    Converges(p.engine.currentVideoTime, p.engine.targetVideoTime, p.engine.videoDuration, |EnabledNows(p, ins)|);
  }

  // ----- runs of input and interval firings -----------------------------

  /** One event the engine reacts to between metadata loads. */
  datatype Event =
    | Fire(i: PassInput)                 // a firing of the batch interval
    | Scroll(v: Viewport, i: PassInput)  // scroll, wheel or touchmove input
    | Hash(v: Viewport, i: PassInput)
    | Visibility(v: Viewport, i: PassInput)

  /** The page after one event. A cleared interval never fires, so a
      firing of an inactive engine changes nothing. */
  function Step(p: PageState, ev: Event): PageState
  {
    match ev
    case Fire(i) => if p.engine.isActiveBatch then Tick(p, i.now, i.hidden, i.rejected) else p
    case Scroll(v, i) => MarkScrollUpdated(p, v, i.now, i.hidden, i.rejected)
    case Hash(v, i) => HashChange(p, v, i.now, i.hidden, i.rejected)
    case Visibility(v, i) => VisibilityChange(p, v, i.now, i.hidden, i.rejected)
  }

  /** The page after a sequence of events. */
  function Run(p: PageState, evs: seq<Event>): PageState
    decreases |evs|
  {
    if |evs| == 0 then p else Run(Step(p, evs[0]), evs[1..])
  }

  /** The state markScrollUpdated hands to startBatchTimer's immediate
      pass, when the engine is not yet active. */
  function MarkPoint(p: PageState, v: Viewport, now: real): Option<PageState>
  {
    if p.video.None? || p.engine.isActiveBatch then None
    else
      var q := ComputeTarget(p, v);
      Some(q.(engine := q.engine.(lastScrollTime := now, isActiveBatch := true)))
  }

  /** The state on which the event runs its batch pass, if it runs one. */
  function PassPoint(p: PageState, ev: Event): Option<PageState>
  {
    match ev
    case Fire(i) =>
      if p.engine.isActiveBatch && !IdleExpired(i.now, p.engine.lastScrollTime) then Some(p) else None
    case Scroll(v, i) => MarkPoint(p, v, i.now)
    case Hash(v, i) => MarkPoint(ComputeTarget(p, v), v, i.now)
    case Visibility(v, i) =>
      if p.video.None? || i.hidden then None else MarkPoint(ComputeTarget(p, v), v, i.now)
  }

  /** Every event is at most one batch pass: on the state PassPoint names,
      which has the same media element and last-seek time as before the
      event; without a pass the element and the last-seek time stay. */
  lemma StepShape(p: PageState, ev: Event)
    ensures var pp := PassPoint(p, ev);
      var q := Step(p, ev);
      if pp.Some?
      then pp.value.video == p.video && pp.value.engine.lastSeekAt == p.engine.lastSeekAt &&
           q == BatchPass(pp.value, ev.i.now, ev.i.hidden, ev.i.rejected)
      else q.video == p.video && q.engine.lastSeekAt == p.engine.lastSeekAt
  {
    match ev
    case Fire(i) =>
    case Scroll(v, i) =>
    case Hash(v, i) =>
      assert HashChange(p, v, i.now, i.hidden, i.rejected) == MarkScrollUpdated(ComputeTarget(p, v), v, i.now, i.hidden, i.rejected);
    case Visibility(v, i) =>
  }

  /** Whether the event's batch pass acts. */
  predicate Acts(p: PageState, ev: Event)
  {
    PassPoint(p, ev).Some? && PassEnabled(PassPoint(p, ev).value, ev.i.hidden)
  }

  /** The clock times of the events of a run whose batch pass acts. */
  function ActingNows(p: PageState, evs: seq<Event>): (ts: seq<real>)
    ensures forall k :: 0 <= k < |ts| ==> exists j :: 0 <= j < |evs| && ts[k] == evs[j].i.now
    decreases |evs|
  {
    if |evs| == 0 then []
    else
      var rest := ActingNows(Step(p, evs[0]), evs[1..]);
      assert forall k :: 0 <= k < |rest| ==> exists j :: 0 <= j < |evs| - 1 && rest[k] == evs[1..][j].i.now;
      if Acts(p, evs[0]) then [evs[0].i.now] + rest else rest
  }

  /** Every batch pass of the run that acts takes the interpolation path. */
  predicate Interpolating(p: PageState, evs: seq<Event>)
    decreases |evs|
  {
    |evs| == 0 ||
    ((Acts(p, evs[0]) ==>
        !IsSnap(PassPoint(p, evs[0]).value.engine.currentVideoTime, PassPoint(p, evs[0]).value.engine.targetVideoTime)) &&
     Interpolating(Step(p, evs[0]), evs[1..]))
  }

  /** One acting interpolation pass appends a write at its clock time
      exactly when the throttle allows, and moves the last-seek time with it. */
  lemma InterpolationPassWrite(p: PageState, i: PassInput)
    requires PassEnabled(p, i.hidden)
    requires !IsSnap(p.engine.currentVideoTime, p.engine.targetVideoTime)
    ensures var q := BatchPass(p, i.now, i.hidden, i.rejected);
      q.video.Some? &&
      (if SeekDue(i.now, p.engine.lastSeekAt)
       then q.engine.lastSeekAt == i.now &&
            exists t :: q.video.value.writes == p.video.value.writes + [SeekWrite(t, i.now)]
       else q.engine.lastSeekAt == p.engine.lastSeekAt && q.video.value.writes == p.video.value.writes)
  {
    var q := BatchPass(p, i.now, i.hidden, i.rejected);
    if SeekDue(i.now, p.engine.lastSeekAt) {
      var t := SmoothStep(p.engine.currentVideoTime, p.engine.targetVideoTime, p.engine.videoDuration);
      assert q.video.value.writes == p.video.value.writes + [SeekWrite(t, i.now)];
    }
  }

  /** One event whose pass, if it acts, interpolates: a write at the
      event's clock time is appended, and the last-seek time moved to it,
      exactly when the pass acts and 40 ms have passed; otherwise neither
      the writes nor the last-seek time change. */
  lemma EventWrite(p: PageState, ev: Event)
    requires p.video.Some?
    requires Acts(p, ev) ==>
      !IsSnap(PassPoint(p, ev).value.engine.currentVideoTime, PassPoint(p, ev).value.engine.targetVideoTime)
    ensures var q := Step(p, ev);
      q.video.Some? &&
      (if Acts(p, ev) && SeekDue(ev.i.now, p.engine.lastSeekAt)
       then q.engine.lastSeekAt == ev.i.now &&
            exists t :: q.video.value.writes == p.video.value.writes + [SeekWrite(t, ev.i.now)]
       else q.engine.lastSeekAt == p.engine.lastSeekAt && q.video.value.writes == p.video.value.writes)
  {
    StepShape(p, ev);
    var pp := PassPoint(p, ev);
    if pp.Some? {
      if Acts(p, ev) {
        InterpolationPassWrite(pp.value, ev.i);
      } else {
        PassInert(pp.value, ev.i.now, ev.i.hidden, ev.i.rejected);
      }
    }
  }

  lemma {:induction false} ExtendPrefix(before: seq<SeekWrite>, w: SeekWrite, after: seq<SeekWrite>)
    requires |before| + 1 <= |after| && after[..|before| + 1] == before + [w]
    ensures after[..|before|] == before
    ensures Times(after[|before|..]) == [w.at] + Times(after[|before| + 1..])
  {
    assert after[..|before|] == (before + [w])[..|before|];
    var tail := after[|before|..];
    assert tail[0] == w;
    assert tail[1..] == after[|before| + 1..];
    assert Times(tail) == [w.at] + Times(tail[1..]);
  }

  /** In a run of scroll, hash-change and visibility input and interval
      firings where every acting pass interpolates, the media element keeps
      its earlier writes and gains writes at exactly the times the 40 ms
      throttle allows: ThrottledWrites of the starting last-seek time. */
  lemma {:induction false} InterpolatingRunThrottled(p: PageState, evs: seq<Event>)
    requires p.video.Some?
    requires Interpolating(p, evs)
    ensures Run(p, evs).video.Some?
    ensures var before := p.video.value.writes;
      var after := Run(p, evs).video.value.writes;
      |before| <= |after| && after[..|before|] == before &&
      Times(after[|before|..]) == ThrottledWrites(p.engine.lastSeekAt, ActingNows(p, evs))
    decreases |evs|
  {
    var before := p.video.value.writes;
    if |evs| == 0 {
      assert before[|before|..] == [];
    } else {
      var ev := evs[0];
      var q := Step(p, ev);
      EventWrite(p, ev);
      InterpolatingRunThrottled(q, evs[1..]);
      assert Run(p, evs) == Run(q, evs[1..]);
      var rest := ActingNows(q, evs[1..]);
      if Acts(p, ev) {
        assert ActingNows(p, evs) == [ev.i.now] + rest;
        var mid := q.video.value.writes;
        var after := Run(q, evs[1..]).video.value.writes;
        if SeekDue(ev.i.now, p.engine.lastSeekAt) {
          var t :| mid == before + [SeekWrite(t, ev.i.now)];
          ExtendPrefix(before, SeekWrite(t, ev.i.now), after);
        }
      }
    }
  }

  /** The rate limit of the engine itself: in such a run, when every event
      lies in the window [lo, hi], the writes it adds number at most
      (hi - lo) / 40 + 1. */
  lemma EngineWindowBound(p: PageState, evs: seq<Event>, lo: real, hi: real)
    requires p.video.Some?
    requires Interpolating(p, evs)
    requires forall j :: 0 <= j < |evs| ==> lo <= evs[j].i.now <= hi
    ensures Run(p, evs).video.Some?
    ensures SeekBatchMs * ((|Run(p, evs).video.value.writes| - |p.video.value.writes|) as real - 1.0) <= Max(hi - lo, 0.0)
  {
    InterpolatingRunThrottled(p, evs);
    var nows := ActingNows(p, evs);
    forall k | 0 <= k < |nows|
      ensures lo <= nows[k] <= hi
    {
      var j :| 0 <= j < |evs| && nows[k] == evs[j].i.now;
    }
    WindowBound(p.engine.lastSeekAt, nows, lo, hi);
  }
}

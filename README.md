# Scroll-scrubbed background video: a Dafny model

`script.js` makes a background video follow the page's scroll position.
Scroll input maps the scroll offset to a *target* media time. A batch
interval then moves a *current* media time toward that target, 45% of the
remaining distance per tick, and snaps onto it once within 6 ms. Each
interpolating tick writes that time to the video element only if 40 ms have
passed since the last snapping or interpolating write. The metadata
handler's write does not reset that clock. The snapping tick and the
metadata handler write without the check. The interval stops itself after 250 ms without
scroll input. When the video's metadata
arrives, the duration is capped at five minutes, or replaced by an
18-second fallback when it is unusable. The target is then re-mapped and the
current time reset onto it. A smaller routine, `highlightNav`, colours the
navigation link of the last section scrolled into view. A third, the mobile
menu, switches three `active` classes and the body's scroll lock together.

The project has these modules:

- `ScrollSync` (`scroll_sync.dfy`): the constants and the numeric rules. It
  covers the scroll fraction, the target time, the adopted duration, one
  smoothing step and the seek throttle. Its lemmas cover bounds, the 0.55
  contraction, convergence to a held target, and the rate limit.
- `EngineModel` (`engine_model.dfy`): the engine's module-level variables
  and the media element, as values. Each event handler is a transition
  function; the lemmas state what each transition guarantees.
- `ScrollEngine` (`engine.dfy`): the engine in its own imperative form. The
  module-level variables are fields of an `Engine` object and the video
  element is a `Media` object. Each handler is a method, proved to take
  `old(Page())` to the matching `EngineModel` transition while keeping the
  bounds invariant.
- `NavHighlight` (`nav_highlight.dfy`): the section scan and the link
  colouring, as two loops.
- `MobileMenu` (`mobile_menu.dfy`): the open, close, toggle and resize
  handlers of the menu.
- `Options` (`options.dfy`): an `Option` type for absent elements and
  attributes.

Quantities are exact reals: media time in seconds, clock time in
milliseconds. The clock (`performance.now()`), `document.hidden`, the scroll
measurements and whether a `currentTime` write throws are all parameters of
the handler that reads them.

Some of the code's behaviour is easy to misread:

- The target is `fraction × duration`, so at the bottom of the page it
  *equals* the duration. Only the interpolation path clamps to
  `duration − 0.001`, and the snap path can set the current time to the
  duration itself. The invariant is therefore `0 ≤ target, current ≤
  duration`.
- The 40 ms throttle applies only on the interpolation path. The snap path
  writes whenever the media position is more than 1 ms away from the
  target. The immediate pass of `startBatchTimer` is also not tied to the
  interval's cadence.
- The idle stop is measured from the last scroll input, not from the last
  seek.
- Every `loadedmetadata` event replaces the duration, not just the first.
  Any finite positive duration is accepted, however small.
- On the visibility and hash-change paths, `computeTargetFromScroll` runs
  twice, once directly and once inside `markScrollUpdated`. The model keeps
  both calls; the second finds the same target.

## Model

| member | source | states |
|---|---|---|
| `ScrollSync.ScrollPosition` | script.js:85 | the offset is `pageYOffset` unless that is zero, in which case it falls through to `scrollTop`; it is 0 exactly when both are |
| `ScrollSync.MaxScroll` | script.js:86 | the scrollable extent is at least 1 and at least scrollHeight − innerHeight, and is one of the two |
| `ScrollSync.ScrollFraction` | script.js:85-87 | the fraction lies in [0,1]; it is 0 at or above the top, 1 at or past the extent, and offset / extent in between |
| `ScrollSync.TargetTime` | script.js:83-89 | for a non-negative duration the target lies in [0, duration]; it is 0 at the top and equals the duration at the bottom |
| `ScrollSync.TargetProportional` | script.js:88 | for one scroll position the target is proportional to the duration, so a new duration rescales it by the same factor |
| `ScrollSync.EffectiveDuration` | script.js:184-189 | the adopted duration lies in (0, 300]; a finite positive reported value up to 300 is kept, a larger one becomes 300, anything else becomes the 18 s fallback |
| `ScrollSync.SmoothStep` | script.js:129-146 | for a target in [0, duration] the next current time also lies in [0, duration] |
| `ScrollSync.SnapReachesTarget` | script.js:132-133 | within 0.006 of the target, one tick lands exactly on it |
| `ScrollSync.ContractionInRange` | script.js:143-146 | with both times inside the clamp range, a tick that does not snap leaves exactly 0.55 of the distance and does not overshoot |
| `ScrollSync.DistanceShrinks` | script.js:143-146 | for any target in [0, duration] and any current time, a tick that does not snap leaves at most 0.55 of the distance, whatever the clamp does |
| `ScrollSync.StrictlyCloser` | script.js:129-146 | the distance to a target in [0, duration] strictly decreases on every tick until it is zero |
| `ScrollSync.SnapsWithin` | script.js:129-146 | with the target held, k ticks reach it exactly once the distance is at most 0.006 + 0.0027·(k − 1) |
| `ScrollSync.StaysAtTarget` | script.js:132-133 | once at the target, any number of further ticks leave the current time there |
| `ScrollSync.TicksToSnap` | script.js:129-146 | gives a tick count of at least 1 that satisfies the distance bound SnapsWithin needs |
| `ScrollSync.Converges` | script.js:129-146 | with the target held, every tick count from TicksToSnap on gives exactly the target: convergence, then a fixed point |
| `ScrollSync.ThrottledWrites` | script.js:148-156 | the writes of a run of interpolating ticks are at most as many as the ticks and happen at tick times; InterpolatingRunThrottled shows these are the engine's own write times |
| `ScrollSync.ThrottledWritesSpaced` | script.js:148-156 | each throttled write is at least 40 ms after the previous one; the first is at least 40 ms after the starting last-seek time |
| `ScrollSync.WindowBound` | script.js:148-156 | when all tick times lie in a window [lo, hi], the throttled writes number at most (hi − lo)/40 + 1 |
| `EngineModel.TicksArePasses` | script.js:105-113 | while no firing of the active interval finds the input more than 250 ms old, a sequence of firings is exactly the same sequence of passes |
| `EngineModel.PassesSmooth` | script.js:126-157 | a run of passes with no input in between holds the target and the duration, and leaves the current time at the smoothing fold taken once per acting pass |
| `EngineModel.PassesConverge` | script.js:126-157 | after TicksToSnap acting passes with no input in between, the engine's current time is exactly the target |
| `EngineModel.StepShape` | script.js:92-179 | every scroll, hash-change, visibility or interval event runs at most one batch pass. That pass sees the media element and the last-seek time as they were before the event; an event with no pass changes neither |
| `EngineModel.ActingNows` | script.js:92-179 | the clock times of a run's acting passes are clock times of its events |
| `EngineModel.InterpolationPassWrite` | script.js:148-156 | an acting pass that interpolates appends one write stamped with its clock time and sets the last-seek time to it exactly when 40 ms have passed; otherwise the writes and the last-seek time are unchanged |
| `EngineModel.EventWrite` | script.js:92-179 | an event whose acting pass interpolates appends one write at its clock time, and moves the last-seek time there, exactly when its pass acts and 40 ms have passed; otherwise neither changes |
| `EngineModel.InterpolatingRunThrottled` | script.js:92-179 | over any run of scroll, hash-change and visibility input and interval firings in which every acting pass interpolates, the earlier writes are kept. The clock times of the new writes are exactly ThrottledWrites of the starting last-seek time and the acting passes' times |
| `EngineModel.EngineWindowBound` | script.js:92-179 | in such a run with every event in a window [lo, hi], the engine adds at most (hi − lo)/40 + 1 writes |
| `EngineModel.ComputeTarget` | script.js:83-89 | re-mapping keeps the bounds invariant and leaves the media element alone |
| `EngineModel.BatchPass` | script.js:126-157 | a pass keeps the bounds invariant and never adds or removes the media element |
| `EngineModel.StartBatchTimer` | script.js:100-104 | starting keeps the bounds invariant |
| `EngineModel.StopBatchTimer` | script.js:118-123 | stopping keeps the bounds invariant and leaves the media element alone |
| `EngineModel.Tick` | script.js:106-114 | an interval tick keeps the bounds invariant |
| `EngineModel.MarkScrollUpdated` | script.js:92-97 | scroll input keeps the bounds invariant |
| `EngineModel.HashChange` | script.js:164-167 | a hash change keeps the bounds invariant |
| `EngineModel.VisibilityChange` | script.js:171-179 | a visibility change keeps the bounds invariant |
| `EngineModel.LoadedMetadata` | script.js:183-205 | after metadata, the bounds invariant holds whatever the state was before |
| `EngineModel.InitialValid` | script.js:73-80 | the initial variables satisfy the bounds invariant and the engine starts inactive |
| `EngineModel.TargetInRange` | script.js:83-89 | re-mapping changes only the target, and puts it in [0, duration] |
| `EngineModel.PassInert` | script.js:127 | with no video, a ready state below 2, or a hidden page, a pass changes no state and writes no seek |
| `EngineModel.PassSnaps` | script.js:131-140 | on the snap path the current time becomes the target; a seek is written and the last-seek time becomes now exactly when the media is more than 0.001 away |
| `EngineModel.PassInterpolates` | script.js:142-156 | on the interpolation path the current time moves by one smoothing step; a seek is written and the last-seek time becomes now (even if the write is rejected) exactly when 40 ms have passed; otherwise neither the last-seek time nor the media changes |
| `EngineModel.PassCloser` | script.js:129-146 | a pass keeps the target and strictly shrinks a non-zero distance to it |
| `EngineModel.StartIdempotent` | script.js:100-104 | starting an active engine does nothing, a start with a video leaves the engine active, and starting twice equals starting once |
| `EngineModel.StopIdempotent` | script.js:118-123 | stopping an inactive engine does nothing, stopping only clears the active flag, and stopping twice equals stopping once |
| `EngineModel.MarkActivates` | script.js:92-97 | scroll input refreshes the target and the last scroll time and leaves the engine active |
| `EngineModel.NoVideoNoOp` | script.js:84-101 | without a video element, the scroll, hash, visibility, pass and start handlers change nothing |
| `EngineModel.TickIdleStops` | script.js:107-112 | a tick more than 250 ms after the last scroll input only deactivates the engine, with no pass |
| `EngineModel.TickPasses` | script.js:109-113 | a tick within 250 ms of the last input is exactly one pass and keeps the engine active |
| `EngineModel.HiddenNoWrites` | script.js:127 | while the page is hidden, scroll, hash-change and tick handlers write no seek, and a visibility change to hidden only stops the engine |
| `EngineModel.VisibleResumes` | script.js:171-179 | becoming visible re-maps the target, sets the last scroll time and leaves the engine active |
| `EngineModel.MetadataResyncs` | script.js:183-205 | on metadata the duration becomes the capped or fallback value and the current time equals the re-mapped target. One seek to it is recorded, stamped with the handler's time; the activity flag and both clocks are unchanged |
| `EngineModel.MetadataScenario` | script.js:183-193 | half-way down the page, the target is 9 s under the fallback and 21 s after metadata reports 42 s |
| `ScrollEngine.Media.SetCurrentTime` | script.js:151-154 | the guarded `currentTime` assignment appends the value and its clock time to the log, and moves the position unless the write is rejected |
| `ScrollEngine.Engine.constructor` | script.js:73-80 | the engine starts from the initial variables (18 s, zero times, inactive) |
| `ScrollEngine.Engine.ComputeTargetFromScroll` | script.js:83-89 | the new page state is ComputeTarget of the old one; it keeps a valid state valid |
| `ScrollEngine.Engine.MarkScrollUpdated` | script.js:92-97 | the new page state is MarkScrollUpdated of the old one, with the invariant kept |
| `ScrollEngine.Engine.StartBatchTimer` | script.js:100-104 | the new page state is StartBatchTimer of the old one, with the invariant kept |
| `ScrollEngine.Engine.IntervalTick` | script.js:106-114 | a firing of the active interval has the effect Tick describes |
| `ScrollEngine.Engine.StopBatchTimer` | script.js:118-123 | the new page state is StopBatchTimer of the old one |
| `ScrollEngine.Engine.PerformBatchPass` | script.js:126-157 | the new page state, media element included, is BatchPass of the old one |
| `ScrollEngine.Engine.OnHashChange` | script.js:164-167 | the new page state is HashChange of the old one |
| `ScrollEngine.Engine.OnVisibilityChange` | script.js:171-179 | the new page state is VisibilityChange of the old one |
| `ScrollEngine.Engine.OnLoadedMetadata` | script.js:183-205 | the new page state is LoadedMetadata of the old one, and valid |
| `NavHighlight.ChosenId` | script.js:221-228 | the chosen id is the initial empty string or the id of one of the sections |
| `NavHighlight.ChosenIsLastReached` | script.js:222-228 | the chosen id is that of the last section, in document order, with pageYOffset ≥ offsetTop − 200 |
| `NavHighlight.ChosenWhenNoneReached` | script.js:221-228 | when no section is reached the chosen id stays the empty string |
| `NavHighlight.ActiveSectionId` | script.js:221-228 | the section scan loop returns ChosenId |
| `NavHighlight.ColorLinks` | script.js:230-235 | each link ends gold when its href without its first character equals the chosen id, and white otherwise |
| `NavHighlight.HighlightNav` | script.js:220-236 | each link's final colour is gold exactly when its fragment is ChosenId of the sections |
| `NavHighlight.GoldIffLastReached` | script.js:220-236 | a link is gold exactly when its fragment equals the id of the last reached section |
| `NavHighlight.NoneReached` | script.js:221-235 | with no section reached, exactly the links whose href has at most one character are gold |
| `NavHighlight.OnlyOneGold` | script.js:230-235 | when the links' fragments are distinct and one link is gold, every other link is white |
| `MobileMenu.Menu.Open` | script.js:28-34 | with all three elements present, opening sets the three classes and the scroll lock; otherwise nothing changes |
| `MobileMenu.Menu.Close` | script.js:35-41 | with all three elements present, closing clears the three classes and the scroll lock; otherwise nothing changes |
| `MobileMenu.Menu.Toggle` | script.js:42-46 | with all elements present, toggling flips the menu; the classes and the lock stay in step |
| `MobileMenu.Menu.Resize` | script.js:52-56 | a resize wider than 768 px closes an open menu; a narrower one, or any resize with an element missing, changes nothing |

## Left out

- Event-listener registration, `setInterval`/`clearInterval` and `performance.now()`: the interval is the `IntervalTick` method, called only while active, and clock time is a parameter.
- Separate clock reads within one handler: the code reads the clock in `markScrollUpdated` (script.js:95) or the interval (script.js:107), again in the interpolation path (script.js:148) and again after a snap write (script.js:137). The model uses one `now` for all of them. It therefore misses runs where time moves between reads. In one, the interval's reading is within 250 ms of the last input but the pass's later reading is past it. In another, the pass's own reading reaches the 40 ms mark when the handler's reading did not, so the code writes where the model does not. The metadata handler reads no clock; its `now` only timestamps its write.
- The media element's own behaviour: playback moving `currentTime`, the browser adjusting a written value, `play()` and the `muted`/`playsInline`/`preload` hints (script.js:196-201). `EngineModel.Write` is the definition of a write, not a modelled operation. A write is always logged with its value and clock time. It either takes effect exactly or is rejected, and a rejected write leaves the position as it was. `Media`'s public fields may be changed between calls to stand for playback.
- The self-dispatched `loadedmetadata` event when the video is already loaded (script.js:208-211). It only calls the same handler, `OnLoadedMetadata`.
- Floating-point rounding in `Math.min`, `Math.max`, `Math.abs`, the division and the multiplications: all arithmetic is exact.
- `typeof video.duration === 'number' && isFinite(...)` is folded into `ReportedDuration`: a reported duration is either a finite number or `NotFinite`.
- The scroll offset chain `pageYOffset || scrollTop || 0` takes real inputs, so the NaN and `undefined` cases that reach the final `0` are not represented.
- Smooth anchor scrolling (script.js:6-19): `scrollIntoView` is a DOM call with nothing to prove.
- `highlightNav` assumes every nav link has an `href`. A missing one would throw at `getAttribute('href').slice(1)`, which the model does not represent. `sectionHeight` is read but never used.
- `ScrollSync.WindowBound` and `EngineModel.EngineWindowBound`: bound only the writes of interpolating passes, because the snap path (script.js:135-138) and the metadata handler (script.js:204) write without consulting the 40 ms throttle.
- `EngineModel.InterpolatingRunThrottled` and `EngineModel.EngineWindowBound`: their runs hold scroll, hash-change and visibility input and interval firings, but no `loadedmetadata` event. That write is not throttled and does not move the last-seek time.

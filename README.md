# A model of the `timeline` virtual-clock scheduler

`timeline` drives animations and timers from a virtual clock. A **track** is
a timed interval with a lifecycle (`onInit`, `onStart`, `onUpdate(time,
percent)`, `onEnd`). A **track group** is the ordered list of tracks a
timeline owns. A **timeline** keeps `currentTime = now - referenceTime`. On
every animation frame it advances that clock and ticks its tracks. The clock
step is capped by an FPS limit and clamped to `maxStep`, and the timeline
either loops or stops at its `duration`. It also emulates
`setTimeout`/`setInterval` with tracks. The clock reads
`getTimeNow`, a monotonic accumulator over a raw time source that may go
backwards.

The package also exports an older **legacy timeline** (`src/Timeline.js`)
with its own embedded track. It ticks its tracks from last to first, fires
end callbacks in reverse order and removes dead tracks with a backward
splice. Two subclasses of it synchronise timelines across message ports:

- An **origin** sends every paired **shadow** its clock on each tick.
- At most one tick is in flight per shadow.
- Ticks arriving meanwhile wait in a queue of at most two, which drops the
  oldest entry.
- A shadow adopts the clock, takes one single step at that time and answers
  `done`.

The Dafny project has one module per part:

| module | file | models |
|---|---|---|
| `Base` | base.dfy | JavaScript numbers with `+Infinity` (`Ext`), loosely typed ids (`Key`) and their truthiness, `900 / maxFPS`, the decimal spelling of timer ids |
| `MonotonicClock` | clock.dfy | `src/getTimeNow.ts` |
| `TrackStates` | track_states.dfy | `assertStates` of `src/utils.ts` |
| `TrackLifecycle` | track_lifecycle.dfy | `track.tick(time)` of `src/Track.ts` as a function of timing, flags and time, and its properties |
| `Tracks` | tracks.dfy | the `Track` and `TrackGroup` classes of `src/Track.ts` and `src/TrackGroup.ts` |
| `Timelines` | timeline.dfy | the `Timeline` class of `src/Timeline.ts` |
| `LegacyTracks` | legacy_track.dfy | the `Track` embedded in `src/Timeline.js` |
| `LegacyTimelines` | legacy_timeline.dfy | the `Timeline` class of `src/Timeline.js` |
| `Sync` | sync.dfy | `src/OriginTimeline.js` and `src/ShadowTimeline.js` |

How the environment is represented:

- **Clock reads.** Every read of the clock is a `real` parameter: `now` for
  a frame. In both timelines `play` and `resume` take the reading they
  rebase the clock on (`now`) and the one their first frame makes
  (`later`). The extra reads a frame makes inside `seek` are given the
  frame's own reading (see "Left out").
- **Frames.** A requested animation frame is a field: `Frame` in the typed
  timeline, `frameRequested` in the legacy one. Running the requested frame
  is a method (`Timelines.Timeline.Frame`, `LegacyTimelines.LegacyTimeline.Frame`)
  that uses the request up before it ticks.
- **Callbacks.** User callbacks are not values. A tick returns the sequence
  of callback invocations (`Event`s) it makes. An exception thrown by a
  callback is modelled by a set `faulty` of tracks whose callbacks throw in
  a tick; a frame takes one such set per tick it makes (`faulty[j]` for its
  `j`-th tick, none past the end), so the two ticks of a loop restart can
  fail differently.
- **Ports.** A message port is the sequence of messages posted to it.

Behaviour of the code that is easy to miss, which the model follows:

- **Expired typed tracks are not killed.** A non-looping typed track that
  plays past its end becomes expired (`started && !running`), but
  `src/Track.ts` never sets `alive = false` for it. `release` removes it
  because it is expired.
- **`onInit` fires on the first tick.** A track ticked before its window
  still fires `onInit` on that first tick (`TrackLifecycle.Scenario500To1000`).
- **Five ticks before the first `done`.** The shadow receives ticks 1, 4 and
  5: the first is sent at once, and the queue keeps the two most recent.
- **`onError`'s result is ignored.** Its return value is never looked at:
  after `onError` the timeline simply carries on.

## Model

| member | source | states |
|---|---|---|
| Base.MinFrametime | src/Timeline.ts:266 | the shortest frame the FPS cap lets through is `900 / maxFPS`: 0 without a cap, and its product with a positive finite cap is 900 |
| MonotonicClock.Step | src/getTimeNow.ts:91-104 | the raw sample always replaces the previous one; a non-negative raw delta is added exactly; a negative one leaves the accumulator alone and counts one regression |
| MonotonicClock.StepMonotone | src/getTimeNow.ts:97-102 | one call never lowers the returned time nor the regression count |
| MonotonicClock.OutputsNonDecreasing | src/getTimeNow.ts:91-104 | over any sequence of raw samples the returned values never decrease and never fall below the starting accumulator |
| MonotonicClock.RunMonotone | src/getTimeNow.ts:97-102 | after any sequence of samples the accumulator and the regression count are at least what they were |
| MonotonicClock.RunFromInitial | src/getTimeNow.ts:43-56 | from the load-time state every returned value is non-negative |
| MonotonicClock.ResumesFromRegressedSample | src/getTimeNow.ts:92-102 | after a regression the clock advances from the regressed sample, not from the older higher one, and the regression is counted once |
| MonotonicClock.Clock.constructor | src/getTimeNow.ts:86-89 | the accumulator starts at 0 with no regressions and the first raw sample remembered |
| MonotonicClock.Clock.Now | src/getTimeNow.ts:91-104 | one `getTimeNow()` call updates the module state as `Step` says and returns a value not below the previous one |
| TrackStates.AssertStates | src/utils.ts:37-53 | passes exactly when the track is alive, `inited` and `started` match and `running` matches when supplied; a dead track always fails on `alive`; any other failure names a flag with its actual value |
| TrackStates.DeadAlwaysFails | src/utils.ts:38-40 | a dead track fails whatever the other arguments |
| TrackStates.RunningOnlyWhenGiven | src/utils.ts:50-52 | without the `running` argument the verdict does not depend on `running` |
| TrackLifecycle.Tick | src/Track.ts:327-432 | one tick of a track at `time`, as new flags and the callbacks fired in order, zone by zone (loop cycle, before the start, past the end, inside the window); it never revives or kills a track, a dead track fires nothing, and a live one ends initialised, firing `onInit` first if it was not |
| TrackLifecycle.TickKeepsCoherent | src/Track.ts:327-432 | every tick keeps `running ==> started`, keeps an uninitialised track idle, keeps a loop track from sitting ended, never changes `alive`, and leaves a live track initialised |
| TrackLifecycle.DeadTrackIgnoresTick | src/Track.ts:327-328 | a dead track changes no flag and fires nothing |
| TrackLifecycle.InitOnlyWhenUninitedOrReset | src/Track.ts:310-338 | `onInit` fires exactly when the track was not initialised or a started track is reset, and for an uninitialised track it fires first and once |
| TrackLifecycle.NonLoopPastEnd | src/Track.ts:390-405 | a non-loop tick at or past the end always leaves the track expired: a never-started track fires start, update(end, 1), end; a running one fires update(end, 1), end; an expired one fires nothing |
| TrackLifecycle.NonLoopInWindow | src/Track.ts:406-429 | a non-loop tick inside the window leaves the track running: first entry fires start then update, a running track only updates, an ended track is reset (init) and started again |
| TrackLifecycle.BackwardJumpResets | src/Track.ts:310-323 | jumping back before the start fires update(end, 1) and end only if running, then re-fires init, and leaves the track initialised, not started, not running |
| TrackLifecycle.PercentIsElapsedFraction | src/Track.ts:434-441 | the percent is `(t - startTime) / duration`, in `[0, 1)` inside the window; easing applies to the percent only |
| TrackLifecycle.LocalTimeInWindow | src/Track.ts:344-350 | the local time of a loop track lies in `[startTime, endTime)` and its percent in `[0, 1)` |
| TrackLifecycle.LoopCycles | src/Track.ts:355-376 | a started loop track in the same cycle only updates; a changed cycle fires exactly one end, one start and one update however many cycles were skipped; `iteration` becomes the cycle |
| TrackLifecycle.IterationIsCycle | src/Track.ts:376 | after any tick of a live loop track, `iteration` is the cycle of the tick's time |
| TrackLifecycle.CycleAdvancesByOne | src/Track.ts:344 | one duration later the cycle is one higher |
| TrackLifecycle.OneDurationOneCycle | src/Track.ts:295-304 | a loop track ticked one duration after its last tick moves to the next iteration and fires end, start, update |
| TrackLifecycle.Scenario500To1000 | src/Track.ts:327-432 | a track spanning [500, 1000) ticked at 0, 500, 750 and 1200 fires init; start, update(500, 0); update(750, 0.5); update(1000, 1), end; and is then expired |
| Tracks.ResolveTiming | src/Track.ts:156-182 | a negative start is refused; a given end wins over a given duration; with neither the duration and the end are Infinity; an end before the start is refused; an accepted timing has `endTime == startTime + duration` |
| Tracks.Track.constructor | src/Track.ts:128-183 | a new track has the resolved timing, the options' id, loop and easing, is alive but not initialised, started or running, and has no parent |
| Tracks.Track.SetStartTime | src/Track.ts:191-199 | refused on a started track, which keeps its start; otherwise the start is stored and the end follows it, and a negative start is reported after storing it |
| Tracks.Track.SetEndTime | src/Track.ts:207-216 | refused on a started track; otherwise the end is stored and the duration follows it, and an end before the start is reported after storing it |
| Tracks.Track.SetDuration | src/Track.ts:224-233 | refused on a started track; otherwise the duration is stored and the end follows it, and a negative duration is reported after storing it |
| Tracks.Track.Initialize | src/Track.ts:240-245 | from the state its check demands, fires `onInit` and leaves the track initialised |
| Tracks.Track.StartAt | src/Track.ts:250-259 | leaves the track started and running, firing start then the update at the given time with its percent |
| Tracks.Track.EndAt | src/Track.ts:264-272 | fires update(end, 1) then end and leaves the track not running |
| Tracks.Track.StartAndEnd | src/Track.ts:277-289 | fires start, update(end, 1), end and leaves the track started but not running |
| Tracks.Track.ChangeCycle | src/Track.ts:295-304 | fires end, start and the update at the local time |
| Tracks.Track.Reset | src/Track.ts:310-323 | fires update(end, 1), end only if running, then init, and leaves the track initialised, not started, not running |
| Tracks.Track.Tick | src/Track.ts:327-432 | the track's new flags and the callbacks fired are exactly those of `TrackLifecycle.Tick`, with every state check of the private actions passing |
| Tracks.SurvivorsMembers | src/TrackGroup.ts:31-33 | `release` keeps only tracks of the group that are alive and not expired, and every such track |
| Tracks.SurvivorsDistribute | src/TrackGroup.ts:31-33 | the release filter commutes with concatenation, so survivors keep their relative order |
| Tracks.WithoutMembers | src/TrackGroup.ts:89-95 | `remove(x)` keeps only tracks other than `x`, and every one of them |
| Tracks.WithoutDistributes | src/TrackGroup.ts:89-95 | removal commutes with concatenation, so the other tracks keep their order |
| Tracks.WithIdMembers | src/TrackGroup.ts:67-75 | the tracks found for an id are tracks of the group with that id, and every such track is found |
| Tracks.WithoutKeepsDistinct | src/TrackGroup.ts:89-95 | removal never introduces duplicates |
| Tracks.SurvivorsKeepDistinct | src/TrackGroup.ts:31-33 | release never introduces duplicates |
| Tracks.TrackGroup.constructor | src/TrackGroup.ts:16 | a group starts empty |
| Tracks.TrackGroup.Release | src/TrackGroup.ts:31-33 | the tracks become the survivors of the old tracks, and the group stays duplicate-free with every member parented to it |
| Tracks.TrackGroup.AddTrack | src/TrackGroup.ts:40-52 | the same track is returned, now parented here and last in the group, with its earlier occurrences gone; its previous group lost it and stays valid |
| Tracks.TrackGroup.Adopt | src/TrackGroup.ts:49-51 | a track not in the group becomes its last member and names it as parent |
| Tracks.TrackGroup.Add | src/TrackGroup.ts:53-59 | options that resolve give a fresh track with that timing, id, loop and easing, parented here and appended last; options that do not resolve return the constructor's error and add nothing |
| Tracks.TrackGroup.GetTracksByID | src/TrackGroup.ts:67-75 | returns exactly the group's tracks with the id, in group order |
| Tracks.TrackGroup.StopTrack | src/TrackGroup.ts:82-84 | only the track's `alive` flag changes, to false; the group is not touched |
| Tracks.TrackGroup.Remove | src/TrackGroup.ts:89-95 | every occurrence of the track is deleted and the rest keep their order |
| Tracks.TrackGroup.RemoveAll | src/TrackGroup.ts:100-105 | the group is empty |
| Timelines.ResolveConfig | src/Timeline.ts:233-263 | defaults are overlaid by the options; `autoDispose`, else `autoRecevery`, else `autoRelease` decides auto-release; a looping timeline never auto-releases |
| Timelines.ModInWindow | src/Timeline.ts:348 | the wrapped loop time `currentTime % duration` lies in `[0, duration)` |
| Timelines.Clamp | src/Timeline.ts:313-321 | a frame advances the clock by at most `maxStep`, never beyond natural time, and exactly to natural time within the bound |
| Timelines.Ticks | src/Timeline.ts:323-366 | below the duration one tick at the clock; at or past it a non-loop timeline ticks once at the duration and stops playing, a looping one ticks twice and keeps playing |
| Timelines.PlanFrame | src/Timeline.ts:285-366 | a non-first frame shorter than `minFrametime` is skipped; any other frame ticks at the clamped clock reading, within `maxStep` of the previous time |
| Timelines.LoopFrameWraps | src/Timeline.ts:340-354 | a looping timeline at its duration ticks once before 0, then once at a time in `[0, duration)`, and keeps playing |
| Timelines.PlayRestartsClock | src/Timeline.ts:416-426 | the first frame of `play` ticks once, at the gap between the rebasing reading and the frame's reading: at 0 when no time passed between them |
| Timelines.ResumeKeepsPosition | src/Timeline.ts:462-472 | the first frame after `resume` ticks at the paused position plus the gap between the seek's reading and the frame's reading, whatever time passed since the pause |
| Timelines.ErrorFate | src/Timeline.ts:392-407 | a thrown error is swallowed with `ignoreErrors`, else reported to `onError`, else rethrown, and these three cases are exclusive |
| Timelines.FirstFault | src/Timeline.ts:376-382 | the pass stops at the first track whose tick throws: no earlier track throws, and that one does |
| Timelines.TimeoutKeysDistinct | src/Timeline.ts:487-489 | distinct timer ids name distinct tracks |
| Timelines.Timeline.constructor | src/Timeline.ts:233-280 | the timeline has the resolved configuration and an empty group, its clock reads 0 with reference `now`, and it is not playing |
| Timelines.Timeline.Seek | src/Timeline.ts:433-438 | the clock reads `time` and `now - referenceTime == currentTime` afterwards |
| Timelines.Timeline.Stop | src/Timeline.ts:443-447 | not playing and no pending frame |
| Timelines.Timeline.Pause | src/Timeline.ts:452-457 | not playing, no pending frame, the position recorded |
| Timelines.Timeline.TickTracks | src/Timeline.ts:379-382 | every track before the first whose tick throws takes exactly its lifecycle step, in group order, and every track after it keeps its flags; the throwing track fired at least its first callback and at most all of them; the callbacks fired are those of the ticks made; no timing changes |
| Timelines.Timeline.TickSnapshot | src/Timeline.ts:379-382 | the loop against snapshots of the flags, timings and steps taken before it: the pass is `Passed`, and every track stays coherent |
| Timelines.Timeline.TickNext | src/Timeline.ts:381 | one turn of the loop: the track takes the step recorded for it and fires its events, and no other track changes |
| Timelines.Timeline.TickInOrder | src/Timeline.ts:380-382 | the loop ticks the first `n` tracks, stopping early only right after a tick that throws |
| Timelines.Timeline.Tick | src/Timeline.ts:374-410 | the pass from the tracks as they stood is `TickedAt` the clock; then without error the tracks are released if `autoRelease`; with an error the policy decides, a rethrow stopping the timeline and no track being released; no timing changes |
| Timelines.Timeline.Settle | src/Timeline.ts:384-407 | after a clean pass `release` runs if `autoRelease`; after a failed pass the error policy runs and only a rethrow stops |
| Timelines.Timeline.FrameTick | src/Timeline.ts:374-410 | a tick in a frame: its pass is from the tracks as they stood, the tracks end as the pass left them (released or not), and only a rethrown error changes `playing` and the pending frame, to stopped and none |
| Timelines.Timeline.SeekTick | src/Timeline.ts:344-359 | `seek(time)` then `tick()`: the clock reads `time` with reference `now - time`, and the tick is as `FrameTick` states, requesting the next frame first when asked |
| Timelines.Timeline.Advance | src/Timeline.ts:313-321 | the clock moves to the clamped reading and `now - referenceTime == currentTime` |
| Timelines.Timeline.Finish | src/Timeline.ts:323-366 | the ticks of a frame are `Performed` as `Ticks` plans them: a final tick at the duration that stops playing, a loop restart, or one tick and the next frame |
| Timelines.Timeline.FinalTick | src/Timeline.ts:355-360 | a non-looping timeline at its duration stops playing and ticks once at the duration, leaving the pending frame alone |
| Timelines.Timeline.Continue | src/Timeline.ts:362-365 | a frame before the duration ticks once at the clock and schedules the next frame unless the error propagated |
| Timelines.Timeline.Restart | src/Timeline.ts:340-354 | the loop restart is `Performed` as `Ticks` plans it: a tick just before 0, then, unless that one rethrew, a tick at the clock modulo the duration and the next frame |
| Timelines.Timeline.Reset | src/Timeline.ts:343-351 | the tick at `-EPSILON` from the tracks as they stood, with the throwing tracks `faulty[0]`; a rethrow there ends the frame with one tick, otherwise `Wrap` follows |
| Timelines.Timeline.Wrap | src/Timeline.ts:347-351 | the second tick of a restart runs from what the first left, at the wrapped time, with its own throwing tracks `faulty[1]`, and the frame ends playing with the next frame scheduled unless it rethrew |
| Timelines.Timeline.TickAndSchedule | src/Timeline.ts:362-365 | the tick is as `FrameTick` states, and the next frame is scheduled with `now` as its previous time unless the error propagated and stopped the timeline |
| Timelines.Timeline.AutoTick | src/Timeline.ts:285-367 | a frame the FPS cap skips reschedules itself with the same previous time and changes nothing else; any other frame is `Performed` as `PlanFrame` plans it, from the tracks as they stood, its own frame used up |
| Timelines.Timeline.Frame | src/Timeline.ts:313-366 | a frame the cap lets through uses up the pending frame, moves the clock to the clamped reading and is `Performed` as `Ticks` plans for that reading |
| Timelines.Timeline.Play | src/Timeline.ts:416-426 | the first frame, read at `later`, is `Performed` as `PlanFrame` plans it for a clock rebased on `now` with no previous frame time, from the tracks as they stood, and the timeline plays unless a tick rethrew or the final tick stopped it |
| Timelines.Timeline.Resume | src/Timeline.ts:462-472 | the position is recorded; the first frame, read at `later`, is `Performed` as `PlanFrame` plans it for the clock seeked back to that position at `now`, from the tracks as they stood, and the timeline plays unless a tick rethrew or the final tick stopped it |
| Timelines.Timeline.Unpause | src/Timeline.ts:468-471 | after `pause`: the seek back to the recorded position, playing, and a first frame `Performed` as planned |
| Timelines.Timeline.Add | src/TrackGroup.ts:43-59 | a track built from options is appended last to the timeline's tracks; refused options add nothing |
| Timelines.Timeline.SetTimeout | src/Timeline.ts:485-496 | the id is the next timer id; a non-loop track `'__timeout__' + id` lasting 1000 starts the delay (default 10, negative read as 0) after the clock and goes last |
| Timelines.Timeline.SetInterval | src/Timeline.ts:509-520 | the id is the next timer id; a looping track `'__timeout__' + id` of period `delay` starts `delay` after the clock and goes last |
| Timelines.Timeline.AddTimer | src/Timeline.ts:487-494 | ids strictly increase; a track with the timer's key and the given timing is appended, or nothing is added when its start is negative |
| Timelines.Timeline.ClearTimeout | src/Timeline.ts:531-549 | only the first track with the timer's key is killed, if any; no other flag, timing or parent changes |
| Timelines.Timeline.Kill | src/Timeline.ts:533-535 | one track of the timeline dies and nothing else changes |
| Timelines.Timeline.UpdateMaxFPS | src/Timeline.ts:554-558 | a non-positive rate is refused and changes nothing; otherwise the cap and `minFrametime = 900 / maxFPS` are updated |
| Timelines.Timeline.Dispose | src/Timeline.ts:564-583 | not playing, no pending frame, no tracks |
| LegacyTracks.LegacyTiming | src/Timeline.js:97-118 | a truthy end decides the duration, a truthy duration the end, neither gives Infinity; a negative start or an end not after the start is refused |
| LegacyTracks.ResolvedIsSpaced | src/Timeline.js:116-118 | every accepted timing has a positive duration, finite when the end is |
| LegacyTracks.Clip | src/Timeline.js:221-233 | a start of 0 becomes 0.5; a start at or past the timeline's end becomes end - 1; an end at or past it becomes end - 0.5 with duration end - start |
| LegacyTracks.ClipKeepsSpaced | src/Timeline.js:221-233 | clipping keeps the duration positive and puts the start before a finite timeline end |
| LegacyTracks.ClipKeepsProgressBelowOne | src/Timeline.js:228-232 | a track cut at the timeline's end reports progress below 1 at its new end |
| LegacyTracks.JsRem | src/Timeline.js:160 | JavaScript `%` on a positive divisor: the remainder has the sign of the dividend and is within one divisor of 0 |
| LegacyTracks.LegacyTick | src/Timeline.js:152-218 | one tick of a legacy track at `time`, as new flags and the callbacks fired in order: a new loop cycle, then before the start, past the end or inside the window on the folded time; what it keeps and when it kills a track are the lemmas below |
| LegacyTracks.StepKeepsRunsStarted | src/Timeline.js:152-218 | every tick keeps `running ==> started`; a dead track ignores it; only a finished, non-running track dies, silently |
| LegacyTracks.LoopNewCycle | src/Timeline.js:157-168 | a loop track past its end in a new cycle fires start, update, end once each at a folded time within one period of the start, and records the cycle |
| LegacyTracks.PastEndOutcomes | src/Timeline.js:184-205 | past its end a running track fires update(time, 1) and end; a never-started one plays whole at once; a finished one dies; none is left running |
| LegacyTracks.InsideWindow | src/Timeline.js:206-217 | inside the window a new run fires start then update at the elapsed fraction and clears `inited`; a running track only updates |
| LegacyTracks.BeforeStart | src/Timeline.js:170-183 | before the start a running track is finished with update(time, 1) and end, and an uninitialised one fires init and forgets it started |
| LegacyTracks.LegacyTrack.constructor | src/Timeline.js:82-128 | the track has the accepted timing, an absent id becomes `''`, and it starts alive, inited, not started or running, in loop 0 |
| LegacyTracks.LegacyTrack.SafeClip | src/Timeline.js:221-233 | the timing becomes its clip against the timeline's duration |
| LegacyTracks.LegacyTrack.Tick | src/Timeline.js:152-218 | the track's new flags and callbacks are exactly those of `LegacyTick` |
| LegacyTimelines.Target | src/Timeline.js:327-341 | an explicit time is taken as is; otherwise the clock moves to the elapsed time, at most `maxStep` past the current time |
| LegacyTimelines.BackwardLastFirst | src/Timeline.js:362-364 | the track added last is ticked first: its events open the pass |
| LegacyTimelines.SurvivorsMembers | src/Timeline.js:418-425 | `recovery` keeps only live tracks, and every live track |
| LegacyTimelines.WithIdMembers | src/Timeline.js:466-474 | the tracks found for an id carry that id and every such track is found |
| LegacyTimelines.LegacyTimeline.constructor | src/Timeline.js:261-311 | the configuration, duration and loop come from the options, `minFrame = 900 / maxFPS`, no tracks or end callbacks, clock 0 with reference `now`, not running |
| LegacyTimelines.LegacyTimeline.OnEnd | src/Timeline.js:314-315 | the setter appends the callback |
| LegacyTimelines.LegacyTimeline.Seek | src/Timeline.js:387-391 | the clock reads `time`; an ordinary timeline also rebases the reference, a shadow keeps it |
| LegacyTimelines.LegacyTimeline.Stop | src/Timeline.js:394-398 | not running, no frame requested |
| LegacyTimelines.LegacyTimeline.Destroy | src/Timeline.js:457-459 | not running, no frame requested |
| LegacyTimelines.LegacyTimeline.Pause | src/Timeline.js:401-406 | not running, no frame requested, the position recorded |
| LegacyTimelines.LegacyTimeline.Advance | src/Timeline.js:327-341 | a frame shorter than `minFrame` only requests the next frame; otherwise the clock moves to `Target` and the previous clock is remembered |
| LegacyTimelines.LegacyTimeline.Tick | src/Timeline.js:325-375 | skipped exactly when the FPS cap applies; otherwise it `Went`: every track takes its step at the final clock, last track first, after end callbacks fired backwards if running past the duration; loop seeks to 0, non-loop stops after one last pass; recovery, then a single step stops and any other tick requests a frame |
| LegacyTimelines.LegacyTimeline.Frame | src/Timeline.js:325-375 | the frame requested by `raf` (:330, :373) runs `tick()` at the reading `now`: skipped exactly when the FPS cap applies, and then a frame is requested again; otherwise it `Went` from a timeline with no frame pending, so a frame is requested again exactly when this was not the final pass of a non-looping timeline |
| LegacyTimelines.LegacyTimeline.Process | src/Timeline.js:342-375 | the end check, the pass and what follows, as `Processed` states |
| LegacyTimelines.LegacyTimeline.EndCheck | src/Timeline.js:342-360 | past the duration, end callbacks fire backwards only if running; a loop seeks to 0; a non-loop stops for a final pass |
| LegacyTimelines.LegacyTimeline.SweepAndSettle | src/Timeline.js:354-374 | the pass over every track, then recovery, stop or next frame unless it was the final pass |
| LegacyTimelines.LegacyTimeline.Settle | src/Timeline.js:365-374 | after a non-final pass: recovery if `autoRecevery`, then a single step stops and any other tick requests a frame |
| LegacyTimelines.LegacyTimeline.Play | src/Timeline.js:378-384 | plays with the reference rebased on `now`; the tick reads the clock at `later` and is skipped exactly when the gap `later - now` falls short of the clock by `minFrame`; a tick that is not skipped `Went` as `Tick` states, for a running timeline with no frame pending and elapsed time `later - now` |
| LegacyTimelines.LegacyTimeline.Resume | src/Timeline.js:409-415 | records the position, seeks back to it at `now`, plays, and ticks at `later`, skipped exactly when `later - now` is below `minFrame`; that tick `Went` as `Tick` states, at the recorded position plus `later - now` |
| LegacyTimelines.LegacyTimeline.Unpause | src/Timeline.js:411-413 | after `pause`: the seek to the recorded position at `now`, running, and a tick at `later` that is skipped exactly when `later - now` is below `minFrame` and otherwise `Went` at the position plus `later - now` |
| LegacyTimelines.LegacyTimeline.Recovery | src/Timeline.js:418-425 | the tracks become exactly the live ones, in order |
| LegacyTimelines.LegacyTimeline.StopTrack | src/Timeline.js:447-454 | every track with the same uuid dies, and no other track changes |
| LegacyTimelines.LegacyTimeline.GetTracksByID | src/Timeline.js:466-474 | the tracks with the id, in array order |
| LegacyTimelines.LegacyTimeline.AddTrack | src/Timeline.js:432-444 | a fresh track clipped to the duration, with the given uuid, the options' id (`''` when absent) and loop, is appended last and gets `onInit`; a refused one adds nothing |
| LegacyTimelines.LegacyTimeline.FireEnd | src/Timeline.js:343-347 | end callbacks are called from the last registered to the first |
| LegacyTimelines.LegacyTimeline.Sweep | src/Timeline.js:362-364 | every track takes its step at the clock and the events come from the last track to the first |
| Sync.Offer | src/OriginTimeline.js:54-75 | an idle shadow is sent the tick at once; a busy one gets it queued last; it is waiting afterwards, and the queue stays bounded by 2 and empty when idle |
| Sync.Done | src/OriginTimeline.js:100-103 | a `done` idles the shadow or sends the oldest queued tick and keeps it waiting; nothing is lost or reordered between sent and queued |
| Sync.OfferKeepsOrder | src/OriginTimeline.js:59-67 | what a shadow was sent, followed by what waits for it, is a subsequence of the ticks issued to it, in issue order |
| Sync.BusyKeepsLastTwo | src/OriginTimeline.js:59-67 | while a shadow is busy nothing more is sent, and its queue holds the two most recent ticks |
| Sync.BusyTakesTwo | src/OriginTimeline.js:59-67 | two ticks offered to a busy shadow are queued in order and nothing is posted |
| Sync.DrainTwo | src/OriginTimeline.js:100-103 | three `done`s send the two queued ticks, oldest first, and idle the shadow |
| Sync.FiveTicksBeforeDone | src/OriginTimeline.js:54-103 | five ticks before the first `done` deliver ticks 1, 4 and 5, and the shadow ends idle |
| Sync.OfferAllKeepsLinks | src/OriginTimeline.js:43-76 | offering a tick to every shadow keeps each queue bounded and each shadow's deliveries in issue order |
| Sync.InitFor | src/OriginTimeline.js:107-117 | the `init` carries the timeline and shadow ids and the configuration with its ports emptied |
| Sync.NewOrigin | src/OriginTimeline.js:7-17 | refused exactly when no id is given (0 counts as given); otherwise one shadow per port |
| Sync.OriginTimeline.constructor | src/OriginTimeline.js:7-17 | an ordinary timeline with one idle shadow per port, each sent its `init` |
| Sync.OriginTimeline.AddShadow | src/OriginTimeline.js:80-120 | the new shadow is appended idle, with an empty queue, having been sent its `init` |
| Sync.OriginTimeline.OnTimeUpdate | src/OriginTimeline.js:40-77 | every shadow is offered a tick with the origin's id, its own id and the clock |
| Sync.OriginTimeline.Forward | src/Timeline.js:353 | after a tick that was not skipped every shadow is offered the clock; after a skipped one the shadows are unchanged |
| Sync.OriginTimeline.Receive | src/OriginTimeline.js:93-104 | a `done` for this origin from this shadow is handled by `Done`; anything else changes nothing |
| Sync.OriginTimeline.Tick | src/Timeline.js:353-364 | a skipped frame sends nothing; any other tick offers every shadow the clock the frame ends with, and the timeline's own tick `Went` as `LegacyTimeline.Tick` states |
| Sync.OriginTimeline.Frame | src/Timeline.js:325-375 | the requested frame runs the hooked `tick()` at `now`: a skipped frame sends nothing and requests the next; any other offers every shadow the clock the frame ends with, and the timeline's own tick `Went` as `LegacyTimeline.Frame` states |
| Sync.OriginTimeline.Play | src/Timeline.js:378-384 | as `Tick`, for the first frame of `play` read at `later` after the rebase at `now`, and the timeline's own tick `Went` as `LegacyTimeline.Play` states |
| Sync.OriginTimeline.Resume | src/Timeline.js:409-415 | as `Tick`, for the first frame of `resume` read at `later` after the seek at `now`, and the timeline's own tick `Went` as `LegacyTimeline.Resume` states |
| Sync.ShadowTimeline.constructor | src/ShadowTimeline.js:4-13 | an unpaired shadow with a fresh timeline that never runs and has posted nothing |
| Sync.ShadowTimeline.HandleMessage | src/ShadowTimeline.js:18-63 | only data for its timeline counts; unpaired it adopts the shadow id, configuration, duration and loop of an `init`; paired it ignores other shadow ids and re-`init`s, and a `tick` takes the step `Step` states and posts one `done`; the configuration and loop change only when an unpaired shadow adopts an `init`, and the duration only then or on a `tick`; a message that steps nothing leaves the clock, reference, previous clock, running flag, frame request, the tracks, their timings and flags as they were |
| Sync.ShadowTimeline.Step | src/ShadowTimeline.js:26-38 | the carried clock, duration and reference are installed and one single step of a stopped timeline at the carried time is `Processed` and `Swept`, without end callbacks or frame requests; exactly one `done` with its shadow id is posted |
| Sync.ShadowTimeline.Answer | src/ShadowTimeline.js:30-38 | the single step at the installed clock is `Processed` and `Swept`, keeps the reference, and one `done` is posted |
| Sync.NewShadow | src/ShadowTimeline.js:4-13 | refused exactly when there is no port or no id (0 counts as given) |

## Left out

- IEEE details are not modelled: NaN, -Infinity, and `Number.EPSILON` beyond its use as `2^-52`. Times are reals and +Infinity is `Ext.PosInf`.
- Tracks.Track.Tick: requires `Tickable`, a finite positive duration for loop tracks. A loop track of duration 0 or Infinity computes NaN in the source.
- Timelines.Timeline.constructor: requires a looping timeline's duration to be positive or Infinity. A zero duration makes `currentTime % duration` NaN.
- Timelines.Timeline.Add: requires a loop track's timing to be ready for the loop arithmetic, for the same NaN reason.
- Timelines.Timeline.SetInterval: requires a positive delay. The source accepts 0 and clamps negatives to 0, which builds a loop track of duration 0 (NaN).
- Tracks.Track.constructor: requires options whose timing resolves. The throwing path is `Tracks.TrackGroup.Add`, which returns the constructor's error.
- Tracks.TrackGroup.AddTrack: requires the track's previous group to be valid (duplicate-free, parents set), which every group built through the model is.
- LegacyTimelines.LegacyTimeline.Stop: with Destroy, Pause, Play and Resume, requires a non-shadow timeline. The shadow's overrides of `tick`/`play`/`stop`/`pause`/`resume` only log an error (so a shadow's `destroy()` reaches only the logging `stop`), so they are not modelled as methods.
- Sync.ShadowTimeline.HandleMessage: a `tick` without a clock or an `init` without a configuration is ignored. In the source it would read fields of `undefined`.
- The origin's `onTimeUpdate` runs once, after the pass over the tracks, instead of before it. The message carries only the clock, duration and reference, which the pass does not change.
- The origin's `onEnd` broadcast (`src/OriginTimeline.js:21-36`) is left out: an `end` message no shadow handles.
- The per-frame `fps`/`frametime` statistics, the stats panel, DOM access and console output are left out: floating-point smoothing and I/O.
- `raf`/`cancelRaf` are left out. A pending frame is a field, and only one is tracked.
- Probing for the raw time source is left out: the raw sample is a parameter of `MonotonicClock.Clock.Now`.
- MonotonicClock.Clock.Now: models the branches that read the raw clock once per call. The `process.hrtime` branch (`src/getTimeNow.ts:66-85`) reads it twice, taking the delta from the first read and remembering the second, so the time between its two reads is never counted; that loss is not modelled.
- Callback and easing bodies are left out. Callbacks are recorded as events, easing is a function parameter, and the easing sanity warning is not modelled.
- Timelines.Timeline.TickTracks: a callback that throws is modelled as a track in `faulty` whose tick fires a callback. Which callback within that tick throws is not distinguished, so the flags that track is left with and how many of its callbacks ran are not stated beyond "at least the first".
- Timelines.Timeline.AutoTick: every `seek` inside a frame (`src/Timeline.ts:316`, 344, 348 and 358) reads the clock again. The model gives those reads the frame's own reading `now`, so after a frame `referenceTime` is exactly `now - currentTime`, where the source's also absorbs the time spent in the frame.
- Timelines.Timeline.TickAndSchedule: with `Wrap`, requests the next frame before the tick where the source requests it after (`src/Timeline.ts:351`, 364). The resulting state is the same, since an error that propagates stops the timeline and so cancels the request; the order is visible only to callbacks, which are not modelled.
- LegacyTimelines.LegacyTimeline.Advance: the seek that clamps a step to `maxStep` (`src/Timeline.js:337`), like the seek to 0 of a looping timeline in `Process` (:349), reads the clock again; the model gives it the tick's reading `now`.
- LegacyTimelines.LegacyTimeline.Tick: exceptions are not modelled. The legacy timeline has no error handling, so a throwing callback would abort the pass midway; in the model callbacks never throw.
- Event cancelling on the ports (`preventDefault`, `stopPropagation`) is left out, as are `postMessage`/`addEventListener` themselves. Ports are sequences of messages.
- Shadow ids made from `performance.now() + Math.random()` and legacy track uuids made from `Math.random()` are parameters.
- Legacy `setTimeout`/`setInterval` are left out: they read `this.timeline.currentTime` on a timeline that has no `timeline` field, so they always throw. Legacy `clearTimeout`/`clearInterval` (`src/Timeline.js:502-509`) are left out with them: they stop the first track whose id is `'__timeout__' + ID`. The timer tracks they were meant for can never be created, and stopping a track that `addTrack` was given such an id is not modelled.
- The legacy track's `startTime`/`endTime`/`duration` setters are left out: the timeline never calls them.
- `pauseWhenInvisible` (`src/Timeline.js:291-310`) is left out: a document visibility listener.
- `listen`/`stopListen`/`setOrigin` are left out: they exist only as type declarations.
- Options outside the model are left out: `openStats`, `recordFPSDecay`, `outputErrors` and `pauseWhenInvisible`.
- Records are values: the origin's per-shadow records are `Link` values in a sequence, so aliasing of those records is not modelled.
- `getTime()` is left out: it only reads `referenceTime + currentTime`.

/** The legacy `Timeline` of `Timeline.js`, the class the package exports
    and the Origin/Shadow timelines extend. It keeps its tracks in an array
    it ticks from the last to the first, fires its end callbacks in reverse
    order when the clock runs past `duration`, and drives itself with
    animation frames. The clock is read through `now` parameters, and a
    requested animation frame is the flag `frameRequested`. */
module LegacyTimelines {
  import opened Base
  import opened TrackLifecycle
  import opened LegacyTracks

  /** `CONFIG_TIMELINE` merged with the caller's options. `shadows` lists
      the ports an origin starts with; `pauseWhenInvisible` is not part of
      this model. */
  datatype LegacyConfig = LegacyConfig(
    id: Key,
    duration: Ext,
    loop: bool,
    autoRecevery: bool,
    maxStep: Ext,
    maxFPS: Ext,
    shadows: seq<nat>)

  /** What a call of `tick` did: either it only asked for the next frame
      (the FPS cap), or it ran `onTimeUpdate` and a pass over the tracks,
      after firing the end callbacks listed in `endFired`. */
  datatype LegacyTickResult = Skipped | Ticked(endFired: seq<nat>, events: seq<Event>)

  /** Where a processed frame puts the clock: the explicit time, or else
      the elapsed time, clamped to at most `maxStep` past the current time. */
  function Target(time: Option<real>, elapsed: real, cur: real, maxStep: Ext): (t: real)
    ensures time.Some? ==> t == time.value
    ensures time.None? ==> LessEq(Fin(t - cur), maxStep) && t <= elapsed
    ensures time.None? && LessEq(Fin(elapsed - cur), maxStep) ==> t == elapsed
  {
    if time.Some? then time.value
    else if !LessEq(Fin(elapsed - cur), maxStep) then cur + maxStep.r
    else elapsed
  }

  /** `s` backwards. */
  function Reversed<T>(s: seq<T>): (r: seq<T>)
    ensures |r| == |s| && forall i :: 0 <= i < |s| ==> r[i] == s[|s| - 1 - i]
  {
    if s == [] then [] else Reversed(s[1..]) + [s[0]]
  }

  /** The events of the steps `ss[i..]`, the last step's first: what a
      pass from the last track down to track `i` fires. */
  function Backward(ss: seq<LegacyStep>, i: nat): seq<Event>
    requires i <= |ss|
    decreases |ss| - i
  {
    if i == |ss| then [] else Backward(ss, i + 1) + ss[i].events
  }

  /** A track added last is ticked first: its events open the pass. */
  lemma {:induction false} BackwardLastFirst(ss: seq<LegacyStep>, s: LegacyStep, i: nat)
    requires i <= |ss|
    ensures Backward(ss + [s], i) == s.events + Backward(ss, i)
    decreases |ss| - i
  {
    if i < |ss| {
      BackwardLastFirst(ss, s, i + 1);
      assert (ss + [s])[i] == ss[i];
    }
  }

  /** The tracks' flags, index by index. */
  function States(ts: seq<LegacyTrack>): (fs: seq<LegacyFlags>)
    reads ts
    ensures |fs| == |ts| && forall j :: 0 <= j < |ts| ==> fs[j] == ts[j].State()
  {
    seq(|ts|, j requires 0 <= j < |ts| reads ts => ts[j].State())
  }

  /** The tracks' timings, index by index. */
  function Timings(ts: seq<LegacyTrack>): (tms: seq<Timing>)
    reads ts
    ensures |tms| == |ts| && forall j :: 0 <= j < |ts| ==> tms[j] == ts[j].Times()
  {
    seq(|ts|, j requires 0 <= j < |ts| reads ts => ts[j].Times())
  }

  /** Snapshots of tracks before a pass at `time`: their timings, their
      flags and the step each takes. */
  predicate Snapshot(ts: seq<LegacyTrack>, ss: seq<LegacyStep>, times: seq<Timing>, before: seq<LegacyFlags>, time: real) {
    && |ss| == |ts| && |times| == |ts| && |before| == |ts|
    && (forall j :: 0 <= j < |ts| ==> Spaced(times[j]) && RunsStarted(before[j]))
    && (forall j {:trigger LegacyTick(ts[j].loop, times[j], before[j], time)} ::
          0 <= j < |ts| && Spaced(times[j]) ==> ss[j] == LegacyTick(ts[j].loop, times[j], before[j], time))
  }

  /** A pass at `time` over `ts`, from the flags `before` to the flags
      `after`, that fired `evs`: every track took its step, and the events
      are the steps' events from the last track to the first. */
  ghost predicate Swept(ts: seq<LegacyTrack>, times: seq<Timing>, before: seq<LegacyFlags>, after: seq<LegacyFlags>, time: real, evs: seq<Event>) {
    exists ss: seq<LegacyStep> :: Snapshot(ts, ss, times, before, time) && |after| == |ts|
      && (forall j :: 0 <= j < |ts| ==> after[j] == ss[j].flags)
      && evs == Backward(ss, 0)
  }

  /** Every track has a usable timing and `running ==> started`. */
  predicate AllValid(ts: seq<LegacyTrack>)
    reads ts
  {
    forall j :: 0 <= j < |ts| ==> ts[j].Valid()
  }

  /** The tracks whose flags in `fs` say they are alive, in their order:
      what `recovery` keeps. */
  function Survivors(ts: seq<LegacyTrack>, fs: seq<LegacyFlags>): (r: seq<LegacyTrack>)
    requires |fs| == |ts|
    ensures |r| <= |ts|
  {
    if ts == [] then [] else (if fs[0].alive then [ts[0]] else []) + Survivors(ts[1..], fs[1..])
  }

  /** Where each kept track comes from: a position whose flags say alive. */
  lemma {:induction false} SurvivorOrigin(ts: seq<LegacyTrack>, fs: seq<LegacyFlags>, i: nat) returns (k: nat)
    requires |fs| == |ts| && i < |Survivors(ts, fs)|
    ensures k < |ts| && ts[k] == Survivors(ts, fs)[i] && fs[k].alive
    decreases |ts|
  {
    var rest := Survivors(ts[1..], fs[1..]);
    if fs[0].alive && i == 0 {
      k := 0;
    } else {
      var i' := if fs[0].alive then i - 1 else i;
      assert Survivors(ts, fs)[i] == rest[i'];
      var k' := SurvivorOrigin(ts[1..], fs[1..], i');
      k := k' + 1;
    }
  }

  /** `recovery` keeps exactly the live tracks: every track it keeps is
      alive, and every live track is kept. */
  lemma {:induction false} SurvivorsMembers(ts: seq<LegacyTrack>, fs: seq<LegacyFlags>)
    requires |fs| == |ts|
    ensures forall i :: 0 <= i < |Survivors(ts, fs)| ==>
      exists k :: 0 <= k < |ts| && ts[k] == Survivors(ts, fs)[i] && fs[k].alive
    ensures forall k :: 0 <= k < |ts| && fs[k].alive ==> ts[k] in Survivors(ts, fs)
    decreases |ts|
  {
    forall i | 0 <= i < |Survivors(ts, fs)|
      ensures exists k :: 0 <= k < |ts| && ts[k] == Survivors(ts, fs)[i] && fs[k].alive
    {
      var k := SurvivorOrigin(ts, fs, i);
    }
    if ts != [] {
      SurvivorsMembers(ts[1..], fs[1..]);
      forall k | 0 <= k < |ts| && fs[k].alive
        ensures ts[k] in Survivors(ts, fs)
      {
        if k > 0 {
          assert ts[k] == ts[1..][k - 1] && fs[k] == fs[1..][k - 1];
        }
      }
    }
  }

  lemma {:induction false} SurvivorsDistinct(ts: seq<LegacyTrack>, fs: seq<LegacyFlags>)
    requires |fs| == |ts| && Distinct(ts)
    ensures Distinct(Survivors(ts, fs))
    decreases |ts|
  {
    if ts != [] {
      SurvivorsDistinct(ts[1..], fs[1..]);
      var rest := Survivors(ts[1..], fs[1..]);
      if fs[0].alive {
        if ts[0] in rest {
          var i :| 0 <= i < |rest| && rest[i] == ts[0];
          var k := SurvivorOrigin(ts[1..], fs[1..], i);
          assert false;
        }
        assert ([ts[0]] + rest)[1..] == rest;
      } else {
        assert Survivors(ts, fs) == rest;
      }
    }
  }

  lemma {:induction false} SurvivorsValid(ts: seq<LegacyTrack>, fs: seq<LegacyFlags>)
    requires |fs| == |ts| && AllValid(ts)
    ensures AllValid(Survivors(ts, fs))
    decreases |ts|
  {
    if ts != [] {
      SurvivorsValid(ts[1..], fs[1..]);
    }
  }

  /** One splice of `recovery`, from the back: dropping entry `i - 1` when
      it is dead, keeping it otherwise, extends the kept suffix by one. */
  lemma RecoveryStep(ts: seq<LegacyTrack>, fs: seq<LegacyFlags>, i: nat, cur: seq<LegacyTrack>)
    requires |fs| == |ts| && 0 < i <= |ts| && cur == ts[..i] + Survivors(ts[i..], fs[i..])
    ensures cur[i - 1] == ts[i - 1]
    ensures fs[i - 1].alive ==> cur == ts[..i - 1] + Survivors(ts[i - 1..], fs[i - 1..])
    ensures !fs[i - 1].alive ==> cur[..i - 1] + cur[i..] == ts[..i - 1] + Survivors(ts[i - 1..], fs[i - 1..])
  {
    assert ts[i - 1..][1..] == ts[i..] && fs[i - 1..][1..] == fs[i..];
    assert ts[..i] == ts[..i - 1] + [ts[i - 1]];
    assert cur[..i - 1] == ts[..i - 1];
    assert cur[i..] == Survivors(ts[i..], fs[i..]);
  }

  /** The tracks with the id `id`, in their order. */
  function WithId(ts: seq<LegacyTrack>, id: Key): (r: seq<LegacyTrack>)
    ensures |r| <= |ts|
  {
    if ts == [] then []
    else WithId(ts[..|ts| - 1], id) + (if ts[|ts| - 1].id == id then [ts[|ts| - 1]] else [])
  }

  /** `getTracksByID` finds every track with the id and nothing else. */
  lemma {:induction false} WithIdMembers(ts: seq<LegacyTrack>, id: Key)
    ensures forall i :: 0 <= i < |WithId(ts, id)| ==> WithId(ts, id)[i] in ts && WithId(ts, id)[i].id == id
    ensures forall i :: 0 <= i < |ts| && ts[i].id == id ==> ts[i] in WithId(ts, id)
    decreases |ts|
  {
    if ts != [] {
      var init := ts[..|ts| - 1];
      WithIdMembers(init, id);
      forall i | 0 <= i < |ts| && ts[i].id == id
        ensures ts[i] in WithId(ts, id)
      {
        if i < |init| {
          assert ts[i] == init[i];
        }
      }
    }
  }

  class LegacyTimeline {
    /** Set for a `ShadowTimeline`, whose `seek` only assigns `currentTime`. */
    const shadow: bool
    /** `900 / maxFPS`, fixed when the timeline is made. */
    const minFrame: Ext

    var config: LegacyConfig
    var duration: Ext
    var loop: bool

    var tracks: seq<LegacyTrack>
    var currentTime: real
    var lastCurrentTime: real
    var referenceTime: real
    var running: bool
    /** An animation frame is requested under `animationFrameID`. */
    var frameRequested: bool
    /** The end callbacks registered through the `onEnd` setter, by name. */
    var endCallbacks: seq<nat>
    var timeBeforePaused: real

    /** The tracks are distinct objects, each with a usable timing and
        `running ==> started`. */
    predicate Valid()
      reads this`tracks, tracks
    {
      Distinct(tracks) && AllValid(tracks)
    }

    /** `new Timeline(config)` at clock reading `now`. */
    constructor (config: LegacyConfig, shadow: bool, now: real)
      ensures Valid() && tracks == [] && endCallbacks == []
      ensures this.config == config && duration == config.duration && loop == config.loop
      ensures minFrame == MinFrametime(config.maxFPS) && this.shadow == shadow
      ensures currentTime == 0.0 && lastCurrentTime == 0.0 && referenceTime == now
      ensures !running && !frameRequested && timeBeforePaused == 0.0
    {
      this.shadow := shadow;
      this.config := config;
      duration, loop := config.duration, config.loop;
      minFrame := MinFrametime(config.maxFPS);
      tracks := [];
      currentTime, lastCurrentTime, referenceTime := 0.0, 0.0, now;
      running, frameRequested := false, false;
      endCallbacks := [];
      timeBeforePaused := 0.0;
    }

    /** The `onEnd` setter appends a callback. */
    method OnEnd(cb: nat)
      modifies this`endCallbacks
      ensures endCallbacks == old(endCallbacks) + [cb]
    {
      endCallbacks := endCallbacks + [cb];
    }

    /** `seek(time)`: the clock reads `time`, and for every timeline but a
        shadow the reference moves so that `now - referenceTime` does too. */
    method Seek(time: real, now: real)
      modifies this`currentTime, this`referenceTime
      ensures currentTime == time
      ensures shadow ==> referenceTime == old(referenceTime)
      ensures !shadow ==> now - referenceTime == currentTime
    {
      currentTime := time;
      if !shadow {
        referenceTime := now - time;
      }
    }

    /** `stop()`; a shadow overrides it to do nothing. */
    method Stop()
      requires !shadow
      modifies this`running, this`frameRequested
      ensures !running && !frameRequested
    {
      running := false;
      frameRequested := false;
    }

    /** `destroy()`. */
    method Destroy()
      requires !shadow
      modifies this`running, this`frameRequested
      ensures !running && !frameRequested
    {
      Stop();
    }

    /** `pause()`: stops and remembers the clock. */
    method Pause()
      requires !shadow
      modifies this`running, this`frameRequested, this`timeBeforePaused
      ensures !running && !frameRequested && timeBeforePaused == currentTime
    {
      running := false;
      timeBeforePaused := currentTime;
      frameRequested := false;
    }

    /** The clock part of `tick`: with no explicit time, a frame shorter
        than `minFrame` only asks for the next frame; a longer one moves the
        clock to the elapsed time, clamped by `maxStep`. An explicit time is
        a seek. */
    method Advance(time: Option<real>, now: real) returns (skip: bool)
      requires Valid()
      modifies this`currentTime, this`lastCurrentTime, this`referenceTime, this`frameRequested
      ensures Valid() && States(tracks) == old(States(tracks)) && Timings(tracks) == old(Timings(tracks))
      ensures skip <==> time.None? && Before(now - old(referenceTime) - old(currentTime), minFrame)
      ensures skip ==> frameRequested && currentTime == old(currentTime) && referenceTime == old(referenceTime)
                       && lastCurrentTime == old(lastCurrentTime)
      ensures !skip ==> frameRequested == old(frameRequested)
                        && currentTime == Target(time, now - old(referenceTime), old(currentTime), config.maxStep)
                        && lastCurrentTime == (if time.None? then old(currentTime) else old(lastCurrentTime))
                        && referenceTime == (if shadow then old(referenceTime) else now - currentTime)
    {
      if time.None? {
        var elapsed := now - referenceTime;
        if Before(elapsed - currentTime, minFrame) {
          frameRequested := true;
          return true;
        }
        lastCurrentTime := currentTime;
        currentTime := elapsed;
        if !LessEq(Fin(currentTime - lastCurrentTime), config.maxStep) {
          Seek(lastCurrentTime + config.maxStep.r, now);
        }
      } else {
        Seek(time.value, now);
      }
      return false;
    }

    /** `tick(singleStep, time)`. Without `time`, a frame shorter than
        `minFrame` only asks for the next frame. Otherwise the clock moves
        (to `time`, or by the elapsed time clamped by `maxStep`); past
        `duration` a running timeline calls its end callbacks from the last
        to the first, then a looping one seeks to 0 and a non-looping one
        stops after one last pass. Then `onTimeUpdate` runs and the tracks
        are ticked from the last to the first; with `autoRecevery` the dead
        ones are removed; a single step stops, any other call asks for the
        next frame. */
    method Tick(singleStep: bool, time: Option<real>, now: real) returns (r: LegacyTickResult)
      requires Valid()
      modifies this`currentTime, this`lastCurrentTime, this`referenceTime, this`running, this`frameRequested, this`tracks
      modifies tracks`alive, tracks`running, tracks`inited, tracks`started, tracks`loopTime
      ensures Valid()
      ensures r.Skipped? <==> time.None? && Before(now - old(referenceTime) - old(currentTime), minFrame)
      ensures r.Skipped? ==> && frameRequested && running == old(running) && tracks == old(tracks)
                             && currentTime == old(currentTime) && referenceTime == old(referenceTime)
                             && lastCurrentTime == old(lastCurrentTime)
      ensures r.Ticked? ==> lastCurrentTime == (if time.None? then old(currentTime) else old(lastCurrentTime))
      ensures Went(old(tracks), old(Timings(tracks)), old(States(tracks)), old(running), old(frameRequested), singleStep,
                   Target(time, now - old(referenceTime), old(currentTime), config.maxStep), r)
      ensures r.Ticked? ==> referenceTime == (if shadow then old(referenceTime) else now - currentTime)
    {
      var skip := Advance(time, now);
      if skip {
        return Skipped;
      }
      r := Process(singleStep, now);
    }

    /** The requested animation frame runs: the request is used up and the
        frame calls `tick()`, which reads the clock at `now`. Afterwards a
        frame is requested again exactly when the tick was skipped or was not
        the final pass of a non-looping timeline. */
    method Frame(now: real) returns (r: LegacyTickResult)
      requires Valid() && frameRequested
      modifies this`currentTime, this`lastCurrentTime, this`referenceTime, this`running, this`frameRequested, this`tracks
      modifies tracks`alive, tracks`running, tracks`inited, tracks`started, tracks`loopTime
      ensures Valid()
      ensures r.Skipped? <==> Before(now - old(referenceTime) - old(currentTime), minFrame)
      ensures r.Skipped? ==> && frameRequested && running == old(running) && tracks == old(tracks)
                             && currentTime == old(currentTime) && referenceTime == old(referenceTime)
      ensures r.Ticked? ==> lastCurrentTime == old(currentTime)
      ensures Went(old(tracks), old(Timings(tracks)), old(States(tracks)), old(running), false, false,
                   Target(None, now - old(referenceTime), old(currentTime), config.maxStep), r)
    {
      ghost var ts, times, states := tracks, Timings(tracks), States(tracks);
      frameRequested := false;
      assert tracks == ts && Timings(tracks) == times && States(tracks) == states;
      r := Tick(false, None, now);
    }

    /** What `tick` does once the clock has moved to `target`: the clock
        ends at `target`, or at 0 when a looping timeline ran past its
        duration; the end callbacks fire backwards if the timeline was
        running past its duration; every track of `ts` took its step at the
        final clock; the dead ones are gone if `autoRecevery` is set, unless
        the pass was the last one of a non-looping timeline; that last pass
        and a single step leave the timeline stopped, any other tick asks
        for the next frame. */
    predicate Processed(ts: seq<LegacyTrack>, wasRunning: bool, hadFrame: bool,
                              singleStep: bool, target: real, r: LegacyTickResult)
      reads this`currentTime, this`duration, this`loop, this`config, this`tracks, this`running, this`frameRequested, ts
      reads this`endCallbacks
    {
      var past := !LessEq(Fin(target), duration);
      var final := past && !loop;
      && r.Ticked?
      && currentTime == (if past && loop then 0.0 else target)
      && r.endFired == (if past && wasRunning then Reversed(endCallbacks) else [])
      && tracks == (if final || !config.autoRecevery then ts else Survivors(ts, States(ts)))
      && running == (if final || singleStep then false else wasRunning)
      && frameRequested == (if final || singleStep then hadFrame else true)
    }

    /** A tick that was not skipped, from the tracks `ts` with timings
        `times` and flags `before`: `Processed`, and the pass over `ts` at
        the final clock is `Swept`. */
    ghost predicate Went(ts: seq<LegacyTrack>, times: seq<Timing>, before: seq<LegacyFlags>, wasRunning: bool,
                         hadFrame: bool, singleStep: bool, target: real, r: LegacyTickResult)
      reads this`currentTime, this`duration, this`loop, this`config, this`tracks, this`running, this`frameRequested, ts
      reads this`endCallbacks
    {
      r.Ticked? ==>
        && Processed(ts, wasRunning, hadFrame, singleStep, target, r)
        && Swept(ts, times, before, States(ts), currentTime, r.events)
    }

    /** `tick` from the end check on, with the clock already moved. */
    method Process(singleStep: bool, now: real) returns (r: LegacyTickResult)
      requires Valid()
      modifies this`currentTime, this`referenceTime, this`running, this`frameRequested, this`tracks
      modifies tracks`alive, tracks`running, tracks`inited, tracks`started, tracks`loopTime
      ensures Valid()
      ensures Processed(old(tracks), old(running), old(frameRequested), singleStep, old(currentTime), r)
      ensures r.Ticked? && Swept(old(tracks), old(Timings(tracks)), old(States(tracks)), States(old(tracks)), currentTime, r.events)
      ensures referenceTime == (if !shadow && loop && !LessEq(Fin(old(currentTime)), duration) then now else old(referenceTime))
    {
      ghost var ts, wasRunning, hadFrame, c0 := tracks, running, frameRequested, currentTime;
      ghost var past := !LessEq(Fin(currentTime), duration);
      var fired, final := EndCheck(now);
      var evs := SweepAndSettle(singleStep, final);
      r := Ticked(fired, evs);
      assert A1: currentTime == (if past && loop then 0.0 else c0);
      assert A2: r.endFired == (if past && wasRunning then Reversed(endCallbacks) else []);
      assert A3: tracks == (if (past && !loop) || !config.autoRecevery then ts else Survivors(ts, States(ts)));
      assert A4: running == (if (past && !loop) || singleStep then false else wasRunning);
      assert A5: frameRequested == (if (past && !loop) || singleStep then hadFrame else true);
    }

    /** The pass over the tracks and what follows it. */
    method SweepAndSettle(singleStep: bool, final: bool) returns (evs: seq<Event>)
      requires Valid()
      modifies this`tracks, this`running, this`frameRequested
      modifies tracks`alive, tracks`running, tracks`inited, tracks`started, tracks`loopTime
      ensures Valid()
      ensures Swept(old(tracks), old(Timings(tracks)), old(States(tracks)), States(old(tracks)), currentTime, evs)
      ensures tracks == (if final || !config.autoRecevery then old(tracks) else Survivors(old(tracks), States(old(tracks))))
      ensures running == (if !final && singleStep then false else old(running))
      ensures frameRequested == (if final || singleStep then old(frameRequested) else true)
    {
      ghost var ts := tracks;
      evs := Sweep();
      ghost var after := States(ts);
      Settle(singleStep, final);
      assert forall j :: 0 <= j < |ts| ==> ts[j].State() == after[j];
      assert States(ts) == after;
    }

    /** The end check of `tick`: past `duration`, a running timeline calls
        its end callbacks from the last to the first; then a looping one
        seeks to 0 and a non-looping one stops for a final pass. */
    method EndCheck(now: real) returns (fired: seq<nat>, final: bool)
      requires Valid()
      modifies this`currentTime, this`referenceTime, this`running
      ensures Valid() && States(tracks) == old(States(tracks)) && Timings(tracks) == old(Timings(tracks))
      ensures var past := !LessEq(Fin(old(currentTime)), duration);
        && final == (past && !loop)
        && fired == (if past && old(running) then Reversed(endCallbacks) else [])
        && currentTime == (if past && loop then 0.0 else old(currentTime))
        && running == (if final then false else old(running))
        && referenceTime == (if !shadow && past && loop then now else old(referenceTime))
    {
      fired, final := [], false;
      if !LessEq(Fin(currentTime), duration) {
        if running {
          fired := FireEnd();
        }
        if loop {
          Seek(0.0, now);
        } else {
          running := false;
          final := true;
        }
      }
    }

    /** The end of `tick` after the pass: nothing more after a final pass;
        otherwise `recovery` if `autoRecevery` is set, then a single step
        stops and any other tick asks for the next frame. */
    method Settle(singleStep: bool, final: bool)
      requires Valid()
      modifies this`tracks, this`running, this`frameRequested
      ensures Valid()
      ensures tracks == (if final || !config.autoRecevery then old(tracks) else old(Survivors(tracks, States(tracks))))
      ensures running == (if !final && singleStep then false else old(running))
      ensures frameRequested == (if final || singleStep then old(frameRequested) else true)
    {
      if final {
        return;
      }
      if config.autoRecevery {
        Recovery();
      }
      if singleStep {
        running := false;
      } else {
        frameRequested := true;
      }
    }

    /** `play()`: stops, runs, takes the reading `now` as the reference and
        ticks, which reads the clock again at `later`. The clock is not
        reset, so the first frame waits until the elapsed time catches up
        with `currentTime`. A shadow overrides it. */
    method Play(now: real, later: real) returns (r: LegacyTickResult)
      requires Valid() && !shadow
      modifies this`currentTime, this`lastCurrentTime, this`referenceTime, this`running, this`frameRequested, this`tracks
      modifies tracks`alive, tracks`running, tracks`inited, tracks`started, tracks`loopTime
      ensures Valid()
      ensures r.Skipped? <==> Before(later - now - old(currentTime), minFrame)
      ensures r.Skipped? ==> running && frameRequested && currentTime == old(currentTime) && referenceTime == now
      ensures r.Ticked? ==> (currentTime <= later - now || currentTime == 0.0) && later - referenceTime == currentTime
                            && running == frameRequested
      ensures Went(old(tracks), old(Timings(tracks)), old(States(tracks)), true, false, false,
                   Target(None, later - now, old(currentTime), config.maxStep), r)
    {
      ghost var ts, times, states := tracks, Timings(tracks), States(tracks);
      Stop();
      running := true;
      referenceTime := now;
      assert tracks == ts && Timings(tracks) == times && States(tracks) == states;
      r := Tick(false, None, later);
    }

    /** `resume()`: pauses, seeks back to the paused time at the reading
        `now`, runs and ticks, which reads the clock again at `later`. Since
        `pause` records the current time, the tick is skipped exactly when
        the gap between the two readings is below `minFrame`. A shadow
        overrides it. */
    method Resume(now: real, later: real) returns (r: LegacyTickResult)
      requires Valid() && !shadow
      modifies this`currentTime, this`lastCurrentTime, this`referenceTime, this`running, this`frameRequested, this`tracks
      modifies this`timeBeforePaused
      modifies tracks`alive, tracks`running, tracks`inited, tracks`started, tracks`loopTime
      ensures Valid() && timeBeforePaused == old(currentTime)
      ensures r.Skipped? <==> Before(later - now, minFrame)
      ensures r.Skipped? ==> running && frameRequested && currentTime == old(currentTime) && now - referenceTime == currentTime
      ensures r.Ticked? ==> lastCurrentTime == old(currentTime) && later - referenceTime == currentTime && running == frameRequested
      ensures Went(old(tracks), old(Timings(tracks)), old(States(tracks)), true, false, false,
                   Target(None, old(currentTime) + (later - now), old(currentTime), config.maxStep), r)
    {
      ghost var ts, times, states := tracks, Timings(tracks), States(tracks);
      Pause();
      assert tracks == ts && Timings(ts) == times && States(ts) == states;
      r := Unpause(now, later);
    }

    /** The part of `resume()` after `pause`: the seek to the paused time at
        the reading `now`, the restart and the tick at `later`. */
    method Unpause(now: real, later: real) returns (r: LegacyTickResult)
      requires Valid() && !shadow && !running && !frameRequested && timeBeforePaused == currentTime
      modifies this`currentTime, this`lastCurrentTime, this`referenceTime, this`running, this`frameRequested, this`tracks
      modifies tracks`alive, tracks`running, tracks`inited, tracks`started, tracks`loopTime
      ensures Valid()
      ensures r.Skipped? <==> Before(later - now, minFrame)
      ensures r.Skipped? ==> running && frameRequested && currentTime == old(currentTime) && now - referenceTime == currentTime
      ensures r.Ticked? ==> lastCurrentTime == old(currentTime) && later - referenceTime == currentTime && running == frameRequested
      ensures Went(old(tracks), old(Timings(tracks)), old(States(tracks)), true, false, false,
                   Target(None, old(currentTime) + (later - now), old(currentTime), config.maxStep), r)
    {
      ghost var ts, times, states := tracks, Timings(tracks), States(tracks);
      Seek(timeBeforePaused, now);
      running := true;
      assert tracks == ts && Timings(tracks) == times && States(tracks) == states;
      r := Tick(false, None, later);
    }

    /** `recovery()`: removes the dead tracks, splicing from the back. */
    method Recovery()
      requires Valid()
      modifies this`tracks
      ensures Valid() && tracks == old(Survivors(tracks, States(tracks)))
    {
      ghost var ts, fs := tracks, States(tracks);
      var kept := tracks;
      var i := |kept|;
      while i > 0
        invariant 0 <= i <= |ts|
        invariant kept == ts[..i] + Survivors(ts[i..], fs[i..])
      {
        RecoveryStep(ts, fs, i, kept);
        i := i - 1;
        if !kept[i].alive {
          kept := kept[..i] + kept[i + 1..];
        }
      }
      assert ts[..0] + Survivors(ts[0..], fs[0..]) == Survivors(ts, fs) by {
        assert ts[0..] == ts && fs[0..] == fs;
      }
      SurvivorsDistinct(ts, fs);
      SurvivorsValid(ts, fs);
      tracks := kept;
    }

    /** `stopTrack(track)`: kills every track with the same `uuid`. */
    method StopTrack(track: LegacyTrack)
      requires Valid()
      modifies tracks`alive
      ensures Valid()
      ensures forall j :: 0 <= j < |tracks| ==> tracks[j].alive == (old(tracks[j].alive) && tracks[j].uuid != track.uuid)
    {
      var uuid := track.uuid;
      var i := |tracks|;
      while i > 0
        invariant 0 <= i <= |tracks|
        invariant Valid()
        invariant forall j :: 0 <= j < |tracks| ==>
          tracks[j].alive == if j < i then old(tracks[j].alive) else old(tracks[j].alive) && tracks[j].uuid != uuid
      {
        i := i - 1;
        if tracks[i].uuid == uuid {
          forall j | 0 <= j < |tracks| && j != i
            ensures tracks[j] != tracks[i]
          {
            DistinctApart(tracks, i, j);
          }
          tracks[i].alive := false;
        }
      }
    }

    /** `getTracksByID(id)`: the tracks with that id, in array order. */
    method GetTracksByID(id: Key) returns (found: seq<LegacyTrack>)
      ensures found == WithId(tracks, id)
    {
      found := [];
      var i := 0;
      while i < |tracks|
        invariant 0 <= i <= |tracks|
        invariant found == WithId(tracks[..i], id)
      {
        assert tracks[..i + 1][..i] == tracks[..i];
        if tracks[i].id == id {
          found := found + [tracks[i]];
        }
        i := i + 1;
      }
      assert tracks[..|tracks|] == tracks;
    }

    /** `addTrack(options)`: a new track, clipped to the timeline's
        duration, gets `onInit` and goes last. The constructor's refusal
        adds nothing. */
    method AddTrack(o: LegacyOptions, uuid: nat) returns (r: Result<LegacyTrack, LegacyError>, evs: seq<Event>)
      requires Valid()
      modifies this`tracks
      ensures Valid()
      ensures r.Ok? <==> LegacyTiming(o).Ok?
      ensures r.Ok? ==> && fresh(r.value) && tracks == old(tracks) + [r.value] && evs == [Init]
                        && r.value.Times() == Clip(LegacyTiming(o).value, duration)
                        && r.value.State() == LegacyFlags(true, false, true, false, 0) && r.value.uuid == uuid
                        && r.value.id == (if o.id == Undefined then Str("") else o.id) && r.value.loop == o.loop
      ensures r.Err? ==> tracks == old(tracks) && evs == []
    {
      if LegacyTiming(o).Err? {
        return Err(WrongParameters), [];
      }
      var t := new LegacyTrack(o, uuid);
      t.SafeClip(duration);
      AppendKeepsDistinct(tracks, t);
      tracks := tracks + [t];
      r, evs := Ok(t), [Init];
    }

    /** The end callbacks, called from the last registered to the first. */
    method FireEnd() returns (fired: seq<nat>)
      ensures fired == Reversed(endCallbacks)
    {
      fired := [];
      var i := |endCallbacks|;
      while i > 0
        invariant 0 <= i <= |endCallbacks|
        invariant fired == Reversed(endCallbacks[i..])
      {
        i := i - 1;
        assert endCallbacks[i..] == [endCallbacks[i]] + endCallbacks[i + 1..];
        fired := fired + [endCallbacks[i]];
      }
      assert endCallbacks[0..] == endCallbacks;
    }

    /** The pass over the tracks, from the last to the first, at the
        current time. */
    method Sweep() returns (evs: seq<Event>)
      requires Valid()
      modifies tracks`alive, tracks`running, tracks`inited, tracks`started, tracks`loopTime
      ensures Valid()
      ensures Swept(tracks, old(Timings(tracks)), old(States(tracks)), States(tracks), currentTime, evs)
    {
      ghost var ts := tracks;
      ghost var times := Timings(ts);
      ghost var before := States(ts);
      ghost var time := currentTime;
      ghost var ss := seq(|ts|, j requires 0 <= j < |ts| && Spaced(times[j]) => LegacyTick(ts[j].loop, times[j], before[j], time));
      assert Snapshot(ts, ss, times, before, time);
      var i := |tracks|;
      evs := [];
      while i > 0
        invariant 0 <= i <= |ts|
        invariant Progressed(ts, ss, times, before, i)
        invariant evs == Backward(ss, i)
      {
        i := i - 1;
        var e := TickOne(tracks[i], ts, i, times, before, ss);
        evs := evs + e;
      }
      SweepDone(ts, ss, times, before, time, evs);
    }

    /** Ticks track `i` of the pass, leaving the other tracks alone. */
    method TickOne(t: LegacyTrack, ghost ts: seq<LegacyTrack>, ghost i: nat, ghost times: seq<Timing>, ghost before: seq<LegacyFlags>, ghost ss: seq<LegacyStep>)
      returns (e: seq<Event>)
      requires Distinct(ts) && i < |ts| && ts[i] == t
      requires Snapshot(ts, ss, times, before, currentTime) && Progressed(ts, ss, times, before, i + 1)
      modifies t`alive, t`running, t`inited, t`started, t`loopTime
      ensures Progressed(ts, ss, times, before, i)
      ensures e == ss[i].events
    {
      e := t.Tick(currentTime);
      forall j | 0 <= j < |ts| && j != i
        ensures ts[j] != t
      {
        DistinctApart(ts, i, j);
      }
    }
  }

  /** During a pass: the tracks from `i` on have taken their steps, the
      others still have their flags from before; no timing has changed. */
  predicate Progressed(ts: seq<LegacyTrack>, ss: seq<LegacyStep>, times: seq<Timing>, before: seq<LegacyFlags>, i: nat)
    reads ts
  {
    && |ss| == |ts| && |times| == |ts| && |before| == |ts| && i <= |ts|
    && forall j :: 0 <= j < |ts| ==>
      ts[j].Valid() && ts[j].Times() == times[j] && ts[j].State() == if j < i then before[j] else ss[j].flags
  }

  /** A finished pass is a sweep. */
  lemma SweepDone(ts: seq<LegacyTrack>, ss: seq<LegacyStep>, times: seq<Timing>, before: seq<LegacyFlags>, time: real, evs: seq<Event>)
    requires Snapshot(ts, ss, times, before, time) && Progressed(ts, ss, times, before, 0) && evs == Backward(ss, 0)
    ensures Timings(ts) == times && forall j :: 0 <= j < |ts| ==> ts[j].Valid()
    ensures Swept(ts, times, before, States(ts), time, evs)
  {
    var after := States(ts);
    assert forall j :: 0 <= j < |ts| ==> after[j] == ss[j].flags;
  }
}

/** The timeline driver: a track group with a virtual clock. The clock is
    `currentTime = now - referenceTime`, where `now` is the monotonic time
    the driver reads; every such read is a parameter here. A frame
    scheduled with the platform's animation-frame hook is the `frame`
    field, and `AutoTick` is that frame firing. */
module Timelines {
  import opened Base
  import opened TrackStates
  import opened TrackLifecycle
  import opened Tracks

  /** `Number.EPSILON`, 2^-52: the loop restart seeks just before 0. */
  const Epsilon: real := 1.0 / 4503599627370496.0

  /** The options a timeline is built from; `None` is a key left out. */
  datatype TimelineOptions = TimelineOptions(
    duration: Option<Ext>,
    loop: Option<bool>,
    autoRelease: Option<bool>,
    maxStep: Option<Ext>,
    maxFPS: Option<Ext>,
    ignoreErrors: bool,
    hasOnError: bool,
    autoRecevery: Option<bool>,
    autoDispose: Option<bool>)

  datatype Config = Config(
    duration: Ext,
    loop: bool,
    autoRelease: bool,
    maxStep: Ext,
    maxFPS: Ext,
    ignoreErrors: bool,
    hasOnError: bool)

  /** The defaults overlaid with the options; the legacy `autoRecevery` and
      then `autoDispose` override `autoRelease`, and a looping timeline never
      auto-releases (its tracks would all expire in the first round). */
  function ResolveConfig(o: TimelineOptions): (c: Config)
    ensures c.loop <==> o.loop == Some(true)
    ensures c.loop ==> !c.autoRelease
    ensures !c.loop && o.autoDispose.Some? ==> c.autoRelease == o.autoDispose.value
    ensures !c.loop && o.autoDispose.None? && o.autoRecevery.Some? ==> c.autoRelease == o.autoRecevery.value
    ensures !c.loop && o.autoDispose.None? && o.autoRecevery.None? ==> (c.autoRelease <==> o.autoRelease != Some(false))
    ensures c.duration == (if o.duration.Some? then o.duration.value else PosInf)
    ensures c.maxStep == (if o.maxStep.Some? then o.maxStep.value else Fin(1000.0))
    ensures c.maxFPS == (if o.maxFPS.Some? then o.maxFPS.value else PosInf)
  {
    var release0 := if o.autoRelease.Some? then o.autoRelease.value else true;
    var release1 := if o.autoRecevery.Some? then o.autoRecevery.value else release0;
    var release2 := if o.autoDispose.Some? then o.autoDispose.value else release1;
    var loop := o.loop == Some(true);
    Config(
      if o.duration.Some? then o.duration.value else PosInf,
      loop,
      release2 && !loop,
      if o.maxStep.Some? then o.maxStep.value else Fin(1000.0),
      if o.maxFPS.Some? then o.maxFPS.value else PosInf,
      o.ignoreErrors,
      o.hasOnError)
  }

  /** What the loop restart needs: `currentTime % duration` is a number. */
  predicate LoopOK(c: Config) {
    c.loop ==> c.duration.PosInf? || c.duration.r > 0.0
  }

  /** JavaScript `x % d` for `x >= 0` and `d > 0`. */
  function Mod(x: real, d: real): real
    requires x >= 0.0 && d > 0.0
  {
    x - d * (x / d).Floor as real
  }

  /** The remainder lies in `[0, d)`. */
  lemma ModInWindow(x: real, d: real)
    requires x >= 0.0 && d > 0.0
    ensures 0.0 <= Mod(x, d) < d
  {
    var q := x / d;
    var f := q - q.Floor as real;
    assert 0.0 <= f < 1.0;
    assert x == d * q;
    MulDistrib(q, q.Floor as real, d);
    assert Mod(x, d) == d * f;
    MulNonNeg(d, f);
    MulNonNeg(d, 1.0 - f);
    MulDistrib(1.0, f, d);
  }

  /** The max-step clamp: a frame never advances the clock by more than
      `maxStep`; within that bound natural time passes unchanged. */
  function Clamp(maxStep: Ext, previous: real, natural: real): (r: real)
    ensures LessEq(Fin(r - previous), maxStep)
    ensures r <= natural
    ensures LessEq(Fin(natural - previous), maxStep) ==> r == natural
    ensures !LessEq(Fin(natural - previous), maxStep) ==> r == previous + maxStep.r
  {
    if maxStep.Fin? && natural - previous > maxStep.r then previous + maxStep.r else natural
  }

  /** What one firing of the frame does at the timeline level: skip it (the
      FPS cap), or tick the tracks at each of `times` in turn, and stop
      playing afterwards when `ends`. */
  datatype Plan = Skip | Run(times: seq<real>, ends: bool)

  /** The ticks of a frame whose clamped clock reading is `c1`: the loop
      restart or the final tick at the duration, else one tick at `c1`. */
  function Ticks(c: Config, c1: real): (p: Plan)
    requires LoopOK(c)
    ensures p.Run? && |p.times| >= 1
    ensures p.ends <==> !c.loop && AtOrAfter(c1, c.duration)
    ensures !AtOrAfter(c1, c.duration) ==> p.times == [c1]
    ensures !c.loop && AtOrAfter(c1, c.duration) ==> p.times == [c.duration.r]
  {
    if AtOrAfter(c1, c.duration) then
      if c.loop then Run([-Epsilon, Mod(c1, c.duration.r)], false)
      else Run([c.duration.r], true)
    else Run([c1], false)
  }

  /** `_autoTick(last)` read at time `now`, given the current clock state:
      skipped by the FPS cap, or the ticks of the clamped clock reading. */
  function PlanFrame(c: Config, minFrametime: Ext, currentTime: real, referenceTime: real, now: real, last: Option<real>): (p: Plan)
    requires LoopOK(c)
    ensures p.Skip? <==> last.Some? && Before(now - last.value, minFrametime)
    ensures p.Run? ==> p == Ticks(c, Clamp(c.maxStep, currentTime, now - referenceTime))
    ensures p.Run? && !AtOrAfter(Clamp(c.maxStep, currentTime, now - referenceTime), c.duration) ==>
      LessEq(Fin(p.times[0] - currentTime), c.maxStep)
  {
    if last.Some? && Before(now - last.value, minFrametime) then Skip
    else Ticks(c, Clamp(c.maxStep, currentTime, now - referenceTime))
  }

  /** A looping timeline that reaches its duration ticks once just before 0,
      which resets every started track, and once at the wrapped time, which
      lies in `[0, duration)`. It keeps playing. */
  lemma LoopFrameWraps(c: Config, minFrametime: Ext, currentTime: real, referenceTime: real, now: real, last: Option<real>)
    requires LoopOK(c) && c.loop
    requires PlanFrame(c, minFrametime, currentTime, referenceTime, now, last).Run?
    requires AtOrAfter(Clamp(c.maxStep, currentTime, now - referenceTime), c.duration)
    ensures var p := PlanFrame(c, minFrametime, currentTime, referenceTime, now, last);
      && |p.times| == 2 && p.times[0] < 0.0 && !p.ends
      && 0.0 <= p.times[1] < c.duration.r
  {
    var c1 := Clamp(c.maxStep, currentTime, now - referenceTime);
    ModInWindow(c1, c.duration.r);
  }

  /** `play()` rebases the clock on its reading `now`, and its first frame
      reads the clock again at `later`. A timeline whose clock was not
      behind that gap by more than `maxStep` restarts at the gap
      `later - now`: at 0 when no time passed between the two readings. */
  lemma PlayRestartsClock(c: Config, minFrametime: Ext, currentTime: real, now: real, later: real)
    requires LoopOK(c) && LessEq(Fin(later - now - currentTime), c.maxStep) && Before(later - now, c.duration)
    ensures PlanFrame(c, minFrametime, currentTime, now, later, None) == Run([later - now], false)
  {}

  /** `resume()` seeks to the recorded position at its reading `now`, and
      its first frame reads the clock again at `later`: it ticks at the
      position plus that gap, whatever time passed since the pause. */
  lemma ResumeKeepsPosition(c: Config, minFrametime: Ext, position: real, now: real, later: real)
    requires LoopOK(c) && LessEq(Fin(later - now), c.maxStep) && Before(position + (later - now), c.duration)
    ensures PlanFrame(c, minFrametime, position, now - position, later, None) == Run([position + (later - now)], false)
  {}

  /** What became of an error thrown by a track callback during `tick`. */
  datatype Fate = NoError | Ignored | Reported | Rethrown

  /** The error policy: swallowed with `ignoreErrors`, else passed to
      `onError` (whose return value is not looked at), else the timeline
      stops and the error propagates. */
  function ErrorFate(c: Config): (f: Fate)
    ensures f != NoError
    ensures f == Ignored <==> c.ignoreErrors
    ensures f == Reported <==> !c.ignoreErrors && c.hasOnError
    ensures f == Rethrown <==> !c.ignoreErrors && !c.hasOnError
  {
    if c.ignoreErrors then Ignored else if c.hasOnError then Reported else Rethrown
  }

  datatype TickResult = TickResult(fired: seq<Event>, fate: Fate)

  /** The pending animation frame, with the `lastTimeNow` it will be fired with. */
  datatype Frame = Idle | Scheduled(last: real)

  datatype TimelineError = NonPositiveMaxFPS

  /** The tracks a pass runs over, with their timings and their flags
      before it. */
  datatype Roster = Roster(tracks: seq<Track>, times: seq<Timing>, flags: seq<Flags>)

  /** A pass over the tracks of `from`, which left them with the flags `after`. */
  datatype TickPass = TickPass(from: Roster, after: seq<Flags>)

  /** One timing and one set of flags per track, and every looping track
      can be ticked. */
  predicate Ready(r: Roster) {
    && |r.times| == |r.tracks| && |r.flags| == |r.tracks|
    && forall j :: 0 <= j < |r.tracks| ==> r.tracks[j].loop ==> LoopReady(r.times[j])
  }

  /** The tracks' flags, index by index. */
  function States(ts: seq<Track>): (fs: seq<Flags>)
    reads ts
    ensures |fs| == |ts| && forall j :: 0 <= j < |ts| ==> fs[j] == ts[j].State()
  {
    seq(|ts|, j requires 0 <= j < |ts| reads ts => ts[j].State())
  }

  /** The tracks' timings, index by index. */
  function Timings(ts: seq<Track>): (tms: seq<Timing>)
    reads ts
    ensures |tms| == |ts| && forall j :: 0 <= j < |ts| ==> tms[j] == ts[j].Times()
  {
    seq(|ts|, j requires 0 <= j < |ts| reads ts => ts[j].Times())
  }

  /** Tracks whose timings are `times` have the timings `times`. */
  lemma TimingsAre(ts: seq<Track>, times: seq<Timing>)
    requires |times| == |ts| && forall j :: 0 <= j < |ts| ==> ts[j].Times() == times[j]
    ensures Timings(ts) == times
  {}

  /** The tracks `ts` as they stand. */
  function RosterOf(ts: seq<Track>): (r: Roster)
    reads ts
    ensures r.tracks == ts && |r.times| == |ts| && |r.flags| == |ts|
  {
    Roster(ts, Timings(ts), States(ts))
  }

  /** What ticking each track of `r` at `time` does, track by track. */
  function StepsFrom(r: Roster, time: real): (ss: seq<Step>)
    requires Ready(r)
    ensures |ss| == |r.tracks|
  {
    seq(|r.tracks|, j requires 0 <= j < |r.tracks| && Ready(r) =>
      TrackLifecycle.Tick(r.tracks[j].loop, r.tracks[j].easing, r.times[j], r.flags[j], time))
  }

  predicate AllTickable(ts: seq<Track>)
    reads ts
  {
    forall i :: 0 <= i < |ts| ==> ts[i].Tickable()
  }

  /** What ticking each of `ts` at `time` would do, track by track. */
  function Steps(ts: seq<Track>, time: real): (r: seq<Step>)
    reads ts
    requires AllTickable(ts)
    ensures |r| == |ts|
  {
    StepsFrom(RosterOf(ts), time)
  }

  /** Snapshots of tracks taken before a pass: their flags, their timings,
      and the step each takes at `time`. */
  predicate Snapshot(ts: seq<Track>, ss: seq<Step>, before: seq<Flags>, times: seq<Timing>, time: real) {
    && |ss| == |ts| && |before| == |ts| && |times| == |ts|
    && (forall j :: 0 <= j < |ts| ==>
          Consistent(times[j]) && Coherent(before[j], ts[j].loop) && (ts[j].loop ==> LoopReady(times[j])))
    && (forall j {:trigger TrackLifecycle.Tick(ts[j].loop, ts[j].easing, times[j], before[j], time)} ::
          0 <= j < |ts| && (ts[j].loop ==> LoopReady(times[j])) ==>
          ss[j] == TrackLifecycle.Tick(ts[j].loop, ts[j].easing, times[j], before[j], time))
  }

  /** During a pass: the first `n` tracks have taken their step, the rest
      still have their flags from before it; no timing has changed. */
  predicate Ticked(ts: seq<Track>, ss: seq<Step>, before: seq<Flags>, times: seq<Timing>, n: nat)
    reads ts
  {
    && |ss| == |ts| && |before| == |ts| && |times| == |ts| && n <= |ts|
    && forall j :: 0 <= j < |ts| ==>
      ts[j].Times() == times[j] && ts[j].State() == if j < n then ss[j].flags else before[j]
  }

  /** A pass over `ts` whose tracks were to take the steps `ss` from the
      flags `before`, and which left them with the flags `after`. Every
      track before the first whose tick throws took its step, and every
      track after it kept its flags. The track whose tick throws fired at
      least its first callback and at most all of them; the flags it is
      left with are not stated, since its tick stops at the callback that
      throws. `fired` holds the callbacks made, and `failed` says whether
      one threw. */
  predicate Passed(ts: seq<Track>, faulty: set<Track>, ss: seq<Step>, before: seq<Flags>, after: seq<Flags>, fired: seq<Event>, failed: bool) {
    && |ss| == |ts| && |before| == |ts| && |after| == |ts|
    && var k := FirstFault(ts, faulty, ss);
       && (failed <==> k < |ts|)
       && (if failed then Fired(ss, k) < fired <= Fired(ss, k + 1) else fired == Fired(ss, k))
       && (forall j :: 0 <= j < |ts| && j != k ==> after[j] == if j < k then ss[j].flags else before[j])
  }

  /** The keep-marks of `release` for tracks with the flags `fs`: alive and
      not expired. */
  function Marks(fs: seq<Flags>): (m: seq<bool>)
    ensures |m| == |fs| && forall j :: 0 <= j < |fs| ==> m[j] == (fs[j].alive && !Expired(fs[j]))
  {
    seq(|fs|, j requires 0 <= j < |fs| => fs[j].alive && !Expired(fs[j]))
  }

  /** The tracks the pass after `p` runs over: the tracks of `p` with the
      flags it left them, or, when `released`, only those `release` keeps. */
  function Next(p: TickPass, released: bool): (r: Roster)
    ensures Ready(p.from) && |p.after| == |p.from.tracks| ==> Ready(r)
  {
    if released then
      var m := Marks(p.after);
      var r := Roster(Filter(p.from.tracks, m), Filter(p.from.times, m), Filter(p.after, m));
      if Ready(p.from) && |p.after| == |p.from.tracks| then FilterReady(p.from, p.after, m); r else r
    else Roster(p.from.tracks, p.from.times, p.after)
  }

  /** `release` keeps looping tracks with their own timings. */
  lemma {:induction false} FilterReady(r: Roster, after: seq<Flags>, m: seq<bool>)
    requires Ready(r) && |after| == |r.tracks| && |m| == |r.tracks|
    ensures Ready(Roster(Filter(r.tracks, m), Filter(r.times, m), Filter(after, m)))
    decreases |r.tracks|
  {
    if r.tracks != [] {
      var tail := Roster(r.tracks[1..], r.times[1..], r.flags[1..]);
      FilterReady(tail, after[1..], m[1..]);
    }
  }

  lemma StatesConcat(a: seq<Track>, b: seq<Track>)
    ensures States(a + b) == States(a) + States(b) && Timings(a + b) == Timings(a) + Timings(b)
  {
    assert forall j :: 0 <= j < |a + b| ==> (a + b)[j] == if j < |a| then a[j] else b[j - |a|];
  }

  lemma StatesTail(ts: seq<Track>)
    requires ts != []
    ensures States(ts)[1..] == States(ts[1..]) && Timings(ts)[1..] == Timings(ts[1..])
    ensures Marks(States(ts))[1..] == Marks(States(ts[1..]))
  {
    assert forall j :: 0 <= j < |ts| - 1 ==> ts[1..][j] == ts[j + 1];
  }

  /** `release` as a filter on flags: the tracks it keeps, their timings
      and their flags are those of `ts` whose flags say alive and not
      expired. */
  lemma {:induction false} SurvivorsFilter(ts: seq<Track>)
    ensures var m := Marks(States(ts));
      && Survivors(ts) == Filter(ts, m)
      && States(Survivors(ts)) == Filter(States(ts), m)
      && Timings(Survivors(ts)) == Filter(Timings(ts), m)
    decreases |ts|
  {
    if ts != [] {
      var m := Marks(States(ts));
      var rest := Survivors(ts[1..]);
      SurvivorsFilter(ts[1..]);
      StatesTail(ts);
      var head := if ts[0].alive && !ts[0].Expired() then [ts[0]] else [];
      assert Survivors(ts) == head + rest;
      assert Filter(ts, m) == head + Filter(ts[1..], m[1..]);
      StatesConcat(head, rest);
    }
  }

  /** What a pass over `ts` from `r0` leaves: the tracks as they stand,
      whether `release` ran or not. */
  lemma LeftBehind(ts: seq<Track>, r0: Roster)
    requires r0.tracks == ts && Ready(r0) && Timings(ts) == r0.times
    ensures RosterOf(Survivors(ts)) == Next(TickPass(r0, States(ts)), true)
    ensures RosterOf(ts) == Next(TickPass(r0, States(ts)), false)
  {
    SurvivorsFilter(ts);
  }

  /** Whether `tick()` ended with `release`: a clean pass under `autoRelease`. */
  predicate Released(c: Config, res: TickResult) {
    c.autoRelease && res.fate == NoError
  }

  /** `res` is what the pass `p` at `time` did: the ticks of the steps
      from `p.from`, up to the first that throws, leaving `p.after`. */
  predicate TickedAt(p: TickPass, faulty: set<Track>, time: real, res: TickResult) {
    && Ready(p.from)
    && Passed(p.from.tracks, faulty, StepsFrom(p.from, time), p.from.flags, p.after, res.fired, res.fate != NoError)
  }

  /** The tracks whose callbacks throw in the `j`-th tick of a frame:
      `faulty[j]`, and none in a tick past the end of `faulty`. */
  function FaultsAt(faulty: seq<set<Track>>, j: nat): set<Track> {
    if j < |faulty| then faulty[j] else {}
  }

  /** The passes of the ticks `ran`, made at `times` in turn, each from the
      tracks the one before left, the `j`-th with the throwing tracks
      `FaultsAt(faulty, j)`. */
  predicate Chained(times: seq<real>, ran: seq<TickResult>, passes: seq<TickPass>, faulty: seq<set<Track>>, c: Config) {
    && |passes| == |ran| <= |times|
    && forall j :: 0 <= j < |ran| ==>
         && TickedAt(passes[j], FaultsAt(faulty, j), times[j], ran[j])
         && (j + 1 < |ran| ==> passes[j + 1].from == Next(passes[j], Released(c, ran[j])))
  }

  /** The ticks `ran` of a frame that planned `p`, with their passes: made
      at the first `|ran|` planned times and stopping early only on an error
      that propagates; the first pass is from `start`, each later one from
      what the one before left, and `left` is what the last one left. */
  predicate Went(p: Plan, ran: seq<TickResult>, passes: seq<TickPass>, start: Roster, left: Roster, faulty: seq<set<Track>>, c: Config) {
    && p.Run? && 1 <= |ran| <= |p.times|
    && (forall j :: 0 <= j < |ran| - 1 ==> ran[j].fate != Rethrown)
    && (|ran| < |p.times| ==> ran[|ran| - 1].fate == Rethrown)
    && (forall j :: 0 <= j < |ran| ==> ran[j].fate == NoError || ran[j].fate == ErrorFate(c))
    && Chained(p.times, ran, passes, faulty, c) && passes[0].from == start
    && left == Next(passes[|ran| - 1], Released(c, ran[|ran| - 1]))
  }

  /** `playing` and the pending frame after a frame at `now` whose last
      tick ended with `last`: an error that propagates has stopped the
      timeline; otherwise the final tick at the duration has stopped it and
      left the pending frame alone, and any other frame has kept `playing`
      and requested the next frame. */
  function Aftermath(last: Fate, ends: bool, playingBefore: bool, frameBefore: Frame, now: real): (after: (bool, Frame))
    ensures last == Rethrown ==> after == (false, Idle)
    ensures last != Rethrown && ends ==> after == (false, frameBefore)
    ensures last != Rethrown && !ends ==> after == (playingBefore, Scheduled(now))
  {
    if last == Rethrown then (false, Idle)
    else if ends then (false, frameBefore)
    else (playingBefore, Scheduled(now))
  }

  /** A single tick is a chain of one. */
  lemma ChainOne(time: real, r: TickResult, q: TickPass, faulty: set<Track>, c: Config)
    ensures Chained([time], [r], [q], [faulty], c) <==> TickedAt(q, faulty, time, r)
  {
    assert [q][0] == q && [r][0] == r && [time][0] == time;
  }

  /** A frame whose first tick is its last. */
  lemma WentOne(p: Plan, time: real, r: TickResult, q: TickPass, faulty: seq<set<Track>>, c: Config)
    requires p.Run? && 1 <= |p.times| && p.times[0] == time && Chained([time], [r], [q], [FaultsAt(faulty, 0)], c)
    requires r.fate == NoError || r.fate == ErrorFate(c)
    requires |p.times| > 1 ==> r.fate == Rethrown
    ensures Went(p, [r], [q], q.from, Next(q, Released(c, r)), faulty, c)
  {}

  /** A frame of two ticks, the second from what the first left, each with
      its own throwing tracks. */
  lemma WentTwo(p: Plan, t1: real, t2: real, r1: TickResult, q1: TickPass, r2: TickResult, q2: TickPass, faulty: seq<set<Track>>, c: Config)
    requires p.Run? && p.times == [t1, t2]
    requires Chained([t1], [r1], [q1], [FaultsAt(faulty, 0)], c) && Chained([t2], [r2], [q2], [FaultsAt(faulty, 1)], c)
    requires r1.fate == NoError || r1.fate == ErrorFate(c)
    requires r2.fate == NoError || r2.fate == ErrorFate(c)
    requires r1.fate != Rethrown && q2.from == Next(q1, Released(c, r1))
    ensures Went(p, [r1, r2], [q1, q2], q1.from, Next(q2, Released(c, r2)), faulty, c)
  {
    ChainOne(t1, r1, q1, FaultsAt(faulty, 0), c);
    ChainOne(t2, r2, q2, FaultsAt(faulty, 1), c);
  }

  /** The callbacks of the first `m` steps, in order. */
  function Fired(steps: seq<Step>, m: nat): seq<Event>
    requires m <= |steps|
  {
    if m == 0 then [] else Fired(steps, m - 1) + steps[m - 1].events
  }

  /** The tick of the `j`th track throws: a callback it fires belongs to a
      track in `faulty`. */
  predicate Throws(ts: seq<Track>, faulty: set<Track>, steps: seq<Step>, j: nat)
    requires j < |ts| && |steps| == |ts|
  {
    ts[j] in faulty && steps[j].events != []
  }

  /** The first fault is the one index with no fault before it and a fault
      at it, or the end. */
  lemma FaultBoundary(ts: seq<Track>, faulty: set<Track>, steps: seq<Step>, m: nat)
    requires |steps| == |ts| && m <= |ts|
    requires forall j :: 0 <= j < m ==> !Throws(ts, faulty, steps, j)
    requires m < |ts| ==> Throws(ts, faulty, steps, m)
    ensures FirstFault(ts, faulty, steps) == m
  {}

  /** The index of the first track whose tick throws: a track in `faulty`
      whose step fires a callback. `|ts|` when no tick throws. */
  function FirstFault(ts: seq<Track>, faulty: set<Track>, steps: seq<Step>): (k: nat)
    requires |steps| == |ts|
    ensures k <= |ts|
    ensures forall j :: 0 <= j < k ==> !Throws(ts, faulty, steps, j)
    ensures k < |ts| ==> Throws(ts, faulty, steps, k)
    decreases |ts|
  {
    if ts == [] then 0
    else if Throws(ts, faulty, steps, 0) then 0
    else
      assert forall j :: 1 <= j < |ts| ==> Throws(ts, faulty, steps, j) == Throws(ts[1..], faulty, steps[1..], j - 1);
      1 + FirstFault(ts[1..], faulty, steps[1..])
  }

  /** The id of the track behind timer `id`. */
  function TimeoutKey(id: nat): Key {
    Str("__timeout__" + Decimal(id))
  }

  /** Distinct timer ids name distinct tracks. */
  lemma TimeoutKeysDistinct(a: nat, b: nat)
    requires a != b
    ensures TimeoutKey(a) != TimeoutKey(b)
  {
    var p := "__timeout__";
    if TimeoutKey(a) == TimeoutKey(b) {
      assert (p + Decimal(a))[|p|..] == Decimal(a);
      assert (p + Decimal(b))[|p|..] == Decimal(b);
      DecimalInjective(a, b);
    }
  }

  class Timeline {
    /** The tracks; a timeline is a track group. */
    const group: TrackGroup

    var config: Config
    var currentTime: real
    var referenceTime: real
    var playing: bool
    var timeBeforePaused: real
    var timeoutID: nat
    var minFrametime: Ext
    var frame: Frame

    predicate Valid()
      reads this`config, this`minFrametime, group, group.tracks
    {
      Settled() && TracksReady()
    }

    /** The group keeps its tracks, the loop setting is usable and the frame
        interval follows the FPS cap. */
    predicate Settled()
      reads this`config, this`minFrametime, group, group.tracks`parent
    {
      && group.Valid()
      && LoopOK(config)
      && minFrametime == MinFrametime(config.maxFPS)
    }

    /** Every track is valid and can be ticked. */
    predicate TracksReady()
      reads group, group.tracks
    {
      forall i :: 0 <= i < |group.tracks| ==> group.tracks[i].Valid() && group.tracks[i].Tickable()
    }

    /** `new Timeline(options)`, reading `now` for the reference time. */
    constructor (o: TimelineOptions, now: real)
      requires LoopOK(ResolveConfig(o))
      ensures Valid() && fresh(group) && group.tracks == []
      ensures config == ResolveConfig(o)
      ensures currentTime == 0.0 && referenceTime == now && !playing && frame == Idle
      ensures timeoutID == 0 && timeBeforePaused == 0.0
    {
      group := new TrackGroup();
      config := ResolveConfig(o);
      minFrametime := MinFrametime(ResolveConfig(o).maxFPS);
      referenceTime := now;
      currentTime, playing, timeBeforePaused, timeoutID, frame := 0.0, false, 0.0, 0, Idle;
    }

    /** `seek(time)` at `now`: afterwards `now - referenceTime == currentTime`. */
    method Seek(time: real, now: real)
      modifies this`currentTime, this`referenceTime
      ensures currentTime == time && referenceTime == now - time
      ensures now - referenceTime == currentTime
    {
      currentTime := time;
      referenceTime := now - time;
    }

    /** `stop()`: not playing, no pending frame. */
    method Stop()
      modifies this`playing, this`frame
      ensures !playing && frame == Idle
    {
      playing := false;
      frame := Idle;
    }

    /** `pause()`: `stop()` that records the position. */
    method Pause()
      modifies this`playing, this`frame, this`timeBeforePaused
      ensures !playing && frame == Idle && timeBeforePaused == currentTime
    {
      playing := false;
      timeBeforePaused := currentTime;
      frame := Idle;
    }

    /** The loop of `tick()`: tick every track once at `currentTime`, in
        group order, until a callback of a track in `faulty` throws. The
        body completes the tick of the track that throws, where the source
        stops at the callback that throws; so the contract leaves that
        track's flags unstated and says only that it fired at least its
        first callback and at most all of them. */
    method TickTracks(faulty: set<Track>) returns (fired: seq<Event>, failed: bool)
      requires Valid()
      modifies group.tracks`inited, group.tracks`started, group.tracks`running, group.tracks`iteration
      ensures Valid()
      ensures Passed(group.tracks, faulty, old(Steps(group.tracks, currentTime)), old(States(group.tracks)), States(group.tracks), fired, failed)
      ensures Timings(group.tracks) == old(Timings(group.tracks))
    {
      ghost var ts := group.tracks;
      ghost var times := Timings(ts);
      fired, failed := TickSnapshot(faulty, ts, Steps(ts, currentTime), States(ts), times);
      TimingsAre(ts, times);
    }

    /** `TickTracks` against snapshots taken before the pass of the tracks'
        flags, their timings and the steps they take. */
    method TickSnapshot(faulty: set<Track>, ghost ts: seq<Track>, ghost ss: seq<Step>, ghost before: seq<Flags>, ghost times: seq<Timing>)
      returns (fired: seq<Event>, failed: bool)
      requires Valid() && group.tracks == ts
      requires Snapshot(ts, ss, before, times, currentTime) && Ticked(ts, ss, before, times, 0)
      modifies group.tracks`inited, group.tracks`started, group.tracks`running, group.tracks`iteration
      ensures Passed(ts, faulty, ss, before, States(ts), fired, failed)
      ensures Valid()
    {
      var n;
      fired, failed, n := TickInOrder(faulty, ts, ss, before, times);
      FaultBoundary(ts, faulty, ss, if failed then n - 1 else n);
      forall j | 0 <= j < |ts|
        ensures ts[j].Valid() && ts[j].Tickable()
      {
        if j < n {
          TickKeepsCoherent(ts[j].loop, ts[j].easing, times[j], before[j], currentTime);
        }
      }
    }

    /** The loop of `TickTracks`, against snapshots taken before it of the
        tracks' flags, their timings and the steps they take: the first `n`
        tracks tick, and the loop stops early only after a tick that throws. */
    method TickInOrder(faulty: set<Track>, ghost ts: seq<Track>, ghost ss: seq<Step>, ghost before: seq<Flags>, ghost times: seq<Timing>)
      returns (fired: seq<Event>, failed: bool, n: nat)
      requires group.tracks == ts && Distinct(ts)
      requires Snapshot(ts, ss, before, times, currentTime) && Ticked(ts, ss, before, times, 0)
      modifies group.tracks`inited, group.tracks`started, group.tracks`running, group.tracks`iteration
      ensures n <= |ts| && fired == Fired(ss, n) && Ticked(ts, ss, before, times, n)
      ensures failed <==> 0 < n && Throws(ts, faulty, ss, n - 1)
      ensures !failed ==> n == |ts|
      ensures forall j :: 0 <= j < n - (if failed then 1 else 0) ==> !Throws(ts, faulty, ss, j)
    {
      fired := [];
      failed := false;
      n := 0;
      while n < |group.tracks| && !failed
        invariant n <= |ts| && fired == Fired(ss, n) && Ticked(ts, ss, before, times, n)
        invariant failed <==> 0 < n && Throws(ts, faulty, ss, n - 1)
        invariant forall j :: 0 <= j < n - (if failed then 1 else 0) ==> !Throws(ts, faulty, ss, j)
      {
        var t := group.tracks[n];
        var e := TickNext(t, ts, ss, before, times, n);
        assert Fired(ss, n + 1) == Fired(ss, n) + ss[n].events;
        fired := fired + e;
        failed := t in faulty && e != [];
        n := n + 1;
      }
    }

    /** One turn of the loop: tick the `i`th track, which takes the step
        recorded for it; the others keep their flags. */
    method TickNext(t: Track, ghost ts: seq<Track>, ghost ss: seq<Step>, ghost before: seq<Flags>, ghost times: seq<Timing>, ghost i: nat)
      returns (e: seq<Event>)
      requires Distinct(ts) && i < |ts| && ts[i] == t
      requires Snapshot(ts, ss, before, times, currentTime) && Ticked(ts, ss, before, times, i)
      modifies t`inited, t`started, t`running, t`iteration
      ensures e == ss[i].events && Ticked(ts, ss, before, times, i + 1)
    {
      e := t.Tick(currentTime);
      forall j | 0 <= j < |ts| && j != i
        ensures ts[j] != t
      {
        DistinctApart(ts, i, j);
      }
    }

    /** `tick()`: the pass over the tracks, then `release` if `autoRelease`
        is set; an error thrown in the pass skips the release and is handled
        by the error policy. */
    method Tick(faulty: set<Track>) returns (res: TickResult)
      requires Valid()
      modifies group, group.tracks`inited, group.tracks`started, group.tracks`running, group.tracks`iteration, this`playing, this`frame
      ensures Valid()
      ensures forall i :: 0 <= i < |group.tracks| ==> group.tracks[i] in old(group.tracks)
      ensures Timings(old(group.tracks)) == old(Timings(group.tracks))
      ensures TickedAt(TickPass(old(RosterOf(group.tracks)), States(old(group.tracks))), faulty, currentTime, res)
      ensures res.fate == NoError ==> && playing == old(playing) && frame == old(frame)
                                      && group.tracks == if config.autoRelease then Survivors(old(group.tracks)) else old(group.tracks)
      ensures res.fate != NoError ==> && res.fate == ErrorFate(config) && group.tracks == old(group.tracks)
                                      && (res.fate == Rethrown ==> !playing && frame == Idle)
                                      && (res.fate != Rethrown ==> playing == old(playing) && frame == old(frame))
    {
      ghost var ts, r0 := group.tracks, RosterOf(group.tracks);
      assert Ready(r0);
      var fired, failed := TickTracks(faulty);
      ghost var after := States(ts);
      var fate := Settle(failed);
      res := TickResult(fired, fate);
      assert States(ts) == after;
    }

    /** What `tick()` does after its pass over the tracks: `release` when the
        pass completed and `autoRelease` is set, otherwise the error policy. */
    method Settle(failed: bool) returns (fate: Fate)
      requires Valid()
      modifies group, this`playing, this`frame
      ensures Valid()
      ensures forall i :: 0 <= i < |group.tracks| ==> group.tracks[i] in old(group.tracks)
      ensures States(old(group.tracks)) == old(States(group.tracks))
      ensures Timings(old(group.tracks)) == old(Timings(group.tracks))
      ensures !failed ==> && fate == NoError && playing == old(playing) && frame == old(frame)
                          && group.tracks == if config.autoRelease then Survivors(old(group.tracks)) else old(group.tracks)
      ensures failed ==> && fate == ErrorFate(config) && group.tracks == old(group.tracks)
                         && (fate == Rethrown ==> !playing && frame == Idle)
                         && (fate != Rethrown ==> playing == old(playing) && frame == old(frame))
    {
      if failed {
        fate := ErrorFate(config);
        if fate == Rethrown {
          Stop();
        }
      } else {
        if config.autoRelease {
          SurvivorsMembers(group.tracks);
          group.Release();
        }
        fate := NoError;
      }
    }

    /** `tick()` as a frame sees it: the pass it made from the tracks as
        they stood, what it left for the next tick, and whether its error
        stopped the timeline. */
    method FrameTick(faulty: set<Track>) returns (res: TickResult, ghost pass: TickPass)
      requires Valid()
      modifies group, group.tracks`inited, group.tracks`started, group.tracks`running, group.tracks`iteration, this`playing, this`frame
      ensures Valid()
      ensures forall i :: 0 <= i < |group.tracks| ==> group.tracks[i] in old(group.tracks)
      ensures pass.from == old(RosterOf(group.tracks)) && Chained([currentTime], [res], [pass], [faulty], config)
      ensures RosterOf(group.tracks) == Next(pass, Released(config, res))
      ensures res.fate == NoError || res.fate == ErrorFate(config)
      ensures res.fate == Rethrown ==> !playing && frame == Idle
      ensures res.fate != Rethrown ==> playing == old(playing) && frame == old(frame)
    {
      ghost var ts := group.tracks;
      ghost var r0 := RosterOf(ts);
      res := Tick(faulty);
      pass := TickPass(r0, States(ts));
      ChainOne(currentTime, res, pass, faulty, config);
      LeftBehind(ts, r0);
      if Released(config, res) {
        assert group.tracks == Survivors(ts);
      } else {
        assert group.tracks == ts;
      }
    }

    /** The frames of one `_autoTick` went as `p` planned: the ticks in `ran`
        were made at the first `|ran|` planned times, stopping early only on
        an error that propagates. `passes` are those ticks' passes over the
        tracks: the first from `start`, each later one from what the one
        before left, and the tracks end as the last one left them. The
        clock is where the last tick was made. */
    predicate Performed(p: Plan, ran: seq<TickResult>, passes: seq<TickPass>, start: Roster, faulty: seq<set<Track>>,
                        now: real, playingBefore: bool, frameBefore: Frame)
      reads this, group, group.tracks
    {
      && Went(p, ran, passes, start, RosterOf(group.tracks), faulty, config)
      && currentTime == p.times[|ran| - 1] && referenceTime == now - currentTime
      && (playing, frame) == Aftermath(ran[|ran| - 1].fate, p.ends, playingBefore, frameBefore, now)
    }

    /** The clock reading of a frame at `now`, clamped to `maxStep`. */
    method Advance(now: real)
      modifies this`currentTime, this`referenceTime
      ensures currentTime == Clamp(config.maxStep, old(currentTime), now - old(referenceTime))
      ensures referenceTime == now - currentTime
    {
      var natural := now - referenceTime;
      if config.maxStep.Fin? && natural - currentTime > config.maxStep.r {
        Seek(currentTime + config.maxStep.r, now);
      } else {
        currentTime := natural;
      }
    }

    /** The ticks of a frame at `now` once the clock has been read. */
    method Finish(now: real, faulty: seq<set<Track>>, ghost p: Plan, ghost start: Roster) returns (ran: seq<TickResult>, ghost passes: seq<TickPass>)
      requires Valid() && referenceTime == now - currentTime
      requires p == Ticks(config, currentTime) && start == RosterOf(group.tracks)
      modifies this`currentTime, this`referenceTime, this`playing, this`frame, group, group.tracks`inited, group.tracks`started, group.tracks`running, group.tracks`iteration
      ensures Valid()
      ensures Performed(p, ran, passes, start, faulty, now, old(playing), old(frame))
    {
      if AtOrAfter(currentTime, config.duration) {
        if config.loop {
          ran, passes := Restart(now, faulty, p, start);
        } else {
          ran, passes := FinalTick(now, faulty, p, start);
        }
      } else {
        ran, passes := Continue(now, faulty, p, start);
      }
    }

    /** The last frame of a timeline that does not loop: it stops, and ticks
        once at the duration. */
    method FinalTick(now: real, faulty: seq<set<Track>>, ghost p: Plan, ghost start: Roster) returns (ran: seq<TickResult>, ghost passes: seq<TickPass>)
      requires Valid() && referenceTime == now - currentTime
      requires !config.loop && AtOrAfter(currentTime, config.duration)
      requires p == Ticks(config, currentTime) && start == RosterOf(group.tracks)
      modifies this`currentTime, this`referenceTime, this`playing, this`frame, group, group.tracks`inited, group.tracks`started, group.tracks`running, group.tracks`iteration
      ensures Valid()
      ensures Performed(p, ran, passes, start, faulty, now, old(playing), old(frame))
    {
      playing := false;
      var r, q := SeekTick(config.duration.r, now, FaultsAt(faulty, 0), false, start);
      ran, passes := [r], [q];
      WentOne(p, currentTime, r, q, faulty, config);
    }

    /** A frame before the duration: one tick at the clock reading, and the
        next frame. */
    method Continue(now: real, faulty: seq<set<Track>>, ghost p: Plan, ghost start: Roster) returns (ran: seq<TickResult>, ghost passes: seq<TickPass>)
      requires Valid() && referenceTime == now - currentTime
      requires !AtOrAfter(currentTime, config.duration)
      requires p == Ticks(config, currentTime) && start == RosterOf(group.tracks)
      modifies this`playing, this`frame, group, group.tracks`inited, group.tracks`started, group.tracks`running, group.tracks`iteration
      ensures Valid()
      ensures Performed(p, ran, passes, start, faulty, now, old(playing), old(frame))
    {
      var r, q := TickAndSchedule(now, FaultsAt(faulty, 0), start);
      ran, passes := [r], [q];
      WentOne(p, currentTime, r, q, faulty, config);
    }

    /** The loop restart of a frame that reached the duration: a tick just
        before 0, which resets the tracks, then a tick at the wrapped time. */
    method Restart(now: real, faulty: seq<set<Track>>, ghost p: Plan, ghost start: Roster) returns (ran: seq<TickResult>, ghost passes: seq<TickPass>)
      requires Valid() && referenceTime == now - currentTime
      requires config.loop && AtOrAfter(currentTime, config.duration)
      requires p == Ticks(config, currentTime) && start == RosterOf(group.tracks)
      modifies this`currentTime, this`referenceTime, this`playing, this`frame, group, group.tracks`inited, group.tracks`started, group.tracks`running, group.tracks`iteration
      ensures Valid()
      ensures Performed(p, ran, passes, start, faulty, now, old(playing), old(frame))
    {
      var backup := currentTime;
      ran, passes := Reset(now, faulty, Mod(backup, config.duration.r), p, start);
    }

    /** The tick just before 0 of a loop restart and, unless its error
        propagates, the tick at the wrapped time `time`. */
    method Reset(now: real, faulty: seq<set<Track>>, time: real, ghost p: Plan, ghost start: Roster) returns (ran: seq<TickResult>, ghost passes: seq<TickPass>)
      requires Valid() && p == Run([-Epsilon, time], false) && start == RosterOf(group.tracks)
      modifies this`currentTime, this`referenceTime, this`playing, this`frame, group, group.tracks`inited, group.tracks`started, group.tracks`running, group.tracks`iteration
      ensures Valid()
      ensures Performed(p, ran, passes, start, faulty, now, old(playing), old(frame))
    {
      var r1, q1 := SeekTick(-Epsilon, now, FaultsAt(faulty, 0), false, start);
      if r1.fate == Rethrown {
        ran, passes := [r1], [q1];
        WentOne(p, -Epsilon, r1, q1, faulty, config);
      } else {
        ran, passes := Wrap(now, faulty, time, p, start, r1, q1, old(playing), old(frame));
      }
    }

    /** The second tick of a loop restart, at the wrapped time `time`, after
        the first tick `r1` made the pass `q1` from `start`, and the next
        frame. As in `TickAndSchedule`, the frame is requested first. */
    method Wrap(now: real, faulty: seq<set<Track>>, time: real, ghost p: Plan, ghost start: Roster, r1: TickResult, ghost q1: TickPass,
                ghost playingBefore: bool, ghost frameBefore: Frame) returns (ran: seq<TickResult>, ghost passes: seq<TickPass>)
      requires Valid() && p == Run([-Epsilon, time], false)
      requires q1.from == start && Chained([-Epsilon], [r1], [q1], [FaultsAt(faulty, 0)], config) && RosterOf(group.tracks) == Next(q1, Released(config, r1))
      requires r1.fate == NoError || r1.fate == ErrorFate(config)
      requires r1.fate != Rethrown && playing == playingBefore
      modifies this`currentTime, this`referenceTime, this`playing, this`frame, group, group.tracks`inited, group.tracks`started, group.tracks`running, group.tracks`iteration
      ensures Valid()
      ensures Performed(p, ran, passes, start, faulty, now, playingBefore, frameBefore)
    {
      var r2, q2 := SeekTick(time, now, FaultsAt(faulty, 1), true, Next(q1, Released(config, r1)));
      ran, passes := [r1, r2], [q1, q2];
      assert currentTime == p.times[|ran| - 1] && referenceTime == now - currentTime;
      assert (playing, frame) == Aftermath(ran[|ran| - 1].fate, p.ends, playingBefore, frameBefore, now);
      WentTwo(p, -Epsilon, time, r1, q1, r2, q2, faulty, config);
    }

    /** `seek(time)` and `tick()` in a frame, from the tracks `start`. */
    method SeekTick(time: real, now: real, faulty: set<Track>, schedule: bool, ghost start: Roster) returns (res: TickResult, ghost pass: TickPass)
      requires Valid() && start == RosterOf(group.tracks)
      modifies this`currentTime, this`referenceTime, this`playing, this`frame, group, group.tracks`inited, group.tracks`started, group.tracks`running, group.tracks`iteration
      ensures Valid()
      ensures currentTime == time && referenceTime == now - time
      ensures forall i :: 0 <= i < |group.tracks| ==> group.tracks[i] in old(group.tracks)
      ensures pass.from == start && Chained([time], [res], [pass], [faulty], config)
      ensures RosterOf(group.tracks) == Next(pass, Released(config, res))
      ensures res.fate == NoError || res.fate == ErrorFate(config)
      ensures res.fate == Rethrown ==> !playing && frame == Idle
      ensures res.fate != Rethrown ==> playing == old(playing) && frame == if schedule then Scheduled(now) else old(frame)
    {
      if schedule {
        frame := Scheduled(now);
      }
      Seek(time, now);
      assert start == RosterOf(group.tracks);
      res, pass := FrameTick(faulty);
      assert currentTime == time && referenceTime == now - time;
    }

    /** A tick of a frame that keeps playing: unless its error propagates,
        the next frame is scheduled with `now` as its previous time. The
        request is made before the tick here; an error that propagates
        cancels it again, since `tick()` then calls `stop()`, so the result
        is that of requesting it after a tick that returns. */
    method TickAndSchedule(now: real, faulty: set<Track>, ghost start: Roster) returns (res: TickResult, ghost pass: TickPass)
      requires Valid() && start == RosterOf(group.tracks)
      modifies group, group.tracks`inited, group.tracks`started, group.tracks`running, group.tracks`iteration, this`playing, this`frame
      ensures Valid()
      ensures pass.from == start && Chained([currentTime], [res], [pass], [faulty], config)
      ensures RosterOf(group.tracks) == Next(pass, Released(config, res))
      ensures res.fate == NoError || res.fate == ErrorFate(config)
      ensures res.fate == Rethrown ==> !playing && frame == Idle
      ensures res.fate != Rethrown ==> playing == old(playing) && frame == Scheduled(now)
    {
      frame := Scheduled(now);
      res, pass := FrameTick(faulty);
    }

    /** `_autoTick(last)` fired at `now`: the FPS cap, the max-step clamp, and
        at the duration either the loop restart or the final tick. The frame
        that fired is used up; a new one is scheduled only as stated. */
    method AutoTick(now: real, last: Option<real>, faulty: seq<set<Track>>) returns (ran: seq<TickResult>, ghost passes: seq<TickPass>)
      requires Valid()
      modifies this`currentTime, this`referenceTime, this`playing, this`frame, group, group.tracks`inited, group.tracks`started, group.tracks`running, group.tracks`iteration
      ensures Valid()
      ensures var p := old(PlanFrame(config, minFrametime, currentTime, referenceTime, now, last));
        && (p.Skip? ==> && ran == [] && frame == Scheduled(last.value) && playing == old(playing)
                        && currentTime == old(currentTime) && referenceTime == old(referenceTime)
                        && unchanged(group) && unchanged(set t | t in old(group.tracks)))
        && (p.Run? ==> Performed(p, ran, passes, old(RosterOf(group.tracks)), faulty, now, old(playing), Idle))
    {
      passes := [];
      if last.Some? {
        var step := now - last.value;
        if Before(step, minFrametime) {
          frame := Scheduled(last.value);
          return [], passes;
        }
      }
      ran, passes := Frame(now, faulty, PlanFrame(config, minFrametime, currentTime, referenceTime, now, last), RosterOf(group.tracks));
    }

    /** A frame at `now` that the FPS cap lets through: the pending frame is
        used up, the clock is read and clamped, and the frame's ticks `p`
        are made from the tracks `start`. */
    method Frame(now: real, faulty: seq<set<Track>>, ghost p: Plan, ghost start: Roster) returns (ran: seq<TickResult>, ghost passes: seq<TickPass>)
      requires Valid() && start == RosterOf(group.tracks)
      requires p == Ticks(config, Clamp(config.maxStep, currentTime, now - referenceTime))
      modifies this`currentTime, this`referenceTime, this`playing, this`frame, group, group.tracks`inited, group.tracks`started, group.tracks`running, group.tracks`iteration
      ensures Valid()
      ensures Performed(p, ran, passes, start, faulty, now, old(playing), Idle)
    {
      frame := Idle;
      Advance(now);
      ran, passes := Finish(now, faulty, p, start);
    }

    /** `play()`: stop a running play, rebase the clock on the reading `now`
        and run the first frame, which reads the clock again at `later` and
        has no previous frame time. */
    method Play(now: real, later: real, faulty: seq<set<Track>>) returns (ran: seq<TickResult>, ghost passes: seq<TickPass>)
      requires Valid()
      modifies this`currentTime, this`referenceTime, this`playing, this`frame, group, group.tracks`inited, group.tracks`started, group.tracks`running, group.tracks`iteration
      ensures Valid()
      ensures Performed(old(PlanFrame(config, minFrametime, currentTime, now, later, None)), ran, passes,
                        old(RosterOf(group.tracks)), faulty, later, true, Idle)
    {
      ghost var p, start := PlanFrame(config, minFrametime, currentTime, now, later, None), RosterOf(group.tracks);
      if playing {
        Stop();
      }
      playing := true;
      referenceTime := now;
      assert p == PlanFrame(config, minFrametime, currentTime, referenceTime, later, None);
      assert start == RosterOf(group.tracks);
      ran, passes := AutoTick(later, None, faulty);
    }

    /** `resume()`: pause (recording the position), seek back to it at the
        reading `now`, and run a first frame, which reads the clock again at
        `later`. */
    method Resume(now: real, later: real, faulty: seq<set<Track>>) returns (ran: seq<TickResult>, ghost passes: seq<TickPass>)
      requires Valid()
      modifies this`currentTime, this`referenceTime, this`playing, this`frame, this`timeBeforePaused, group, group.tracks`inited, group.tracks`started, group.tracks`running, group.tracks`iteration
      ensures Valid() && timeBeforePaused == old(currentTime)
      ensures Performed(old(PlanFrame(config, minFrametime, currentTime, now - currentTime, later, None)), ran, passes,
                        old(RosterOf(group.tracks)), faulty, later, true, Idle)
    {
      ghost var p, start := PlanFrame(config, minFrametime, currentTime, now - currentTime, later, None), RosterOf(group.tracks);
      Pause();
      ran, passes := Unpause(now, later, faulty, p, start);
    }

    /** The rest of `resume()` once paused: seek back to the recorded
        position at the reading `now`, and run the first frame at `later`. */
    method Unpause(now: real, later: real, faulty: seq<set<Track>>, ghost p: Plan, ghost start: Roster) returns (ran: seq<TickResult>, ghost passes: seq<TickPass>)
      requires Valid() && start == RosterOf(group.tracks)
      requires p == PlanFrame(config, minFrametime, timeBeforePaused, now - timeBeforePaused, later, None)
      modifies this`currentTime, this`referenceTime, this`playing, this`frame, group, group.tracks`inited, group.tracks`started, group.tracks`running, group.tracks`iteration
      ensures Valid()
      ensures Performed(p, ran, passes, start, faulty, later, true, Idle)
    {
      Seek(timeBeforePaused, now);
      playing := true;
      assert p == PlanFrame(config, minFrametime, currentTime, referenceTime, later, None);
      assert start == RosterOf(group.tracks);
      ran, passes := AutoTick(later, None, faulty);
    }

    /** `add(options)` through the timeline; a looping track needs a finite
        positive duration. */
    method Add(opts: TrackOptions) returns (r: Result<Track, TrackError>)
      requires Valid()
      requires var res := ResolveTiming(opts.startTime, opts.endTime, opts.duration);
        res.Ok? && opts.loop == Some(true) ==> LoopReady(res.value)
      modifies group
      ensures Valid()
      ensures var res := ResolveTiming(opts.startTime, opts.endTime, opts.duration);
        && (res.Err? ==> r == Err(res.error) && group.tracks == old(group.tracks))
        && (res.Ok? ==> r.Ok? && fresh(r.value) && r.value.parent == group
                        && r.value.Times() == res.value && r.value.id == opts.id
                        && r.value.loop == (opts.loop == Some(true)) && r.value.easing == opts.easing
                        && r.value.State() == Flags(true, false, false, false, 0)
                        && group.tracks == old(group.tracks) + [r.value])
    {
      r := group.Add(opts);
    }

    /** `setTimeout(callback, delay)`: a one-shot track whose `onStart` is the
        callback, `delay` (default 10, negative read as 0) after `currentTime`.
        The id is consumed even when the track cannot be built. */
    method SetTimeout(delay: Option<real>) returns (r: Result<nat, TrackError>)
      requires Valid()
      modifies this`timeoutID, group
      ensures Valid() && timeoutID == old(timeoutID) + 1
      ensures var d := if delay.None? then 10.0 else if delay.value < 0.0 then 0.0 else delay.value;
        && (old(currentTime) + d >= 0.0 ==>
              && r == Ok(old(timeoutID)) && |group.tracks| == |old(group.tracks)| + 1
              && group.tracks[..|group.tracks| - 1] == old(group.tracks)
              && var t := group.tracks[|group.tracks| - 1];
                 && fresh(t) && t.id == TimeoutKey(old(timeoutID)) && !t.loop && t.easing == None
                 && t.State() == Flags(true, false, false, false, 0)
                 && t.Times() == Timing(currentTime + d, Fin(1000.0), Fin(currentTime + d + 1000.0)))
        && (old(currentTime) + d < 0.0 ==> r == Err(NegativeStart) && group.tracks == old(group.tracks))
    {
      var time := if delay.None? then 10.0 else delay.value;
      if time < 0.0 {
        time := 0.0;
      }
      r := AddTimer(false, currentTime + time, 1000.0);
    }

    /** `setInterval(callback, delay)`: a looping track of period `delay`
        starting `delay` after `currentTime`; its `onStart` fires once per cycle. */
    method SetInterval(delay: Option<real>) returns (r: Result<nat, TrackError>)
      requires Valid()
      requires delay.None? || delay.value > 0.0
      modifies this`timeoutID, group
      ensures Valid() && timeoutID == old(timeoutID) + 1
      ensures var d := if delay.None? then 10.0 else delay.value;
        && (old(currentTime) + d >= 0.0 ==>
              && r == Ok(old(timeoutID)) && |group.tracks| == |old(group.tracks)| + 1
              && group.tracks[..|group.tracks| - 1] == old(group.tracks)
              && var t := group.tracks[|group.tracks| - 1];
                 && fresh(t) && t.id == TimeoutKey(old(timeoutID)) && t.loop && t.easing == None
                 && t.State() == Flags(true, false, false, false, 0)
                 && t.Times() == Timing(currentTime + d, Fin(d), Fin(currentTime + d + d)))
        && (old(currentTime) + d < 0.0 ==> r == Err(NegativeStart) && group.tracks == old(group.tracks))
    {
      var time := if delay.None? then 10.0 else delay.value;
      r := AddTimer(true, currentTime + time, time);
    }

    /** What `setTimeout` and `setInterval` share: take the next timer id and
        add a fresh, unstarted track under its key, starting at `start` and
        lasting `duration`. */
    method AddTimer(loop: bool, start: real, duration: real) returns (r: Result<nat, TrackError>)
      requires Valid()
      requires duration >= 0.0 && (loop ==> duration > 0.0)
      modifies this`timeoutID, group
      ensures Valid() && timeoutID == old(timeoutID) + 1
      ensures start >= 0.0 ==>
        && r == Ok(old(timeoutID)) && |group.tracks| == |old(group.tracks)| + 1
        && group.tracks[..|group.tracks| - 1] == old(group.tracks)
        && var t := group.tracks[|group.tracks| - 1];
           && fresh(t) && t.id == TimeoutKey(old(timeoutID)) && t.loop == loop && t.easing == None
           && t.State() == Flags(true, false, false, false, 0)
           && t.Times() == Timing(start, Fin(duration), Fin(start + duration))
      ensures start < 0.0 ==> r == Err(NegativeStart) && group.tracks == old(group.tracks)
    {
      var id := timeoutID;
      timeoutID := timeoutID + 1;
      var opts := TrackOptions(TimeoutKey(id), Some(loop), Some(start), None, Some(Fin(duration)), None);
      assert ResolveTiming(opts.startTime, opts.endTime, opts.duration)
        == if start < 0.0 then Err(NegativeStart) else Ok(Timing(start, Fin(duration), Fin(start + duration)));
      var added := group.Add(opts);
      r := if added.Ok? then Ok(id) else Err(added.error);
      if added.Ok? {
        assert group.tracks[..|group.tracks| - 1] == old(group.tracks);
      }
    }

    /** `clearTimeout(id)` (and `clearInterval(id)`): kill the first track
        carrying the timer's id, if there is one; nothing else changes. */
    method ClearTimeout(id: nat)
      requires Valid()
      modifies group.tracks`alive
      ensures Valid()
      ensures var w := WithId(group.tracks, TimeoutKey(id));
        forall i :: 0 <= i < |group.tracks| ==>
          var t := group.tracks[i];
          && t.Times() == old(t.Times()) && t.parent == old(t.parent)
          && t.State() == old(t.State()).(alive := old(t.alive) && !(w != [] && t == w[0]))
    {
      var found := group.GetTracksByID(TimeoutKey(id));
      if found != [] {
        assert found[0] in found;
        Kill(found[0]);
      }
    }

    /** `track.alive = false` on one of the timeline's tracks. */
    method Kill(track: Track)
      requires Valid() && track in group.tracks
      modifies track`alive
      ensures Valid()
      ensures forall i :: 0 <= i < |group.tracks| ==>
          var t := group.tracks[i];
          && t.Times() == old(t.Times()) && t.parent == old(t.parent)
          && t.State() == old(t.State()).(alive := old(t.alive) && t != track)
    {
      track.alive := false;
    }

    /** `updateMaxFPS(maxFPS)`: refused for a non-positive rate, which changes nothing. */
    method UpdateMaxFPS(maxFPS: Ext) returns (r: Outcome<TimelineError>)
      requires Valid()
      modifies this`config, this`minFrametime
      ensures Valid()
      ensures maxFPS.Fin? && maxFPS.r <= 0.0 ==> r == Fail(NonPositiveMaxFPS) && config == old(config) && minFrametime == old(minFrametime)
      ensures !(maxFPS.Fin? && maxFPS.r <= 0.0) ==> r == Pass && config == old(config).(maxFPS := maxFPS) && minFrametime == MinFrametime(maxFPS)
    {
      if maxFPS.Fin? && maxFPS.r <= 0.0 {
        return Fail(NonPositiveMaxFPS);
      }
      config := config.(maxFPS := maxFPS);
      minFrametime := MinFrametime(maxFPS);
      r := Pass;
    }

    /** `dispose()` (alias `destroy()`): stop and drop every track. */
    method Dispose()
      requires Valid()
      modifies this`playing, this`frame, group
      ensures Valid() && !playing && frame == Idle && group.tracks == []
    {
      Stop();
      group.RemoveAll();
    }
  }
}

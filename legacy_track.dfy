/** The `Track` embedded in the legacy `Timeline.js`, the one the exported
    timeline and its Origin/Shadow subclasses use. Unlike the typed track
    it has no separate alive/expired protocol: it keeps a `loopTime`
    counter, clears `inited` while it runs, and kills itself on the first
    tick after it has played to the end. */
module LegacyTracks {
  import opened Base
  import opened TrackLifecycle

  datatype LegacyError = WrongParameters

  /** The options of `new Track({...})`; `None` is a key left out. */
  datatype LegacyOptions = LegacyOptions(
    id: Key,
    loop: bool,
    startTime: Option<real>,
    endTime: Option<Ext>,
    duration: Option<Ext>)

  /** JavaScript truthiness of an optional time: absent and 0 are false. */
  predicate Given(x: Option<Ext>) {
    x.Some? && x.value != Fin(0.0)
  }

  /** The constructor's timing: a given `endTime` decides the duration, a
      given `duration` decides the end, neither means Infinity; a negative
      start or an end not after the start is refused. */
  function LegacyTiming(o: LegacyOptions): (r: Result<Timing, LegacyError>)
    ensures var s := if o.startTime.Some? then o.startTime.value else 0.0;
      && (r.Ok? ==> Consistent(r.value) && r.value.startTime == s && Before(s, r.value.endTime))
      && (Given(o.endTime) ==> (r.Ok? <==> s >= 0.0 && Before(s, o.endTime.value))
                               && (r.Ok? ==> r.value.endTime == o.endTime.value))
      && (!Given(o.endTime) && Given(o.duration) ==>
            (r.Ok? <==> s >= 0.0 && Before(0.0, o.duration.value))
            && (r.Ok? ==> r.value.duration == o.duration.value))
      && (!Given(o.endTime) && !Given(o.duration) ==>
            (r.Ok? <==> s >= 0.0) && (r.Ok? ==> r.value.duration == PosInf && r.value.endTime == PosInf))
  {
    var s := if o.startTime.Some? then o.startTime.value else 0.0;
    var tm :=
      if Given(o.endTime) then Timing(s, Minus(o.endTime.value, s), o.endTime.value)
      else
        var d := if Given(o.duration) then o.duration.value else PosInf;
        Timing(s, d, Plus(s, d));
    if s < 0.0 || !Before(s, tm.endTime) then Err(WrongParameters) else Ok(tm)
  }

  /** What the legacy tick needs of a timing: a positive duration, finite
      whenever the end is. `_safeClip` can break `endTime == startTime +
      duration`, so the tick does not rely on it. */
  predicate Spaced(tm: Timing) {
    && (tm.duration.Fin? ==> tm.duration.r > 0.0)
    && (tm.endTime.Fin? ==> tm.duration.Fin?)
  }

  /** Every timing the constructor accepts is spaced. */
  lemma ResolvedIsSpaced(o: LegacyOptions)
    requires LegacyTiming(o).Ok?
    ensures Spaced(LegacyTiming(o).value)
  {
    var tm := LegacyTiming(o).value;
    if tm.duration.Fin? {
      assert tm.endTime == Plus(tm.startTime, tm.duration);
    }
  }

  /** `_safeClip(end)` against the timeline's duration `end`: a start at 0
      moves to 0.5, a start at or past `end` moves to `end - 1`, and an end
      at or past `end` moves to `end - 0.5` with the duration stretched to
      `end - startTime`. */
  function Clip(tm: Timing, end: Ext): (r: Timing)
    ensures var s1 := if tm.startTime == 0.0 then 0.5 else tm.startTime;
      && r.startTime == (if AtOrAfter(s1, end) then end.r - 1.0 else s1)
      && (LessEq(end, tm.endTime) ==> r.endTime == Minus(end, 0.5) && r.duration == Minus(end, r.startTime))
      && (!LessEq(end, tm.endTime) ==> r.endTime == tm.endTime && r.duration == tm.duration)
  {
    var s1 := if tm.startTime == 0.0 then 0.5 else tm.startTime;
    var s2 := if AtOrAfter(s1, end) then end.r - 1.0 else s1;
    if LessEq(end, tm.endTime) then Timing(s2, Minus(end, s2), Minus(end, 0.5))
    else Timing(s2, tm.duration, tm.endTime)
  }

  /** Clipping keeps a timing spaced, and a clipped start lies before a
      finite timeline end. */
  lemma ClipKeepsSpaced(tm: Timing, end: Ext)
    requires Spaced(tm)
    ensures Spaced(Clip(tm, end))
    ensures end.Fin? ==> Clip(tm, end).startTime < end.r
  {}

  /** What the clip is for: a track cut at a finite timeline end reports a
      progress below 1 at its (new) end time. */
  lemma ClipKeepsProgressBelowOne(tm: Timing, end: Ext)
    requires end.Fin? && LessEq(end, tm.endTime)
    ensures var c := Clip(tm, end);
      c.endTime.Fin? && c.duration.Fin? && c.duration.r > 0.0
      && (c.endTime.r - c.startTime) / c.duration.r < 1.0
  {
    var c := Clip(tm, end);
    var d := c.duration.r;
    assert c.endTime.r - c.startTime == d - 0.5;
    assert (d - 0.5) / d == 1.0 - 0.5 / d;
  }

  /** The mutable state of a legacy track. */
  datatype LegacyFlags = LegacyFlags(alive: bool, running: bool, inited: bool, started: bool, loopTime: int)

  /** `running` implies `started`, as every branch of the tick keeps it. */
  predicate RunsStarted(f: LegacyFlags) {
    f.running ==> f.started
  }

  datatype LegacyStep = LegacyStep(flags: LegacyFlags, events: seq<Event>)

  /** JavaScript `x % d` for `d > 0`: the remainder takes the sign of `x`. */
  function JsRem(x: real, d: real): (r: real)
    requires d > 0.0
    ensures x >= 0.0 ==> 0.0 <= r < d
    ensures x < 0.0 ==> -d < r <= 0.0
  {
    var q := x / d;
    var t := if q >= 0.0 then q.Floor as real else -((-q).Floor as real);
    RemainderBounds(x, d, q, t);
    x - d * t
  }

  /** `x - d * trunc(x / d)` lies within one `d` of 0, on the side of `x`. */
  lemma RemainderBounds(x: real, d: real, q: real, t: real)
    requires d > 0.0 && q == x / d
    requires t == if q >= 0.0 then q.Floor as real else -((-q).Floor as real)
    ensures x >= 0.0 ==> 0.0 <= x - d * t < d
    ensures x < 0.0 ==> -d < x - d * t <= 0.0
  {
    assert d * q == x;
    if x >= 0.0 {
      assert q >= 0.0;
      ScaledFraction(x, d, d * t, q - t);
    } else {
      assert q < 0.0;
      ScaledFraction(d * t, d, x, t - q);
    }
  }

  /** `time > endTime`. */
  predicate PastEnd(tm: Timing, time: real) {
    !LessEq(Fin(time), tm.endTime)
  }

  /** `(time - startTime) / duration`; 0 for an infinite duration. */
  function Progress(tm: Timing, time: real): real
    requires Spaced(tm)
  {
    if tm.duration.PosInf? then 0.0 else (time - tm.startTime) / tm.duration.r
  }

  /** `Math.floor((time - startTime) / duration)`: the loop cycle of a time past the end. */
  function LoopCycle(tm: Timing, time: real): int
    requires Spaced(tm) && PastEnd(tm, time)
  {
    ((time - tm.startTime) / tm.duration.r).Floor
  }

  /** `(time - startTime) % duration + startTime`: a time past the end folded back. */
  function Fold(tm: Timing, time: real): real
    requires Spaced(tm) && PastEnd(tm, time)
  {
    JsRem(time - tm.startTime, tm.duration.r) + tm.startTime
  }

  /** `tick(time)` of the legacy track: a loop track past its end either
      starts a new cycle (onStart, onUpdate, onEnd at once) or goes on with
      the folded time; then before the start, past the end, or inside. */
  function LegacyTick(loop: bool, tm: Timing, f: LegacyFlags, time: real): LegacyStep
    requires Spaced(tm)
  {
    if !f.alive then LegacyStep(f, [])
    else if loop && PastEnd(tm, time) && f.loopTime != LoopCycle(tm, time) then
      var t := Fold(tm, time);
      LegacyStep(f.(loopTime := LoopCycle(tm, time)), [Start, Update(Fin(t), Progress(tm, t)), End])
    else
      var t := if loop && PastEnd(tm, time) then Fold(tm, time) else time;
      if t < tm.startTime then
        var g := f.(running := false);
        LegacyStep(if f.inited then g else g.(inited := true, started := false),
                   (if f.running then [Update(Fin(t), 1.0), End] else []) + (if f.inited then [] else [Init]))
      else if PastEnd(tm, t) then
        if f.running then LegacyStep(f.(running := false), [Update(Fin(t), 1.0), End])
        else if !f.started then
          LegacyStep(f.(inited := true, started := true), (if f.inited then [] else [Init]) + [Start, Update(Fin(t), 1.0), End])
        else LegacyStep(f.(alive := false), [])
      else if f.running then LegacyStep(f, [Update(Fin(t), Progress(tm, t))])
      else LegacyStep(f.(running := true, inited := false, started := true), [Start, Update(Fin(t), Progress(tm, t))])
  }

  // ---------------------------------------------------------------------
  // Properties of one legacy tick

  /** A dead track ignores the tick; a live one is never revived or killed
      except by the tick after it has played to the end; coherence is kept. */
  lemma StepKeepsRunsStarted(loop: bool, tm: Timing, f: LegacyFlags, time: real)
    requires Spaced(tm) && RunsStarted(f)
    ensures var s := LegacyTick(loop, tm, f, time);
      && RunsStarted(s.flags)
      && (!f.alive ==> s == LegacyStep(f, []))
      && (s.flags.alive != f.alive ==> f.alive && f.started && !f.running && s.events == [])
  {}

  /** A loop track past its end that enters a new cycle fires onStart,
      onUpdate and onEnd once each, in that order, at a folded time, and
      records the cycle. When its start precedes its end, the folded time
      lies within one period after the start. */
  lemma LoopNewCycle(tm: Timing, f: LegacyFlags, time: real)
    requires Spaced(tm) && f.alive && PastEnd(tm, time) && f.loopTime != LoopCycle(tm, time)
    ensures var s := LegacyTick(true, tm, f, time);
      && |s.events| == 3 && s.events[0] == Start && s.events[1].Update? && s.events[2] == End
      && s.flags == f.(loopTime := LoopCycle(tm, time))
      && s.events[1].at.Fin?
      && (LessEq(Fin(tm.startTime), tm.endTime) ==>
            tm.startTime <= s.events[1].at.r < tm.startTime + tm.duration.r)
  {}

  /** A live non-loop track past its end (and not before its start, which
      a clipped timing can put after its end): a running one finishes (update at
      progress 1, then onEnd), one that never started plays its whole life at
      once, and one that already finished dies silently. It is never left
      running. */
  lemma PastEndOutcomes(tm: Timing, f: LegacyFlags, time: real)
    requires Spaced(tm) && RunsStarted(f) && f.alive && time >= tm.startTime && PastEnd(tm, time)
    ensures var s := LegacyTick(false, tm, f, time);
      && !s.flags.running
      && (f.running ==> s.events == [Update(Fin(time), 1.0), End] && s.flags.alive && s.flags.started)
      && (!f.started ==> s.events == (if f.inited then [] else [Init]) + [Start, Update(Fin(time), 1.0), End]
                          && s.flags.started && s.flags.inited && s.flags.alive)
      && (f.started && !f.running ==> s.events == [] && !s.flags.alive)
  {}

  /** First entry into the window `[startTime, endTime]` fires onStart then
      onUpdate at the elapsed fraction and clears `inited`; a running track
      only updates. */
  lemma InsideWindow(tm: Timing, f: LegacyFlags, time: real)
    requires Spaced(tm) && RunsStarted(f) && f.alive && tm.startTime <= time && !PastEnd(tm, time)
    ensures var s := LegacyTick(false, tm, f, time);
      var up := Update(Fin(time), Progress(tm, time));
      && s.flags.running && s.flags.started && s.flags.alive
      && (f.running ==> s == LegacyStep(f, [up]))
      && (!f.running ==> s.events == [Start, up] && !s.flags.inited)
  {}

  /** Before the start a running track is finished (update at 1, then onEnd)
      and a track that is not inited fires onInit and forgets that it started. */
  lemma BeforeStart(tm: Timing, f: LegacyFlags, time: real)
    requires Spaced(tm) && f.alive && time < tm.startTime
    ensures var s := LegacyTick(false, tm, f, time);
      && !s.flags.running && s.flags.inited && s.flags.alive
      && s.events == (if f.running then [Update(Fin(time), 1.0), End] else []) + (if f.inited then [] else [Init])
      && (!f.inited ==> !s.flags.started)
  {}

  /** The legacy track. Its callbacks are recorded as the events a tick
      returns. */
  class LegacyTrack {
    const id: Key
    const uuid: nat
    const loop: bool

    var startTime: real
    var duration: Ext
    var endTime: Ext

    var alive: bool
    var running: bool
    var inited: bool
    var started: bool
    var loopTime: int

    function State(): LegacyFlags
      reads this`alive, this`running, this`inited, this`started, this`loopTime
    {
      LegacyFlags(alive, running, inited, started, loopTime)
    }

    function Times(): Timing
      reads this`startTime, this`duration, this`endTime
    {
      Timing(startTime, duration, endTime)
    }

    predicate Valid()
      reads this`startTime, this`duration, this`endTime
      reads this`alive, this`running, this`inited, this`started, this`loopTime
    {
      Spaced(Times()) && RunsStarted(State())
    }

    /** `new Track(options)` for options the constructor accepts; an absent
        id becomes the empty string. */
    constructor (o: LegacyOptions, uuid: nat)
      requires LegacyTiming(o).Ok?
      ensures Valid() && Times() == LegacyTiming(o).value
      ensures id == (if o.id == Undefined then Str("") else o.id) && this.uuid == uuid && loop == o.loop
      ensures State() == LegacyFlags(true, false, true, false, 0)
    {
      var tm := LegacyTiming(o).value;
      ResolvedIsSpaced(o);
      id := if o.id == Undefined then Str("") else o.id;
      this.uuid := uuid;
      loop := o.loop;
      startTime, duration, endTime := tm.startTime, tm.duration, tm.endTime;
      alive, running, inited, started, loopTime := true, false, true, false, 0;
    }

    /** `_safeClip(end)`. */
    method SafeClip(end: Ext)
      requires Valid()
      modifies this`startTime, this`duration, this`endTime
      ensures Valid() && Times() == Clip(old(Times()), end)
    {
      ClipKeepsSpaced(Times(), end);
      if startTime == 0.0 {
        startTime := 0.5;
      }
      if AtOrAfter(startTime, end) {
        startTime := end.r - 1.0;
      }
      if LessEq(end, endTime) {
        endTime := Minus(end, 0.5);
        duration := Minus(end, startTime);
      }
    }

    /** `tick(time)`, as `Step` describes it. */
    method Tick(time: real) returns (evs: seq<Event>)
      requires Valid()
      modifies this`alive, this`running, this`inited, this`started, this`loopTime
      ensures Valid()
      ensures var s := LegacyTick(loop, Times(), old(State()), time);
        State() == s.flags && evs == s.events
    {
      StepKeepsRunsStarted(loop, Times(), State(), time);
      if !alive {
        return [];
      }
      var t := time;
      if loop && PastEnd(Times(), t) {
        var c := LoopCycle(Times(), t);
        t := Fold(Times(), t);
        if loopTime != c {
          loopTime := c;
          return [Start, Update(Fin(t), Progress(Times(), t)), End];
        }
      }
      evs := [];
      if t < startTime {
        if running {
          running := false;
          evs := [Update(Fin(t), 1.0), End];
        }
        if !inited {
          evs := evs + [Init];
          inited, started := true, false;
        }
      } else if PastEnd(Times(), t) {
        if running {
          running := false;
          evs := [Update(Fin(t), 1.0), End];
        } else if !started {
          if !inited {
            evs := [Init];
            inited := true;
          }
          evs := evs + [Start, Update(Fin(t), 1.0), End];
          started := true;
        } else {
          alive := false;
        }
      } else {
        if !running {
          running, inited, started := true, false, true;
          evs := [Start];
        }
        evs := evs + [Update(Fin(t), Progress(Times(), t))];
      }
    }
  }
}

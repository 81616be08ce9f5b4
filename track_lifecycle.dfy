/** What one `tick(time)` does to a track, as a function of the track's
    timing, its lifecycle flags and the time: the new flags and the
    callbacks fired, in order. The `Track` class in module Tracks is proved to
    do exactly this; the lemmas below state what the lifecycle promises. */
module TrackLifecycle {
  import opened Base
  import opened TrackStates

  /** A callback invocation: `onInit()`, `onStart()`, `onUpdate(at, percent)`, `onEnd()`. */
  datatype Event = Init | Start | Update(at: Ext, percent: real) | End

  /** The three times of a track; two of them determine the third. */
  datatype Timing = Timing(startTime: real, duration: Ext, endTime: Ext)

  /** `endTime == startTime + duration`, which every setter re-establishes. */
  predicate Consistent(tm: Timing) {
    tm.endTime == Plus(tm.startTime, tm.duration)
  }

  /** `endTime >= startTime`: what the constructor and the setters check. */
  predicate Ordered(tm: Timing) {
    LessEq(Fin(tm.startTime), tm.endTime)
  }

  /** The loop arithmetic is only meaningful for a finite, positive duration;
      with 0 or Infinity JavaScript produces NaN, which is not modelled. */
  predicate LoopReady(tm: Timing) {
    tm.duration.Fin? && tm.duration.r > 0.0
  }

  /** The loop cycle `Math.floor((time - startTime) / duration)`; negative before the start. */
  function Cycle(tm: Timing, time: real): int
    requires LoopReady(tm)
  {
    ((time - tm.startTime) / tm.duration.r).Floor
  }

  /** `time - duration * cycle`: the time inside the active cycle's window. */
  function LocalTime(tm: Timing, time: real): real
    requires LoopReady(tm)
  {
    time - tm.duration.r * Cycle(tm, time) as real
  }

  /** `_getP(localTime)`: the fraction of the window elapsed, eased if an
      easing function is set. Dividing by an infinite duration gives 0; a
      zero duration never reaches here (its window is empty). */
  function Percent(tm: Timing, easing: Option<real -> real>, localTime: real): real {
    var p := if tm.duration.Fin? && tm.duration.r != 0.0 then (localTime - tm.startTime) / tm.duration.r else 0.0;
    if easing.Some? then easing.value(p) else p
  }

  /** The relations between the flags that the track's comments promise:
      `running` implies `started`; an uninitialised track has neither; a
      loop track never sits in the ended state. */
  predicate Coherent(f: Flags, loop: bool) {
    && (f.running ==> f.started)
    && (!f.inited ==> !f.started && !f.running)
    && (loop ==> f.started == f.running)
  }

  /** The `expired` getter. */
  predicate Expired(f: Flags) {
    f.started && !f.running
  }

  datatype Step = Step(flags: Flags, events: seq<Event>)

  /** The callbacks of `reset()`: the terminal update and `onEnd` if the track
      was running, then the re-fired `onInit`. */
  function ResetEvents(f: Flags, tm: Timing): seq<Event> {
    (if f.running then [Update(tm.endTime, 1.0), End] else []) + [Init]
  }

  /** The flags `reset()` leaves: initialised again, neither started nor running. */
  function AfterReset(f: Flags): Flags {
    f.(inited := true, started := false, running := false)
  }

  /** `track.tick(time)`, zone by zone. A tick never revives or kills a
      track, a dead track fires nothing, and a live track leaves it
      initialised, firing `onInit` first if it was not. */
  function Tick(loop: bool, easing: Option<real -> real>, tm: Timing, f: Flags, time: real): (s: Step)
    requires loop ==> LoopReady(tm)
    ensures s.flags.alive == f.alive
    ensures !f.alive ==> s.events == []
    ensures f.alive ==> s.flags.inited && (!f.inited ==> s.events != [] && s.events[0] == Init)
  {
    if !f.alive then Step(f, [])
    else
      var pre := if f.inited then [] else [Init];
      var g := f.(inited := true);
      if loop then
        var c := Cycle(tm, time);
        var lt := LocalTime(tm, time);
        var up := Update(Fin(lt), Percent(tm, easing, lt));
        if time >= tm.startTime then
          if !g.started then Step(g.(started := true, running := true, iteration := c), pre + [Start, up])
          else if g.iteration == c then Step(g, pre + [up])
          else Step(g.(iteration := c), pre + [End, Start, up])
        else if g.started then Step(AfterReset(g).(iteration := c), pre + ResetEvents(g, tm))
        else Step(g.(iteration := c), pre)
      else if time < tm.startTime then
        if g.started then Step(AfterReset(g), pre + ResetEvents(g, tm)) else Step(g, pre)
      else if AtOrAfter(time, tm.endTime) then
        if !g.started then Step(g.(started := true), pre + [Start, Update(tm.endTime, 1.0), End])
        else if g.running then Step(g.(running := false), pre + [Update(tm.endTime, 1.0), End])
        else Step(g, pre)
      else
        var up := Update(Fin(time), Percent(tm, easing, time));
        if g.running then Step(g, pre + [up])
        else if g.started then Step(g.(running := true), pre + ResetEvents(g, tm) + [Start, up])
        else Step(g.(started := true, running := true), pre + [Start, up])
  }

  function Count(evs: seq<Event>, e: Event): nat {
    |set i | 0 <= i < |evs| && evs[i] == e|
  }

  // ---------------------------------------------------------------------
  // Properties of one tick

  /** Every tick keeps the flags coherent, leaves an alive track initialised
      and never revives or kills a track. */
  lemma TickKeepsCoherent(loop: bool, easing: Option<real -> real>, tm: Timing, f: Flags, time: real)
    requires loop ==> LoopReady(tm)
    requires Coherent(f, loop)
    ensures Coherent(Tick(loop, easing, tm, f, time).flags, loop)
    ensures Tick(loop, easing, tm, f, time).flags.alive == f.alive
    ensures f.alive ==> Tick(loop, easing, tm, f, time).flags.inited
  {}

  /** A dead track is left exactly as it was and fires nothing. */
  lemma DeadTrackIgnoresTick(loop: bool, easing: Option<real -> real>, tm: Timing, f: Flags, time: real)
    requires loop ==> LoopReady(tm)
    requires !f.alive
    ensures Tick(loop, easing, tm, f, time) == Step(f, [])
  {}

  /** `onInit` fires at most once per tick, first if at all, and only when
      the track was not initialised or a started track is being reset. */
  lemma InitOnlyWhenUninitedOrReset(loop: bool, easing: Option<real -> real>, tm: Timing, f: Flags, time: real)
    requires loop ==> LoopReady(tm)
    requires Coherent(f, loop) && f.alive
    ensures var evs := Tick(loop, easing, tm, f, time).events;
      && (Init in evs <==> !f.inited || (f.started && (time < tm.startTime || (!loop && !f.running && !AtOrAfter(time, tm.endTime)))))
      && (!f.inited ==> evs[0] == Init && Init !in evs[1..])
  {
    var evs := Tick(loop, easing, tm, f, time).events;
    if !f.inited {
      assert !f.started;
      assert Init !in evs[1..];
    }
  }

  /** A non-looping track ticked at or past its end always ends up expired.
      A track that never started fires the whole start/update/end triple at
      once (so a skipped window still fires); a running one fires the final
      update and `onEnd`; an already expired one fires nothing. */
  lemma NonLoopPastEnd(easing: Option<real -> real>, tm: Timing, f: Flags, time: real)
    requires Coherent(f, false) && f.alive && Ordered(tm)
    requires AtOrAfter(time, tm.endTime)
    ensures var s := Tick(false, easing, tm, f, time);
      var pre := if f.inited then [] else [Init];
      && Expired(s.flags) && s.flags.alive
      && (!f.started ==> s.events == pre + [Start, Update(tm.endTime, 1.0), End])
      && (f.running ==> s.events == [Update(tm.endTime, 1.0), End])
      && (Expired(f) ==> s.events == [])
  {}

  /** A non-looping track ticked inside `[startTime, endTime)`: on first
      entry it starts and updates, while running it only updates, and after
      it has ended it is reset and started again. It is running afterwards. */
  lemma NonLoopInWindow(easing: Option<real -> real>, tm: Timing, f: Flags, time: real)
    requires Coherent(f, false) && f.alive
    requires tm.startTime <= time && Before(time, tm.endTime)
    ensures var s := Tick(false, easing, tm, f, time);
      var up := Update(Fin(time), Percent(tm, easing, time));
      var pre := if f.inited then [] else [Init];
      && s.flags.started && s.flags.running
      && (!f.started ==> s.events == pre + [Start, up])
      && (f.running ==> s.events == [up])
      && (Expired(f) ==> s.events == [Init, Start, up])
  {}

  /** Jumping back before the start of a started track (looping or not)
      resets it: the terminal update and `onEnd` only if it was running, then
      `onInit` again; it is left initialised, neither started nor running. */
  lemma BackwardJumpResets(loop: bool, easing: Option<real -> real>, tm: Timing, f: Flags, time: real)
    requires loop ==> LoopReady(tm)
    requires Coherent(f, loop) && f.alive && f.started
    requires time < tm.startTime
    ensures var s := Tick(loop, easing, tm, f, time);
      && s.events == (if f.running then [Update(tm.endTime, 1.0), End] else []) + [Init]
      && s.flags.inited && !s.flags.started && !s.flags.running
  {}

  /** The percent handed to `onUpdate` is the elapsed fraction of the window;
      easing changes the percent only, never the time argument. */
  lemma PercentIsElapsedFraction(tm: Timing, easing: Option<real -> real>, t: real)
    requires tm.duration.Fin? && tm.duration.r > 0.0
    ensures Percent(tm, None, t) == (t - tm.startTime) / tm.duration.r
    ensures easing.Some? ==> Percent(tm, easing, t) == easing.value(Percent(tm, None, t))
    ensures tm.startTime <= t < tm.startTime + tm.duration.r ==> 0.0 <= Percent(tm, None, t) < 1.0
  {
    var d := tm.duration.r;
    if tm.startTime <= t < tm.startTime + d {
      QuotientBelowOne(t - tm.startTime, d);
    }
  }

  // ---------------------------------------------------------------------
  // Loop cycles

  /** From the start on, the local time of a loop track lies in its window
      `[startTime, endTime)`, and its percent (without easing) in `[0, 1)`. */
  lemma LocalTimeInWindow(tm: Timing, time: real)
    requires LoopReady(tm) && Consistent(tm)
    ensures tm.startTime <= LocalTime(tm, time) && Before(LocalTime(tm, time), tm.endTime)
    ensures 0.0 <= Percent(tm, None, LocalTime(tm, time)) < 1.0
  {
    var d := tm.duration.r;
    var x := (time - tm.startTime) / d;
    var c := Cycle(tm, time);
    assert c as real <= x < c as real + 1.0;
    assert time - tm.startTime == d * x;
    var lt := LocalTime(tm, time);
    ScaledFraction(time - tm.startTime, d, d * c as real, x - c as real);
    PercentIsElapsedFraction(tm, None, lt);
  }

  /** For a running loop track, staying in the same cycle only updates, and
      a change of cycle fires exactly one end/start/update triple however
      many cycles were skipped. The cycle is recorded in `iteration`. */
  lemma LoopCycles(easing: Option<real -> real>, tm: Timing, f: Flags, time: real)
    requires LoopReady(tm) && Coherent(f, true) && f.alive && f.started
    requires time >= tm.startTime
    ensures var s := Tick(true, easing, tm, f, time);
      var lt := LocalTime(tm, time);
      var up := Update(Fin(lt), Percent(tm, easing, lt));
      && s.flags.iteration == Cycle(tm, time)
      && s.flags.running
      && (f.iteration == Cycle(tm, time) ==> s.events == [up])
      && (f.iteration != Cycle(tm, time) ==> s.events == [End, Start, up] && Count(s.events, End) == 1 && Count(s.events, Start) == 1)
  {
    var s := Tick(true, easing, tm, f, time);
    var lt := LocalTime(tm, time);
    var up := Update(Fin(lt), Percent(tm, easing, lt));
    if f.iteration != Cycle(tm, time) {
      assert s.events == [End, Start, up];
      assert (set i | 0 <= i < 3 && s.events[i] == End) == {0};
      assert (set i | 0 <= i < 3 && s.events[i] == Start) == {1};
    }
  }

  /** After any tick of an alive loop track, `iteration` is the cycle of the tick's time. */
  lemma IterationIsCycle(easing: Option<real -> real>, tm: Timing, f: Flags, time: real)
    requires LoopReady(tm) && f.alive
    ensures Tick(true, easing, tm, f, time).flags.iteration == Cycle(tm, time)
  {}

  /** Advancing by exactly one duration moves to the next cycle. */
  lemma {:induction false} CycleAdvancesByOne(tm: Timing, time: real)
    requires LoopReady(tm)
    ensures Cycle(tm, time + tm.duration.r) == Cycle(tm, time) + 1
  {
    var d := tm.duration.r;
    var x := (time - tm.startTime) / d;
    assert (time + d - tm.startTime) / d == x + 1.0 by {
      ShiftQuotient(time - tm.startTime, d);
    }
    var c := x.Floor;
    assert c as real <= x < c as real + 1.0;
    assert (c + 1) as real <= x + 1.0 < (c + 1) as real + 1.0;
    assert (x + 1.0).Floor == c + 1;
  }

  /** A running loop track ticked one duration after its last tick moves to
      the next iteration and fires one end/start/update cycle. */
  lemma OneDurationOneCycle(easing: Option<real -> real>, tm: Timing, f: Flags, time: real)
    requires LoopReady(tm) && Coherent(f, true) && f.alive && f.started
    requires time >= tm.startTime && f.iteration == Cycle(tm, time)
    ensures var s := Tick(true, easing, tm, f, time + tm.duration.r);
      var lt := LocalTime(tm, time + tm.duration.r);
      && s.flags.iteration == f.iteration + 1
      && s.events == [End, Start, Update(Fin(lt), Percent(tm, easing, lt))]
  {
    CycleAdvancesByOne(tm, time);
  }

  // ---------------------------------------------------------------------
  // Arithmetic helpers

  lemma MulNonNeg(a: real, b: real)
    requires a >= 0.0 && b >= 0.0
    ensures a * b >= 0.0
  {}

  lemma MulDistrib(a: real, b: real, d: real)
    ensures (a - b) * d == a * d - b * d
  {}

  lemma ZeroFactor(x: real, d: real)
    requires d != 0.0 && x * d == 0.0
    ensures x == 0.0
  {}

  lemma QuotientBelowOne(a: real, d: real)
    requires d > 0.0 && 0.0 <= a < d
    ensures 0.0 <= a / d < 1.0
  {
    var q := a / d;
    assert q * d == a;
    MulDistrib(q, 1.0, d);
    MulDistrib(0.0, q, d);
    if q >= 1.0 {
      MulNonNeg(q - 1.0, d);
    }
    if q < 0.0 {
      MulNonNeg(-q, d);
    }
  }

  lemma ShiftQuotient(y: real, d: real)
    requires d > 0.0
    ensures (y + d) / d == y / d + 1.0
  {
    var a := (y + d) / d;
    var b := y / d + 1.0;
    assert a * d == y + d;
    assert (y / d) * d == y;
    assert b * d == (y / d) * d + d;
    MulDistrib(a, b, d);
    ZeroFactor(a - b, d);
  }

  // ---------------------------------------------------------------------
  // A scenario: a track from 500 to 1000

  function Fresh(): Flags {
    Flags(true, false, false, false, 0)
  }

  /** Ticking a track spanning [500, 1000) at 0, 500, 750 and 1200: nothing
      but `onInit` before the window, start and update at 500, an update
      with percent 0.5 at 750, the terminal update at the end time and
      `onEnd` at 1200, after which the track is expired. */
  lemma Scenario500To1000()
    ensures var tm := Timing(500.0, Fin(500.0), Fin(1000.0));
      var s0 := Tick(false, None, tm, Fresh(), 0.0);
      var s1 := Tick(false, None, tm, s0.flags, 500.0);
      var s2 := Tick(false, None, tm, s1.flags, 750.0);
      var s3 := Tick(false, None, tm, s2.flags, 1200.0);
      && s0.events == [Init]
      && s1.events == [Start, Update(Fin(500.0), 0.0)]
      && s2.events == [Update(Fin(750.0), 0.5)]
      && s3.events == [Update(Fin(1000.0), 1.0), End]
      && Expired(s3.flags)
  {}
}

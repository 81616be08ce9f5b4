/** Tracks and the groups that own them. A `Track` is one timed interval
    with a lifecycle; `tick(time)` moves it through the lifecycle and fires
    its callbacks, returned here as the sequence of events fired. A
    `TrackGroup` is the ordered collection a timeline fans ticks out to.
    (Track and TrackGroup refer to each other, so they share one module.) */
module Tracks {
  import opened Base
  import opened TrackStates
  import opened TrackLifecycle

  datatype TrackError =
    | NegativeStart        // "startTime is negative"
    | NegativeDuration     // "duration can not be negative"
    | AlreadyStarted       // "started track can not be modified again"

  /** The options a track is built from. Callbacks are not values here:
      what they would be called with is returned by `tick` instead. */
  datatype TrackOptions = TrackOptions(
    id: Key,
    loop: Option<bool>,
    startTime: Option<real>,
    endTime: Option<Ext>,
    duration: Option<Ext>,
    easing: Option<real -> real>)

  /** The timing checks and resolution of the constructor: `endTime` wins
      over `duration`; with neither, the duration is Infinity. */
  function ResolveTiming(start: Option<real>, end: Option<Ext>, dur: Option<Ext>): (r: Result<Timing, TrackError>)
    ensures var s := if start.Some? then start.value else 0.0;
      && (r.Ok? ==> Consistent(r.value) && Ordered(r.value) && r.value.startTime == s)
      && (s < 0.0 ==> r == Err(NegativeStart))
      && (end.Some? && s >= 0.0 ==> (r.Ok? <==> LessEq(Fin(s), end.value)) && (r.Ok? ==> r.value.endTime == end.value))
      && (end.None? && dur.Some? && s >= 0.0 ==> (r.Ok? <==> LessEq(Fin(0.0), dur.value)) && (r.Ok? ==> r.value.duration == dur.value))
      && (end.None? && dur.None? && s >= 0.0 ==> r.Ok? && r.value.duration == PosInf && r.value.endTime == PosInf)
  {
    var s := if start.Some? then start.value else 0.0;
    if s < 0.0 then Err(NegativeStart)
    else
      var solved := if end.Some? then Minus(end.value, s) else if dur.Some? then dur.value else PosInf;
      var e := Plus(s, solved);
      if !LessEq(Fin(s), e) then Err(NegativeDuration)
      else Ok(Timing(s, solved, e))
  }

  class Track {
    const id: Key
    const loop: bool
    const easing: Option<real -> real>

    var startTime: real
    var duration: Ext
    var endTime: Ext

    /** Set false to stop the track and mark it disposable. */
    var alive: bool
    var inited: bool
    var started: bool
    var running: bool
    var iteration: int

    /** The group this track was last added to. */
    var parent: TrackGroup?

    function State(): Flags
      reads this`alive, this`inited, this`started, this`running, this`iteration
    {
      Flags(alive, inited, started, running, iteration)
    }

    function Times(): Timing
      reads this`startTime, this`duration, this`endTime
    {
      Timing(startTime, duration, endTime)
    }

    /** `endTime == startTime + duration` and coherent flags. A setter that
        throws may leave `endTime < startTime`; the track stays valid. */
    predicate Valid()
      reads this`startTime, this`duration, this`endTime
      reads this`alive, this`inited, this`started, this`running, this`iteration
    {
      Consistent(Times()) && Coherent(State(), loop)
    }

    /** The `expired` getter: started and no longer running. */
    predicate Expired()
      reads this
    {
      started && !running
    }

    /** What `tick` needs: a looping track has a finite positive duration. */
    predicate Tickable()
      reads this`startTime, this`duration, this`endTime
    {
      loop ==> LoopReady(Times())
    }

    /** `new Track(options)` for options whose timing resolves. */
    constructor (opts: TrackOptions)
      requires ResolveTiming(opts.startTime, opts.endTime, opts.duration).Ok?
      ensures Valid()
      ensures Times() == ResolveTiming(opts.startTime, opts.endTime, opts.duration).value
      ensures id == opts.id && loop == (opts.loop == Some(true)) && easing == opts.easing
      ensures State() == Flags(true, false, false, false, 0) && parent == null
    {
      var tm := ResolveTiming(opts.startTime, opts.endTime, opts.duration).value;
      id := opts.id;
      loop := opts.loop == Some(true);
      easing := opts.easing;
      startTime, duration, endTime := tm.startTime, tm.duration, tm.endTime;
      alive, inited, started, running, iteration := true, false, false, false, 0;
      parent := null;
    }

    // -------------------------------------------------------------------
    // Setters. Each refuses a started track; otherwise it writes first and
    // checks afterwards, so a refused value is still stored.

    method SetStartTime(v: real) returns (r: Outcome<TrackError>)
      requires Valid()
      modifies this`startTime, this`endTime
      ensures Valid() && duration == old(duration)
      ensures old(started) ==> r == Fail(AlreadyStarted) && startTime == old(startTime)
      ensures !old(started) ==> startTime == v && (r.Pass? <==> v >= 0.0) && (r.Fail? ==> r.error == NegativeStart)
    {
      if started {
        return Fail(AlreadyStarted);
      }
      startTime := v;
      endTime := Plus(startTime, duration);
      r := if startTime < 0.0 then Fail(NegativeStart) else Pass;
    }

    method SetEndTime(v: Ext) returns (r: Outcome<TrackError>)
      requires Valid()
      modifies this`duration, this`endTime
      ensures Valid() && startTime == old(startTime)
      ensures old(started) ==> r == Fail(AlreadyStarted) && endTime == old(endTime)
      ensures !old(started) ==> endTime == v && (r.Pass? <==> Ordered(Times())) && (r.Fail? ==> r.error == NegativeDuration)
    {
      if started {
        return Fail(AlreadyStarted);
      }
      endTime := v;
      duration := Minus(endTime, startTime);
      r := if !LessEq(Fin(startTime), endTime) then Fail(NegativeDuration) else Pass;
    }

    method SetDuration(v: Ext) returns (r: Outcome<TrackError>)
      requires Valid()
      modifies this`duration, this`endTime
      ensures Valid() && startTime == old(startTime)
      ensures old(started) ==> r == Fail(AlreadyStarted) && duration == old(duration)
      ensures !old(started) ==> duration == v && (r.Pass? <==> Ordered(Times())) && (r.Fail? ==> r.error == NegativeDuration)
    {
      if started {
        return Fail(AlreadyStarted);
      }
      duration := v;
      endTime := Plus(startTime, duration);
      r := if !LessEq(Fin(startTime), endTime) then Fail(NegativeDuration) else Pass;
    }

    // -------------------------------------------------------------------
    // State actions. Each requires the state its development-mode
    // `assertStates` check demands; `Tick` proves that it always holds.

    /** `init()`: fires `onInit` and marks the track initialised. */
    method Initialize() returns (evs: seq<Event>)
      requires AssertStates(State(), false, false, Some(false)).Pass?
      modifies this`inited
      ensures inited && evs == [Event.Init]
    {
      evs := if inited then [] else [Event.Init];
      inited := true;
    }

    /** `start(t)`: marks the track started and running, fires `onStart` and the first update. */
    method StartAt(t: real) returns (evs: seq<Event>)
      requires AssertStates(State(), true, false, Some(false)).Pass?
      modifies this`started, this`running
      ensures started && running
      ensures evs == [Start, Update(Fin(t), Percent(Times(), easing, t))]
    {
      started := true;
      running := true;
      evs := [Start, Update(Fin(t), Percent(Times(), easing, t))];
    }

    /** `end(endTime)`: the terminal update and `onEnd`, then not running. */
    method EndAt() returns (evs: seq<Event>)
      requires AssertStates(State(), true, true, Some(true)).Pass?
      modifies this`running
      ensures !running
      ensures evs == [Update(endTime, 1.0), End]
    {
      evs := [Update(endTime, 1.0), End];
      running := false;
    }

    /** `startAndEnd(endTime)`: a whole run at once; leaves the track started, not running. */
    method StartAndEnd() returns (evs: seq<Event>)
      requires AssertStates(State(), true, false, Some(false)).Pass?
      modifies this`started
      ensures started
      ensures evs == [Start, Update(endTime, 1.0), End]
    {
      started := true;
      evs := [Start, Update(endTime, 1.0), End];
    }

    /** `changeCycle(t)`: ends the last cycle, starts the new one and updates. */
    method ChangeCycle(t: real) returns (evs: seq<Event>)
      requires AssertStates(State(), true, true, Some(true)).Pass?
      ensures evs == [End, Start, Update(Fin(t), Percent(Times(), easing, t))]
    {
      evs := [End, Start, Update(Fin(t), Percent(Times(), easing, t))];
    }

    /** `reset()`: ends a running track at once, clears the state and re-initialises. */
    method Reset() returns (evs: seq<Event>)
      requires AssertStates(State(), true, true, None).Pass?
      modifies this`inited, this`started, this`running
      ensures State() == AfterReset(old(State()))
      ensures evs == ResetEvents(old(State()), Times())
    {
      evs := [];
      if running {
        evs := [Update(endTime, 1.0), End];
      }
      inited, started, running := false, false, false;
      var e := Initialize();
      evs := evs + e;
    }

    /** `tick(time)`: the track's lifecycle step, exactly as `TrackLifecycle.Tick` describes it. */
    method Tick(time: real) returns (evs: seq<Event>)
      requires Valid() && Tickable()
      modifies this`inited, this`started, this`running, this`iteration
      ensures Valid()
      ensures var s := TrackLifecycle.Tick(loop, easing, Times(), old(State()), time);
        State() == s.flags && evs == s.events
    {
      if !alive {
        return [];
      }
      var e: seq<Event>;
      evs := [];
      if !inited {
        e := Initialize();
        evs := evs + e;
      }
      if loop {
        var c := Cycle(Times(), time);
        var lt := LocalTime(Times(), time);
        if time >= startTime {
          if started {
            if iteration == c {
              assert AssertStates(State(), true, true, Some(true)).Pass?;
              evs := evs + [Update(Fin(lt), Percent(Times(), easing, lt))];
            } else {
              e := ChangeCycle(lt);
              evs := evs + e;
            }
          } else {
            e := StartAt(lt);
            evs := evs + e;
          }
        } else if started {
          e := Reset();
          evs := evs + e;
        }
        iteration := c;
      } else if time < startTime {
        if started {
          e := Reset();
          evs := evs + e;
        }
      } else if AtOrAfter(time, endTime) {
        if !started {
          e := StartAndEnd();
          evs := evs + e;
        }
        if running {
          e := EndAt();
          evs := evs + e;
        }
      } else if running {
        assert AssertStates(State(), true, true, Some(true)).Pass?;
        evs := evs + [Update(Fin(time), Percent(Times(), easing, time))];
      } else if started {
        e := Reset();
        evs := evs + e;
        e := StartAt(time);
        evs := evs + e;
      } else {
        e := StartAt(time);
        evs := evs + e;
      }
    }
  }

  /** The tracks of `ts` that are alive and not expired, in their order:
      what `release` keeps. */
  function Survivors(ts: seq<Track>): (r: seq<Track>)
    reads ts
    ensures |r| <= |ts|
  {
    if ts == [] then []
    else (if ts[0].alive && !ts[0].Expired() then [ts[0]] else []) + Survivors(ts[1..])
  }

  /** `Survivors` keeps exactly the live tracks that have not expired. */
  lemma {:induction false} SurvivorsMembers(ts: seq<Track>)
    ensures forall i :: 0 <= i < |Survivors(ts)| ==>
      Survivors(ts)[i] in ts && Survivors(ts)[i].alive && !Survivors(ts)[i].Expired()
    ensures forall i :: 0 <= i < |ts| && ts[i].alive && !ts[i].Expired() ==> ts[i] in Survivors(ts)
    decreases |ts|
  {
    if ts != [] {
      SurvivorsMembers(ts[1..]);
      forall i | 0 <= i < |ts| && ts[i].alive && !ts[i].Expired()
        ensures ts[i] in Survivors(ts)
      {
        if i > 0 {
          assert ts[i] == ts[1..][i - 1];
        }
      }
    }
  }

  /** The tracks of `ts` other than `x`, in their order: what `remove(x)` leaves. */
  function Without(ts: seq<Track>, x: Track): (r: seq<Track>)
    ensures |r| <= |ts|
  {
    if ts == [] then []
    else (if ts[0] == x then [] else [ts[0]]) + Without(ts[1..], x)
  }

  /** `Without` keeps exactly the tracks other than `x`. */
  lemma {:induction false} WithoutMembers(ts: seq<Track>, x: Track)
    ensures forall i :: 0 <= i < |Without(ts, x)| ==> Without(ts, x)[i] in ts && Without(ts, x)[i] != x
    ensures forall i :: 0 <= i < |ts| && ts[i] != x ==> ts[i] in Without(ts, x)
    decreases |ts|
  {
    if ts != [] {
      WithoutMembers(ts[1..], x);
      forall i | 0 <= i < |ts| && ts[i] != x
        ensures ts[i] in Without(ts, x)
      {
        if i > 0 {
          assert ts[i] == ts[1..][i - 1];
        }
      }
    }
  }

  /** The tracks of `ts` whose id is `id`, in their order. */
  function WithId(ts: seq<Track>, id: Key): (r: seq<Track>)
    ensures |r| <= |ts|
  {
    if ts == [] then []
    else WithId(ts[..|ts| - 1], id) + (if ts[|ts| - 1].id == id then [ts[|ts| - 1]] else [])
  }

  /** `WithId` keeps exactly the tracks carrying the id. */
  lemma {:induction false} WithIdMembers(ts: seq<Track>, id: Key)
    ensures forall i :: 0 <= i < |WithId(ts, id)| ==> WithId(ts, id)[i] in ts && WithId(ts, id)[i].id == id
    ensures forall i :: 0 <= i < |ts| && ts[i].id == id ==> ts[i] in WithId(ts, id)
    decreases |ts|
  {
    if ts != [] {
      var init := ts[..|ts| - 1];
      WithIdMembers(init, id);
      forall i | 0 <= i < |ts| && ts[i].id == id
        ensures ts[i] in WithId(ts, id)
      {
        if i < |init| {
          assert ts[i] == init[i];
        }
      }
    }
  }

  /** Filtering commutes with concatenation, so each of the filters
      keeps the relative order of the tracks it keeps. */
  lemma {:induction false} WithoutDistributes(a: seq<Track>, b: seq<Track>, x: Track)
    ensures Without(a + b, x) == Without(a, x) + Without(b, x)
  {
    if a != [] {
      assert (a + b)[1..] == a[1..] + b;
      WithoutDistributes(a[1..], b, x);
    } else {
      assert a + b == b;
    }
  }

  lemma {:induction false} SurvivorsDistribute(a: seq<Track>, b: seq<Track>)
    ensures Survivors(a + b) == Survivors(a) + Survivors(b)
  {
    if a != [] {
      assert (a + b)[1..] == a[1..] + b;
      SurvivorsDistribute(a[1..], b);
    } else {
      assert a + b == b;
    }
  }

  /** Removing from a sequence without duplicates leaves one without duplicates. */
  lemma {:induction false} WithoutKeepsDistinct(ts: seq<Track>, x: Track)
    requires Distinct(ts)
    ensures Distinct(Without(ts, x))
    decreases |ts|
  {
    if ts != [] {
      var rest := Without(ts[1..], x);
      WithoutKeepsDistinct(ts[1..], x);
      WithoutMembers(ts[1..], x);
      if ts[0] != x {
        assert ts[0] !in rest;
        assert ([ts[0]] + rest)[1..] == rest;
      } else {
        assert Without(ts, x) == rest;
      }
    }
  }

  /** Releasing from a sequence without duplicates leaves one without duplicates. */
  lemma {:induction false} SurvivorsKeepDistinct(ts: seq<Track>)
    requires Distinct(ts)
    ensures Distinct(Survivors(ts))
    decreases |ts|
  {
    if ts != [] {
      var rest := Survivors(ts[1..]);
      SurvivorsKeepDistinct(ts[1..]);
      SurvivorsMembers(ts[1..]);
      if ts[0].alive && !ts[0].Expired() {
        assert ts[0] !in rest;
        assert ([ts[0]] + rest)[1..] == rest;
      } else {
        assert Survivors(ts) == rest;
      }
    }
  }

  /** One step of the backward scan of `remove`: `cur` is the group's
      list with the occurrences after index `i` already spliced out. */
  lemma RemoveStep(orig: seq<Track>, i: int, x: Track, cur: seq<Track>)
    requires 0 <= i < |orig|
    requires cur == orig[..i + 1] + Without(orig[i + 1..], x)
    ensures i < |cur| && cur[i] == orig[i]
    ensures orig[i] == x ==> cur[..i] + cur[i + 1..] == orig[..i] + Without(orig[i..], x)
    ensures orig[i] != x ==> cur == orig[..i] + Without(orig[i..], x)
  {
    var rest := Without(orig[i + 1..], x);
    assert orig[i..][1..] == orig[i + 1..];
    assert Without(orig[i..], x) == (if orig[i] == x then [] else [orig[i]]) + rest;
    assert orig[..i + 1] == orig[..i] + [orig[i]];
    assert cur[..i] == orig[..i] && cur[i + 1..] == rest;
  }

  class TrackGroup {
    /** The tracks, in the order ticks are fanned out to them. */
    var tracks: seq<Track>

    /** Each track appears once and names this group as its parent. */
    predicate Valid()
      reads this, tracks`parent
    {
      Distinct(tracks) && forall t :: t in tracks ==> t.parent == this
    }

    constructor ()
      ensures Valid() && tracks == []
    {
      tracks := [];
    }

    /** `release()` (alias `recovery()`): keep the tracks that are alive and not expired. */
    method Release()
      requires Valid()
      modifies this
      ensures Valid()
      ensures tracks == Survivors(old(tracks))
    {
      SurvivorsKeepDistinct(tracks);
      SurvivorsMembers(tracks);
      tracks := Survivors(tracks);
    }

    /** `add(track)` (alias `addTrack`) for an existing track: detach it from
        its previous group, adopt it and append it last. */
    method AddTrack(track: Track) returns (r: Track)
      requires Valid()
      requires track.parent != null && track.parent != this ==> track.parent.Valid()
      modifies this, track`parent, track.parent
      ensures r == track && track.parent == this
      ensures tracks == Without(old(tracks), track) + [track]
      ensures Valid()
      ensures old(track.parent) != null && old(track.parent) != this ==>
        old(track.parent).tracks == Without(old(track.parent.tracks), track) && old(track.parent).Valid()
    {
      var previous := track.parent;
      if previous != this {
        assert track !in tracks;
        WithoutAbsent(tracks, track);
      }
      if previous != null {
        previous.Remove(track);
        WithoutMembers(old(previous.tracks), track);
      }
      Adopt(track);
      r := track;
    }

    /** The tail of `add(track)`: a track not in the group becomes its last. */
    method Adopt(track: Track)
      requires Valid() && track !in tracks
      modifies this`tracks, track`parent
      ensures tracks == old(tracks) + [track] && track.parent == this
      ensures Valid()
    {
      track.parent := this;
      AppendKeepsDistinct(tracks, track);
      tracks := tracks + [track];
    }

    /** `add(options)`: build a fresh track owned by this group and append it
        last; the constructor's errors are returned and nothing is added. */
    method Add(opts: TrackOptions) returns (r: Result<Track, TrackError>)
      requires Valid()
      modifies this
      ensures Valid()
      ensures var res := ResolveTiming(opts.startTime, opts.endTime, opts.duration);
        && (res.Err? ==> r == Err(res.error) && tracks == old(tracks))
        && (res.Ok? ==> r.Ok? && fresh(r.value) && r.value.Valid() && r.value.parent == this
                        && r.value.Times() == res.value && r.value.id == opts.id
                        && r.value.loop == (opts.loop == Some(true)) && r.value.easing == opts.easing
                        && r.value.State() == Flags(true, false, false, false, 0)
                        && tracks == old(tracks) + [r.value])
    {
      var res := ResolveTiming(opts.startTime, opts.endTime, opts.duration);
      if res.Err? {
        return Err(res.error);
      }
      var t := new Track(opts);
      t.parent := this;
      AppendKeepsDistinct(tracks, t);
      tracks := tracks + [t];
      r := Ok(t);
    }

    /** `getTracksByID(id)`: every track with that id, in group order. */
    method GetTracksByID(id: Key) returns (found: seq<Track>)
      ensures found == WithId(tracks, id)
      ensures forall t :: t in found <==> t in tracks && t.id == id
    {
      found := [];
      for i := 0 to |tracks|
        invariant found == WithId(tracks[..i], id)
      {
        assert tracks[..i + 1][..i] == tracks[..i];
        if tracks[i].id == id {
          found := found + [tracks[i]];
        }
      }
      assert tracks[..|tracks|] == tracks;
      WithIdMembers(tracks, id);
    }

    /** `stopTrack(track)`: lazy kill; the track stays in the group until released. */
    method StopTrack(track: Track)
      modifies track`alive
      ensures !track.alive
    {
      track.alive := false;
    }

    /** `remove(track)`: delete every occurrence, scanning from the back. */
    method Remove(track: Track)
      requires Valid()
      modifies this
      ensures tracks == Without(old(tracks), track)
      ensures Valid()
    {
      ghost var orig := tracks;
      var i := |tracks|;
      while i > 0
        invariant 0 <= i <= |orig|
        invariant tracks == orig[..i] + Without(orig[i..], track)
      {
        i := i - 1;
        RemoveStep(orig, i, track, tracks);
        if tracks[i] == track {
          tracks := tracks[..i] + tracks[i + 1..];
        }
      }
      assert orig[0..] == orig;
      WithoutKeepsDistinct(orig, track);
      WithoutMembers(orig, track);
    }

    /** `removeAll()` (alias `clear()`). */
    method RemoveAll()
      modifies this
      ensures tracks == [] && Valid()
    {
      tracks := [];
    }
  }

  lemma {:induction false} WithoutAbsent(ts: seq<Track>, x: Track)
    requires x !in ts
    ensures Without(ts, x) == ts
  {
    if ts != [] {
      WithoutAbsent(ts[1..], x);
    }
  }
}

/** The anti-regression clock behind `getTimeNow`: it accumulates the
    non-negative differences between successive raw samples of the
    platform's time source, so that the value it hands out never goes
    backwards even when the raw source does. The raw source itself is an
    input: each call receives the sample it would have read. */
module MonotonicClock {

  /** The clock's module-level state: the previous raw sample, the
      accumulated time and the number of regressions seen. */
  datatype ClockState = ClockState(timePrev: real, timeNow: real, decreaseCount: nat)

  /** The state the module starts in, given the raw sample read at load time. */
  function Initial(raw0: real): ClockState {
    ClockState(raw0, 0.0, 0)
  }

  /** One call of `getTimeNow` that read the raw sample `raw`. */
  function Step(c: ClockState, raw: real): (r: ClockState)
    ensures r.timePrev == raw
    ensures raw - c.timePrev >= 0.0 ==> r.timeNow == c.timeNow + (raw - c.timePrev) && r.decreaseCount == c.decreaseCount
    ensures raw - c.timePrev < 0.0 ==> r.timeNow == c.timeNow && r.decreaseCount == c.decreaseCount + 1
  {
    var delta := raw - c.timePrev;
    if delta >= 0.0 then c.(timePrev := raw, timeNow := c.timeNow + delta)
    else c.(timePrev := raw, decreaseCount := c.decreaseCount + 1)
  }

  /** The state after reading each of `raws` in turn. */
  function Run(c: ClockState, raws: seq<real>): ClockState
    decreases |raws|
  {
    if raws == [] then c else Run(Step(c, raws[0]), raws[1..])
  }

  /** The values returned by the calls that read `raws` in turn. */
  function Outputs(c: ClockState, raws: seq<real>): (out: seq<real>)
    ensures |out| == |raws|
    decreases |raws|
  {
    if raws == [] then [] else var c' := Step(c, raws[0]); [c'.timeNow] + Outputs(c', raws[1..])
  }

  predicate NonDecreasing(s: seq<real>) {
    forall i, j :: 0 <= i <= j < |s| ==> s[i] <= s[j]
  }

  /** One call never returns less than the accumulator held, and never
      lowers the regression counter. */
  lemma StepMonotone(c: ClockState, raw: real)
    ensures Step(c, raw).timeNow >= c.timeNow
    ensures Step(c, raw).decreaseCount >= c.decreaseCount
  {}

  /** Whatever the raw samples do, the returned values never decrease and
      never fall below the accumulator the sequence started from. */
  lemma {:induction false} OutputsNonDecreasing(c: ClockState, raws: seq<real>)
    ensures NonDecreasing(Outputs(c, raws))
    ensures forall i :: 0 <= i < |raws| ==> Outputs(c, raws)[i] >= c.timeNow
    decreases |raws|
  {
    if raws != [] {
      var c' := Step(c, raws[0]);
      OutputsNonDecreasing(c', raws[1..]);
      StepMonotone(c, raws[0]);
    }
  }

  /** Starting from the module's initial state every returned value is
      non-negative, and the regression counter never decreases. */
  lemma {:induction false} RunFromInitial(raw0: real, raws: seq<real>)
    ensures forall i :: 0 <= i < |raws| ==> Outputs(Initial(raw0), raws)[i] >= 0.0
    ensures Run(Initial(raw0), raws).timeNow >= 0.0
  {
    OutputsNonDecreasing(Initial(raw0), raws);
    RunMonotone(Initial(raw0), raws);
  }

  lemma {:induction false} RunMonotone(c: ClockState, raws: seq<real>)
    ensures Run(c, raws).timeNow >= c.timeNow
    ensures Run(c, raws).decreaseCount >= c.decreaseCount
    decreases |raws|
  {
    if raws != [] {
      StepMonotone(c, raws[0]);
      RunMonotone(Step(c, raws[0]), raws[1..]);
    }
  }

  /** After a regression the clock does not lose its footing: a later sample
      that is not below the regressed one advances the accumulator by exactly
      the distance from the regressed sample, not from the older one. */
  lemma ResumesFromRegressedSample(c: ClockState, low: real, high: real)
    requires low < c.timePrev && high >= low
    ensures Step(Step(c, low), high).timeNow == c.timeNow + (high - low)
    ensures Step(Step(c, low), high).decreaseCount == c.decreaseCount + 1
  {}

  /** The module-level state of `getTimeNow` as an object. */
  class Clock {
    var timePrev: real
    var timeNow: real
    var decreaseCount: nat

    function State(): ClockState
      reads this
    {
      ClockState(timePrev, timeNow, decreaseCount)
    }

    /** Module load: remember the first raw sample, start the accumulator at 0. */
    constructor (raw0: real)
      ensures State() == Initial(raw0)
    {
      timePrev, timeNow, decreaseCount := raw0, 0.0, 0;
    }

    /** `getTimeNow()` when the raw source reads `raw`. */
    method Now(raw: real) returns (t: real)
      modifies this
      ensures State() == Step(old(State()), raw)
      ensures t == timeNow && t >= old(timeNow)
    {
      var delta := raw - timePrev;
      timePrev := raw;
      if delta >= 0.0 {
        timeNow := timeNow + delta;
      } else {
        decreaseCount := decreaseCount + 1;
      }
      t := timeNow;
    }
  }
}

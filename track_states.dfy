/** The lifecycle flags of a track and the development-mode check
    `assertStates` that every private track action runs before it changes
    them. */
module TrackStates {
  import opened Base

  /** The mutable lifecycle state of a track. `iteration` is the loop cycle
      the track was last ticked in. */
  datatype Flags = Flags(alive: bool, inited: bool, started: bool, running: bool, iteration: int)

  datatype Field = Alive | Inited | Started | Running

  /** The error `assertStates` throws: the first flag found wrong, with the
      value it actually had. */
  datatype StateError = WrongState(field: Field, actual: bool)

  /** `assertStates(track, inited, started, running?)`. The flags are checked
      in the order alive, inited, started, running; `running` only when given. */
  function AssertStates(f: Flags, inited: bool, started: bool, running: Option<bool>): (r: Outcome<StateError>)
    ensures r.Pass? <==> f.alive && f.inited == inited && f.started == started && (running.Some? ==> f.running == running.value)
    ensures !f.alive ==> r == Fail(WrongState(Alive, false))
    ensures r.Fail? && f.alive ==> r.error.field != Alive && r.error.actual == FieldOf(f, r.error.field)
  {
    if !f.alive then Fail(WrongState(Alive, f.alive))
    else if f.inited != inited then Fail(WrongState(Inited, f.inited))
    else if f.started != started then Fail(WrongState(Started, f.started))
    else if running.Some? && f.running != running.value then Fail(WrongState(Running, f.running))
    else Pass
  }

  function FieldOf(f: Flags, field: Field): bool {
    match field
    case Alive => f.alive
    case Inited => f.inited
    case Started => f.started
    case Running => f.running
  }

  /** A dead track fails the check whatever is expected of the other flags. */
  lemma DeadAlwaysFails(f: Flags, inited: bool, started: bool, running: Option<bool>)
    requires !f.alive
    ensures AssertStates(f, inited, started, running).Fail?
  {}

  /** `running` is ignored when it is not supplied: two tracks that differ
      only in `running` get the same verdict. */
  lemma RunningOnlyWhenGiven(f: Flags, inited: bool, started: bool)
    ensures AssertStates(f, inited, started, None) == AssertStates(f.(running := !f.running), inited, started, None)
  {}
}

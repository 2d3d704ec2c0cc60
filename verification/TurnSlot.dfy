/**
 * The turn slot of a child session: who may submit the result of the turn that is running. Every operation is a function
 * on the slot; runs keep a log of what happened, which the slot itself does not have.
 */
module TurnSlotModel {
  import opened Wrappers

  const U64_MAX: nat := 0xffff_ffff_ffff_ffff
  const REPORTED_VIOLATIONS := 4

  /** A submitted result, and what a schema finds wrong with one. */
  type Value = string
  type Schema = Value -> seq<string>

  datatype Turn =
    | Idle
    | Running(token: nat, submitted: Option<Value>)
    | Steering(token: nat, previous: nat)

  datatype Slot = Slot(issued: nat, turn: Turn)

  datatype Error =
    | NoActiveTurn | TurnSteering | StaleTurnToken | AlreadySubmitted | OutputMismatch(violations: seq<string>)

  function Started(s: Slot): (Slot, Option<nat>) {
    if s.turn != Idle || s.issued >= U64_MAX then (s, None)
    else (Slot(s.issued + 1, Running(s.issued + 1, None)), Some(s.issued + 1))
  }

  function FirstViolations(violations: seq<string>): seq<string> {
    if |violations| <= REPORTED_VIOLATIONS then violations else violations[..REPORTED_VIOLATIONS]
  }

  function Submitted(s: Slot, token: nat, output: Value, schema: Schema): (Slot, Option<Error>) {
    match s.turn
    case Idle => (s, Some(NoActiveTurn))
    case Steering(_, _) => (s, Some(TurnSteering))
    case Running(current, submitted) =>
      if current != token then (s, Some(StaleTurnToken))
      else if submitted.Some? then (s, Some(AlreadySubmitted))
      else if schema(output) != [] then (s, Some(OutputMismatch(FirstViolations(schema(output)))))
      else (s.(turn := Running(current, Some(output))), None)
  }

  function SteerBegun(s: Slot): (Slot, Option<nat>) {
    if s.turn.Running? && s.turn.submitted.None? && s.issued < U64_MAX then
      (Slot(s.issued + 1, Steering(s.issued + 1, s.turn.token)), Some(s.issued + 1))
    else (s, None)
  }

  function SteerFinished(s: Slot, steer: nat, committed: bool): Slot {
    if s.turn.Steering? && s.turn.token == steer then
      s.(turn := Running(if committed then steer else s.turn.previous, None))
    else s
  }

  function Finished(s: Slot): (Slot, Option<Option<Value>>) {
    (s.(turn := Idle),
     match s.turn
     case Idle => None
     case Running(_, submitted) => Some(submitted)
     case Steering(_, _) => Some(None))
  }

  // ------------------------------------------------------------------ runs

  datatype Action =
    | Start
    | Submit(token: nat, output: Value)
    | BeginSteer
    | FinishSteer(steer: nat, committed: bool)
    | Finish

  datatype Event =
    | Opened(token: nat)
    | Accepted(token: nat, value: Value)
    | Replacing(token: nat)
    | Replaced(token: nat, committed: bool)
    | Closed(result: Option<Value>)

  datatype World = World(slot: Slot, log: seq<Event>)

  const FRESH := World(Slot(0, Idle), [])

  function Next(schema: Schema, w: World, a: Action): World {
    match a
    case Start =>
      var (s, token) := Started(w.slot);
      World(s, if token.Some? then w.log + [Opened(token.value)] else w.log)
    case Submit(token, output) =>
      var (s, failure) := Submitted(w.slot, token, output, schema);
      World(s, if failure.None? then w.log + [Accepted(token, output)] else w.log)
    case BeginSteer =>
      var (s, token) := SteerBegun(w.slot);
      World(s, if token.Some? then w.log + [Replacing(token.value)] else w.log)
    case FinishSteer(steer, committed) =>
      var s := SteerFinished(w.slot, steer, committed);
      World(s, if s != w.slot then w.log + [Replaced(steer, committed)] else w.log)
    case Finish =>
      var (s, result) := Finished(w.slot);
      World(s, if result.Some? then w.log + [Closed(result.value)] else w.log)
  }

  function After(schema: Schema, w: World, acts: seq<Action>): World
    decreases |acts|
  {
    if acts == [] then w else After(schema, Next(schema, w, acts[0]), acts[1..])
  }

  /** The tokens a log hands out, in order. */
  function Issued(log: seq<Event>): seq<nat> {
    if log == [] then []
    else
      var e := log[|log| - 1];
      Issued(log[..|log| - 1]) + if e.Opened? || e.Replacing? then [e.token] else []
  }

  /** What has been accepted since the turn opened. */
  function Result(log: seq<Event>): Option<Value> {
    if log == [] then None
    else match log[|log| - 1]
      case Opened(_) => None
      case Accepted(_, value) => Some(value)
      case Closed(_) => None
      case _ => Result(log[..|log| - 1])
  }
}

/** The turn slot as an object: every operation overwrites the counter or the turn in place. */
module TurnSlotObjects {
  import opened Wrappers
  import opened TurnSlotModel

  class TurnSlot {
    var issued: nat
    var turn: Turn

    ghost function State(): Slot
      reads this
    {
      Slot(issued, turn)
    }

    constructor ()
      ensures State() == FRESH.slot
    {
      issued, turn := 0, Idle;
    }

    method Issue() returns (token: Option<nat>)
      modifies this`issued
      ensures if old(issued) < U64_MAX then issued == old(issued) + 1 && token == Some(issued)
        else issued == old(issued) && token == None
    {
      if issued >= U64_MAX {
        return None;
      }
      issued := issued + 1;
      return Some(issued);
    }

    method Start() returns (token: Option<nat>)
      modifies this
      ensures (State(), token) == Started(old(State()))
    {
      if turn != Idle {
        return None;
      }
      token := Issue();
      if token.Some? {
        turn := Running(token.value, None);
      }
    }

    method Submit(token: nat, output: Value, schema: Schema) returns (failure: Option<Error>)
      modifies this`turn
      ensures (State(), failure) == Submitted(old(State()), token, output, schema)
    {
      match turn {
        case Idle =>
          return Some(NoActiveTurn);
        case Steering(_, _) =>
          return Some(TurnSteering);
        case Running(current, submitted) =>
          if current != token {
            return Some(StaleTurnToken);
          }
          if submitted.Some? {
            return Some(AlreadySubmitted);
          }
          var violations := schema(output);
          if violations != [] {
            return Some(OutputMismatch(FirstViolations(violations)));
          }
          turn := Running(current, Some(output));
          return None;
      }
    }

    method BeginSteer() returns (token: Option<nat>)
      modifies this
      ensures (State(), token) == SteerBegun(old(State()))
    {
      if !turn.Running? || turn.submitted.Some? {
        return None;
      }
      var previous := turn.token;
      token := Issue();
      if token.Some? {
        turn := Steering(token.value, previous);
      }
    }

    method FinishSteer(steer: nat, committed: bool)
      modifies this`turn
      ensures State() == SteerFinished(old(State()), steer, committed)
    {
      if !turn.Steering? || turn.token != steer {
        return;
      }
      turn := Running(if committed then turn.token else turn.previous, None);
    }

    method Finish() returns (result: Option<Option<Value>>)
      modifies this`turn
      ensures (State(), result) == Finished(old(State()))
    {
      match turn {
        case Idle => result := None;
        case Running(_, submitted) => result := Some(submitted);
        case Steering(_, _) => result := Some(None);
      }
      turn := Idle;
    }
  }
}

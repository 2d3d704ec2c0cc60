/**
 * The pool and the actor as objects updated in place. A method of the actor ends where the source suspends on the pool, on a
 * turn or on a channel, so that other actors may run in between.
 */
module HarnessObjects {
  import opened HarnessModel

  class Capacity {
    var active: nat
    var limit: nat
    var revision: nat
    // Unlocked but not yet announced changes, and the tokens held outside any actor.
    ghost var owed: nat
    ghost var outside: nat

    ghost function State(): Pool
      reads this
    {
      Pool(active, limit, revision, owed, outside)
    }

    constructor (limit: nat)
      ensures State() == Fresh(limit)
    {
      active, this.limit, revision, owed, outside := 0, limit, 0, 0, 0;
    }

    method Reserve() returns (ok: bool)
      modifies this
      ensures ok == Room(old(State())) && State() == Reserved(old(State()))
    {
      if active >= limit {
        return false;
      }
      active := active + 1;
      return true;
    }

    method Changed()
      requires owed > 0
      modifies this
      ensures State() == Bumped(old(State()))
    {
      revision := revision + 1;
      owed := owed - 1;
    }

    method SetLimit(limit: nat)
      modifies this
      ensures State() == Bumped(Limited(old(State()), limit))
    {
      this.limit := limit;
      owed := owed + 1;
      Changed();
    }

    /** Dropping a turn token. */
    method Release()
      requires active > 0
      modifies this
      ensures State() == Bumped(Returned(old(State())))
    {
      active := active - 1;
      owed := owed + 1;
      Changed();
    }
  }

  class Actor {
    var active: bool
    var pendingUrgent: seq<Message>
    var pendingDeferred: seq<Message>
    var seen: nat
    var phase: Phase
    var urgentBox: seq<Message>
    var deferredBox: seq<Message>
    ghost var issued: set<nat>
    var taken: seq<Message>
    var answers: seq<Answer>
    var reports: seq<Report>

    ghost function State(): Harness
      reads this
    {
      Harness(active, pendingUrgent, pendingDeferred, seen, phase, urgentBox, deferredBox, issued, taken, answers, reports)
    }

    constructor (capacity: Capacity)
      ensures State() == Spawned(capacity.revision)
    {
      active, pendingUrgent, pendingDeferred, seen, phase := false, [], [], capacity.revision, Resting;
      urgentBox, deferredBox, issued, taken, answers, reports := [], [], {}, [], [], [];
    }

    method EnqueueDelivery(m: Message) returns (ok: bool)
      modifies this
      ensures ok == MailboxTakes(old(State()), m) && State() == Enqueued(old(State()), m)
    {
      if phase == Gone {
        return false;
      }
      if m.priority == Urgent {
        if |urgentBox| >= URGENT_CAPACITY {
          return false;
        }
        urgentBox := urgentBox + [m];
      } else {
        if |deferredBox| >= DEFERRED_CAPACITY {
          return false;
        }
        deferredBox := deferredBox + [m];
      }
      issued := issued + {m.id};
      return true;
    }

    method Answer(answer: Answer)
      modifies this`answers
      ensures State() == Answering(old(State()), answer)
    {
      answers := answers + [answer];
    }

    /** `accept_delivery` of a released message, up to its attempt to reserve a turn. */
    method AcceptDelivery(m: Message, steer: Steer)
      modifies this
      ensures State() == HarnessModel.AcceptDelivery(old(State()), m, steer)
    {
      taken := taken + [m];
      if m.priority == Urgent && active {
        if steer == Succeeds {
          Answer(Admitted(m, Steered));
          return;
        }
        if steer == Breaks {
          Answer(Rejected(m));
          return;
        }
      }
      if !active && pendingDeferred == [] && pendingUrgent == [] {
        phase := Accepting(m);
        return;
      }
      QueueDelivery(m);
    }

    /** `accept_delivery` at its attempt to reserve a turn. */
    method ReserveForDelivery(capacity: Capacity)
      requires phase.Accepting?
      modifies this, capacity
      ensures State() == HarnessModel.ReserveForDelivery(old(State()), Room(old(capacity.State())))
      ensures capacity.State() == Reserved(old(capacity.State()))
    {
      var m := phase.message;
      var ok := capacity.Reserve();
      if ok {
        phase := Starting(m, false);
      } else {
        QueueDelivery(m);
        phase := Resting;
      }
    }

    method QueueDelivery(m: Message)
      modifies this
      ensures State() == HarnessModel.QueueDelivery(old(State()), m)
    {
      var length, bound := 0, 0;
      match m.priority {
        case Deferred => length, bound := |pendingDeferred|, DEFERRED_CAPACITY;
        case Urgent => length, bound := |pendingUrgent|, URGENT_CAPACITY;
      }
      if length >= bound {
        Answer(Rejected(m));
        return;
      }
      match m.priority {
        case Deferred => pendingDeferred := pendingDeferred + [m];
        case Urgent => pendingUrgent := pendingUrgent + [m];
      }
      Answer(Admitted(m, Queued));
    }

    /** `start_turn` resolves: the turn runs, or its token is dropped. */
    method StartResolves(ok: bool, capacity: Capacity)
      requires phase.Starting? && capacity.active > 0
      modifies this, capacity
      ensures State() == HarnessModel.StartResolves(old(State()), ok)
      ensures capacity.State() == if ok then old(capacity.State()) else Bumped(Returned(old(capacity.State())))
    {
      var m, queued := phase.message, phase.queued;
      if ok {
        active := true;
        phase := Resting;
        if queued {
          reports := reports + [Delivered(m)];
        } else {
          Answer(Admitted(m, Started));
        }
      } else {
        capacity.Release();
        if queued {
          reports := reports + [Failed(m)];
          phase := Draining;
        } else {
          Answer(Rejected(m));
          phase := Resting;
        }
      }
    }

    /** One turn of the `start_pending` loop. */
    method StartPending(capacity: Capacity)
      modifies this, capacity
      ensures State() == HarnessModel.StartPending(old(State()), Room(old(capacity.State())))
      ensures capacity.State() ==
        if old(State()).NothingPending() then old(capacity.State()) else Reserved(old(capacity.State()))
    {
      if pendingUrgent == [] && pendingDeferred == [] {
        phase := Resting;
        return;
      }
      var ok := capacity.Reserve();
      if !ok {
        phase := Resting;
        return;
      }
      if pendingUrgent != [] {
        phase := Starting(pendingUrgent[0], true);
        pendingUrgent := pendingUrgent[1..];
      } else {
        phase := Starting(pendingDeferred[0], true);
        pendingDeferred := pendingDeferred[1..];
      }
    }

    method FailPending()
      modifies this
      ensures State() == HarnessModel.FailPending(old(State()))
    {
      var pending := pendingUrgent + pendingDeferred;
      pendingUrgent, pendingDeferred := [], [];
      for i := 0 to |pending|
        invariant State() == old(State()).(
          reports := old(reports) + Failures(pending[..i]), pendingUrgent := [], pendingDeferred := [])
      {
        reports := reports + [Failed(pending[i])];
        assert Failures(pending[..i + 1]) == Failures(pending[..i]) + [Failed(pending[i])];
      }
      assert pending[..|pending|] == pending;
    }

    /** One turn of `reject_waiting_deliveries`, and what follows it once both channels are empty. */
    method RefuseWaiting(released: bool)
      requires phase.RefusingUrgent? || phase.RefusingDeferred?
      modifies this
      ensures State() == HarnessModel.RefuseWaiting(old(State()), released)
    {
      if phase.RefusingUrgent? {
        if urgentBox == [] {
          phase := RefusingDeferred(phase.closing);
          return;
        }
        var m := urgentBox[0];
        urgentBox := urgentBox[1..];
        Refuse(m, released);
      } else {
        if deferredBox == [] {
          FailPending();
          Stop(phase.closing);
          return;
        }
        var m := deferredBox[0];
        deferredBox := deferredBox[1..];
        Refuse(m, released);
      }
    }

    method Refuse(m: Message, released: bool)
      modifies this
      ensures State() == HarnessModel.Refuse(old(State()), m, released)
    {
      if !released {
        return;
      }
      taken := taken + [m];
      Answer(Rejected(m));
    }

    method Stop(closing: bool)
      modifies this
      ensures State() == HarnessModel.Stop(old(State()), closing)
    {
      if active {
        active := false;
        phase := Stopping(closing);
      } else {
        phase := if closing then Gone else Resting;
      }
    }

    /** The stopped turn's result is in, and its token is dropped. */
    method StopResolves(capacity: Capacity)
      requires phase.Stopping? && capacity.active > 0
      modifies this, capacity
      ensures State() == HarnessModel.StopResolves(old(State()))
      ensures capacity.State() == Bumped(Returned(old(capacity.State())))
    {
      capacity.Release();
      phase := if phase.closing then Gone else Resting;
    }

    method TurnFinished(capacity: Capacity)
      requires phase == Resting && active && capacity.active > 0
      modifies this, capacity
      ensures State() == old(State()).(active := false)
      ensures capacity.State() == Bumped(Returned(old(capacity.State())))
    {
      active := false;
      capacity.Release();
    }
  }
}

/** When a delivery is answered in which way, and what the shared pool and the mailboxes admit. */
module HarnessVerdicts {
  import opened HarnessModel
  import opened HarnessRuns

  /** How many messages of a priority may wait in a mailbox, and again how many in a queue. */
  function Allowed(priority: Priority): nat {
    match priority
    case Deferred => 8
    case Urgent => 4
  }

  function Box(h: Harness, priority: Priority): seq<Message> {
    match priority
    case Deferred => h.deferredBox
    case Urgent => h.urgentBox
  }

  /** Someone is before the next delivery: a running turn, or a queued message. */
  predicate Busy(h: Harness) {
    h.active || h.pendingUrgent != [] || h.pendingDeferred != []
  }

  // ------------------------------------------------------------------ refusals have reasons

  /** The only four reasons to refuse a message. */
  predicate MayReject(h: Harness, op: Op, m: Message) {
    || (op.Take? && Busy(h) && |Pending(h, m.priority)| >= Allowed(m.priority))
    || (op.Take? && m.priority == Urgent && h.active && op.steer == Breaks)
    || (op == Resolve(false) && h.phase == Starting(m, false))
    || (op.RefuseOne? && (h.phase.RefusingUrgent? || h.phase.RefusingDeferred?))
  }

  /** What the step that takes a released delivery `m` has to answer, if anything yet. */
  predicate TakenRightly(h: Harness, h1: Harness, m: Message, steer: Steer) {
    && h1.taken == h.taken + [m]
    && h1.active == h.active
    && Box(h, m.priority) == [m] + Box(h1, m.priority)
    && if m.priority == Urgent && h.active && steer == Succeeds then h1.answers == h.answers + [Admitted(m, Steered)]
       else if m.priority == Urgent && h.active && steer == Breaks then h1.answers == h.answers + [Rejected(m)]
       else if !Busy(h) then h1.answers == h.answers && h1.phase == Accepting(m)
       else if |Pending(h, m.priority)| < Allowed(m.priority) then
         h1.answers == h.answers + [Admitted(m, Queued)] && Pending(h1, m.priority) == Pending(h, m.priority) + [m]
       else h1.answers == h.answers + [Rejected(m)]
  }

  lemma QueueingDecides(h: Harness, m: Message)
    ensures var h1 := QueueDelivery(h, m);
      && h1.taken == h.taken && h1.active == h.active && h1.urgentBox == h.urgentBox && h1.deferredBox == h.deferredBox
      && if |Pending(h, m.priority)| < Allowed(m.priority) then
           h1.answers == h.answers + [Admitted(m, Queued)] && Pending(h1, m.priority) == Pending(h, m.priority) + [m]
         else h1.answers == h.answers + [Rejected(m)]
  {
  }

  lemma AcceptingDecides(h: Harness, m: Message, steer: Steer)
    ensures var h1 := AcceptDelivery(h, m, steer);
      && TakenRightly(if m.priority == Urgent then h.(urgentBox := [m] + h.urgentBox) else h.(deferredBox := [m] + h.deferredBox),
                      h1, m, steer)
  {
    QueueingDecides(h.(taken := h.taken + [m]), m);
  }

  lemma TakingDecides(h: Harness, p: Pool, priority: Priority, steer: Steer)
    requires Orderly(h) && CanDo(h, p, Take(priority, true, steer))
    ensures Box(h, priority) != [] && Box(h, priority)[0].priority == priority
    ensures TakenRightly(h, Act(h, p, Take(priority, true, steer)), Box(h, priority)[0], steer)
  {
    var box := Box(h, priority);
    assert box[0] in box && box == [box[0]] + box[1..];
    AcceptingDecides(if priority == Urgent then h.(urgentBox := box[1..]) else h.(deferredBox := box[1..]), box[0], steer);
  }

  /** A delivery that its sender gave up is dropped without a trace. */
  lemma UnreleasedIsDropped(h: Harness, p: Pool, priority: Priority, steer: Steer)
    requires CanDo(h, p, Take(priority, false, steer))
    ensures var h1 := Act(h, p, Take(priority, false, steer));
      h1 == if priority == Urgent then h.(urgentBox := h.urgentBox[1..]) else h.(deferredBox := h.deferredBox[1..])
  {
  }

  /** A delivery to an idle harness starts its turn exactly if the pool is below its limit, and is queued otherwise. */
  lemma ReservingDecides(h: Harness, p: Pool)
    requires Orderly(h) && CanDo(h, p, Reserve)
    ensures var m, h1, p1 := h.phase.message, Act(h, p, Reserve), Draw(h, p, Reserve);
      if p.active < p.limit then
        h1.phase == Starting(m, false) && h1.answers == h.answers && p1.active == p.active + 1
      else
        h1.answers == h.answers + [Admitted(m, Queued)] && Pending(h1, m.priority) == [m] && p1 == p
  {
    QueueingDecides(h, h.phase.message);
  }

  /** The start of its turn decides the rest: the turn runs, or the token is given back. */
  lemma ResolvingDecides(h: Harness, p: Pool, ok: bool)
    requires Orderly(h) && CanDo(h, p, Resolve(ok)) && !h.phase.queued
    ensures var m, h1, p1 := h.phase.message, Act(h, p, Resolve(ok)), Draw(h, p, Resolve(ok));
      if ok then h1.answers == h.answers + [Admitted(m, Started)] && h1.active && p1.active == p.active
      else h1.answers == h.answers + [Rejected(m)] && !h1.active && p1.active == p.active - 1
  {
  }

  /** Nothing but these steps answers, and no delivery is refused without one of the four reasons. */
  lemma RejectionsHaveReasons(h: Harness, p: Pool, op: Op, m: Message)
    requires Orderly(h) && CanDo(h, p, op) && Act(h, p, op).answers == h.answers + [Rejected(m)]
    ensures MayReject(h, op, m)
  {
    var n := |h.answers|;
    assert Act(h, p, op).answers[n] == Rejected(m);
    match op
    case Take(priority, released, steer) =>
      if released {
        TakingDecides(h, p, priority, steer);
      }
    case Reserve => ReservingDecides(h, p);
    case Resolve(ok) =>
    case _ =>
  }

  /** All of it: the answer of every step that owes one. */
  predicate AnsweredRightly(h: Harness, p: Pool, op: Op, h1: Harness) {
    match op
    case Take(priority, true, steer) => Box(h, priority) != [] && TakenRightly(h, h1, Box(h, priority)[0], steer)
    case Take(_, false, _) => h1.answers == h.answers
    case Reserve =>
      h.phase.Accepting? && if p.active < p.limit then h1.phase == Starting(h.phase.message, false)
                            else h1.answers == h.answers + [Admitted(h.phase.message, Queued)]
    case Resolve(ok) =>
      && h.phase.Starting?
      && (!h.phase.queued ==>
            h1.answers == h.answers + [if ok then Admitted(h.phase.message, Started) else Rejected(h.phase.message)])
    case RefuseOne(true) =>
      var box := if h.phase.RefusingUrgent? then h.urgentBox else h.deferredBox;
      h1.answers == h.answers + if box != [] then [Rejected(box[0])] else []
    case RefuseOne(false) => h1.answers == h.answers
    case _ => h1.answers == h.answers
  }

  lemma StepsAnswerRightly(h: Harness, p: Pool, op: Op)
    requires Orderly(h) && CanDo(h, p, op)
    ensures AnsweredRightly(h, p, op, Act(h, p, op))
  {
    match op
    case Take(priority, released, steer) =>
      if released {
        TakingDecides(h, p, priority, steer);
      }
    case Reserve => ReservingDecides(h, p);
    case _ =>
  }

  // ------------------------------------------------------------------ mailboxes

  /** A delivery enters its mailbox exactly if the harness is there and the mailbox has room. */
  lemma EnqueueDecides(h: Harness, p: Pool, m: Message)
    requires CanDo(h, p, Enqueue(m))
    ensures var h1 := Act(h, p, Enqueue(m));
      if h.phase != Gone && |Box(h, m.priority)| < Allowed(m.priority) then
        Box(h1, m.priority) == Box(h, m.priority) + [m] && h1.answers == h.answers
      else h1 == h
  {
  }

  // ------------------------------------------------------------------ stopping

  /** What is left to refuse. */
  function Waiting(h: Harness): nat {
    |h.urgentBox| + |h.deferredBox| + if h.phase.RefusingUrgent? then 1 else 0
  }

  predicate Refusing(h: Harness) {
    h.phase.RefusingUrgent? || h.phase.RefusingDeferred?
  }

  /** The harness once an interrupt or a close has refused everything: its turn, if it ran, is being stopped. */
  predicate TurnStops(active: bool, closing: bool, h: Harness) {
    && h.deferredBox == [] && h.pendingUrgent == [] && h.pendingDeferred == []
    && !h.active
    && h.phase == if active then Stopping(closing) else if closing then Gone else Resting
  }

  /** One refusal: a step nearer to the end, or the end, at which every queued message is reported failed. */
  lemma RefusingGoesOn(h: Harness, p: Pool)
    requires Refusing(h)
    ensures CanDo(h, p, RefuseOne(true))
    ensures var h1 := Act(h, p, RefuseOne(true));
      if h.phase.RefusingDeferred? && h.deferredBox == [] then
        && TurnStops(h.active, h.phase.closing, h1)
        && h1.urgentBox == h.urgentBox
        && h1.reports == h.reports + Failures(h.pendingUrgent + h.pendingDeferred)
      else
        && Refusing(h1) && (h1.phase.RefusingDeferred? ==> h.phase.RefusingDeferred? || h1.urgentBox == [])
        && (h.phase.RefusingDeferred? ==> h1.urgentBox == h.urgentBox)
        && h1.phase.closing == h.phase.closing && h1.active == h.active && Waiting(h1) == Waiting(h) - 1
        && (h1.answers != h.answers ==>
              h1.answers == h.answers + [Rejected(if h.phase.RefusingUrgent? then h.urgentBox[0] else h.deferredBox[0])])
  {
  }
}

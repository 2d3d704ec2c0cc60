/** One subagent actor and the turn-capacity pool it shares, as step functions between suspensions. */
module HarnessModel {

  // ------------------------------------------------------------------ the shared pool

  /**
   * `outside` counts the live tokens no harness holds; `owed` the releases and limit changes whose revision bump is still
   * to come, since both let go of the lock first.
   */
  datatype Pool = Pool(active: nat, limit: nat, revision: nat, owed: nat, outside: nat)

  function Fresh(limit: nat): Pool {
    Pool(0, limit, 0, 0, 0)
  }

  predicate Room(p: Pool) {
    p.active < p.limit
  }

  function Reserved(p: Pool): Pool {
    if Room(p) then p.(active := p.active + 1) else p
  }

  function Returned(p: Pool): Pool
    requires p.active > 0
  {
    p.(active := p.active - 1, owed := p.owed + 1)
  }

  function Limited(p: Pool, limit: nat): Pool {
    p.(limit := limit, owed := p.owed + 1)
  }

  function Bumped(p: Pool): Pool
    requires p.owed > 0
  {
    p.(revision := p.revision + 1, owed := p.owed - 1)
  }

  // ------------------------------------------------------------------ one harness

  const DEFERRED_CAPACITY: nat := 8
  const URGENT_CAPACITY: nat := 4

  datatype Priority = Deferred | Urgent

  datatype Message = Message(id: nat, priority: Priority)

  datatype Disposition = Started | Steered | Queued

  /** The one answer to a delivery, and the one later report on a queued message. */
  datatype Answer = Admitted(message: Message, disposition: Disposition) | Rejected(message: Message)
  datatype Report = Delivered(message: Message) | Failed(message: Message)

  /** What steering the running turn comes to; `NoSlot` when the turn takes no steer. */
  datatype Steer = NoSlot | Succeeds | NotSteerable | Breaks

  /** Where the actor is suspended. */
  datatype Phase =
    | Resting
    | Accepting(message: Message)
    | Starting(message: Message, queued: bool)
    | Draining
    | RefusingUrgent(closing: bool)
    | RefusingDeferred(closing: bool)
    | Stopping(closing: bool)
    | Gone

  datatype Harness = Harness(
    active: bool,
    pendingUrgent: seq<Message>,
    pendingDeferred: seq<Message>,
    seen: nat,
    phase: Phase,
    urgentBox: seq<Message>,
    deferredBox: seq<Message>,
    issued: set<nat>,
    taken: seq<Message>,
    answers: seq<Answer>,
    reports: seq<Report>)
  {
    predicate NothingPending() {
      pendingUrgent == [] && pendingDeferred == []
    }

    /** The turn tokens this harness keeps alive. */
    function Tokens(): nat {
      if active || phase.Starting? || phase.Stopping? then 1 else 0
    }
  }

  function Spawned(revision: nat): Harness {
    Harness(false, [], [], revision, Resting, [], [], {}, [], [], [])
  }

  /** `enqueue_delivery`: a full mailbox or a gone harness refuses at once. */
  predicate MailboxTakes(h: Harness, m: Message) {
    h.phase != Gone && match m.priority
      case Urgent => |h.urgentBox| < URGENT_CAPACITY
      case Deferred => |h.deferredBox| < DEFERRED_CAPACITY
  }

  function Enqueued(h: Harness, m: Message): Harness {
    if !MailboxTakes(h, m) then h
    else match m.priority
      case Urgent => h.(urgentBox := h.urgentBox + [m], issued := h.issued + {m.id})
      case Deferred => h.(deferredBox := h.deferredBox + [m], issued := h.issued + {m.id})
  }

  function Answering(h: Harness, answer: Answer): Harness {
    h.(answers := h.answers + [answer])
  }

  function QueueDelivery(h: Harness, m: Message): Harness {
    match m.priority
    case Urgent =>
      if |h.pendingUrgent| >= URGENT_CAPACITY then Answering(h, Rejected(m))
      else Answering(h.(pendingUrgent := h.pendingUrgent + [m]), Admitted(m, Queued))
    case Deferred =>
      if |h.pendingDeferred| >= DEFERRED_CAPACITY then Answering(h, Rejected(m))
      else Answering(h.(pendingDeferred := h.pendingDeferred + [m]), Admitted(m, Queued))
  }

  /** `accept_delivery` of a released message, up to its attempt to reserve a turn. */
  function AcceptDelivery(h: Harness, m: Message, steer: Steer): Harness {
    var h1 := h.(taken := h.taken + [m]);
    if m.priority == Urgent && h.active && steer == Succeeds then Answering(h1, Admitted(m, Steered))
    else if m.priority == Urgent && h.active && steer == Breaks then Answering(h1, Rejected(m))
    else if !h.active && h.NothingPending() then h1.(phase := Accepting(m))
    else QueueDelivery(h1, m)
  }

  /** A delivery leaves its channel; if its sender gave it up before releasing it, nothing happens. */
  function TakeDelivery(h: Harness, priority: Priority, released: bool, steer: Steer): Harness
    requires if priority.Urgent? then h.urgentBox != [] else h.deferredBox != []
  {
    match priority
    case Urgent =>
      var h1 := h.(urgentBox := h.urgentBox[1..]);
      if released then AcceptDelivery(h1, h.urgentBox[0], steer) else h1
    case Deferred =>
      var h1 := h.(deferredBox := h.deferredBox[1..]);
      if released then AcceptDelivery(h1, h.deferredBox[0], steer) else h1
  }

  /** `accept_delivery` after its attempt to reserve a turn. */
  function ReserveForDelivery(h: Harness, room: bool): Harness
    requires h.phase.Accepting?
  {
    if room then h.(phase := Starting(h.phase.message, false))
    else QueueDelivery(h, h.phase.message).(phase := Resting)
  }

  /** `start_turn` resolves; a failure gives its token back. */
  function StartResolves(h: Harness, ok: bool): Harness
    requires h.phase.Starting?
  {
    var m := h.phase.message;
    if ok then
      var h1 := h.(active := true, phase := Resting);
      if h.phase.queued then h1.(reports := h.reports + [Delivered(m)]) else Answering(h1, Admitted(m, Started))
    else if h.phase.queued then
      h.(reports := h.reports + [Failed(m)], phase := Draining)
    else
      Answering(h, Rejected(m)).(phase := Resting)
  }

  /** One turn of the `start_pending` loop, up to the start of the message at the front. */
  function StartPending(h: Harness, room: bool): Harness {
    if h.NothingPending() || !room then h.(phase := Resting)
    else if h.pendingUrgent != [] then
      h.(pendingUrgent := h.pendingUrgent[1..], phase := Starting(h.pendingUrgent[0], true))
    else
      h.(pendingDeferred := h.pendingDeferred[1..], phase := Starting(h.pendingDeferred[0], true))
  }

  function Failures(messages: seq<Message>): seq<Report> {
    seq(|messages|, i requires 0 <= i < |messages| => Failed(messages[i]))
  }

  function FailPending(h: Harness): Harness {
    h.(reports := h.reports + Failures(h.pendingUrgent + h.pendingDeferred), pendingUrgent := [], pendingDeferred := [])
  }

  /** `stop_active` or `close` with the turn's token still held until its result is in. */
  function Stop(h: Harness, closing: bool): Harness {
    if h.active then h.(active := false, phase := Stopping(closing))
    else h.(phase := if closing then Gone else Resting)
  }

  function StopResolves(h: Harness): Harness
    requires h.phase.Stopping?
  {
    h.(phase := if h.phase.closing then Gone else Resting)
  }

  /** One turn of `reject_waiting_deliveries`, and what follows it once both channels are empty. */
  function RefuseWaiting(h: Harness, released: bool): Harness
    requires h.phase.RefusingUrgent? || h.phase.RefusingDeferred?
  {
    if h.phase.RefusingUrgent? then
      if h.urgentBox == [] then h.(phase := RefusingDeferred(h.phase.closing))
      else Refuse(h.(urgentBox := h.urgentBox[1..]), h.urgentBox[0], released)
    else
      if h.deferredBox == [] then Stop(FailPending(h), h.phase.closing)
      else Refuse(h.(deferredBox := h.deferredBox[1..]), h.deferredBox[0], released)
  }

  function Refuse(h: Harness, m: Message, released: bool): Harness {
    if released then Answering(h.(taken := h.taken + [m]), Rejected(m)) else h
  }

  // ------------------------------------------------------------------ every step of one harness

  datatype Op =
    | Enqueue(message: Message)
    | Take(priority: Priority, released: bool, steer: Steer)
    | Reserve
    | Resolve(ok: bool)
    | Drain
    | CapacityChanged
    | TurnFinished
    | StartCommand(ok: bool)
    | InterruptCommand
    | CloseCommand
    | CommandsClosed
    | RefuseOne(released: bool)
    | Stopped

  predicate CanDo(h: Harness, p: Pool, op: Op) {
    match op
    case Enqueue(m) => m.id !in h.issued
    case Take(priority, _, _) =>
      h.phase == Resting && (if priority.Urgent? then h.urgentBox != [] else h.deferredBox != [])
    case Reserve => h.phase.Accepting?
    case Resolve(ok) => h.phase.Starting? && p.active > 0
    case Drain => h.phase == Draining
    case CapacityChanged => h.phase == Resting && !h.active && !h.NothingPending() && p.revision > h.seen
    case TurnFinished => h.phase == Resting && h.active && p.active > 0
    case StartCommand(_) => h.phase == Resting && p.outside > 0 && p.active > 0
    case InterruptCommand => h.phase == Resting
    case CloseCommand => h.phase == Resting
    case CommandsClosed => h.phase == Resting
    case RefuseOne(_) => h.phase.RefusingUrgent? || h.phase.RefusingDeferred?
    case Stopped => h.phase.Stopping? && p.active > 0
  }

  /** The harness after an operation, given the pool it meets. */
  function Act(h: Harness, p: Pool, op: Op): Harness
    requires CanDo(h, p, op)
  {
    match op
    case Enqueue(m) => Enqueued(h, m)
    case Take(priority, released, steer) => TakeDelivery(h, priority, released, steer)
    case Reserve => ReserveForDelivery(h, Room(p))
    case Resolve(ok) => StartResolves(h, ok)
    case Drain => StartPending(h, Room(p))
    case CapacityChanged => h.(seen := p.revision, phase := Draining)
    case TurnFinished => h.(active := false)
    case StartCommand(ok) => if h.active || !ok then h else h.(active := true)
    case InterruptCommand => h.(phase := RefusingUrgent(false))
    case CloseCommand => h.(phase := RefusingUrgent(true))
    case CommandsClosed => Stop(FailPending(h), true)
    case RefuseOne(released) => RefuseWaiting(h, released)
    case Stopped => StopResolves(h)
  }

  /** The pool after the same operation. */
  function Draw(h: Harness, p: Pool, op: Op): Pool
    requires CanDo(h, p, op)
  {
    match op
    case Reserve => Reserved(p)
    case Drain => if h.NothingPending() then p else Reserved(p)
    case Resolve(ok) => if ok then p else Returned(p)
    case TurnFinished => Returned(p)
    case Stopped => Returned(p)
    case StartCommand(ok) =>
      var p1 := p.(outside := p.outside - 1);
      if h.active || !ok then Returned(p1) else p1
    case _ => p
  }
}

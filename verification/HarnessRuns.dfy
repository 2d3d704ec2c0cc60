/** What every interleaving of any number of harnesses over one pool keeps. */
module HarnessRuns {
  import opened HarnessModel

  // ------------------------------------------------------------------ the fate of messages in one harness

  function Ids(messages: seq<Message>): set<nat> {
    set m <- messages :: m.id
  }

  predicate Distinct(messages: seq<Message>) {
    forall i, j :: 0 <= i < j < |messages| ==> messages[i].id != messages[j].id
  }

  function Answered(answers: seq<Answer>): seq<Message> {
    seq(|answers|, i requires 0 <= i < |answers| => answers[i].message)
  }

  /** The messages of one priority admitted as queued, in admission order. */
  function QueuedIn(answers: seq<Answer>, priority: Priority): seq<Message> {
    if answers == [] then []
    else
      var last := answers[|answers| - 1];
      QueuedIn(answers[..|answers| - 1], priority) +
      if last.Admitted? && last.disposition == Queued && last.message.priority == priority then [last.message] else []
  }

  /** The messages of one priority reported delivered or failed, in report order. */
  function ReportedIn(reports: seq<Report>, priority: Priority): seq<Message> {
    if reports == [] then []
    else
      var last := reports[|reports| - 1];
      ReportedIn(reports[..|reports| - 1], priority) +
      if last.message.priority == priority then [last.message] else []
  }

  /** The taken delivery whose answer is still due. */
  function DueAnswer(h: Harness): seq<Message> {
    match h.phase
    case Accepting(m) => [m]
    case Starting(m, false) => [m]
    case _ => []
  }

  /** The queued message whose report is still due because its turn is being started. */
  function DueReport(h: Harness, priority: Priority): seq<Message> {
    match h.phase
    case Starting(m, true) => if m.priority == priority then [m] else []
    case _ => []
  }

  function Pending(h: Harness, priority: Priority): seq<Message> {
    match priority
    case Urgent => h.pendingUrgent
    case Deferred => h.pendingDeferred
  }

  /** Every taken delivery is answered, once and in turn, except the one in hand. */
  predicate AnswersInTurn(h: Harness) {
    h.taken == Answered(h.answers) + DueAnswer(h)
  }

  predicate ReportInTurn(h: Harness, priority: Priority) {
    QueuedIn(h.answers, priority) == ReportedIn(h.reports, priority) + DueReport(h, priority) + Pending(h, priority)
  }

  /** Every queued message is reported, once and in queue order, except the one being started and those still queued. */
  predicate ReportsInTurn(h: Harness) {
    forall priority: Priority :: ReportInTurn(h, priority)
  }

  predicate Sorted(messages: seq<Message>, priority: Priority) {
    forall m <- messages :: m.priority == priority
  }

  /** No message id is in two places, so no delivery is taken twice. */
  predicate NeverRepeated(h: Harness) {
    && Distinct(h.taken) && Distinct(h.urgentBox) && Distinct(h.deferredBox)
    && Ids(h.taken) !! Ids(h.urgentBox) !! Ids(h.deferredBox)
    && Ids(h.taken) + Ids(h.urgentBox) + Ids(h.deferredBox) <= h.issued
  }

  predicate Orderly(h: Harness) {
    && AnswersInTurn(h)
    && ReportsInTurn(h)
    && NeverRepeated(h)
    && Sorted(h.pendingUrgent, Urgent) && Sorted(h.pendingDeferred, Deferred)
    && Sorted(h.urgentBox, Urgent) && Sorted(h.deferredBox, Deferred)
    && |h.pendingUrgent| <= URGENT_CAPACITY && |h.pendingDeferred| <= DEFERRED_CAPACITY
    && (h.phase.Accepting? || h.phase.Stopping? || h.phase == Gone ==> h.NothingPending())
    && (h.phase.Accepting? || h.phase.Starting? || h.phase == Draining || h.phase.Stopping? || h.phase == Gone ==> !h.active)
  }

  // ------------------------------------------------------------------ one step keeps the order

  lemma QueuedInGrows(answers: seq<Answer>, a: Answer, priority: Priority)
    ensures QueuedIn(answers + [a], priority) ==
      QueuedIn(answers, priority) + if a.Admitted? && a.disposition == Queued && a.message.priority == priority then [a.message] else []
  {
    assert (answers + [a])[..|answers|] == answers;
  }

  lemma {:induction false} ReportedInGrows(reports: seq<Report>, more: seq<Report>, priority: Priority)
    ensures ReportedIn(reports + more, priority) == ReportedIn(reports, priority) + ReportedIn(more, priority)
  {
    if more == [] {
      assert reports + more == reports;
    } else {
      var n := |more| - 1;
      ReportedInGrows(reports, more[..n], priority);
      assert (reports + more)[..|reports + more| - 1] == reports + more[..n];
    }
  }

  lemma FailuresSplit(messages: seq<Message>, n: nat)
    requires |messages| == n + 1
    ensures Failures(messages)[..n] == Failures(messages[..n]) && Failures(messages)[n] == Failed(messages[n])
  {
  }

  lemma {:induction false} FailuresReported(messages: seq<Message>, own: Priority, priority: Priority)
    requires Sorted(messages, own)
    ensures ReportedIn(Failures(messages), priority) == if own == priority then messages else []
  {
    if messages != [] {
      var n := |messages| - 1;
      assert messages == messages[..n] + [messages[n]];
      assert messages[n] in messages;
      assert forall m <- messages[..n] :: m in messages;
      FailuresReported(messages[..n], own, priority);
      FailuresSplit(messages, n);
    }
  }

  lemma FailuresOfPending(urgent: seq<Message>, deferred: seq<Message>, priority: Priority)
    requires Sorted(urgent, Urgent) && Sorted(deferred, Deferred)
    ensures ReportedIn(Failures(urgent + deferred), priority) == if priority == Urgent then urgent else deferred
  {
    assert Failures(urgent + deferred) == Failures(urgent) + Failures(deferred);
    ReportedInGrows(Failures(urgent), Failures(deferred), priority);
    FailuresReported(urgent, Urgent, priority);
    FailuresReported(deferred, Deferred, priority);
  }

  lemma FailPendingReport(h: Harness, priority: Priority)
    requires Sorted(h.pendingUrgent, Urgent) && Sorted(h.pendingDeferred, Deferred)
    requires ReportInTurn(h, priority) && !h.phase.Starting?
    ensures ReportInTurn(FailPending(h), priority)
  {
    ReportedInGrows(h.reports, Failures(h.pendingUrgent + h.pendingDeferred), priority);
    FailuresOfPending(h.pendingUrgent, h.pendingDeferred, priority);
  }

  lemma FailPendingReports(h: Harness)
    requires Sorted(h.pendingUrgent, Urgent) && Sorted(h.pendingDeferred, Deferred)
    requires ReportsInTurn(h) && !h.phase.Starting?
    ensures ReportsInTurn(FailPending(h))
  {
    forall priority: Priority
      ensures ReportInTurn(FailPending(h), priority)
    {
      assert ReportInTurn(h, priority);
      FailPendingReport(h, priority);
    }
  }

  lemma AnsweredGrows(answers: seq<Answer>, a: Answer)
    ensures Answered(answers + [a]) == Answered(answers) + [a.message]
  {
  }

  /** Answering the delivery in hand without queueing it. */
  lemma AnsweringInTurn(h: Harness, a: Answer)
    requires h.taken == Answered(h.answers) + [a.message]
    requires ReportsInTurn(h) && !(a.Admitted? && a.disposition == Queued)
    ensures var h1 := Answering(h, a);
      h1.taken == Answered(h1.answers) && ReportsInTurn(h1)
  {
    AnsweredGrows(h.answers, a);
    forall priority: Priority
      ensures ReportInTurn(Answering(h, a), priority)
    {
      assert ReportInTurn(h, priority);
      QueuedInGrows(h.answers, a, priority);
    }
  }

  lemma QueueingReport(h: Harness, m: Message, priority: Priority)
    requires ReportInTurn(h, priority) && QueueDelivery(h, m) != Answering(h, Rejected(m))
    ensures ReportInTurn(QueueDelivery(h, m), priority)
  {
    var more := if m.priority == priority then [m] else [];
    QueuedInGrows(h.answers, Admitted(m, Queued), priority);
    Regroup(ReportedIn(h.reports, priority), DueReport(h, priority), Pending(h, priority), more);
    assert Pending(QueueDelivery(h, m), priority) == Pending(h, priority) + more;
  }

  lemma Regroup(a: seq<Message>, b: seq<Message>, c: seq<Message>, d: seq<Message>)
    ensures a + b + c + d == a + b + (c + d)
  {
  }

  lemma QueueingInTurn(h: Harness, m: Message)
    requires h.taken == Answered(h.answers) + [m]
    requires ReportsInTurn(h)
    ensures var h1 := QueueDelivery(h, m);
      && h1.taken == Answered(h1.answers) && ReportsInTurn(h1)
  {
    if QueueDelivery(h, m) == Answering(h, Rejected(m)) {
      AnsweringInTurn(h, Rejected(m));
    } else {
      AnsweredGrows(h.answers, Admitted(m, Queued));
      forall priority: Priority
        ensures ReportInTurn(QueueDelivery(h, m), priority)
      {
        assert ReportInTurn(h, priority);
        QueueingReport(h, m, priority);
      }
    }
  }

  // ------------------------------------------------------------------ every operation keeps a harness orderly

  lemma DistinctGrows(messages: seq<Message>, m: Message)
    requires Distinct(messages) && m.id !in Ids(messages)
    ensures Distinct(messages + [m]) && Ids(messages + [m]) == Ids(messages) + {m.id}
  {
    forall i | 0 <= i < |messages|
      ensures messages[i].id in Ids(messages)
    {
      assert messages[i] in messages;
    }
    assert (messages + [m])[|messages|] == m;
    assert forall x <- messages :: x in messages + [m];
  }

  lemma TailIsDistinct(messages: seq<Message>)
    requires Distinct(messages) && messages != []
    ensures Distinct(messages[1..]) && messages[0].id !in Ids(messages[1..])
  {
    forall x | x in messages[1..]
      ensures x.id != messages[0].id
    {
      var k :| 0 <= k < |messages| - 1 && messages[1..][k] == x;
      assert messages[k + 1] == x;
    }
  }

  lemma TailIds(messages: seq<Message>)
    requires messages != []
    ensures Ids(messages) == {messages[0].id} + Ids(messages[1..])
  {
    assert messages == [messages[0]] + messages[1..];
    assert forall x <- messages :: x == messages[0] || x in messages[1..];
    assert messages[0] in messages;
  }

  lemma DistinctShrinks(messages: seq<Message>)
    requires Distinct(messages) && messages != []
    ensures Distinct(messages[1..]) && Ids(messages[1..]) == Ids(messages) - {messages[0].id}
    ensures messages[0].id in Ids(messages)
  {
    TailIsDistinct(messages);
    TailIds(messages);
  }

  /** An operation that moves no message changes no fate. */
  lemma SameFates(h: Harness, h1: Harness)
    requires ReportsInTurn(h)
    requires h1.answers == h.answers && h1.reports == h.reports
    requires h1.pendingUrgent == h.pendingUrgent && h1.pendingDeferred == h.pendingDeferred
    requires forall priority: Priority :: DueReport(h1, priority) == DueReport(h, priority)
    ensures ReportsInTurn(h1)
  {
    forall priority: Priority ensures ReportInTurn(h1, priority) {
      assert ReportInTurn(h, priority);
    }
  }

  lemma EnqueuePreserves(h: Harness, m: Message)
    requires Orderly(h) && m.id !in h.issued
    ensures Orderly(Enqueued(h, m))
  {
    var h1 := Enqueued(h, m);
    forall priority: Priority ensures ReportInTurn(h1, priority) {
      assert ReportInTurn(h, priority);
    }
    DistinctGrows(if m.priority == Urgent then h.urgentBox else h.deferredBox, m);
  }

  /** The front delivery of a mailbox leaves it, taken or given up. */
  lemma LeavingMailbox(h: Harness, priority: Priority)
    requires NeverRepeated(h)
    requires if priority.Urgent? then h.urgentBox != [] else h.deferredBox != []
    ensures var m := if priority.Urgent? then h.urgentBox[0] else h.deferredBox[0];
      var h1 := if priority.Urgent? then h.(urgentBox := h.urgentBox[1..]) else h.(deferredBox := h.deferredBox[1..]);
      && NeverRepeated(h1)
      && NeverRepeated(h1.(taken := h.taken + [m]))
  {
    var box := if priority.Urgent? then h.urgentBox else h.deferredBox;
    DistinctShrinks(box);
    DistinctGrows(h.taken, box[0]);
  }

  lemma SortedParts(messages: seq<Message>, priority: Priority)
    requires Sorted(messages, priority) && messages != []
    ensures messages[0].priority == priority && Sorted(messages[1..], priority)
  {
  }

  lemma AcceptPreserves(h: Harness, m: Message, steer: Steer)
    requires h.phase == Resting && Orderly(h) && NeverRepeated(h.(taken := h.taken + [m]))
    ensures Orderly(AcceptDelivery(h, m, steer))
  {
    var h1 := h.(taken := h.taken + [m]);
    assert h.taken == Answered(h.answers);
    forall priority: Priority ensures ReportInTurn(h1, priority) {
      assert ReportInTurn(h, priority);
    }
    if m.priority == Urgent && h.active && steer == Succeeds {
      AnsweringInTurn(h1, Admitted(m, Steered));
    } else if m.priority == Urgent && h.active && steer == Breaks {
      AnsweringInTurn(h1, Rejected(m));
    } else if !h.active && h.NothingPending() {
      var h2 := h1.(phase := Accepting(m));
      forall priority: Priority ensures ReportInTurn(h2, priority) {
        assert ReportInTurn(h1, priority);
      }
    } else {
      QueueingInTurn(h1, m);
    }
  }

  lemma TakePreserves(h: Harness, priority: Priority, released: bool, steer: Steer)
    requires Orderly(h) && h.phase == Resting
    requires if priority.Urgent? then h.urgentBox != [] else h.deferredBox != []
    ensures Orderly(TakeDelivery(h, priority, released, steer))
  {
    LeavingMailbox(h, priority);
    var box := if priority.Urgent? then h.urgentBox else h.deferredBox;
    SortedParts(box, priority);
    var h1 := if priority.Urgent? then h.(urgentBox := h.urgentBox[1..]) else h.(deferredBox := h.deferredBox[1..]);
    SameFates(h, h1);
    if released {
      AcceptPreserves(h1, box[0], steer);
    }
  }

  lemma ReservePreserves(h: Harness, room: bool)
    requires Orderly(h) && h.phase.Accepting?
    ensures Orderly(ReserveForDelivery(h, room))
  {
    if room {
      SameFates(h, ReserveForDelivery(h, room));
    } else {
      QueueingInTurn(h, h.phase.message);
      SameFates(QueueDelivery(h, h.phase.message), ReserveForDelivery(h, room));
    }
  }

  lemma ReportedInAppends(reports: seq<Report>, r: Report, priority: Priority)
    ensures ReportedIn(reports + [r], priority) ==
      ReportedIn(reports, priority) + if r.message.priority == priority then [r.message] else []
  {
    assert (reports + [r])[..|reports|] == reports;
  }

  lemma ReportIsDue(h: Harness, h1: Harness, r: Report, priority: Priority)
    requires ReportInTurn(h, priority) && h.phase == Starting(r.message, true) && !h1.phase.Starting?
    requires h1.reports == h.reports + [r] && h1.answers == h.answers && Pending(h1, priority) == Pending(h, priority)
    ensures ReportInTurn(h1, priority)
  {
    ReportedInAppends(h.reports, r, priority);
    assert DueReport(h1, priority) == [];
  }

  /** The message being started is reported. */
  lemma ReportingInTurn(h: Harness, r: Report, phase: Phase, active: bool)
    requires ReportsInTurn(h) && h.phase == Starting(r.message, true) && !phase.Starting?
    ensures ReportsInTurn(h.(reports := h.reports + [r], phase := phase, active := active))
  {
    var h1 := h.(reports := h.reports + [r], phase := phase, active := active);
    forall priority: Priority
      ensures ReportInTurn(h1, priority)
    {
      assert ReportInTurn(h, priority);
      ReportIsDue(h, h1, r, priority);
    }
  }

  lemma ResolvePreserves(h: Harness, ok: bool)
    requires Orderly(h) && h.phase.Starting?
    ensures Orderly(StartResolves(h, ok))
  {
    var m := h.phase.message;
    if h.phase.queued {
      ReportingInTurn(h, if ok then Delivered(m) else Failed(m), if ok then Resting else Draining, ok);
    } else {
      var a := if ok then Admitted(m, Started) else Rejected(m);
      AnsweringInTurn(h, a);
      SameFates(Answering(h, a), StartResolves(h, ok));
    }
  }

  lemma TailSorted(messages: seq<Message>, priority: Priority)
    requires Sorted(messages, priority)
    ensures messages != [] ==> messages[0].priority == priority && Sorted(messages[1..], priority)
  {
    assert messages != [] ==> messages[0] in messages && messages == [messages[0]] + messages[1..];
  }

  /** Starting the front message of a queue moves it from the queue to the report that is due. */
  lemma DrainReports(h: Harness, room: bool, priority: Priority)
    requires ReportInTurn(h, priority) && h.phase == Draining
    requires Sorted(h.pendingUrgent, Urgent) && Sorted(h.pendingDeferred, Deferred)
    ensures ReportInTurn(StartPending(h, room), priority)
  {
    var h1 := StartPending(h, room);
    TailSorted(h.pendingUrgent, Urgent);
    TailSorted(h.pendingDeferred, Deferred);
    if h1.phase.Starting? && h1.phase.message.priority == priority {
      var queue := Pending(h, priority);
      assert DueReport(h1, priority) == [queue[0]] && Pending(h1, priority) == queue[1..];
      FrontMoves(ReportedIn(h.reports, priority), queue);
    }
  }

  lemma FrontMoves(reported: seq<Message>, queue: seq<Message>)
    requires queue != []
    ensures reported + [] + queue == reported + [queue[0]] + queue[1..]
  {
  }

  lemma DrainPreserves(h: Harness, room: bool)
    requires Orderly(h) && h.phase == Draining
    ensures Orderly(StartPending(h, room))
    // No deferred message starts while an urgent one waits.
    ensures var phase := StartPending(h, room).phase;
      phase.Starting? && phase.message.priority == Deferred ==> h.pendingUrgent == []
  {
    TailSorted(h.pendingUrgent, Urgent);
    TailSorted(h.pendingDeferred, Deferred);
    forall priority: Priority ensures ReportInTurn(StartPending(h, room), priority) {
      assert ReportInTurn(h, priority);
      DrainReports(h, room, priority);
    }
  }

  lemma StopPreserves(h: Harness, closing: bool)
    requires Orderly(h) && (h.phase == Resting || h.phase.RefusingDeferred?)
    ensures Orderly(Stop(FailPending(h), closing))
  {
    FailPendingReports(h);
    SameFates(FailPending(h), Stop(FailPending(h), closing));
  }

  lemma RefusePreserves(h: Harness, released: bool)
    requires Orderly(h) && (h.phase.RefusingUrgent? || h.phase.RefusingDeferred?)
    ensures Orderly(RefuseWaiting(h, released))
  {
    var h2 := RefuseWaiting(h, released);
    if (if h.phase.RefusingUrgent? then h.urgentBox else h.deferredBox) == [] {
      if h.phase.RefusingUrgent? {
        SameFates(h, h2);
      } else {
        StopPreserves(h, h.phase.closing);
      }
    } else {
      var priority := if h.phase.RefusingUrgent? then Urgent else Deferred;
      LeavingMailbox(h, priority);
      var box := if priority.Urgent? then h.urgentBox else h.deferredBox;
      SortedParts(box, priority);
      var h1 := if priority.Urgent? then h.(urgentBox := h.urgentBox[1..]) else h.(deferredBox := h.deferredBox[1..]);
      SameFates(h, h1);
      if released {
        SameFates(h1, h1.(taken := h1.taken + [box[0]]));
        AnsweringInTurn(h1.(taken := h1.taken + [box[0]]), Rejected(box[0]));
      }
    }
  }

  lemma ActPreserves(h: Harness, p: Pool, op: Op)
    requires Orderly(h) && CanDo(h, p, op)
    ensures Orderly(Act(h, p, op))
  {
    match op
    case Enqueue(m) => EnqueuePreserves(h, m);
    case Take(priority, released, steer) => TakePreserves(h, priority, released, steer);
    case Reserve => ReservePreserves(h, Room(p));
    case Resolve(ok) => ResolvePreserves(h, ok);
    case Drain => DrainPreserves(h, Room(p));
    case CommandsClosed => StopPreserves(h, true);
    case RefuseOne(released) => RefusePreserves(h, released);
    case _ => SameFates(h, Act(h, p, op));
  }

  // ------------------------------------------------------------------ what is said is so

  predicate InNoQueue(h: Harness, m: Message) {
    m !in h.pendingUrgent && m !in h.pendingDeferred
  }

  predicate QueuesStay(h: Harness, h1: Harness) {
    h1.pendingUrgent == h.pendingUrgent && h1.pendingDeferred == h.pendingDeferred
  }

  /** What the step that gives an answer does. */
  predicate DoneAsSaid(h: Harness, h1: Harness, a: Answer) {
    match a
    case Admitted(m, Started) => h.phase == Starting(m, false) && !h.active && h1.active && QueuesStay(h, h1)
    case Admitted(m, Steered) => m.priority == Urgent && h.active && h1.active && QueuesStay(h, h1)
    case Admitted(m, Queued) =>
      && Pending(h1, m.priority) == Pending(h, m.priority) + [m]
      && (h.active || !h.NothingPending() || h.phase.Accepting?)
    case Rejected(m) => QueuesStay(h, h1)
  }

  /** And where the answered message is then: no queue has it unless the answer says so. */
  predicate Truthful(h: Harness, h1: Harness, a: Answer) {
    DoneAsSaid(h, h1, a) && (a == Admitted(a.message, Queued) || InNoQueue(h1, a.message))
  }

  lemma {:induction false} QueuedWereAnswered(answers: seq<Answer>, priority: Priority)
    ensures forall m <- QueuedIn(answers, priority) :: m in Answered(answers)
  {
    if answers != [] {
      var n := |answers| - 1;
      QueuedWereAnswered(answers[..n], priority);
      assert Answered(answers) == Answered(answers[..n]) + [answers[n].message];
    }
  }

  /** Whatever is in a queue has been answered before, so a message that is answered now is not. */
  lemma JustAnswered(h: Harness, h1: Harness, m: Message, priority: Priority)
    requires ReportInTurn(h, priority) && AnswersInTurn(h1) && Distinct(h1.taken)
    requires Answered(h1.answers) == Answered(h.answers) + [m] && Pending(h1, priority) == Pending(h, priority)
    ensures m !in Pending(h1, priority)
  {
    QueuedWereAnswered(h.answers, priority);
    assert forall x <- Pending(h, priority) :: x in QueuedIn(h.answers, priority);
    var n := |h.answers|;
    assert h1.taken[n] == m;
    forall k | 0 <= k < n
      ensures Answered(h.answers)[k] != m
    {
      assert h1.taken[k] == Answered(h.answers)[k];
    }
  }

  lemma AnsweredIsInNoQueue(h: Harness, h1: Harness, a: Answer)
    requires Orderly(h) && Orderly(h1) && h1.answers == h.answers + [a] && QueuesStay(h, h1)
    ensures InNoQueue(h1, a.message)
  {
    AnsweredGrows(h.answers, a);
    assert ReportInTurn(h, Urgent) && ReportInTurn(h, Deferred);
    JustAnswered(h, h1, a.message, Urgent);
    JustAnswered(h, h1, a.message, Deferred);
  }

  /** A step that answers, answers once, and does what it says. */
  ghost predicate SaysWhatItDoes(h: Harness, h1: Harness) {
    h1.answers == h.answers || exists a :: h1.answers == h.answers + [a] && DoneAsSaid(h, h1, a)
  }

  lemma QueueingDoesAsSaid(h: Harness, m: Message)
    requires h.active || !h.NothingPending() || h.phase.Accepting?
    ensures SaysWhatItDoes(h, QueueDelivery(h, m))
  {
    var h1 := QueueDelivery(h, m);
    var a := if h1 == Answering(h, Rejected(m)) then Rejected(m) else Admitted(m, Queued);
    assert h1.answers == h.answers + [a] && DoneAsSaid(h, h1, a);
  }

  lemma AcceptingDoesAsSaid(h: Harness, m: Message, steer: Steer)
    ensures SaysWhatItDoes(h, AcceptDelivery(h, m, steer))
  {
    var h1 := h.(taken := h.taken + [m]);
    if AcceptDelivery(h, m, steer) == QueueDelivery(h1, m) && (h.active || !h.NothingPending()) {
      QueueingDoesAsSaid(h1, m);
    } else if h.active && steer == Succeeds {
      assert DoneAsSaid(h, Answering(h1, Admitted(m, Steered)), Admitted(m, Steered));
    } else if h.active {
      assert DoneAsSaid(h, Answering(h1, Rejected(m)), Rejected(m));
    }
  }

  lemma TakingDoesAsSaid(h: Harness, priority: Priority, released: bool, steer: Steer)
    requires if priority.Urgent? then h.urgentBox != [] else h.deferredBox != []
    ensures SaysWhatItDoes(h, TakeDelivery(h, priority, released, steer))
  {
    match priority
    case Urgent => AcceptingDoesAsSaid(h.(urgentBox := h.urgentBox[1..]), h.urgentBox[0], steer);
    case Deferred => AcceptingDoesAsSaid(h.(deferredBox := h.deferredBox[1..]), h.deferredBox[0], steer);
  }

  lemma ResolvingDoesAsSaid(h: Harness, ok: bool)
    requires h.phase.Starting? && !h.active
    ensures SaysWhatItDoes(h, StartResolves(h, ok))
  {
    if !h.phase.queued {
      var a := if ok then Admitted(h.phase.message, Started) else Rejected(h.phase.message);
      assert DoneAsSaid(h, StartResolves(h, ok), a);
    }
  }

  lemma RefusingDoesAsSaid(h: Harness, released: bool)
    requires h.phase.RefusingUrgent? || h.phase.RefusingDeferred?
    ensures SaysWhatItDoes(h, RefuseWaiting(h, released))
  {
    var h1 := RefuseWaiting(h, released);
    if h1.answers != h.answers {
      var m := if h.phase.RefusingUrgent? then h.urgentBox[0] else h.deferredBox[0];
      assert DoneAsSaid(h, h1, Rejected(m));
    }
  }

  lemma StepsDoAsSaid(h: Harness, p: Pool, op: Op)
    requires Orderly(h) && CanDo(h, p, op)
    ensures SaysWhatItDoes(h, Act(h, p, op))
  {
    match op
    case Take(priority, released, steer) => TakingDoesAsSaid(h, priority, released, steer);
    case Reserve => QueueingDoesAsSaid(h, h.phase.message);
    case Resolve(ok) => ResolvingDoesAsSaid(h, ok);
    case RefuseOne(released) => RefusingDoesAsSaid(h, released);
    case _ =>
  }

  lemma SaidIsSo(h: Harness, h1: Harness)
    requires Orderly(h) && Orderly(h1) && SaysWhatItDoes(h, h1) && h1.answers != h.answers
    ensures exists a :: h1.answers == h.answers + [a] && Truthful(h, h1, a)
  {
    var a :| h1.answers == h.answers + [a] && DoneAsSaid(h, h1, a);
    if QueuesStay(h, h1) {
      AnsweredIsInNoQueue(h, h1, a);
    }
    assert Truthful(h, h1, a);
  }

  /** An answer says what became of the message: it runs, it steered the running turn, it is last in its queue, or it is in none. */
  lemma AnswersAreTrue(h: Harness, p: Pool, op: Op)
    requires Orderly(h) && CanDo(h, p, op)
    ensures var h1 := Act(h, p, op);
      h1.answers == h.answers || exists a :: h1.answers == h.answers + [a] && Truthful(h, h1, a)
  {
    StepsDoAsSaid(h, p, op);
    ActPreserves(h, p, op);
    if Act(h, p, op).answers != h.answers {
      SaidIsSo(h, Act(h, p, op));
    }
  }

  predicate ReportTrue(h: Harness, h1: Harness, r: Report) {
    match r
    case Delivered(m) => h.phase == Starting(m, true) && h1.active
    case Failed(m) =>
      (h.phase == Starting(m, true) && !h1.active) || (m in h.pendingUrgent + h.pendingDeferred && h1.NothingPending())
  }

  predicate NewReportsTrue(h: Harness, h1: Harness) {
    h.reports <= h1.reports && forall k | |h.reports| <= k < |h1.reports| :: ReportTrue(h, h1, h1.reports[k])
  }

  lemma GivingUpIsTrue(h: Harness, h1: Harness)
    requires h1.reports == h.reports + Failures(h.pendingUrgent + h.pendingDeferred) && h1.NothingPending()
    ensures NewReportsTrue(h, h1)
  {
    var pending := h.pendingUrgent + h.pendingDeferred;
    forall k | |h.reports| <= k < |h1.reports|
      ensures ReportTrue(h, h1, h1.reports[k])
    {
      assert h1.reports[k] == Failed(pending[k - |h.reports|]);
    }
  }

  /** A queued message is reported delivered when its turn runs, and failed when that start failed or the queues were given up. */
  lemma ReportsAreTrue(h: Harness, p: Pool, op: Op)
    requires Orderly(h) && CanDo(h, p, op)
    ensures NewReportsTrue(h, Act(h, p, op))
  {
    match op
    case CommandsClosed => GivingUpIsTrue(h, Act(h, p, op));
    case RefuseOne(released) =>
      if h.phase.RefusingDeferred? && h.deferredBox == [] {
        GivingUpIsTrue(h, Act(h, p, op));
      }
    case _ =>
  }
}

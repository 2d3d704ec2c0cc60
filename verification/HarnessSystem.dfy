/** Any number of harnesses over one pool: token accounting, wake-ups, and the fate of every message over whole runs. */
module HarnessSystem {
  import opened HarnessModel
  import opened HarnessRuns
  import opened HarnessVerdicts

  datatype System = System(pool: Pool, harnesses: seq<Harness>)

  datatype Step =
    | On(index: nat, op: Op)
    | Bump
    | SetLimit(limit: nat)
    | ReserveOutside
    | ReleaseOutside
    | Spawn

  predicate Opening(s: System) {
    s == System(Fresh(s.pool.limit), [])
  }

  predicate Enabled(s: System, step: Step) {
    match step
    case On(i, op) => i < |s.harnesses| && CanDo(s.harnesses[i], s.pool, op)
    case Bump => s.pool.owed > 0
    case ReserveOutside => Room(s.pool)
    case ReleaseOutside => s.pool.outside > 0 && s.pool.active > 0
    case _ => true
  }

  function Next(s: System, step: Step): System
    requires Enabled(s, step)
  {
    match step
    case On(i, op) =>
      System(Draw(s.harnesses[i], s.pool, op), s.harnesses[i := Act(s.harnesses[i], s.pool, op)])
    case Bump => s.(pool := Bumped(s.pool))
    case SetLimit(limit) => s.(pool := Limited(s.pool, limit))
    case ReserveOutside => s.(pool := Reserved(s.pool).(outside := s.pool.outside + 1))
    case ReleaseOutside => s.(pool := Returned(s.pool.(outside := s.pool.outside - 1)))
    case Spawn => s.(harnesses := s.harnesses + [Spawned(s.pool.revision)])
  }

  predicate Run(s: System, steps: seq<Step>)
    decreases |steps|
  {
    steps == [] || (Enabled(s, steps[0]) && Run(Next(s, steps[0]), steps[1..]))
  }

  function After(s: System, steps: seq<Step>): System
    requires Run(s, steps)
    decreases |steps|
  {
    if steps == [] then s else After(Next(s, steps[0]), steps[1..])
  }

  // ------------------------------------------------------------------ invariants

  /** All the turn tokens harnesses keep alive. */
  function TokensOf(harnesses: seq<Harness>): nat {
    if harnesses == [] then 0
    else TokensOf(harnesses[..|harnesses| - 1]) + harnesses[|harnesses| - 1].Tokens()
  }

  /** An idle harness with queued messages. */
  predicate Waits(h: Harness) {
    h.phase == Resting && !h.active && !h.NothingPending()
  }

  /** While there is room, a waiting harness has a revision it has not seen, or a bump is about to come. */
  predicate WillWake(h: Harness, p: Pool) {
    Waits(h) && Room(p) ==> p.revision > h.seen || p.owed > 0
  }

  predicate Healthy(h: Harness, p: Pool) {
    Orderly(h) && h.seen <= p.revision && WillWake(h, p)
  }

  predicate Accounted(s: System) {
    s.pool.active == s.pool.outside + TokensOf(s.harnesses)
  }

  predicate Sound(s: System) {
    && Accounted(s)
    && forall i :: 0 <= i < |s.harnesses| ==> Healthy(s.harnesses[i], s.pool)
  }

  lemma {:induction false} TokensUpdate(harnesses: seq<Harness>, i: nat, h: Harness)
    requires i < |harnesses|
    ensures TokensOf(harnesses[i := h]) == TokensOf(harnesses) - harnesses[i].Tokens() + h.Tokens()
  {
    var n := |harnesses| - 1;
    if i == n {
      assert harnesses[i := h][..n] == harnesses[..n];
    } else {
      assert harnesses[i := h][..n] == harnesses[..n][i := h];
      TokensUpdate(harnesses[..n], i, h);
    }
  }

  /** The pool changes by exactly the tokens the harness gains or gives back. */
  lemma TokensBalance(h: Harness, p: Pool, op: Op)
    requires Orderly(h) && CanDo(h, p, op)
    ensures Draw(h, p, op).active - Draw(h, p, op).outside - p.active + p.outside
         == Act(h, p, op).Tokens() - h.Tokens()
  {
  }

  /** How another's step looks to a harness: the revision never falls, and no bump that opened room is missed. */
  predicate PoolMoves(p: Pool, p1: Pool) {
    && p.revision <= p1.revision
    && (Room(p1) ==> p1.owed > 0 || p1.revision > p.revision || (Room(p) && p1.owed == p.owed))
  }

  lemma DrawMoves(h: Harness, p: Pool, op: Op)
    requires CanDo(h, p, op)
    ensures PoolMoves(p, Draw(h, p, op))
  {
  }

  lemma OthersStayHealthy(h: Harness, p: Pool, p1: Pool)
    requires Healthy(h, p) && PoolMoves(p, p1)
    ensures Healthy(h, p1)
  {
  }

  lemma ActorStaysHealthy(h: Harness, p: Pool, op: Op)
    requires Healthy(h, p) && CanDo(h, p, op)
    ensures Healthy(Act(h, p, op), Draw(h, p, op))
  {
    ActPreserves(h, p, op);
  }

  lemma SoundOn(s: System, i: nat, op: Op)
    requires Sound(s) && Enabled(s, On(i, op))
    ensures Sound(Next(s, On(i, op)))
  {
    var s1 := Next(s, On(i, op));
    var h := s.harnesses[i];
    ActorStaysHealthy(h, s.pool, op);
    TokensBalance(h, s.pool, op);
    TokensUpdate(s.harnesses, i, Act(h, s.pool, op));
    DrawMoves(h, s.pool, op);
    forall k | 0 <= k < |s1.harnesses|
      ensures Healthy(s1.harnesses[k], s1.pool)
    {
      if k != i {
        OthersStayHealthy(s.harnesses[k], s.pool, s1.pool);
      }
    }
  }

  lemma SpawnedIsHealthy(p: Pool)
    ensures Healthy(Spawned(p.revision), p) && Spawned(p.revision).Tokens() == 0
  {
    var h := Spawned(p.revision);
    forall priority: Priority
      ensures ReportInTurn(h, priority)
    {
      assert Pending(h, priority) == [];
    }
    assert ReportsInTurn(h) && NeverRepeated(h);
  }

  lemma SoundSpawn(s: System)
    requires Sound(s)
    ensures Sound(Next(s, Spawn))
  {
    SpawnedIsHealthy(s.pool);
    SoundJoin(s, Spawned(s.pool.revision));
  }

  /** A healthy harness without a token joins. */
  lemma SoundJoin(s: System, h: Harness)
    requires Sound(s) && Healthy(h, s.pool) && h.Tokens() == 0
    ensures Sound(s.(harnesses := s.harnesses + [h]))
  {
    TokensGrow(s.harnesses, h);
  }

  lemma TokensGrow(harnesses: seq<Harness>, h: Harness)
    ensures TokensOf(harnesses + [h]) == TokensOf(harnesses) + h.Tokens()
  {
    assert (harnesses + [h])[..|harnesses|] == harnesses;
  }

  /** A step of the pool alone. */
  lemma SoundPool(s: System, p: Pool)
    requires Sound(s) && PoolMoves(s.pool, p) && p.active - p.outside == s.pool.active - s.pool.outside
    ensures Sound(s.(pool := p))
  {
    forall k | 0 <= k < |s.harnesses|
      ensures Healthy(s.harnesses[k], p)
    {
      OthersStayHealthy(s.harnesses[k], s.pool, p);
    }
  }

  lemma SoundStep(s: System, step: Step)
    requires Sound(s) && Enabled(s, step)
    ensures Sound(Next(s, step))
  {
    match step
    case On(i, op) => SoundOn(s, i, op);
    case Spawn => SoundSpawn(s);
    case _ => SoundPool(s, Next(s, step).pool);
  }

  lemma {:induction false} RunsAreSound(s: System, steps: seq<Step>)
    requires Sound(s) && Run(s, steps)
    ensures Sound(After(s, steps))
    decreases |steps|
  {
    if steps != [] {
      SoundStep(s, steps[0]);
      RunsAreSound(Next(s, steps[0]), steps[1..]);
    }
  }

  // ------------------------------------------------------------------ the promises

  /** In every reachable state the pool counts exactly the live turn tokens, wherever they are held. */
  lemma ActiveCountsTokens(s: System, steps: seq<Step>)
    requires Opening(s) && Run(s, steps)
    ensures var end := After(s, steps);
      end.pool.active == end.pool.outside + TokensOf(end.harnesses)
  {
    RunsAreSound(s, steps);
  }

  lemma {:induction false} TokenIsCounted(harnesses: seq<Harness>, i: nat)
    requires i < |harnesses|
    ensures harnesses[i].Tokens() <= TokensOf(harnesses)
  {
    if i < |harnesses| - 1 {
      TokenIsCounted(harnesses[..|harnesses| - 1], i);
    }
  }

  /** Giving a token back never underflows the count: whoever still holds one is counted. */
  lemma ReleaseNeverUnderflows(s: System, steps: seq<Step>, i: nat)
    requires Opening(s) && Run(s, steps) && i < |After(s, steps).harnesses|
    ensures After(s, steps).harnesses[i].Tokens() == 1 || After(s, steps).pool.outside > 0 ==> After(s, steps).pool.active > 0
  {
    RunsAreSound(s, steps);
    TokenIsCounted(After(s, steps).harnesses, i);
  }

  /**
   * No lost wake-up: an idle harness with queued messages while turns are below the limit has a capacity revision it has
   * not seen, or a release or limit change is about to bump it.
   */
  lemma NoLostWakeup(s: System, steps: seq<Step>, i: nat)
    requires Opening(s) && Run(s, steps) && i < |After(s, steps).harnesses|
    ensures var end := After(s, steps);
      Waits(end.harnesses[i]) && Room(end.pool) ==> end.pool.revision > end.harnesses[i].seen || end.pool.owed > 0
  {
    RunsAreSound(s, steps);
  }

  /** The message a waiting harness has to start next. */
  function Front(h: Harness): Message
    requires !h.NothingPending()
  {
    if h.pendingUrgent != [] then h.pendingUrgent[0] else h.pendingDeferred[0]
  }

  lemma RunsPrepend(s: System, step: Step, steps: seq<Step>)
    requires Enabled(s, step) && Run(Next(s, step), steps)
    ensures Run(s, [step] + steps) && After(s, [step] + steps) == After(Next(s, step), steps)
  {
    assert ([step] + steps)[1..] == steps;
  }

  /**
   * So a waiting harness never needs another command or message to go on: once any bump still owed is made, its own next
   * two steps start the message at the front of its queues.
   */
  lemma WaitingHarnessCanStart(s: System, i: nat) returns (steps: seq<Step>)
    requires Sound(s) && i < |s.harnesses| && Waits(s.harnesses[i]) && Room(s.pool)
    ensures steps == [On(i, CapacityChanged), On(i, Drain)] || steps == [Bump, On(i, CapacityChanged), On(i, Drain)]
    ensures Run(s, steps) && i < |After(s, steps).harnesses|
    ensures After(s, steps).harnesses[i].phase == Starting(Front(s.harnesses[i]), true)
  {
    var s1 := if s.pool.revision > s.harnesses[i].seen then s else Next(s, Bump);
    var s2 := Next(s1, On(i, CapacityChanged));
    var s3 := Next(s2, On(i, Drain));
    RunsPrepend(s2, On(i, Drain), []);
    RunsPrepend(s1, On(i, CapacityChanged), [On(i, Drain)] + []);
    steps := [On(i, CapacityChanged)] + ([On(i, Drain)] + []);
    if s1 != s {
      RunsPrepend(s, Bump, steps);
      steps := [Bump] + steps;
    }
  }

  /** While a queued deferred message is being started, no urgent one waits. */
  predicate UrgentFirst(h: Harness) {
    h.phase.Starting? && h.phase.queued && h.phase.message.priority == Deferred ==> h.pendingUrgent == []
  }

  /** What a step that begins to start a queued message takes: the front of the urgent queue, or else of the deferred one. */
  predicate BeginsFront(h: Harness, h1: Harness) {
    h1.phase.Starting? && h1.phase.queued && h1.phase != h.phase ==>
      && !h.NothingPending()
      && h1.phase.message == Front(h)
      && (h1.phase.message.priority == Deferred ==> h.pendingUrgent == [])
  }

  lemma BeginningFront(h: Harness, p: Pool, op: Op)
    requires Orderly(h) && CanDo(h, p, op)
    ensures BeginsFront(h, Act(h, p, op))
    ensures UrgentFirst(h) ==> UrgentFirst(Act(h, p, op))
  {
  }

  predicate AllUrgentFirst(s: System) {
    forall h <- s.harnesses :: UrgentFirst(h)
  }

  lemma UrgentFirstStep(s: System, step: Step)
    requires Sound(s) && Enabled(s, step) && AllUrgentFirst(s)
    ensures AllUrgentFirst(Next(s, step))
  {
    if step.On? {
      assert s.harnesses[step.index] in s.harnesses;
      BeginningFront(s.harnesses[step.index], s.pool, step.op);
    }
  }

  lemma {:induction false} UrgentFirstRuns(s: System, steps: seq<Step>)
    requires Sound(s) && Run(s, steps) && AllUrgentFirst(s)
    ensures AllUrgentFirst(After(s, steps))
    decreases |steps|
  {
    if steps != [] {
      SoundStep(s, steps[0]);
      UrgentFirstStep(s, steps[0]);
      UrgentFirstRuns(Next(s, steps[0]), steps[1..]);
    }
  }

  /** No queued deferred message of any harness is started while an urgent one of its waits, in any state and by any step. */
  lemma UrgentStartsFirst(s: System, steps: seq<Step>, i: nat, op: Op)
    requires Opening(s) && Run(s, steps) && Enabled(After(s, steps), On(i, op))
    ensures var h, h1 := After(s, steps).harnesses[i], Next(After(s, steps), On(i, op)).harnesses[i];
      UrgentFirst(h) && BeginsFront(h, h1)
  {
    RunsAreSound(s, steps);
    UrgentFirstRuns(s, steps);
    assert After(s, steps).harnesses[i] in After(s, steps).harnesses;
    BeginningFront(After(s, steps).harnesses[i], After(s, steps).pool, op);
  }

  /** In every reachable state, whatever a harness says next about a message is so, is due, and if a refusal, has a reason. */
  lemma WhatIsSaidIsSo(s: System, steps: seq<Step>, i: nat, op: Op)
    requires Opening(s) && Run(s, steps) && Enabled(After(s, steps), On(i, op))
    ensures var h, h1 := After(s, steps).harnesses[i], Next(After(s, steps), On(i, op)).harnesses[i];
      && (h1.answers == h.answers || exists a :: h1.answers == h.answers + [a] && Truthful(h, h1, a))
      && AnsweredRightly(h, After(s, steps).pool, op, h1)
      && (forall m :: h1.answers == h.answers + [Rejected(m)] ==> MayReject(h, op, m))
      && NewReportsTrue(h, h1)
  {
    RunsAreSound(s, steps);
    var end := After(s, steps);
    var h, h1 := end.harnesses[i], Next(end, On(i, op)).harnesses[i];
    AnswersAreTrue(h, end.pool, op);
    StepsAnswerRightly(h, end.pool, op);
    forall m | h1.answers == h.answers + [Rejected(m)]
      ensures MayReject(h, op, m)
    {
      RejectionsHaveReasons(h, end.pool, op, m);
    }
    ReportsAreTrue(end.harnesses[i], end.pool, op);
  }

  // ------------------------------------------------------------------ stopping

  /** Left to itself, a harness that refuses its mailboxes comes to stop its turn. */
  lemma {:induction false} RefusalsEnd(s: System, i: nat) returns (steps: seq<Step>)
    requires Sound(s) && i < |s.harnesses| && Refusing(s.harnesses[i])
    requires s.harnesses[i].phase.RefusingDeferred? ==> s.harnesses[i].urgentBox == []
    ensures (forall step <- steps :: step == On(i, RefuseOne(true))) && |steps| == Waiting(s.harnesses[i]) + 1
    ensures Run(s, steps) && Sound(After(s, steps)) && i < |After(s, steps).harnesses|
    ensures var h, h1 := s.harnesses[i], After(s, steps).harnesses[i];
      TurnStops(h.active, h.phase.closing, h1) && h1.urgentBox == []
    decreases Waiting(s.harnesses[i])
  {
    var step := On(i, RefuseOne(true));
    RefusalGoesOn(s, i);
    var rest := [];
    if !(s.harnesses[i].phase.RefusingDeferred? && s.harnesses[i].deferredBox == []) {
      rest := RefusalsEnd(Next(s, step), i);
    }
    RunsPrepend(s, step, rest);
    steps := [step] + rest;
  }

  lemma RefusalGoesOn(s: System, i: nat)
    requires Sound(s) && i < |s.harnesses| && Refusing(s.harnesses[i])
    requires s.harnesses[i].phase.RefusingDeferred? ==> s.harnesses[i].urgentBox == []
    ensures Enabled(s, On(i, RefuseOne(true))) && Sound(Next(s, On(i, RefuseOne(true))))
    ensures var h, h1 := s.harnesses[i], Next(s, On(i, RefuseOne(true))).harnesses[i];
      if h.phase.RefusingDeferred? && h.deferredBox == [] then
        TurnStops(h.active, h.phase.closing, h1) && h1.urgentBox == [] && Waiting(h) == 0
      else
        && Refusing(h1) && (h1.phase.RefusingDeferred? ==> h1.urgentBox == [])
        && h1.phase.closing == h.phase.closing && h1.active == h.active && Waiting(h1) == Waiting(h) - 1
  {
    RefusingGoesOn(s.harnesses[i], s.pool);
    SoundStep(s, On(i, RefuseOne(true)));
  }

  /** A harness at rest with nothing to do and no token, or gone. */
  predicate AtRest(h: Harness, closing: bool) {
    && h.Tokens() == 0 && h.NothingPending() && h.urgentBox == [] && h.deferredBox == []
    && h.phase == if closing then Gone else Resting
  }

  /** The turn that is being stopped, if there is one, gives its token back. */
  lemma StoppingEnds(s: System, i: nat, active: bool, closing: bool) returns (steps: seq<Step>)
    requires Sound(s) && i < |s.harnesses| && TurnStops(active, closing, s.harnesses[i]) && s.harnesses[i].urgentBox == []
    ensures steps == if active then [On(i, Stopped)] else []
    ensures Run(s, steps) && i < |After(s, steps).harnesses| && AtRest(After(s, steps).harnesses[i], closing)
  {
    steps := [];
    if active {
      TokenIsCounted(s.harnesses, i);
      RunsPrepend(s, On(i, Stopped), []);
      steps := [On(i, Stopped)] + [];
    }
  }

  /** Whatever interrupts or closes a harness, its own next steps refuse all that waits, and stop its turn if one runs. */
  lemma InterruptStops(s: System, i: nat, closing: bool) returns (refusals: seq<Step>, steps: seq<Step>)
    requires Sound(s) && i < |s.harnesses| && s.harnesses[i].phase == Resting
    ensures forall step <- refusals :: step == On(i, RefuseOne(true))
    ensures steps == [On(i, if closing then CloseCommand else InterruptCommand)]
                     + (refusals + if s.harnesses[i].active then [On(i, Stopped)] else [])
    ensures Run(s, steps) && i < |After(s, steps).harnesses| && AtRest(After(s, steps).harnesses[i], closing)
  {
    var command := On(i, if closing then CloseCommand else InterruptCommand);
    var s1 := Next(s, command);
    SoundStep(s, command);
    refusals := RefusalsEnd(s1, i);
    var rest := StoppingEnds(After(s1, refusals), i, s.harnesses[i].active, closing);
    RunsConcatenate(s1, refusals, rest);
    RunsPrepend(s, command, refusals + rest);
    steps := [command] + (refusals + rest);
  }

  lemma {:induction false} RunsConcatenate(s: System, first: seq<Step>, second: seq<Step>)
    requires Run(s, first) && Run(After(s, first), second)
    ensures Run(s, first + second) && After(s, first + second) == After(After(s, first), second)
    decreases |first|
  {
    if first == [] {
      assert first + second == second;
    } else {
      RunsConcatenate(Next(s, first[0]), first[1..], second);
      RunsPrepend(s, first[0], first[1..] + second);
      assert [first[0]] + (first[1..] + second) == first + second;
    }
  }

  /** As long as the limit stays, no more turns than it allows are ever live, wherever their tokens are. */
  lemma {:induction false} NeverAboveLimit(s: System, steps: seq<Step>)
    requires Sound(s) && Run(s, steps) && s.pool.active <= s.pool.limit && forall step <- steps :: !step.SetLimit?
    ensures var end := After(s, steps);
      end.pool.limit == s.pool.limit && end.pool.outside + TokensOf(end.harnesses) <= s.pool.limit
    decreases |steps|
  {
    if steps != [] {
      assert steps[0] in steps;
      SoundStep(s, steps[0]);
      NeverAboveLimit(Next(s, steps[0]), steps[1..]);
    }
  }

  lemma LastIsNew(rest: seq<Message>, m: Message)
    requires Distinct(rest + [m])
    ensures Distinct(rest) && m.id !in Ids(rest) && Ids(rest + [m]) == Ids(rest) + {m.id}
  {
    var all := rest + [m];
    assert all[|rest|] == m;
    forall i | 0 <= i < |rest|
      ensures rest[i] == all[i] && rest[i].id != m.id
    {
    }
    assert Distinct(rest);
    DistinctGrows(rest, m);
  }

  lemma {:induction false} QueuedAreDistinct(answers: seq<Answer>, priority: Priority)
    requires Distinct(Answered(answers))
    ensures Distinct(QueuedIn(answers, priority)) && Ids(QueuedIn(answers, priority)) <= Ids(Answered(answers))
  {
    if answers != [] {
      var n := |answers| - 1;
      assert Answered(answers) == Answered(answers[..n]) + [answers[n].message];
      LastIsNew(Answered(answers[..n]), answers[n].message);
      QueuedAreDistinct(answers[..n], priority);
      DistinctGrows(QueuedIn(answers[..n], priority), answers[n].message);
    }
  }

  /**
   * In every reachable state each released delivery a harness took has exactly one answer, except one in hand; each message
   * admitted as queued has at most one report, in queue order.
   */
  lemma OneAnswerOneReport(s: System, steps: seq<Step>, i: nat, priority: Priority)
    requires Opening(s) && Run(s, steps) && i < |After(s, steps).harnesses|
    ensures var h := After(s, steps).harnesses[i];
      && Distinct(h.taken)
      && h.taken == Answered(h.answers) + DueAnswer(h)
      && Distinct(QueuedIn(h.answers, priority))
      && ReportedIn(h.reports, priority) <= QueuedIn(h.answers, priority)
      && QueuedIn(h.answers, priority) == ReportedIn(h.reports, priority) + DueReport(h, priority) + Pending(h, priority)
  {
    RunsAreSound(s, steps);
    var h := After(s, steps).harnesses[i];
    assert ReportInTurn(h, priority);
    assert forall i | 0 <= i < |Answered(h.answers)| :: Answered(h.answers)[i] == h.taken[i];
    QueuedAreDistinct(h.answers, priority);
  }

  /** Once a harness has returned, every delivery it took is answered and every message it queued is reported. */
  lemma NothingLeftUnsaid(s: System, steps: seq<Step>, i: nat, priority: Priority)
    requires Opening(s) && Run(s, steps) && i < |After(s, steps).harnesses|
    requires After(s, steps).harnesses[i].phase == Gone
    ensures var h := After(s, steps).harnesses[i];
      && h.taken == Answered(h.answers)
      && ReportedIn(h.reports, priority) == QueuedIn(h.answers, priority)
      && h.Tokens() == 0
  {
    OneAnswerOneReport(s, steps, i, priority);
    RunsAreSound(s, steps);
  }
}

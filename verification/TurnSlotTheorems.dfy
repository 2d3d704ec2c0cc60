/** What the tokens promise over whole histories. */
module TurnSlotTheorems {
  import opened Wrappers
  import opened TurnSlotModel
  import opened Sequences

  /** The tokens that the turn may still accept a result under. */
  function Live(t: Turn): set<nat> {
    match t
    case Idle => {}
    case Running(token, submitted) => if submitted.None? then {token} else {}
    case Steering(token, previous) => {token, previous}
  }

  /** An issued token under which nothing can be accepted any more. */
  predicate Dead(s: Slot, token: nat) {
    token <= s.issued && token !in Live(s.turn)
  }

  predicate Accepting(e: Event, token: nat) {
    e.Accepted? && e.token == token
  }

  /**
   * An event that was right when it happened, after the log before it: an accepted result fits the schema, is the first of
   * its turn and the first under its token, and a closed turn gives back what it accepted.
   */
  predicate Justified(schema: Schema, before: seq<Event>, e: Event) {
    match e
    case Accepted(token, value) =>
      && schema(value) == [] && Result(before) == None && token in Issued(before)
      && forall x <- before :: !Accepting(x, token)
    case Closed(result) => result == Result(before)
    case _ => true
  }

  predicate AllJustified(schema: Schema, log: seq<Event>) {
    forall i | 0 <= i < |log| :: Justified(schema, log[..i], log[i])
  }

  /** Tokens strictly increase, up to the counter. */
  predicate Counted(tokens: seq<nat>, issued: nat) {
    Ascending(tokens) && forall t <- tokens :: 1 <= t <= issued
  }

  /** And the turn knows only tokens of the log. */
  predicate Numbered(w: World) {
    Counted(Issued(w.log), w.slot.issued) && forall t <- Live(w.slot.turn) :: t in Issued(w.log)
  }

  /** A turn is open: one was opened, and none closed since. */
  predicate IsOpen(log: seq<Event>) {
    log != [] &&
    match log[|log| - 1]
    case Opened(_) => true
    case Closed(_) => false
    case _ => IsOpen(log[..|log| - 1])
  }

  /** A replacement was begun and is not resolved. */
  predicate IsSteering(log: seq<Event>) {
    log != [] && log[|log| - 1].Replacing?
  }

  /** The slot holds what its turn accepted, and is where the log left it. */
  predicate Held(w: World) {
    match w.slot.turn
    case Idle => !IsOpen(w.log)
    case Running(_, submitted) => IsOpen(w.log) && !IsSteering(w.log) && submitted == Result(w.log)
    case Steering(token, previous) => IsOpen(w.log) && IsSteering(w.log) && Result(w.log) == None && previous < token
  }

  predicate Spent(w: World) {
    forall e <- w.log :: e.Accepted? ==> Dead(w.slot, e.token)
  }

  predicate Sound(schema: Schema, w: World) {
    Numbered(w) && Held(w) && Spent(w) && AllJustified(schema, w.log)
  }

  lemma LogGrows(schema: Schema, log: seq<Event>, e: Event)
    requires AllJustified(schema, log) && Justified(schema, log, e)
    ensures AllJustified(schema, log + [e])
  {
    forall i | 0 <= i < |log + [e]|
      ensures Justified(schema, (log + [e])[..i], (log + [e])[i])
    {
      if i < |log| {
        assert (log + [e])[..i] == log[..i];
      } else {
        assert (log + [e])[..i] == log;
      }
    }
  }

  /** A step that logs logs one event. */
  predicate LogsOne(before: seq<Event>, after: seq<Event>) {
    |after| == |before| + 1 && after[..|before|] == before
  }

  /** And it is justified by the log so far. */
  lemma StepIsJustified(schema: Schema, w: World, a: Action)
    requires Sound(schema, w)
    ensures var log := Next(schema, w, a).log;
      log == w.log || (LogsOne(w.log, log) && Justified(schema, w.log, log[|w.log|]))
  {
    if a.Submit? && w.slot.turn.Running? && w.slot.turn.submitted.None? {
      assert w.slot.turn.token in Live(w.slot.turn);
    }
  }

  lemma StepKeepsLog(schema: Schema, w: World, a: Action)
    requires Sound(schema, w)
    ensures AllJustified(schema, Next(schema, w, a).log) && w.log <= Next(schema, w, a).log
  {
    StepIsJustified(schema, w, a);
    var log := Next(schema, w, a).log;
    if log != w.log {
      assert log == w.log + [log[|w.log|]];
      LogGrows(schema, w.log, log[|w.log|]);
    }
  }

  lemma TokensGrow(tokens: seq<nat>, issued: nat)
    requires Counted(tokens, issued)
    ensures Counted(tokens + [issued + 1], issued + 1)
  {
    assert forall k | 0 <= k < |tokens| :: tokens[k] in tokens;
  }

  lemma IssuedGrows(log: seq<Event>, e: Event)
    ensures Issued(log + [e]) == Issued(log) + if e.Opened? || e.Replacing? then [e.token] else []
  {
    assert (log + [e])[..|log|] == log;
  }

  /** A step that hands out a token hands out the next one; any other leaves the numbering alone. */
  predicate NumbersOn(w: World, w1: World) {
    if w1.slot.issued == w.slot.issued then Issued(w1.log) == Issued(w.log) && Live(w1.slot.turn) <= Live(w.slot.turn)
    else
      && w1.slot.issued == w.slot.issued + 1 && Issued(w1.log) == Issued(w.log) + [w1.slot.issued]
      && Live(w1.slot.turn) <= Live(w.slot.turn) + {w1.slot.issued}
  }

  lemma StartIssues(schema: Schema, w: World)
    ensures NumbersOn(w, Next(schema, w, Start))
  {
    var (_, token) := Started(w.slot);
    if token.Some? {
      IssuedGrows(w.log, Opened(token.value));
    }
  }

  lemma SteerIssues(schema: Schema, w: World)
    ensures NumbersOn(w, Next(schema, w, BeginSteer))
  {
    var (_, token) := SteerBegun(w.slot);
    if token.Some? {
      IssuedGrows(w.log, Replacing(token.value));
    }
  }

  lemma FinishIssues(schema: Schema, w: World)
    ensures NumbersOn(w, Next(schema, w, Finish))
  {
    var (_, result) := Finished(w.slot);
    if result.Some? {
      IssuedGrows(w.log, Closed(result.value));
    }
  }

  lemma SubmissionIssues(schema: Schema, w: World, token: nat, v: Value)
    ensures NumbersOn(w, Next(schema, w, Submit(token, v)))
  {
    if Submitted(w.slot, token, v, schema).1.None? {
      IssuedGrows(w.log, Accepted(token, v));
    }
  }

  lemma SteerEndIssues(schema: Schema, w: World, steer: nat, committed: bool)
    ensures NumbersOn(w, Next(schema, w, FinishSteer(steer, committed)))
  {
    if SteerFinished(w.slot, steer, committed) != w.slot {
      IssuedGrows(w.log, Replaced(steer, committed));
    }
  }

  lemma StepIssues(schema: Schema, w: World, a: Action)
    ensures NumbersOn(w, Next(schema, w, a))
  {
    match a
    case Start => StartIssues(schema, w);
    case Submit(token, output) => SubmissionIssues(schema, w, token, output);
    case BeginSteer => SteerIssues(schema, w);
    case FinishSteer(steer, committed) => SteerEndIssues(schema, w, steer, committed);
    case Finish => FinishIssues(schema, w);
  }

  lemma StepIsNumbered(schema: Schema, w: World, a: Action)
    requires Numbered(w)
    ensures Numbered(Next(schema, w, a))
  {
    StepIssues(schema, w, a);
    TokensGrow(Issued(w.log), w.slot.issued);
  }

  lemma ResultGrows(log: seq<Event>, e: Event)
    ensures Result(log + [e]) ==
      match e
      case Accepted(_, value) => Some(value)
      case Replacing(_) => Result(log)
      case Replaced(_, _) => Result(log)
      case _ => None
    ensures IsOpen(log + [e]) == (e.Opened? || (!e.Closed? && IsOpen(log)))
  {
    assert (log + [e])[..|log|] == log;
  }

  lemma SteerHolds(schema: Schema, w: World)
    requires Numbered(w) && Held(w)
    ensures Held(Next(schema, w, BeginSteer))
  {
    ResultGrows(w.log, Replacing(w.slot.issued + 1));
    if w.slot.turn.Running? && w.slot.turn.submitted.None? {
      assert w.slot.turn.token in Live(w.slot.turn);
    }
  }

  lemma StartHolds(schema: Schema, w: World)
    requires Held(w)
    ensures Held(Next(schema, w, Start))
  {
    var (_, token) := Started(w.slot);
    if token.Some? {
      ResultGrows(w.log, Opened(token.value));
    }
  }

  lemma SubmissionHolds(schema: Schema, w: World, token: nat, v: Value)
    requires Held(w)
    ensures Held(Next(schema, w, Submit(token, v)))
  {
    if Submitted(w.slot, token, v, schema).1.None? {
      ResultGrows(w.log, Accepted(token, v));
    }
  }

  lemma SteerEndHolds(schema: Schema, w: World, steer: nat, committed: bool)
    requires Held(w)
    ensures Held(Next(schema, w, FinishSteer(steer, committed)))
  {
    if SteerFinished(w.slot, steer, committed) != w.slot {
      ResultGrows(w.log, Replaced(steer, committed));
    }
  }

  lemma FinishHolds(schema: Schema, w: World)
    requires Held(w)
    ensures Held(Next(schema, w, Finish))
  {
    if w.slot.turn != Idle {
      ResultGrows(w.log, Closed(Finished(w.slot).1.value));
    }
  }

  lemma StepHolds(schema: Schema, w: World, a: Action)
    requires Numbered(w) && Held(w)
    ensures Held(Next(schema, w, a))
  {
    match a
    case Start => StartHolds(schema, w);
    case Submit(token, output) => SubmissionHolds(schema, w, token, output);
    case BeginSteer => SteerHolds(schema, w);
    case FinishSteer(steer, committed) => SteerEndHolds(schema, w, steer, committed);
    case Finish => FinishHolds(schema, w);
  }

  lemma DeadStaysDead(schema: Schema, w: World, a: Action, token: nat)
    requires Numbered(w) && Dead(w.slot, token)
    ensures var w1 := Next(schema, w, a);
      Dead(w1.slot, token) && forall i | |w.log| <= i < |w1.log| :: !Accepting(w1.log[i], token)
  {
  }

  lemma StepIsSpent(schema: Schema, w: World, a: Action)
    requires Numbered(w) && Spent(w)
    ensures Spent(Next(schema, w, a))
  {
    var w1 := Next(schema, w, a);
    forall e | e in w1.log && e.Accepted?
      ensures Dead(w1.slot, e.token)
    {
      if e in w.log {
        DeadStaysDead(schema, w, a, e.token);
      } else {
        assert w.slot.turn.token in Live(w.slot.turn);
      }
    }
  }

  lemma StepIsSound(schema: Schema, w: World, a: Action)
    requires Sound(schema, w)
    ensures Sound(schema, Next(schema, w, a))
    ensures w.slot.issued <= Next(schema, w, a).slot.issued && w.log <= Next(schema, w, a).log
  {
    StepIsNumbered(schema, w, a);
    StepHolds(schema, w, a);
    StepIsSpent(schema, w, a);
    StepKeepsLog(schema, w, a);
    StepIssues(schema, w, a);
  }

  /**
   * From any history: tokens strictly increase, only valid values are accepted, each token once and each turn once, and a
   * turn closes with exactly what it accepted.
   */
  lemma {:induction false} RunsAreSound(schema: Schema, w: World, acts: seq<Action>)
    requires Sound(schema, w)
    ensures Sound(schema, After(schema, w, acts))
    ensures w.slot.issued <= After(schema, w, acts).slot.issued && w.log <= After(schema, w, acts).log
    decreases |acts|
  {
    if acts != [] {
      StepIsSound(schema, w, acts[0]);
      RunsAreSound(schema, Next(schema, w, acts[0]), acts[1..]);
    }
  }

  /** What a log accepts under a token from a place on. */
  predicate NeverFrom(log: seq<Event>, from: nat, token: nat) {
    forall i | from <= i < |log| :: !Accepting(log[i], token)
  }

  /** A dead token is never accepted again, whatever happens. */
  lemma {:induction false} DeadIsNeverAccepted(schema: Schema, w: World, acts: seq<Action>, token: nat)
    requires Sound(schema, w) && Dead(w.slot, token)
    ensures Dead(After(schema, w, acts).slot, token) && NeverFrom(After(schema, w, acts).log, |w.log|, token)
    decreases |acts|
  {
    if acts != [] {
      var w1 := Next(schema, w, acts[0]);
      StepIsSound(schema, w, acts[0]);
      DeadStaysDead(schema, w, acts[0], token);
      DeadIsNeverAccepted(schema, w1, acts[1..], token);
      RunsAreSound(schema, w1, acts[1..]);
      var log := After(schema, w1, acts[1..]).log;
      forall i | |w.log| <= i < |w1.log|
        ensures !Accepting(log[i], token)
      {
        assert log[i] == w1.log[i];
      }
    }
  }

  /** In any history, a token is accepted at most once. */
  lemma AcceptedAtMostOnce(schema: Schema, w: World, acts: seq<Action>, i: nat, j: nat)
    requires Sound(schema, w) && i < j < |After(schema, w, acts).log|
    ensures var log := After(schema, w, acts).log; log[i].Accepted? && log[j].Accepted? ==> log[i].token != log[j].token
  {
    RunsAreSound(schema, w, acts);
    var log := After(schema, w, acts).log;
    assert log[i] in log[..j];
    assert Justified(schema, log[..j], log[j]);
  }

  /** So every slot that was ever created keeps that, and no history of it accepts a token twice. */
  lemma HistoriesAreSound(schema: Schema, acts: seq<Action>)
    ensures Sound(schema, After(schema, FRESH, acts))
    ensures var log := After(schema, FRESH, acts).log;
      forall i, j | 0 <= i < j < |log| && log[i].Accepted? && log[j].Accepted? :: log[i].token != log[j].token
  {
    RunsAreSound(schema, FRESH, acts);
    var log := After(schema, FRESH, acts).log;
    forall i, j | 0 <= i < j < |log| && log[i].Accepted? && log[j].Accepted?
      ensures log[i].token != log[j].token
    {
      AcceptedAtMostOnce(schema, FRESH, acts, i, j);
    }
  }

  /** Committing a steer retires every earlier token for good, and its own token works. */
  lemma CommittedSteerRetires(schema: Schema, w: World, acts: seq<Action>, earlier: nat)
    requires Sound(schema, w) && w.slot.turn.Steering? && earlier < w.slot.turn.token
    ensures var token := w.slot.turn.token;
      var w1 := Next(schema, w, FinishSteer(token, true));
      && (forall v | schema(v) == [] :: Submitted(w1.slot, token, v, schema).1.None?)
      && NeverFrom(After(schema, w1, acts).log, |w1.log|, earlier)
  {
    var token := w.slot.turn.token;
    assert token in Live(w.slot.turn);
    var w1 := Next(schema, w, FinishSteer(token, true));
    StepIsSound(schema, w, FinishSteer(token, true));
    DeadIsNeverAccepted(schema, w1, acts, earlier);
  }

  /** A failed steer's token is accepted neither before nor after; the previous token works again. */
  lemma FailedSteerRestores(schema: Schema, w: World, acts: seq<Action>)
    requires Sound(schema, w) && w.slot.turn.Steering?
    ensures var token, previous := w.slot.turn.token, w.slot.turn.previous;
      var w1 := Next(schema, w, FinishSteer(token, false));
      && (forall v | schema(v) == [] :: Submitted(w1.slot, previous, v, schema).1.None?)
      && NeverFrom(After(schema, w1, acts).log, 0, token)
  {
    var token := w.slot.turn.token;
    assert token in Live(w.slot.turn);
    var w1 := Next(schema, w, FinishSteer(token, false));
    StepIsSound(schema, w, FinishSteer(token, false));
    DeadIsNeverAccepted(schema, w1, acts, token);
    RunsAreSound(schema, w1, acts);
    var log := After(schema, w1, acts).log;
    forall i | 0 <= i < |w1.log|
      ensures !Accepting(log[i], token)
    {
      assert log[i] == w1.log[i];
      assert i < |w.log| ==> w1.log[i] == w.log[i] && w.log[i] in w.log;
    }
  }

  /** The result of an open turn is a valid value that was accepted since the turn opened. */
  lemma {:induction false} ResultIsAccepted(schema: Schema, log: seq<Event>) returns (at: nat)
    requires AllJustified(schema, log) && Result(log).Some?
    ensures at < |log| && log[at].Accepted? && log[at].value == Result(log).value && schema(log[at].value) == []
    ensures forall i | at < i < |log| :: !log[i].Opened? && !log[i].Closed? && !log[i].Accepted?
  {
    var n := |log| - 1;
    if log[n].Accepted? {
      assert Justified(schema, log[..n], log[n]);
      return n;
    }
    forall i | 0 <= i < n
      ensures Justified(schema, log[..n][..i], log[..n][i])
    {
      assert log[..n][..i] == log[..i];
    }
    at := ResultIsAccepted(schema, log[..n]);
  }

  /** Ending a turn gives back the value accepted in it, or nothing if there is none; ending no turn gives no answer. */
  lemma FinishReturnsWhatWasAccepted(schema: Schema, w: World, acts: seq<Action>)
    requires Sound(schema, w)
    ensures var w1 := After(schema, w, acts); var result := Finished(w1.slot).1;
      && (result.None? <==> w1.slot.turn == Idle)
      && (result.Some? ==> result.value == Result(w1.log))
      && (result.Some? && result.value.Some? ==> schema(result.value.value) == [])
  {
    RunsAreSound(schema, w, acts);
    var w1 := After(schema, w, acts);
    if Result(w1.log).Some? {
      var at := ResultIsAccepted(schema, w1.log);
    }
  }

  // ------------------------------------------------------------------ what is due

  /** A turn was opened here, and none closed since. */
  predicate OpenSince(log: seq<Event>, i: nat) {
    i < |log| && log[i].Opened? && forall j | i < j < |log| :: !log[j].Closed?
  }

  lemma OpenSinceGrows(log: seq<Event>, e: Event, i: nat)
    ensures OpenSince(log + [e], i) <==> (i == |log| && e.Opened?) || (i < |log| && OpenSince(log, i) && !e.Closed?)
  {
    var all := log + [e];
    if i < |log| && OpenSince(all, i) {
      assert all[|log|] == e && all[i] == log[i];
      forall j | i < j < |log|
        ensures !log[j].Closed?
      {
        assert all[j] == log[j];
      }
    }
  }

  /** Open means what it says, wherever in the log the turn was opened. */
  lemma {:induction false} OpenedAndNotClosed(log: seq<Event>)
    ensures IsOpen(log) <==> exists i: nat :: OpenSince(log, i)
  {
    if log != [] {
      var n := |log| - 1;
      var before := log[..n];
      assert log == before + [log[n]];
      OpenedAndNotClosed(before);
      if i: nat :| OpenSince(log, i) {
        OpenSinceGrows(before, log[n], i);
      }
      if log[n].Opened? {
        OpenSinceGrows(before, log[n], n);
      } else if i: nat :| OpenSince(before, i) {
        OpenSinceGrows(before, log[n], i);
      }
    }
  }

  /** A valid value is accepted under this token now. */
  ghost predicate Accepts(schema: Schema, w: World, token: nat) {
    forall v | schema(v) == [] :: Next(schema, w, Submit(token, v)).log == w.log + [Accepted(token, v)]
  }

  /** While the counter lasts, a turn starts exactly if none is open; then its token works. */
  lemma StartIsDue(schema: Schema, w: World)
    requires Sound(schema, w)
    ensures var w1 := Next(schema, w, Start);
      if !IsOpen(w.log) && w.slot.issued < 0xffff_ffff_ffff_ffff then
        w1.log == w.log + [Opened(w.slot.issued + 1)] && Accepts(schema, w1, w.slot.issued + 1)
      else w1 == w
  {
  }

  /** A steer begins exactly if a turn is open, not being steered and without a result; whichever way it ends, a token works. */
  lemma SteerIsDue(schema: Schema, w: World)
    requires Sound(schema, w)
    ensures var w1 := Next(schema, w, BeginSteer);
      if IsOpen(w.log) && !IsSteering(w.log) && Result(w.log) == None && w.slot.issued < 0xffff_ffff_ffff_ffff then
        var token := w.slot.issued + 1;
        && w1.log == w.log + [Replacing(token)]
        && Accepts(schema, Next(schema, w1, FinishSteer(token, true)), token)
        && w.slot.turn.Running? && Accepts(schema, Next(schema, w1, FinishSteer(token, false)), w.slot.turn.token)
      else w1 == w
  {
  }

  /** Finishing closes exactly an open turn, with its result. */
  lemma FinishIsDue(schema: Schema, w: World)
    requires Sound(schema, w)
    ensures var w1 := Next(schema, w, Finish);
      && w1.slot.turn == Idle
      && w1.log == if IsOpen(w.log) then w.log + [Closed(Result(w.log))] else w.log
  {
  }

  /** The first violations, at most four of them. */
  predicate Reports(violations: seq<string>, reported: seq<string>) {
    reported <= violations && |reported| == if |violations| < 4 then |violations| else 4
  }

  /** A submission is accepted exactly if none of the refusals is due, and a refusal changes nothing. */
  lemma SubmissionIsDecided(schema: Schema, w: World, token: nat, v: Value)
    requires Sound(schema, w)
    ensures var failure, w1 := Submitted(w.slot, token, v, schema).1, Next(schema, w, Submit(token, v));
      && (failure.Some? ==> w1 == w)
      && (failure.None? ==> w1.log == w.log + [Accepted(token, v)])
      && if !IsOpen(w.log) then failure == Some(NoActiveTurn)
         else if IsSteering(w.log) then failure == Some(TurnSteering)
         else if w.slot.turn.Running? && w.slot.turn.token != token then failure == Some(StaleTurnToken)
         else if Result(w.log).Some? then failure == Some(AlreadySubmitted)
         else if schema(v) != [] then failure.Some? && failure.value.OutputMismatch? && Reports(schema(v), failure.value.violations)
         else failure == None
  {
  }

  predicate SteersUnder(s: Slot, token: nat) {
    s.turn.Steering? && s.turn.token == token
  }

  /** Resolving a steer late, after it was resolved or its turn ended, changes nothing, ever. */
  lemma {:induction false} LateSteerIsIgnored(schema: Schema, w: World, acts: seq<Action>, steer: nat, committed: bool)
    requires steer <= w.slot.issued && !SteersUnder(w.slot, steer)
    ensures SteerFinished(After(schema, w, acts).slot, steer, committed) == After(schema, w, acts).slot
    decreases |acts|
  {
    if acts != [] {
      LateSteerIsIgnored(schema, Next(schema, w, acts[0]), acts[1..], steer, committed);
    }
  }
}

/** A text that the server may lack is written again: what a counter reset leaves due, and what makes good on it. */
module DraftRetries {
  import opened DraftClient
  import opened DraftWorld
  import opened DraftRuns
  import opened DraftTheorems
  import opened Wrappers

  // ------------------------------------------------------------------ a due retry is on its way

  /** A due retry waits for the end of a composition or for a suspended `flush` to resume. */
  predicate RetryIsComing(c: Client) {
    c.retryNeeded ==> c.composing || c.waiters > 0
  }

  /** A write of the current counter fails. Only such a failure leaves a retry for `retry` to pick up. */
  predicate FailsOwn(w: World, a: Action) {
    a.WriteFails? && !w.wire.Orphaned?
  }

  lemma InputsKeepRetryComing(c: Client, input: Input)
    requires Ready(c, input) && RetryIsComing(c)
    ensures RetryIsComing(React(c, input))
  {
  }

  lemma SettlingKeepsRetryComing(w: World, reply: Option<nat>)
    requires Sound(w) && !w.wire.Quiet? && (reply.Some? || w.wire.Orphaned?) && RetryIsComing(w.client)
    ensures RetryIsComing(WriteSettles(w.client, reply))
  {
  }

  lemma ReceivingKeepsRetryComing(c: Client, d: Draft)
    requires (c.timer ==> c.scheduled > 0) && d.rev >= c.serverRev && RetryIsComing(c)
    ensures RetryIsComing(Receive(c, d))
  {
  }

  lemma ResetBringsRetry(w: World, h: seq<string>)
    requires Sound(w) && Enabled(w, CounterReset(h))
    ensures RetryIsComing(Next(w, CounterReset(h)).client)
  {
  }

  lemma StepKeepsRetryComing(w: World, a: Action)
    requires Sound(w) && Enabled(w, a) && RetryIsComing(w.client) && !FailsOwn(w, a)
    ensures RetryIsComing(Next(w, a).client)
  {
    match a
    case Composer(input) => InputsKeepRetryComing(w.client, input);
    case WriteReplies => SettlingKeepsRetryComing(w, Some(w.wire.rev));
    case WriteFails => SettlingKeepsRetryComing(w, None);
    case OrphanReplies(rev) => SettlingKeepsRetryComing(w, Some(rev));
    case EventDelivered => ReceivingKeepsRetryComing(w.client, w.stream[0]);
    case CounterReset(h) => ResetBringsRetry(w, h);
    case _ =>
  }

  /** No write of the current counter fails in the run. */
  predicate NoOwnFailure(w: World, acts: seq<Action>)
    requires Run(w, acts)
    decreases |acts|
  {
    acts == [] || (!FailsOwn(w, acts[0]) && NoOwnFailure(Next(w, acts[0]), acts[1..]))
  }

  lemma {:induction false} RunsKeepRetryComing(w: World, acts: seq<Action>)
    requires Sound(w) && RetryIsComing(w.client) && Run(w, acts) && NoOwnFailure(w, acts)
    ensures RetryIsComing(After(w, acts).client)
    decreases |acts|
  {
    if acts != [] {
      SoundStep(w, acts[0]);
      StepKeepsRetryComing(w, acts[0]);
      RunsKeepRetryComing(Next(w, acts[0]), acts[1..]);
    }
  }

  /** After any counter reset, and over any run in which no newer write fails, a due retry is on its way. */
  lemma ResetRetriesCome(w: World, h: seq<string>, acts: seq<Action>)
    requires Sound(w) && Enabled(w, CounterReset(h))
    requires Run(Next(w, CounterReset(h)), acts) && NoOwnFailure(Next(w, CounterReset(h)), acts)
    ensures RetryIsComing(After(Next(w, CounterReset(h)), acts).client)
  {
    SoundStep(w, CounterReset(h));
    ResetBringsRetry(w, h);
    RunsKeepRetryComing(Next(w, CounterReset(h)), acts);
  }

  // ------------------------------------------------------------------ and what it comes to

  /** A `flush` that is suspended until the write in flight settles, with a retry due. */
  predicate RetryWaits(c: Client) {
    c.retryNeeded && c.waiters > 0
  }

  /** Ending the composition starts the write, or leaves a `flush` waiting for the one in flight. */
  lemma EndingStartsRetry(c: Client, raw: string)
    requires (c.timer ==> c.scheduled > 0) && c.retryNeeded
    ensures var c' := CompositionEnd(c, raw);
      if c.sending.None? then StartsWrite(c, c') && !c'.retryNeeded
      else RetryWaits(c') && !c'.composing && c'.sending == c.sending
  {
    var c1 := c.(composing := false);
    var c2 := if raw != c1.text then Edit(c1, raw) else c1;
    if c2.sending.None? {
      var c3 := if c2.timer then c2.(timer := false, scheduled := c2.scheduled - 1) else c2;
      assert Flush(c2) == Send(c3);
    }
  }

  /** However the write in flight settles, the retry stays due and the `flush` may resume. */
  lemma SettlingFreesRetry(c: Client, reply: Option<nat>)
    requires c.sending.Some? && c.retryNeeded
    ensures var c' := WriteSettles(c, reply);
      c'.sending.None? && c'.retryNeeded && c'.waiters == c.waiters && c'.composing == c.composing && c'.text == c.text
  {
  }

  /** A `flush` that resumes with a retry due or an unsaved text starts its write, unless a composition is open. */
  lemma ResumingStartsWrite(c: Client)
    requires (c.timer ==> c.scheduled > 0) && c.waiters > 0 && c.sending.None?
    requires c.retryNeeded || c.text != c.LatestSaved().text
    ensures Ready(c, FlushResumed)
    ensures if c.composing then FlushResumes(c) == c.(waiters := c.waiters - 1)
      else StartsWrite(c, FlushResumes(c)) && FlushResumes(c).sending.value.text == c.text
  {
  }

  /** The composition ends as it stands, the write in flight fails, or a waiting `flush` resumes. */
  predicate MovesOn(text: string, a: Action) {
    a == Composer(EndsComposing(text)) || a == WriteFails || a == Composer(FlushResumed)
  }

  lemma FreedRetryIsWritten(w: World) returns (acts: seq<Action>)
    requires Sound(w) && RetryWaits(w.client) && !w.client.composing
    ensures |acts| <= 2 && Run(w, acts) && forall a <- acts :: MovesOn(w.client.text, a)
    ensures After(w, acts).client.writes == w.client.writes + [w.client.text]
  {
    var a := Composer(FlushResumed);
    if w.client.sending.None? {
      ResumingStartsWrite(w.client);
      RunsPrepend(w, a, []);
      acts := [a] + [];
    } else {
      SettlingFreesRetry(w.client, None);
      var w1 := Next(w, WriteFails);
      SoundStep(w, WriteFails);
      assert w1.client.writes == w.client.writes;
      ResumingStartsWrite(w1.client);
      RunsPrepend(w1, a, []);
      RunsPrepend(w, WriteFails, [a] + []);
      acts := [WriteFails] + ([a] + []);
    }
  }

  /** So a retry on its way is at most three such steps from a write of the text on show. */
  lemma ComingRetryIsWritten(w: World) returns (acts: seq<Action>)
    requires Sound(w) && w.client.retryNeeded && RetryIsComing(w.client)
    ensures |acts| <= 3 && Run(w, acts) && forall a <- acts :: MovesOn(w.client.text, a)
    ensures After(w, acts).client.writes == w.client.writes + [w.client.text]
  {
    if !w.client.composing {
      acts := FreedRetryIsWritten(w);
      return;
    }
    var a := Composer(EndsComposing(w.client.text));
    var w1 := Next(w, a);
    EndingStartsRetry(w.client, w.client.text);
    SoundStep(w, a);
    assert w1.client.text == w.client.text;
    var rest := [];
    if w.client.sending.Some? {
      rest := FreedRetryIsWritten(w1);
    }
    RunsPrepend(w, a, rest);
    acts := [a] + rest;
  }

  // ------------------------------------------------------------------ a counter reset

  /** A newer event of this tab's writes, or a snapshot, confirms that the server has the text on show. */
  predicate Confirms(w: World, a: Action)
    requires Enabled(w, a)
  {
    && a.EventDelivered?
    && w.stream[0].rev > w.client.serverRev && w.stream[0].origin != Foreign && w.stream[0].text == w.client.text
  }

  predicate Confirmed(w: World, acts: seq<Action>)
    requires Run(w, acts)
    decreases |acts|
  {
    acts != [] && (Confirms(w, acts[0]) || Confirmed(Next(w, acts[0]), acts[1..]))
  }

  /** A write has started since there were `before` of them, or one is due and on its way. */
  predicate Owes(w: World, before: nat) {
    || |w.client.writes| > before
    || (&& |w.client.writes| == before && (w.wire.Quiet? || w.wire.Orphaned?)
        && w.client.retryNeeded && RetryIsComing(w.client))
  }

  lemma InputsOwe(c: Client, input: Input)
    requires Ready(c, input) && c.retryNeeded
    ensures var c' := React(c, input); c'.retryNeeded || StartsWrite(c, c')
  {
    if input.EndsComposing? {
      EndingStartsRetry(c, input.text);
    }
  }

  lemma OwesStep(w: World, a: Action, before: nat)
    requires Sound(w) && Enabled(w, a) && Owes(w, before) && !a.CounterReset? && !Confirms(w, a)
    ensures Owes(Next(w, a), before)
  {
    WritesStartInTurn(w, a);
    if |w.client.writes| <= before {
      StepKeepsRetryComing(w, a);
      match a
      case Composer(input) =>
        InputsOwe(w.client, input);
        ReactIsLocal(w.client, input);
      case WriteFails => SettlingFreesRetry(w.client, None);
      case OrphanReplies(rev) => SettlingFreesRetry(w.client, Some(rev));
      case EventDelivered => ReceiveCases(w.client, w.stream[0]);
      case _ =>
    }
  }

  lemma {:induction false} RunsOwe(w: World, acts: seq<Action>, before: nat)
    requires Sound(w) && Owes(w, before) && Run(w, acts) && NoFurtherReset(acts)
    ensures Confirmed(w, acts) || Owes(After(w, acts), before)
    decreases |acts|
  {
    if acts != [] {
      var a := acts[0];
      assert a in acts;
      if !Confirms(w, a) {
        SoundStep(w, a);
        OwesStep(w, a, before);
        RunsOwe(Next(w, a), acts[1..], before);
      }
    }
  }

  /** A counter reset itself: the text stays, and a write of it starts or is due. */
  lemma ResetOwes(w: World, h: seq<string>)
    requires Sound(w) && Enabled(w, CounterReset(h)) && w.client.text != h[|h| - 1]
    ensures var c, w1 := w.client, Next(w, CounterReset(h));
      && Owes(w1, |c.writes|)
      && (w1.client.retryNeeded || (StartsWrite(c, w1.client) && w1.client.sending.value.text == c.text))
      && (!c.composing && c.sending.None? ==> StartsWrite(c, w1.client))
  {
  }

  /**
   * A counter reset keeps the local text and, if the snapshot lacks it, sees to it that it is written again: at the end of
   * any run since, a write has started, or the stream confirmed that the server has the text on show, or a retry is still
   * due that the end of a composition or a waiting `flush` will start.
   */
  lemma ResetKeepsText(w: World, h: seq<string>, acts: seq<Action>)
    requires Sound(w) && Enabled(w, CounterReset(h))
    requires Run(Next(w, CounterReset(h)), acts) && NoFurtherReset(acts)
    ensures var c, w1 := w.client, Next(w, CounterReset(h));
      && w1.client.text == c.text
      && (c.text == h[|h| - 1] ==> !w1.client.retryNeeded && w1.client.writes == c.writes)
      && (c.text != h[|h| - 1] ==>
            && (w1.client.retryNeeded || (StartsWrite(c, w1.client) && w1.client.sending.value.text == c.text))
            && (!c.composing && c.sending.None? ==> StartsWrite(c, w1.client))
            && (|| Confirmed(w1, acts)
                || |After(w1, acts).client.writes| > |c.writes|
                || (After(w1, acts).client.retryNeeded && RetryIsComing(After(w1, acts).client))))
  {
    SoundStep(w, CounterReset(h));
    ResetShows(w.client, Draft(|h| - 1, h[|h| - 1], Snapshot));
    if w.client.text != h[|h| - 1] {
      ResetOwes(w, h);
      RunsOwe(Next(w, CounterReset(h)), acts, |w.client.writes|);
    }
  }
}

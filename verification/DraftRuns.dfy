/** What every run of the draft protocol keeps, and exactly which counter resets break it. */
module DraftRuns {
  import opened DraftText
  import opened DraftClient
  import opened DraftWorld
  import opened Wrappers

  // ------------------------------------------------------------------ soundness, step by step

  /** What a step that hears nothing from the server does to the composer. */
  predicate Local(c: Client, c': Client) {
    && (Clean(c.text) ==> Clean(c'.text))
    && c'.serverRev == c.serverRev && c'.serverText == c.serverText
    && c'.saved == c.saved && c'.rebases == c.rebases
    && (c'.timer ==> c'.scheduled > 0)
    && (c'.held == c.held || (c.sending.None? && c'.held.None?))
    && ((c'.sending == c.sending && c'.writes == c.writes) || StartsWrite(c, c'))
  }

  /** A write starts: only with none in flight and no composition open, and with the text on show. */
  predicate StartsWrite(c: Client, c': Client) {
    && c.sending.None?
    && !c'.composing
    && c'.sending == Some(Sending(c'.text, c'.rebases))
    && c'.writes == c.writes + [c'.text]
  }

  predicate HeldIsClean(c: Client) {
    && (c.timer ==> c.scheduled > 0)
    && (c.held.Some? ==> Clean(c.held.value.text))
  }

  lemma SendIsLocal(c: Client)
    ensures Local(c, Send(c))
  {
  }

  lemma FlushIsLocal(c: Client)
    requires HeldIsClean(c)
    ensures Local(c, Flush(c)) && HeldIsClean(Flush(c))
  {
  }

  lemma CompositionEndIsLocal(c: Client, raw: string)
    requires HeldIsClean(c)
    ensures Local(c, CompositionEnd(c, raw))
  {
    NormalizeCleans(raw);
    var c1 := c.(composing := false);
    var c2 := if raw != c1.text then Edit(c1, raw) else c1;
    var c3 := if c2.retryNeeded then Flush(c2) else c2;
    FlushIsLocal(c2);
    assert Local(c2, c3);
  }

  lemma ReleaseIsLocal(c: Client)
    requires HeldIsClean(c)
    ensures Local(c, ReleaseHeld(c))
  {
  }

  lemma EditIsLocal(c: Client, raw: string)
    requires HeldIsClean(c)
    ensures Local(c, Edit(c, raw))
  {
    NormalizeCleans(raw);
  }

  lemma FlushResumedIsLocal(c: Client)
    requires HeldIsClean(c) && c.waiters > 0 && c.sending.None?
    ensures Local(c, FlushResumes(c))
  {
    FlushIsLocal(c.(waiters := c.waiters - 1));
  }

  lemma TimerIsLocal(c: Client)
    requires c.scheduled > 0
    ensures Local(c, TimerFires(c))
  {
    SendIsLocal(c.(scheduled := c.scheduled - 1));
  }

  lemma ReactIsLocal(c: Client, input: Input)
    requires HeldIsClean(c) && Ready(c, input)
    ensures Local(c, React(c, input))
  {
    match input
    case Edits(t) => EditIsLocal(c, t);
    case StartsComposing =>
    case EndsComposing(t) => CompositionEndIsLocal(c, t);
    case TimerFired => TimerIsLocal(c);
    case FlushCalled => FlushIsLocal(c);
    case FlushResumed => FlushResumedIsLocal(c);
    case HeldReleased => ReleaseIsLocal(c);
    case RetryCalled => SendIsLocal(c);
  }

  lemma CoverageMoves(w: World, c: Client)
    requires |w.history| > 0 && NothingForgotten(w)
    requires w.client.LatestSaved().rev <= c.LatestSaved().rev
    ensures NothingForgotten(Moved(w, c))
  {
  }

  lemma LocalStepIsSound(w: World, c: Client)
    requires Sound(w) && Local(w.client, c)
    ensures Sound(Moved(w, c))
  {
    CoverageMoves(w, c);
  }

  lemma StoredIsSound(w: World, text: string, origin: Origin)
    requires Sound(w) && origin != Snapshot
    ensures Sound(Stored(w, text, origin))
  {
    NormalizeCleans(text);
    var w1 := Stored(w, text, origin);
    if w1 != w {
      var e := Draft(|w.history|, Normalize(text), origin);
      assert w1.stream[|w.stream|] == e;
      forall r: nat | w.client.LatestSaved().rev < r <= w1.Newest()
        ensures r in w1.lost || Travels(w1.stream, r)
      {
        if r < |w.history| && r !in w.lost {
          var e0 :| e0 in w.stream && e0.rev == r;
          assert e0 in w1.stream;
        }
      }
    }
  }

  lemma SettlingIsSound(w: World, reply: Option<nat>)
    requires Sound(w) && !w.wire.Quiet?
    requires reply.Some? && !w.wire.Orphaned? ==> w.wire == Committed(w.client.sending.value.text, reply.value)
    ensures Sound(Moved(w.(wire := Quiet), WriteSettles(w.client, reply)))
  {
    var c := w.client;
    var c1 := WriteSettles(c, reply);
    assert c1.serverRev == c.serverRev && c1.serverText == c.serverText && c1.rebases == c.rebases;
    CoverageMoves(w.(wire := Quiet), c1);
    assert ClientKnows(c1, w.history);
  }

  /** A newer event that no saved revision outruns. */
  predicate Newer(c: Client, d: Draft) {
    d.rev > c.serverRev && (c.saved.Some? ==> d.rev > c.saved.value.rev)
  }

  /** Receiving an event of the current counter, field by field. */
  lemma ReceiveCases(c: Client, d: Draft)
    requires c.timer ==> c.scheduled > 0
    requires d.rev >= c.serverRev
    ensures var c1 := Receive(c, d);
      && c1.serverRev == d.rev && (d.rev > c.serverRev ==> c1.serverText == d.text)
      && c1.saved == c.saved && c1.rebases == c.rebases
      && c1.sending == c.sending && c1.writes == c.writes && c1.composing == c.composing
      && c1.timer == c.timer && c1.scheduled == c.scheduled
      && (c1.text == c.text || c1.text == d.text)
      && (c1.held == c.held || c1.held == Some(d))
      && (Newer(c, d) && c.sending.Some? ==> c1.held == Some(d))
      && (d.rev == c.serverRev ==> c1 == c)
  {
  }

  lemma DeliveryIsSound(w: World)
    requires Sound(w) && w.stream != []
    ensures Sound(Moved(w.(stream := w.stream[1..]), Receive(w.client, w.stream[0])))
  {
    var d := w.stream[0];
    ReceiveCases(w.client, d);
    var c1 := Receive(w.client, d);
    var w1 := Moved(w.(stream := w.stream[1..]), c1);
    forall r: nat | c1.LatestSaved().rev < r <= w1.Newest()
      ensures r in w1.lost || Travels(w1.stream, r)
    {
      if r !in w.lost {
        assert Travels(w.stream, r);
        var e :| e in w.stream && e.rev == r;
        assert e != d;
        assert e in w.stream[1..];
      }
    }
    assert WireTrue(w1);
  }

  lemma LossIsRecorded(w: World, i: nat, r: nat)
    requires Sound(w) && i < |w.stream| && (r in w.lost || Travels(w.stream, r))
    ensures var w1 := Next(w, EventLost(i)); r in w1.lost || Travels(w1.stream, r)
  {
    var w1 := Next(w, EventLost(i));
    if r !in w.lost && r != w.stream[i].rev {
      var k :| 0 <= k < |w.stream| && w.stream[k].rev == r;
      assert w1.stream[if k < i then k else k - 1] == w.stream[k];
    }
  }

  lemma LossIsSound(w: World, i: nat)
    requires Sound(w) && i < |w.stream|
    ensures Sound(Next(w, EventLost(i)))
  {
    var w1 := Next(w, EventLost(i));
    forall r: nat | w.client.LatestSaved().rev < r <= w.Newest()
      ensures r in w1.lost || Travels(w1.stream, r)
    {
      LossIsRecorded(w, i, r);
    }
  }

  lemma ResetIsSound(w: World, h: seq<string>)
    requires Sound(w) && Enabled(w, CounterReset(h))
    ensures Sound(Next(w, CounterReset(h)))
  {
    var w1 := Next(w, CounterReset(h));
    assert w1.client.LatestSaved().rev == w1.Newest();
  }

  lemma SoundStep(w: World, a: Action)
    requires Sound(w) && Enabled(w, a)
    ensures Sound(Next(w, a))
  {
    match a
    case Composer(input) =>
      ReactIsLocal(w.client, input);
      LocalStepIsSound(w, React(w.client, input));
    case WriteCommits =>
      StoredIsSound(w, w.wire.text, Own);
      NormalizeFixesClean(w.wire.text);
    case WriteReplies => SettlingIsSound(w, Some(w.wire.rev));
    case WriteFails => SettlingIsSound(w, None);
    case OrphanReplies(rev) => SettlingIsSound(w, Some(rev));
    case ServerWrites(t, origin) => StoredIsSound(w, t, origin);
    case SnapshotTaken =>
      var w1 := Next(w, a);
      assert forall e <- w.stream :: e in w1.stream;
    case EventDelivered => DeliveryIsSound(w);
    case EventLost(i) => LossIsSound(w, i);
    case CounterReset(h) => ResetIsSound(w, h);
  }

  // ------------------------------------------------------------------ convergence and retention, step by step

  /** A counter reset that finds the snapshot's text on show and a write of another text in flight. */
  predicate Strands(w: World, h: seq<string>)
    requires |h| > 0
  {
    w.client.sending.Some? && w.client.text == h[|h| - 1] && w.client.sending.value.text != h[|h| - 1]
  }

  /** A counter reset that finds a write in flight whose text the new counter has never held. */
  predicate Forgets(w: World, h: seq<string>) {
    w.client.sending.Some? && w.client.sending.value.text !in h
  }

  /** A remote text overwrote the composer's between these two states. */
  predicate Overwrote(c: Client, c': Client) {
    |c'.replaced| > |c.replaced|
  }

  /** The composer never overwrites a text the server has not held, nor one being composed. */
  predicate OverwritesOnlySaved(c: Client, c': Client, history: seq<string>) {
    && |c.replaced| <= |c'.replaced| <= |c.replaced| + 1
    && (Overwrote(c, c') ==>
          && !c'.composing
          && c'.replaced[|c.replaced|] in history
          && c'.text in history)
  }

  predicate ShowsNewest(c: Client) {
    !c.Dirty() ==> c.text == c.LatestSaved().text || (c.composing && c.HeldIsNewest())
  }

  predicate ShowsSaved(c: Client, history: seq<string>) {
    !c.Dirty() ==> c.text in history
  }

  /** Releasing keeps a composer converging, and whatever it overwrites was saved. */
  lemma Releasing(c: Client, history: seq<string>)
    requires c.held.Some? ==> Records(history, c.held.value.rev, c.held.value.text)
    requires Records(history, c.serverRev, c.serverText)
    ensures !c.Dirty() && c.text == c.LatestSaved().text ==> ShowsNewest(ReleaseHeld(c))
    ensures !c.Dirty() && c.HeldIsNewest() ==> ShowsNewest(ReleaseHeld(c))
    ensures c.Dirty() ==> ReleaseHeld(c) == c
    ensures ShowsSaved(c, history) ==>
      ShowsSaved(ReleaseHeld(c), history) && OverwritesOnlySaved(c, ReleaseHeld(c), history)
  {
  }

  lemma Flushing(c: Client, history: seq<string>)
    requires ClientKnows(c, history)
    ensures ShowsNewest(c) ==> ShowsNewest(Flush(c))
    ensures ShowsSaved(c, history) ==>
      ShowsSaved(Flush(c), history) && OverwritesOnlySaved(c, Flush(c), history)
  {
    if c.sending.None? && !c.composing {
      Releasing(if c.timer then c.(timer := false, scheduled := c.scheduled - 1) else c, history);
    }
  }

  lemma EndingComposition(c: Client, raw: string, history: seq<string>)
    requires ClientKnows(c, history)
    ensures ShowsNewest(c) ==> ShowsNewest(CompositionEnd(c, raw))
    ensures ShowsSaved(c, history) ==>
      ShowsSaved(CompositionEnd(c, raw), history) && OverwritesOnlySaved(c, CompositionEnd(c, raw), history)
  {
    NormalizeCleans(raw);
    var c1 := c.(composing := false);
    var c2 := if raw != c1.text then Edit(c1, raw) else c1;
    if c2.retryNeeded {
      if c2.sending.None? {
        var c2' := if c2.timer then c2.(timer := false, scheduled := c2.scheduled - 1) else c2;
        assert Flush(c2) == Send(c2');
      }
      assert Flush(c2).Dirty();
    } else {
      Releasing(c2, history);
    }
  }

  lemma StartingWrite(c: Client, history: seq<string>)
    ensures ShowsNewest(Send(c)) && ShowsSaved(Send(c), history) && OverwritesOnlySaved(c, Send(c), history)
    ensures c.sending.Some? && c.retryNeeded ==> Send(c).retryNeeded
  {
  }

  lemma Editing(c: Client, raw: string, history: seq<string>)
    ensures ShowsNewest(Edit(c, raw)) && ShowsSaved(Edit(c, raw), history) && OverwritesOnlySaved(c, Edit(c, raw), history)
  {
  }

  lemma Retrying(c: Client, history: seq<string>)
    ensures ShowsNewest(c) ==> ShowsNewest(Retry(c))
    ensures ShowsSaved(c, history) ==> ShowsSaved(Retry(c), history) && OverwritesOnlySaved(c, Retry(c), history)
  {
    StartingWrite(c, history);
  }

  /** An input leaves a retry due while a write is in flight. */
  lemma RetryStaysDue(c: Client, input: Input)
    requires Ready(c, input) && c.sending.Some? && c.retryNeeded
    ensures React(c, input).retryNeeded
  {
  }

  lemma Reacting(c: Client, input: Input, history: seq<string>)
    requires ClientKnows(c, history) && Ready(c, input)
    ensures ShowsNewest(c) ==> ShowsNewest(React(c, input))
    ensures ShowsSaved(c, history) ==>
      ShowsSaved(React(c, input), history) && OverwritesOnlySaved(c, React(c, input), history)
    ensures c.sending.Some? && c.retryNeeded ==> React(c, input).retryNeeded
  {
    if c.sending.Some? && c.retryNeeded {
      RetryStaysDue(c, input);
    }
    match input
    case Edits(t) => Editing(c, t, history);
    case StartsComposing =>
    case EndsComposing(t) => EndingComposition(c, t, history);
    case TimerFired => StartingWrite(c.(scheduled := c.scheduled - 1), history);
    case FlushCalled => Flushing(c, history);
    case FlushResumed => Flushing(c.(waiters := c.waiters - 1), history);
    case HeldReleased => Releasing(c, history);
    case RetryCalled => Retrying(c, history);
  }

  lemma Settling(w: World, reply: Option<nat>)
    requires Sound(w) && !w.wire.Quiet?
    requires reply.Some? && !w.wire.Orphaned? ==> w.wire == Committed(w.client.sending.value.text, reply.value)
    ensures var c1 := WriteSettles(w.client, reply);
      && (Converging(w) ==> ShowsNewest(c1))
      && (Kept(w) ==> ShowsSaved(c1, w.history) && OverwritesOnlySaved(w.client, c1, w.history))
  {
    var c := w.client;
    var sent := c.sending.value;
    var c1 :=
      if sent.rebase != c.rebases then c
      else if reply.Some? then c.(saved := Some(Revision(reply.value, sent.text)))
      else c.(retryNeeded := true);
    var c2 := c1.(sending := None);
    if !c2.retryNeeded && c2.text != sent.text && !c2.timer {
    } else {
      Releasing(c2, w.history);
    }
  }

  lemma ReceivingConverges(c: Client, d: Draft, history: seq<string>)
    requires ClientKnows(c, history) && Records(history, d.rev, d.text) && d.rev >= c.serverRev
    ensures ShowsNewest(c) ==> ShowsNewest(Receive(c, d))
  {
  }

  lemma ReceivingSpares(c: Client, d: Draft, history: seq<string>)
    requires c.timer ==> c.scheduled > 0
    requires Records(history, d.rev, d.text) && d.rev >= c.serverRev && ShowsSaved(c, history)
    ensures ShowsSaved(Receive(c, d), history) && OverwritesOnlySaved(c, Receive(c, d), history)
  {
  }

  lemma ReceivingWhileSending(c: Client, d: Draft)
    requires c.timer ==> c.scheduled > 0
    requires d.rev >= c.serverRev && c.sending.Some? && c.saved.None?
    requires c.retryNeeded || c.HeldIsNewest() || d.rev > c.serverRev
    ensures Receive(c, d).retryNeeded || Receive(c, d).HeldIsNewest()
  {
  }

  lemma Receiving(c: Client, d: Draft, history: seq<string>)
    requires ClientKnows(c, history) && Records(history, d.rev, d.text) && d.rev >= c.serverRev
    ensures ShowsNewest(c) ==> ShowsNewest(Receive(c, d))
    ensures ShowsSaved(c, history) ==>
      ShowsSaved(Receive(c, d), history) && OverwritesOnlySaved(c, Receive(c, d), history)
    ensures c.sending.Some? && c.saved.None? && (c.retryNeeded || c.HeldIsNewest() || d.rev > c.serverRev) ==>
      Receive(c, d).retryNeeded || Receive(c, d).HeldIsNewest()
  {
    ReceivingConverges(c, d, history);
    if ShowsSaved(c, history) {
      ReceivingSpares(c, d, history);
    }
    if c.sending.Some? && c.saved.None? && (c.retryNeeded || c.HeldIsNewest() || d.rev > c.serverRev) {
      ReceivingWhileSending(c, d);
    }
  }

  lemma ConvergingStep(w: World, a: Action)
    requires Sound(w) && Enabled(w, a)
    requires a.CounterReset? ==> !Strands(w, a.history)
    requires Converging(w)
    ensures Converging(Next(w, a))
  {
    match a
    case Composer(input) =>
      Reacting(w.client, input, w.history);
      ReactIsLocal(w.client, input);
    case WriteReplies => Settling(w, Some(w.wire.rev));
    case WriteFails => Settling(w, None);
    case OrphanReplies(rev) => Settling(w, Some(rev));
    case EventDelivered =>
      Receiving(w.client, w.stream[0], w.history);
      ReceiveCases(w.client, w.stream[0]);
    case CounterReset(h) => ResettingConverges(w, h);
    case _ =>
  }

  /** Away from a stranding reset, a counter reset leaves the composer converging on the new counter. */
  lemma ResettingConverges(w: World, h: seq<string>)
    requires Sound(w) && Enabled(w, CounterReset(h)) && !Strands(w, h)
    ensures Converging(Next(w, CounterReset(h)))
  {
  }

  lemma KeptStep(w: World, a: Action)
    requires Sound(w) && Enabled(w, a)
    requires a.CounterReset? ==> !Forgets(w, a.history)
    requires Kept(w)
    ensures Kept(Next(w, a))
    ensures OverwritesOnlySaved(w.client, Next(w, a).client, Next(w, a).history)
  {
    match a
    case Composer(input) =>
      Reacting(w.client, input, w.history);
      ReactIsLocal(w.client, input);
    case WriteReplies => Settling(w, Some(w.wire.rev));
    case WriteFails => Settling(w, None);
    case OrphanReplies(rev) => Settling(w, Some(rev));
    case EventDelivered =>
      Receiving(w.client, w.stream[0], w.history);
      ReceiveCases(w.client, w.stream[0]);
    case CounterReset(h) =>
    case _ =>
  }
}

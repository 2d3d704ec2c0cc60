/** What the draft protocol comes to when nothing gets in its way: texts get through, and only changes make revisions. */
module DraftOutcomes {
  import opened DraftText
  import opened DraftClient
  import opened DraftWorld
  import opened DraftRuns
  import opened DraftTheorems
  import opened Wrappers

  // ------------------------------------------------------------------ what makes a revision

  /** Writing the text the server already has makes no revision and no event; any other makes one of each. */
  lemma ChangesMakeRevisions(w: World, text: string, origin: Origin)
    requires Sound(w) && origin != Snapshot
    ensures var w1 := Next(w, ServerWrites(text, origin));
      if Normalize(text) == w.history[w.Newest()] then w1 == w
      else
        && w1.history == w.history + [Normalize(text)]
        && w1.stream == w.stream + [Draft(w1.Newest(), Normalize(text), origin)]
        && w1.client == w.client && w1.wire == w.wire && w1.lost == w.lost
  {
  }

  /** The same for this tab's own write, whose reply names the revision of the text it sent either way. */
  lemma CommitsMakeRevisions(w: World)
    requires Sound(w) && w.wire.Requested?
    ensures var t, w1 := w.wire.text, Next(w, WriteCommits);
      && |w1.history| > 0 && w1.wire == Committed(t, w1.Newest()) && w1.history[w1.Newest()] == t && w1.client == w.client
      && if t == w.history[w.Newest()] then w1.history == w.history && w1.stream == w.stream
         else w1.history == w.history + [t] && w1.stream == w.stream + [Draft(w1.Newest(), t, Own)]
  {
    NormalizeFixesClean(w.wire.text);
  }

  // ------------------------------------------------------------------ what clears a retry

  /** News that the server has the text on show, from this tab's own write or a snapshot, makes a due retry needless. */
  lemma ConfirmationClearsRetry(w: World)
    requires Sound(w) && w.stream != [] && Newer(w.client, w.stream[0])
    requires w.stream[0].origin != Foreign && w.stream[0].text == w.client.text
    ensures var c, c1 := w.client, Next(w, EventDelivered).client;
      && c1.text == c.text && !c1.retryNeeded
      && (!c.timer && c.sending.None? ==> !c1.Dirty())
      && (!c.timer && c.sending.None? && !c.composing ==> c1.Quiescent() && c1.LatestSaved().text == c1.text)
  {
  }

  /** Another writer's event does not, even with the same text. */
  lemma ForeignNewsKeepsRetry(w: World)
    requires Sound(w) && w.stream != [] && w.stream[0].origin == Foreign
    ensures Next(w, EventDelivered).client.retryNeeded == w.client.retryNeeded
  {
  }

  /** A write that fails leaves a retry due, and `retry` writes what is then on show unless a composition is open. */
  lemma FailureIsRetried(w: World)
    requires Sound(w) && (w.wire.Requested? || w.wire.Committed?)
    ensures var w1 := Next(w, WriteFails);
      && Sound(w1) && w1.client.retryNeeded && w1.client.text == w.client.text && w1.wire == Quiet
      && (!w.client.composing ==> StartsWrite(w1.client, Next(w1, Composer(RetryCalled)).client))
  {
    SoundStep(w, WriteFails);
  }

  // ------------------------------------------------------------------ typing

  /** However often the user types before the debounce fires, one callback is armed, and it will send what is on show then. */
  lemma TypingArmsOnce(c: Client, first: string, second: string)
    ensures Edit(c, first).timer
    ensures Edit(c, first).scheduled == c.scheduled + if c.timer then 0 else 1
    ensures Edit(Edit(c, first), second).scheduled == Edit(c, first).scheduled
    ensures var c1 := TimerFires(Edit(Edit(c.(scheduled := c.scheduled + 1), first), second));
      !c.composing && c.sending.None? ==> c1.writes == c.writes + [Normalize(second)] && !c1.timer
  {
    NormalizeCleans(first);
  }

  // ------------------------------------------------------------------ texts get through

  /** What `settledRev` answers, for the state its `flush` left. */
  lemma SettledExactly(c: Client, rebase: nat)
    ensures SettledOutcome(c, rebase).At? <==> rebase == c.rebases && c.Quiescent() && c.text == c.LatestSaved().text
    ensures SettledOutcome(c, rebase).At? ==> SettledOutcome(c, rebase).rev == c.LatestSaved().rev
    ensures SettledOutcome(c, rebase).Unsaved? <==>
      rebase == c.rebases && (c.composing || c.retryNeeded || (c.Quiescent() && c.text != c.LatestSaved().text))
  {
  }

  lemma FlushingSends(w: World)
    requires Sound(w) && w.wire == Quiet && !w.client.composing && w.client.text != w.client.LatestSaved().text
    ensures var w1 := Next(w, Composer(FlushCalled));
      && Sound(w1) && w1.wire == Requested(w.client.text) && w1.history == w.history && w1.stream == w.stream
      && w1.client.text == w.client.text && !w1.client.retryNeeded && !w1.client.timer && !w1.client.composing
      && w1.client.rebases == w.client.rebases
  {
    SoundStep(w, Composer(FlushCalled));
  }

  /** The reply to a write that nothing followed settles the composer on what it wrote. */
  lemma ReplySettles(w: World)
    requires Sound(w) && w.wire.Committed? && w.wire.rev == w.Newest()
    requires w.client.text == w.wire.text && !w.client.retryNeeded && !w.client.timer && !w.client.composing
    ensures var c1 := Next(w, WriteReplies).client;
      && c1.text == w.client.text && SettledOutcome(c1, w.client.rebases) == At(w.Newest())
  {
    SoundStep(w, WriteReplies);
  }

  /** The server's draft and the composer agree on this text, and `settledRev` names its revision. */
  predicate SavedAs(w: World, text: string, rebase: nat) {
    && |w.history| > 0 && w.history[w.Newest()] == text
    && w.client.text == text && w.client.Quiescent()
    && SettledOutcome(w.client, rebase) == At(w.Newest())
  }

  lemma RequestedTextIsSaved(w: World)
    requires Sound(w) && w.wire == Requested(w.client.text)
    requires !w.client.retryNeeded && !w.client.timer && !w.client.composing
    ensures Run(w, [WriteCommits] + ([WriteReplies] + []))
    ensures SavedAs(After(w, [WriteCommits] + ([WriteReplies] + [])), w.client.text, w.client.rebases)
  {
    CommitsMakeRevisions(w);
    SoundStep(w, WriteCommits);
    var w1 := Next(w, WriteCommits);
    ReplySettles(w1);
    SettledExactly(Next(w1, WriteReplies).client, w.client.rebases);
    RunsPrepend(w1, WriteReplies, []);
    RunsPrepend(w, WriteCommits, [WriteReplies] + []);
  }

  lemma TypingIsSound(w: World, raw: string)
    requires Sound(w) && w.wire == Quiet && !w.client.composing
    ensures var w1 := Next(w, Composer(Edits(raw)));
      && Sound(w1) && w1.wire == Quiet && w1.client.text == Normalize(raw) && !w1.client.composing
      && w1.client.LatestSaved() == w.client.LatestSaved() && w1.client.rebases == w.client.rebases
  {
    SoundStep(w, Composer(Edits(raw)));
  }

  /** Typing an unsaved text, flushing it and having the write answered saves exactly that text. */
  lemma TypedTextIsSaved(w: World, raw: string)
    requires Sound(w) && w.wire == Quiet && !w.client.composing && Normalize(raw) != w.client.LatestSaved().text
    ensures var acts := [Composer(Edits(raw))] + ([Composer(FlushCalled)] + ([WriteCommits] + ([WriteReplies] + [])));
      Run(w, acts) && SavedAs(After(w, acts), Normalize(raw), w.client.rebases)
  {
    TypingIsSound(w, raw);
    var w1 := Next(w, Composer(Edits(raw)));
    FlushingSends(w1);
    RequestedTextIsSaved(Next(w1, Composer(FlushCalled)));
    RunsPrepend(w1, Composer(FlushCalled), [WriteCommits] + ([WriteReplies] + []));
    RunsPrepend(w, Composer(Edits(raw)), [Composer(FlushCalled)] + ([WriteCommits] + ([WriteReplies] + [])));
  }
}

/** The composer's side of shared-draft synchronisation, as step functions over its whole state. */
module DraftClient {
  import opened DraftText
  import opened Wrappers

  /** Who wrote a draft: a snapshot (null origin), this tab, or any other writer. */
  datatype Origin = Snapshot | Own | Foreign

  datatype Draft = Draft(rev: nat, text: string, origin: Origin)

  datatype Revision = Revision(rev: nat, text: string)

  /** The locals of a `send` suspended at its write. */
  datatype Sending = Sending(text: string, rebase: nat)

  /**
   * The fields of `DraftSync`. A suspended `send` is `sending`, so `inflight` is `sending.Some?`. `scheduled` counts the
   * debounce callbacks that can still fire, `waiters` the `flush` calls suspended on `idleWaiters`. `writes` logs every
   * text passed to `write`, `replaced` every composer text that `onRemote` overwrote.
   */
  datatype Client = Client(
    text: string,
    serverRev: nat,
    serverText: string,
    timer: bool,
    scheduled: nat,
    sending: Option<Sending>,
    retryNeeded: bool,
    rebases: nat,
    composing: bool,
    saved: Option<Revision>,
    held: Option<Draft>,
    waiters: nat,
    writes: seq<string>,
    replaced: seq<string>)
  {
    predicate Dirty() {
      timer || sending.Some? || retryNeeded
    }

    predicate Quiescent() {
      !composing && !Dirty()
    }

    function LatestSaved(): Revision {
      if saved.Some? && saved.value.rev > serverRev then saved.value else Revision(serverRev, serverText)
    }

    /** The held draft is the newest one known, so releasing it shows it. */
    predicate HeldIsNewest() {
      held.Some? && held.value.rev == serverRev && (saved.Some? ==> serverRev > saved.value.rev)
    }
  }

  function Opened(rev: nat, text: string): Client {
    Client(text, rev, text, false, 0, None, false, 0, false, None, None, 0, [], [])
  }

  function Edit(c: Client, raw: string): Client {
    var c1 := c.(text := Normalize(raw));
    if c.timer then c1 else c1.(timer := true, scheduled := c.scheduled + 1)
  }

  function CompositionStart(c: Client): Client {
    c.(composing := true)
  }

  function Send(c: Client): Client {
    var c1 := c.(timer := false);
    if c.composing then
      c1.(retryNeeded := true)
    else if c.sending.Some? then
      c1
    else
      c1.(sending := Some(Sending(c.text, c.rebases)), retryNeeded := false, writes := c.writes + [c.text])
  }

  function Apply(c: Client, text: string): Client {
    if text == c.text then c else c.(text := text, replaced := c.replaced + [c.text])
  }

  function ReleaseHeld(c: Client): Client {
    if c.held.None? || c.composing || c.Dirty() then c
    else
      var c1 := c.(held := None);
      if c.held.value.rev == c.serverRev && (c.saved.None? || c.held.value.rev > c.saved.value.rev)
      then Apply(c1, c.held.value.text) else c1
  }

  /** `flush` once nothing is in flight, up to its next suspension. */
  function FlushBody(c: Client): Client
    requires c.timer ==> c.scheduled > 0
  {
    if c.composing then c
    else
      var c1 := if c.timer then c.(timer := false, scheduled := c.scheduled - 1) else c;
      if c1.retryNeeded || c1.text != c1.LatestSaved().text then Send(c1) else ReleaseHeld(c1)
  }

  /** Calling `flush`: it waits while a write is in flight. */
  function Flush(c: Client): Client
    requires c.timer ==> c.scheduled > 0
  {
    if c.sending.Some? then c.(waiters := c.waiters + 1) else FlushBody(c)
  }

  function CompositionEnd(c: Client, raw: string): Client
    requires c.timer ==> c.scheduled > 0
  {
    var c1 := c.(composing := false);
    var c2 := if raw != c1.text then Edit(c1, raw) else c1;
    var c3 := if c2.retryNeeded then Flush(c2) else c2;
    ReleaseHeld(c3)
  }

  function Reset(c: Client, d: Draft): Client
    requires c.timer ==> c.scheduled > 0
  {
    var c1 := c.(serverRev := d.rev, serverText := d.text, saved := None, held := None,
                 retryNeeded := c.text != d.text, rebases := c.rebases + 1);
    if c.composing then c1 else Flush(c1)
  }

  function Receive(c: Client, d: Draft): Client
    requires c.timer ==> c.scheduled > 0
  {
    if d.origin == Snapshot && d.rev < c.serverRev then
      Reset(c, d)
    else if d.rev <= c.serverRev then
      c
    else
      var c1 := c.(serverRev := d.rev, serverText := d.text);
      if c.saved.Some? && d.rev <= c.saved.value.rev then
        c1
      else
        var c2 := if d.origin != Foreign && d.text == c.text then c1.(retryNeeded := false) else c1;
        if c2.composing || c2.Dirty() then c2.(held := Some(d)) else Apply(c2, d.text)
  }

  function Retry(c: Client): Client {
    if c.retryNeeded && c.sending.None? then Send(c) else c
  }

  /** A debounce callback fires. `retry` can leave one behind, so the timer need not be set. */
  function TimerFires(c: Client): Client
    requires c.scheduled > 0
  {
    Send(c.(scheduled := c.scheduled - 1))
  }

  /** A `flush` suspended on `idleWaiters` resumes. */
  function FlushResumes(c: Client): Client
    requires c.timer ==> c.scheduled > 0
    requires c.waiters > 0 && c.sending.None?
  {
    FlushBody(c.(waiters := c.waiters - 1))
  }

  /** The write in flight resolves with a revision, or rejects. */
  function WriteSettles(c: Client, reply: Option<nat>): Client
    requires c.sending.Some?
  {
    var sent := c.sending.value;
    var c1 :=
      if sent.rebase != c.rebases then c
      else if reply.Some? then c.(saved := Some(Revision(reply.value, sent.text)))
      else c.(retryNeeded := true);
    var c2 := c1.(sending := None);
    if !c2.retryNeeded && c2.text != sent.text && !c2.timer then
      if c2.composing then ReleaseHeld(c2.(retryNeeded := true)) else Send(c2)
    else
      ReleaseHeld(c2)
  }

  /** How `settledRev` leaves one turn of its loop, once the `flush` it awaited is over. */
  datatype Settled = Again | Unsaved | At(rev: nat)

  function SettledOutcome(c: Client, rebase: nat): Settled {
    if rebase != c.rebases then Again
    else if c.composing || c.retryNeeded then Unsaved
    else if c.Dirty() then Again
    else if c.LatestSaved().text != c.text then Unsaved
    else At(c.LatestSaved().rev)
  }
}

/**
 * One composer, one server-held draft, the lossy event stream between them, and the write in flight.
 *
 * `history[r]` is the text of revision `r` in the current revision counter. Every action is one uninterrupted step of
 * the composer, the server or a channel.
 */
module DraftWorld {
  import opened DraftText
  import opened DraftClient
  import opened Wrappers

  /** Where the one write in flight is. It is orphaned once the composer has seen its counter reset. */
  datatype Wire =
    | Quiet
    | Requested(text: string)
    | Committed(text: string, rev: nat)
    | Orphaned(text: string)

  /** `lost` holds the revisions of which the stream lost an event since the last counter reset. */
  datatype World = World(client: Client, history: seq<string>, stream: seq<Draft>, wire: Wire, lost: set<nat>)
  {
    function Newest(): nat
      requires |history| > 0
    {
      |history| - 1
    }
  }

  /** What makes the composer move without news from the server. */
  datatype Input =
    | Edits(text: string)
    | StartsComposing
    | EndsComposing(text: string)
    | TimerFired
    | FlushCalled
    | FlushResumed
    | HeldReleased
    | RetryCalled

  datatype Action =
    | Composer(input: Input)
    | WriteCommits
    | WriteReplies
    | WriteFails
    | OrphanReplies(rev: nat)
    | ServerWrites(text: string, origin: Origin)
    | SnapshotTaken
    | EventDelivered
    | EventLost(index: nat)
    | CounterReset(history: seq<string>)

  predicate Opening(w: World) {
    && |w.history| > 0
    && (forall t <- w.history :: Clean(t))
    && w == World(Opened(w.Newest(), w.history[w.Newest()]), w.history, [], Quiet, {})
  }

  predicate Ready(c: Client, input: Input) {
    && (c.timer ==> c.scheduled > 0)
    && (input.TimerFired? ==> c.scheduled > 0)
    && (input.FlushResumed? ==> c.waiters > 0 && c.sending.None?)
  }

  function React(c: Client, input: Input): Client
    requires Ready(c, input)
  {
    match input
    case Edits(t) => Edit(c, t)
    case StartsComposing => CompositionStart(c)
    case EndsComposing(t) => CompositionEnd(c, t)
    case TimerFired => TimerFires(c)
    case FlushCalled => Flush(c)
    case FlushResumed => FlushResumes(c)
    case HeldReleased => ReleaseHeld(c)
    case RetryCalled => Retry(c)
  }

  predicate Enabled(w: World, a: Action) {
    match a
    case Composer(input) => Ready(w.client, input)
    case WriteCommits => w.wire.Requested?
    case WriteReplies => w.wire.Committed?
    case WriteFails => !w.wire.Quiet?
    case OrphanReplies(_) => w.wire.Orphaned?
    case ServerWrites(_, origin) => origin != Snapshot
    case EventDelivered => w.stream != []
    case EventLost(i) => i < |w.stream|
    case CounterReset(h) => 0 < |h| <= w.client.serverRev && forall t <- h :: Clean(t)
    case SnapshotTaken => true
  }

  /** What a step needs of the world it starts from. */
  predicate Wired(w: World) {
    && |w.history| > 0
    && (w.client.timer ==> w.client.scheduled > 0)
    && (w.client.sending.Some? <==> !w.wire.Quiet?)
  }

  /** The server takes a text: a no-op, or a new revision with an event. */
  function Stored(w: World, text: string, origin: Origin): World
    requires |w.history| > 0
  {
    var t := Normalize(text);
    if t == w.history[w.Newest()] then w
    else w.(history := w.history + [t], stream := w.stream + [Draft(|w.history|, t, origin)])
  }

  datatype SubmitVerdict = Changed | Nothing | Refused | Accepted(text: string)

  /** The server's answer to `submit`; `trim` and `terminalOnly` are its text predicates. */
  function Submitted(w: World, rev: nat, trim: string -> string, terminalOnly: string -> bool): SubmitVerdict
    requires |w.history| > 0
  {
    if w.Newest() != rev then Changed
    else
      var text := trim(w.history[w.Newest()]);
      if text == "" then Nothing else if terminalOnly(text) then Refused else Accepted(text)
  }

  /** The composer moved on: a new write goes on the wire. */
  function Moved(w: World, c: Client): World {
    w.(client := c,
       wire := if c.writes != w.client.writes && c.sending.Some? then Requested(c.sending.value.text) else w.wire)
  }

  function Next(w: World, a: Action): World
    requires Wired(w) && Enabled(w, a)
  {
    match a
    case Composer(input) => Moved(w, React(w.client, input))
    case WriteCommits =>
      var w1 := Stored(w, w.wire.text, Own);
      w1.(wire := Committed(w.wire.text, w1.Newest()))
    case WriteReplies => Moved(w.(wire := Quiet), WriteSettles(w.client, Some(w.wire.rev)))
    case WriteFails => Moved(w.(wire := Quiet), WriteSettles(w.client, None))
    case OrphanReplies(rev) => Moved(w.(wire := Quiet), WriteSettles(w.client, Some(rev)))
    case ServerWrites(t, origin) => Stored(w, t, origin)
    case SnapshotTaken =>
      w.(stream := w.stream + [Draft(w.Newest(), w.history[w.Newest()], Snapshot)])
    case EventDelivered => Moved(w.(stream := w.stream[1..]), Receive(w.client, w.stream[0]))
    case EventLost(i) =>
      w.(stream := w.stream[..i] + w.stream[i + 1..], lost := w.lost + {w.stream[i].rev})
    case CounterReset(h) =>
      var w1 := World(w.client, h, [], if w.wire.Quiet? then Quiet else Orphaned(w.wire.text), {});
      Moved(w1, Receive(w.client, Draft(|h| - 1, h[|h| - 1], Snapshot)))
  }

  // ------------------------------------------------------------------ what every run keeps

  predicate Records(history: seq<string>, rev: nat, text: string) {
    rev < |history| && history[rev] == text
  }

  /** Everything the composer knows about the server is true of the current counter. */
  predicate ClientKnows(c: Client, history: seq<string>) {
    && Clean(c.text)
    && Records(history, c.serverRev, c.serverText)
    && (c.saved.Some? ==> Records(history, c.saved.value.rev, c.saved.value.text))
    && (c.held.Some? ==> Records(history, c.held.value.rev, c.held.value.text))
    && (c.sending.Some? ==> Clean(c.sending.value.text) && c.sending.value.rebase <= c.rebases)
    && (c.timer ==> c.scheduled > 0)
  }

  /** Events still travelling are true, in order, and not older than what the composer has seen on the stream. */
  predicate StreamTrue(w: World) {
    && (forall e <- w.stream :: Records(w.history, e.rev, e.text) && e.rev >= w.client.serverRev)
    && (forall i, j :: 0 <= i < j < |w.stream| ==> w.stream[i].rev <= w.stream[j].rev)
  }

  predicate WireTrue(w: World) {
    match w.wire
    case Quiet => w.client.sending.None?
    case Requested(t) => w.client.sending == Some(Sending(t, w.client.rebases))
    case Committed(t, rev) =>
      && w.client.sending == Some(Sending(t, w.client.rebases))
      && Records(w.history, rev, t)
      && (w.client.saved.Some? ==> w.client.saved.value.rev <= rev)
      && (w.client.serverRev <= rev || w.client.HeldIsNewest())
    case Orphaned(t) =>
      && w.client.sending.Some?
      && w.client.sending.value.text == t
      && w.client.sending.value.rebase < w.client.rebases
      && w.client.saved.None?
  }

  predicate Travels(stream: seq<Draft>, rev: nat) {
    exists e <- stream :: e.rev == rev
  }

  /** Every revision newer than the composer knows is travelling or lost. */
  predicate NothingForgotten(w: World)
    requires |w.history| > 0
  {
    forall r: nat | w.client.LatestSaved().rev < r <= w.Newest() :: r in w.lost || Travels(w.stream, r)
  }

  predicate Sound(w: World) {
    && |w.history| > 0
    && (forall t <- w.history :: Clean(t))
    && ClientKnows(w.client, w.history)
    && StreamTrue(w)
    && WireTrue(w)
    && NothingForgotten(w)
  }

  /** The composer shows the newest revision it knows, or holds it until the composition ends. */
  predicate Converging(w: World) {
    && (!w.client.Dirty() ==>
          || w.client.text == w.client.LatestSaved().text
          || (w.client.composing && w.client.HeldIsNewest()))
    && (w.wire.Orphaned? ==>
          || w.client.retryNeeded
          || w.client.HeldIsNewest()
          || w.wire.text == w.client.serverText)
  }

  /** A text the composer considers saved, or is about to, has been a server revision. */
  predicate Kept(w: World) {
    && (!w.client.Dirty() ==> w.client.text in w.history)
    && (w.wire.Orphaned? ==> w.wire.text in w.history)
  }
}

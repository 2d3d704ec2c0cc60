/** The promises of the draft protocol over whole runs, from any opening state. */
module DraftTheorems {
  import opened DraftText
  import opened DraftClient
  import opened DraftWorld
  import opened DraftRuns
  import opened Wrappers

  predicate Run(w: World, acts: seq<Action>)
    decreases |acts|
  {
    acts == [] || (Wired(w) && Enabled(w, acts[0]) && Run(Next(w, acts[0]), acts[1..]))
  }

  function After(w: World, acts: seq<Action>): World
    requires Run(w, acts)
    decreases |acts|
  {
    if acts == [] then w else After(Next(w, acts[0]), acts[1..])
  }

  /** Every counter reset of the run meets `ok` in the state it happens in. */
  predicate Resets(w: World, acts: seq<Action>, ok: (World, seq<string>) -> bool)
    requires Run(w, acts)
    decreases |acts|
  {
    acts == [] || ((acts[0].CounterReset? ==> ok(w, acts[0].history)) && Resets(Next(w, acts[0]), acts[1..], ok))
  }

  const ToleratesStranding := (w: World, h: seq<string>) => |h| > 0 && !Strands(w, h)
  const ToleratesForgetting := (w: World, h: seq<string>) => !Forgets(w, h)

  lemma OpeningIsGood(w: World)
    requires Opening(w)
    ensures Sound(w) && Converging(w) && Kept(w)
  {
  }

  lemma {:induction false} RunsAreSound(w: World, acts: seq<Action>)
    requires Sound(w) && Run(w, acts)
    ensures Sound(After(w, acts))
    decreases |acts|
  {
    if acts != [] {
      SoundStep(w, acts[0]);
      RunsAreSound(Next(w, acts[0]), acts[1..]);
    }
  }

  lemma {:induction false} RunsConverge(w: World, acts: seq<Action>)
    requires Sound(w) && Converging(w) && Run(w, acts) && Resets(w, acts, ToleratesStranding)
    ensures Sound(After(w, acts)) && Converging(After(w, acts))
    decreases |acts|
  {
    if acts != [] {
      SoundStep(w, acts[0]);
      ConvergingStep(w, acts[0]);
      RunsConverge(Next(w, acts[0]), acts[1..]);
    }
  }

  lemma RunsPrepend(w: World, a: Action, acts: seq<Action>)
    requires Wired(w) && Enabled(w, a) && Run(Next(w, a), acts)
    ensures Run(w, [a] + acts) && After(w, [a] + acts) == After(Next(w, a), acts)
  {
    assert ([a] + acts)[1..] == acts;
  }

  lemma OneThenMore(w: World, a: Action, rest: seq<Action>, more: seq<Action>)
    requires Wired(w) && Enabled(w, a) && Run(Next(w, a), rest + more)
    ensures Run(w, [a] + rest + more) && After(w, [a] + rest + more) == After(Next(w, a), rest + more)
  {
    RunsPrepend(w, a, rest + more);
    assert [a] + (rest + more) == [a] + rest + more;
  }

  lemma {:induction false} RunsConcatenate(w: World, first: seq<Action>, second: seq<Action>)
    requires Run(w, first) && Run(After(w, first), second)
    ensures Run(w, first + second) && After(w, first + second) == After(After(w, first), second)
    decreases |first|
  {
    if first == [] {
      assert first + second == second;
    } else {
      var a, rest := first[0], first[1..];
      assert first == [a] + rest;
      var w1 := Next(w, a);
      assert Run(w1, rest) && After(w1, rest) == After(w, first);
      RunsConcatenate(w1, rest, second);
      OneThenMore(w, a, rest, second);
    }
  }

  // ------------------------------------------------------------------ convergence

  function Max(a: nat, b: nat): nat {
    if a >= b then a else b
  }

  /** What one step tells the composer of: the revision a reply, an event or the snapshot of a reset names. */
  function ToldBy(w: World, a: Action, known: nat): nat
    requires Wired(w) && Enabled(w, a)
  {
    match a
    case WriteReplies => Max(known, w.wire.rev)
    case EventDelivered => Max(known, w.stream[0].rev)
    case CounterReset(h) => |h| - 1
    case _ => known
  }

  /** The newest revision of the current counter that a run's replies, events and resets name. */
  function Told(w: World, acts: seq<Action>, known: nat): nat
    requires Run(w, acts)
    decreases |acts|
  {
    if acts == [] then known else Told(Next(w, acts[0]), acts[1..], ToldBy(w, acts[0], known))
  }

  /** The revisions that the replies of a run name, since its last counter reset. */
  function Replied(w: World, acts: seq<Action>, before: set<nat>): set<nat>
    requires Run(w, acts)
    decreases |acts|
  {
    if acts == [] then before
    else
      var now := match acts[0]
        case WriteReplies => before + {w.wire.rev}
        case CounterReset(_) => {}
        case _ => before;
      Replied(Next(w, acts[0]), acts[1..], now)
  }

  lemma StepTells(w: World, a: Action)
    requires Sound(w) && Enabled(w, a)
    ensures Next(w, a).client.LatestSaved().rev == ToldBy(w, a, w.client.LatestSaved().rev)
  {
    match a
    case Composer(input) => ReactIsLocal(w.client, input);
    case EventDelivered => ReceiveCases(w.client, w.stream[0]);
    case CounterReset(h) => ResetTells(w, h);
    case _ =>
  }

  lemma ResetTells(w: World, h: seq<string>)
    requires Sound(w) && Enabled(w, CounterReset(h))
    ensures Next(w, CounterReset(h)).client.LatestSaved().rev == |h| - 1
  {
  }

  /** What the composer knows is exactly what it was told: nothing told is forgotten, and nothing else is made up. */
  lemma {:induction false} KnowsWhatItWasTold(w: World, acts: seq<Action>)
    requires Sound(w) && Run(w, acts)
    ensures Sound(After(w, acts)) && After(w, acts).client.LatestSaved().rev == Told(w, acts, w.client.LatestSaved().rev)
    decreases |acts|
  {
    if acts != [] {
      SoundStep(w, acts[0]);
      StepTells(w, acts[0]);
      KnowsWhatItWasTold(Next(w, acts[0]), acts[1..]);
    }
  }

  lemma {:induction false} RepliesTell(w: World, acts: seq<Action>, known: nat, before: set<nat>)
    requires Run(w, acts) && forall r <- before :: r <= known
    ensures forall r <- Replied(w, acts, before) :: r <= Told(w, acts, known)
    decreases |acts|
  {
    if acts != [] {
      var now := match acts[0]
        case WriteReplies => before + {w.wire.rev}
        case CounterReset(_) => {}
        case _ => before;
      RepliesTell(Next(w, acts[0]), acts[1..], ToldBy(w, acts[0], known), now);
    }
  }

  /**
   * Over any run the composer knows the newest revision exactly if a reply, an event or a reset named it. Once the stream is
   * drained that is so unless an event of it was lost and no reply named it.
   */
  lemma KnowsNewest(w: World, acts: seq<Action>)
    requires Opening(w) && Run(w, acts)
    ensures var end, told := After(w, acts), Told(w, acts, w.client.LatestSaved().rev);
      && |end.history| > 0
      && (end.client.LatestSaved().rev == end.Newest() <==> told == end.Newest())
      && (told == end.Newest() ==> end.client.LatestSaved().text == end.history[end.Newest()])
      && (end.stream == [] && (end.Newest() in end.lost ==> end.Newest() in Replied(w, acts, {})) ==> told == end.Newest())
  {
    OpeningIsGood(w);
    KnowsWhatItWasTold(w, acts);
    RepliesTell(w, acts, w.client.LatestSaved().rev, {});
    var end := After(w, acts);
    assert end.client.LatestSaved().rev < end.Newest() ==> end.Newest() in end.lost || Travels(end.stream, end.Newest());
  }

  /**
   * In every reachable state with no composition open and nothing dirty, the composer shows exactly the newest revision that
   * replies, events and resets named.
   */
  lemma Convergence(w: World, acts: seq<Action>)
    requires Opening(w) && Run(w, acts) && Resets(w, acts, ToleratesStranding)
    ensures var end, told := After(w, acts), Told(w, acts, w.client.LatestSaved().rev);
      && |end.history| > 0
      && (end.client.Quiescent() ==>
            && Records(end.history, told, end.client.text)
            && (told == end.Newest() ==> end.client.text == end.history[end.Newest()]))
  {
    OpeningIsGood(w);
    RunsConverge(w, acts);
    KnowsWhatItWasTold(w, acts);
  }

  /**
   * In runs whose resets strand nothing, a quiescent composer shows the server's draft once the stream is drained, if every
   * revision of which an event was lost is named by a reply: losing only own echoes does no harm as long as their replies
   * arrive.
   */
  lemma AnsweredLossesDoNoHarm(w: World, acts: seq<Action>)
    requires Opening(w) && Run(w, acts) && Resets(w, acts, ToleratesStranding)
    requires After(w, acts).lost <= Replied(w, acts, {})
    requires After(w, acts).stream == [] && After(w, acts).client.Quiescent()
    ensures var end := After(w, acts); |end.history| > 0 && end.client.text == end.history[end.Newest()]
  {
    KnowsNewest(w, acts);
    Convergence(w, acts);
  }

  /** The composer just after the write of its text failed. */
  function Unanswered(c: Client, scheduled: nat): Client {
    c.(timer := false, scheduled := scheduled, retryNeeded := true, writes := c.writes + [c.text])
  }

  function Echo(w: World): Draft {
    Draft(|w.history|, w.client.text, Own)
  }

  /** A write of the text on show commits, but its reply is lost. */
  lemma UnansweredWrite(w: World, start: Input) returns (acts: seq<Action>)
    requires Wired(w) && w.wire == Quiet && w.lost == {} && Clean(w.client.text)
    requires w.client.held.None? && !w.client.composing && w.client.text != w.history[w.Newest()]
    requires (start.RetryCalled? && w.client.retryNeeded) || (start.TimerFired? && w.client.scheduled > 0)
    ensures Run(w, acts) && NoFurtherReset(acts)
    ensures After(w, acts) ==
      World(Unanswered(w.client, if start.TimerFired? then w.client.scheduled - 1 else w.client.scheduled),
            w.history + [w.client.text], w.stream + [Echo(w)], Quiet, {})
  {
    NormalizeFixesClean(w.client.text);
    var a0 := Composer(start);
    var w1 := Next(w, a0);
    assert w1.wire == Requested(w.client.text);
    var w2 := Next(w1, WriteCommits);
    assert w2 == World(w1.client, w.history + [w.client.text], w.stream + [Echo(w)],
                       Committed(w.client.text, |w.history|), {});
    RunsPrepend(w2, WriteFails, []);
    RunsPrepend(w1, WriteCommits, [WriteFails] + []);
    RunsPrepend(w, a0, [WriteCommits] + ([WriteFails] + []));
    acts := [a0] + ([WriteCommits] + ([WriteFails] + []));
  }

  /** A composer that shows "m", heard nothing, and is due to write again. */
  predicate Unheard(c: Client) {
    && c.text == "m" && c.retryNeeded && !c.timer && c.sending.None?
    && c.held.None? && !c.composing && c.serverRev == 0 && c.saved.None?
  }

  /** This tab's "m" is saved and its event is on the way; the reply was lost. */
  predicate OnceUnanswered(w: World) {
    && w.history == ["", "m"] && w.lost == {} && w.wire == Quiet && w.stream == [Draft(1, "m", Own)] && Unheard(w.client)
  }

  /** Three events: this tab's "m", another writer's "z", and this tab's "m" again. Both of this tab's replies were lost. */
  predicate TwiceUnanswered(w: World) {
    && w.history == ["", "m", "z", "m"] && w.lost == {} && w.wire == Quiet
    && w.stream == [Draft(1, "m", Own), Draft(2, "z", Foreign), Draft(3, "m", Own)]
    && Unheard(w.client)
  }

  lemma OneUnansweredWrite(w: World) returns (acts: seq<Action>)
    requires w == World(Opened(0, ""), [""], [], Quiet, {})
    ensures Run(w, acts) && NoFurtherReset(acts) && OnceUnanswered(After(w, acts))
  {
    assert Clean("m");
    NormalizeFixesClean("m");
    var a0 := Composer(Edits("m"));
    var w1 := Next(w, a0);
    var first := UnansweredWrite(w1, TimerFired);
    RunsPrepend(w, a0, first);
    acts := [a0] + first;
  }

  lemma AnotherUnansweredWrite(w: World) returns (acts: seq<Action>)
    requires OnceUnanswered(w)
    ensures Run(w, acts) && NoFurtherReset(acts) && TwiceUnanswered(After(w, acts))
  {
    assert Clean("z") && Clean("m");
    NormalizeFixesClean("z");
    var a0 := ServerWrites("z", Foreign);
    var w1 := Next(w, a0);
    assert w1 == w.(history := ["", "m", "z"], stream := [Draft(1, "m", Own), Draft(2, "z", Foreign)]);
    var second := UnansweredWrite(w1, RetryCalled);
    RunsPrepend(w, a0, second);
    acts := [a0] + second;
  }

  lemma TwoUnansweredWrites(w: World) returns (acts: seq<Action>)
    requires w == World(Opened(0, ""), [""], [], Quiet, {})
    ensures Run(w, acts) && NoFurtherReset(acts) && TwiceUnanswered(After(w, acts))
  {
    var first := OneUnansweredWrite(w);
    var second := AnotherUnansweredWrite(After(w, first));
    RunsConcatenate(w, first, second);
    acts := first + second;
  }

  /** The older "m" clears the retry, "z" is shown, and the newer "m" is lost. */
  lemma OlderEchoSettles(w: World) returns (acts: seq<Action>)
    requires TwiceUnanswered(w)
    ensures Run(w, acts) && NoFurtherReset(acts)
    ensures var end := After(w, acts);
      && end.client.Quiescent() && end.stream == [] && end.lost == {3} && end.history == w.history
      && end.client.text == "z"
  {
    var w1 := Next(w, EventDelivered);
    assert w1.client == w.client.(serverRev := 1, serverText := "m", retryNeeded := false);
    assert w1.stream == [Draft(2, "z", Foreign), Draft(3, "m", Own)];
    var w2 := Next(w1, EventDelivered);
    assert w2.client.text == "z" && w2.client.Quiescent() && w2.client.LatestSaved().rev == 2;
    assert w2.stream == [Draft(3, "m", Own)];
    RunsPrepend(w2, EventLost(0), []);
    RunsPrepend(w1, EventDelivered, [EventLost(0)] + []);
    RunsPrepend(w, EventDelivered, [EventDelivered] + ([EventLost(0)] + []));
    acts := [EventDelivered] + ([EventDelivered] + ([EventLost(0)] + []));
  }

  /**
   * Losing only an own echo is not always harmless: when the reply of that write was lost as well, the composer can settle
   * on the other writer's text although the server's draft is its own.
   */
  lemma LostEchoCanDiverge() returns (w: World, acts: seq<Action>)
    ensures Opening(w) && Run(w, acts) && NoFurtherReset(acts)
    ensures var end := After(w, acts);
      && |end.history| > 0
      && end.client.Quiescent() && end.stream == [] && end.lost == {3}
      && end.client.text == "z" && end.history[end.Newest()] == "m"
    ensures 3 !in Replied(w, acts, {})
  {
    w := World(Opened(0, ""), [""], [], Quiet, {});
    var first := TwoUnansweredWrites(w);
    var second := OlderEchoSettles(After(w, first));
    RunsConcatenate(w, first, second);
    acts := first + second;
    if 3 in Replied(w, acts, {}) {
      WithoutResetsAnythingIsTolerated(w, acts, ToleratesStranding);
      AnsweredLossesDoNoHarm(w, acts);
    }
  }

  /** Settled: no write, no debounce callback, no waiting `flush`, nothing held, and yet not the newest revision known. */
  predicate Stranded(w: World) {
    && w.client.Quiescent()
    && w.client.scheduled == 0 && w.client.waiters == 0
    && w.client.held.None?
    && w.client.text != w.client.LatestSaved().text
  }

  /** What the user does, a `flush` being one of their submits, and what the server and its stream do. */
  predicate FromOutside(a: Action) {
    match a
    case Composer(input) => input.Edits? || input.StartsComposing? || input.EndsComposing? || input.FlushCalled?
    case ServerWrites(_, _) => true
    case SnapshotTaken => true
    case EventDelivered => true
    case EventLost(_) => true
    case CounterReset(_) => true
    case _ => false
  }

  /** A stranded composer never moves by itself. */
  lemma StrandedStays(w: World, a: Action)
    requires Sound(w) && Stranded(w) && Enabled(w, a) && !FromOutside(a)
    ensures Next(w, a) == w
  {
  }

  predicate NoFurtherReset(acts: seq<Action>) {
    forall a <- acts :: !a.CounterReset?
  }

  /** After this counter reset alone, some run ends stranded. */
  ghost predicate CanStrand(w: World, h: seq<string>)
    requires Wired(w) && Enabled(w, CounterReset(h))
  {
    exists acts: seq<Action> ::
      NoFurtherReset(acts) && Run(Next(w, CounterReset(h)), acts) && Stranded(After(Next(w, CounterReset(h)), acts))
  }

  lemma {:induction false} WithoutResetsAnythingIsTolerated(w: World, acts: seq<Action>, ok: (World, seq<string>) -> bool)
    requires Run(w, acts) && NoFurtherReset(acts)
    ensures Resets(w, acts, ok)
    decreases |acts|
  {
    if acts != [] {
      assert acts[0] in acts;
      WithoutResetsAnythingIsTolerated(Next(w, acts[0]), acts[1..], ok);
    }
  }

  /** While a composition is open, every waiting `flush` resumes and gives up. */
  lemma {:induction false} WaitersGiveUp(w: World) returns (acts: seq<Action>)
    requires Sound(w) && w.client.composing && w.client.sending.None?
    ensures Run(w, acts) && NoFurtherReset(acts)
    ensures After(w, acts) == w.(client := w.client.(waiters := 0))
    decreases w.client.waiters
  {
    if w.client.waiters == 0 {
      acts := [];
    } else {
      var a := Composer(FlushResumed);
      SoundStep(w, a);
      assert Next(w, a) == w.(client := w.client.(waiters := w.client.waiters - 1));
      var rest := WaitersGiveUp(Next(w, a));
      acts := [a] + rest;
      assert acts[1..] == rest;
    }
  }

  /** While a write is in flight and no composition open, every debounce callback left behind fires to no effect. */
  lemma {:induction false} CallbacksRunOut(w: World) returns (acts: seq<Action>)
    requires Sound(w) && w.client.sending.Some? && !w.client.composing && !w.client.timer
    ensures Run(w, acts) && NoFurtherReset(acts)
    ensures After(w, acts) == w.(client := w.client.(scheduled := 0))
    decreases w.client.scheduled
  {
    if w.client.scheduled == 0 {
      acts := [];
    } else {
      var a := Composer(TimerFired);
      SoundStep(w, a);
      assert Next(w, a) == w.(client := w.client.(scheduled := w.client.scheduled - 1));
      var rest := CallbacksRunOut(Next(w, a));
      RunsPrepend(w, a, rest);
      acts := [a] + rest;
    }
  }

  /** An orphaned write whose text is on show again, unsaved, and with no debounce pending or left behind. */
  predicate RetypedOrphan(w: World) {
    && Sound(w) && w.wire.Orphaned?
    && w.client.text == w.wire.text != w.client.serverText
    && !w.client.timer && w.client.scheduled == 0 && !w.client.retryNeeded && w.client.held.None?
  }

  /** The orphaned text is typed again and its debounce fires while the old write is still in flight. */
  lemma Retype(w: World) returns (acts: seq<Action>)
    requires Sound(w) && w.wire.Orphaned? && !w.client.retryNeeded && w.client.held.None?
    requires w.client.text == w.client.serverText != w.wire.text
    ensures Run(w, acts) && NoFurtherReset(acts) && RetypedOrphan(After(w, acts))
  {
    var a0 := Composer(EndsComposing(w.wire.text));
    var a1 := Composer(TimerFired);
    var w1 := Next(w, a0);
    NormalizeFixesClean(w.wire.text);
    SoundStep(w, a0);
    var w2 := Next(w1, a1);
    SoundStep(w1, a1);
    var rest := CallbacksRunOut(w2);
    RunsAreSound(w2, rest);
    RunsPrepend(w1, a1, rest);
    RunsPrepend(w, a0, [a1] + rest);
    acts := [a0] + ([a1] + rest);
  }

  /** A composition is open while the old reply arrives, so no waiting `flush` acts, and closes without a change. */
  lemma ComposeAcrossReply(w: World) returns (acts: seq<Action>)
    requires RetypedOrphan(w)
    ensures Run(w, acts) && NoFurtherReset(acts) && Stranded(After(w, acts))
  {
    var a2 := Composer(StartsComposing);
    var w3 := Next(w, a2);
    SoundStep(w, a2);
    var a3 := WriteFails;
    var w4 := Next(w3, a3);
    SoundStep(w3, a3);
    var quiet := WaitersGiveUp(w4);
    var w5 := After(w4, quiet);
    RunsAreSound(w4, quiet);
    var a5 := Composer(EndsComposing(w.client.text));
    RunsPrepend(w5, a5, []);
    RunsConcatenate(w4, quiet, [a5] + []);
    var tail := quiet + ([a5] + []);
    RunsPrepend(w3, a3, tail);
    RunsPrepend(w, a2, [a3] + tail);
    acts := [a2] + ([a3] + tail);
  }

  lemma RetypeAcrossReply(w: World) returns (acts: seq<Action>)
    requires Sound(w) && w.wire.Orphaned? && !w.client.retryNeeded && w.client.held.None?
    requires w.client.text == w.client.serverText != w.wire.text
    ensures Run(w, acts) && NoFurtherReset(acts) && Stranded(After(w, acts))
  {
    var first := Retype(w);
    var second := ComposeAcrossReply(After(w, first));
    RunsConcatenate(w, first, second);
    acts := first + second;
  }

  /**
   * A counter reset can strand the composer exactly when it finds the snapshot's text on show and a write of another text in
   * flight.
   */
  lemma StrandingIsExact(w: World, h: seq<string>)
    requires Sound(w) && Enabled(w, CounterReset(h))
    ensures CanStrand(w, h) <==> Strands(w, h)
  {
    var w1 := Next(w, CounterReset(h));
    SoundStep(w, CounterReset(h));
    if Strands(w, h) {
      var acts := RetypeAcrossReply(w1);
    } else {
      ResettingConverges(w, h);
      forall acts | NoFurtherReset(acts) && Run(w1, acts)
        ensures !Stranded(After(w1, acts))
      {
        WithoutResetsAnythingIsTolerated(w1, acts, ToleratesStranding);
        RunsConverge(w1, acts);
      }
    }
  }

  // ------------------------------------------------------------------ local text is never lost

  lemma {:induction false} RunsKeep(w: World, acts: seq<Action>)
    requires Sound(w) && Kept(w) && Run(w, acts) && Resets(w, acts, ToleratesForgetting)
    ensures Sound(After(w, acts)) && Kept(After(w, acts))
    decreases |acts|
  {
    if acts != [] {
      SoundStep(w, acts[0]);
      KeptStep(w, acts[0]);
      RunsKeep(Next(w, acts[0]), acts[1..]);
    }
  }

  /**
   * In runs whose resets forget nothing, whatever step `a` comes next, remote text overwrites only a text the server has held,
   * and never one being composed.
   */
  lemma OnlySavedTextIsOverwritten(w: World, acts: seq<Action>, a: Action)
    requires Opening(w) && Run(w, acts) && Resets(w, acts, ToleratesForgetting)
    requires Enabled(After(w, acts), a) && (a.CounterReset? ==> !Forgets(After(w, acts), a.history))
    ensures var end := After(w, acts);
      Wired(end) && OverwritesOnlySaved(end.client, Next(end, a).client, Next(end, a).history)
  {
    OpeningIsGood(w);
    RunsKeep(w, acts);
    KeptStep(After(w, acts), a);
  }

  /** What the composer shows after a step: this text, unless a remote one overwrote it. */
  predicate Shows(c: Client, c': Client, text: string) {
    Overwrote(c, c') || c'.text == text
  }

  lemma FlushShows(c: Client)
    requires c.timer ==> c.scheduled > 0
    ensures Shows(c, Flush(c), c.text)
  {
  }

  lemma EndingShows(c: Client, raw: string)
    requires c.timer ==> c.scheduled > 0
    ensures Shows(c, CompositionEnd(c, raw), if raw == c.text then c.text else Normalize(raw))
  {
    var c1 := c.(composing := false);
    var c2 := if raw != c1.text then Edit(c1, raw) else c1;
    if c2.retryNeeded {
      FlushShows(c2);
    }
  }

  lemma InputShows(c: Client, input: Input)
    requires Ready(c, input)
    ensures Shows(c, React(c, input),
                  match input
                  case Edits(t) => Normalize(t)
                  case EndsComposing(t) => if t == c.text then c.text else Normalize(t)
                  case _ => c.text)
  {
    match input
    case EndsComposing(t) => EndingShows(c, t);
    case FlushCalled => FlushShows(c);
    case FlushResumed => FlushShows(c.(waiters := c.waiters - 1));
    case _ =>
  }

  lemma SettlingShows(c: Client, reply: Option<nat>)
    requires c.sending.Some?
    ensures Shows(c, WriteSettles(c, reply), c.text)
  {
  }

  lemma ResetShows(c: Client, d: Draft)
    requires c.timer ==> c.scheduled > 0
    ensures Shows(c, Reset(c, d), c.text)
  {
  }

  /** The composer's text changes only as typed, or by an overwrite that the log records. */
  lemma TextIsTypedOrOverwritten(w: World, a: Action)
    requires Sound(w) && Enabled(w, a)
    ensures var c, c' := w.client, Next(w, a).client;
      Overwrote(c, c') || c'.text ==
        match a
        case Composer(Edits(t)) => Normalize(t)
        case Composer(EndsComposing(t)) => if t == c.text then c.text else Normalize(t)
        case _ => c.text
  {
    match a
    case Composer(input) => InputShows(w.client, input);
    case WriteReplies => SettlingShows(w.client, Some(w.wire.rev));
    case WriteFails => SettlingShows(w.client, None);
    case OrphanReplies(rev) => SettlingShows(w.client, Some(rev));
    case EventDelivered => ReceiveCases(w.client, w.stream[0]);
    case CounterReset(h) => ResetShows(w.client, Draft(|h| - 1, h[|h| - 1], Snapshot));
    case _ =>
  }

  /** After this counter reset alone, some run overwrites a text the new counter has never held. */
  ghost predicate CanOverwriteUnsaved(w: World, h: seq<string>)
    requires Wired(w) && Enabled(w, CounterReset(h))
  {
    exists acts: seq<Action>, a: Action :: OverwritingRun(Next(w, CounterReset(h)), acts, a)
  }

  predicate OverwritingRun(w: World, acts: seq<Action>, a: Action) {
    && NoFurtherReset(acts) && !a.CounterReset?
    && Run(w, acts)
    && OverwritesUnsaved(After(w, acts), a)
  }

  predicate OverwritesUnsaved(w: World, a: Action) {
    && Wired(w) && Enabled(w, a)
    && !OverwritesOnlySaved(w.client, Next(w, a).client, Next(w, a).history)
  }

  /** An orphaned write whose text is on show again while a newer remote text is held: its reply will overwrite it. */
  predicate OrphanUnderHeld(w: World) {
    && Sound(w) && w.wire.Orphaned? && w.wire.text !in w.history
    && w.client.text == w.wire.text && !w.client.timer && !w.client.retryNeeded && !w.client.composing
    && w.client.HeldIsNewest() && w.client.held.value.text != w.client.text
  }

  lemma ReplyOverwritesOrphan(w: World)
    requires OrphanUnderHeld(w)
    ensures OverwritesUnsaved(w, WriteFails)
  {
    var c := w.client;
    var c2 := c.(sending := None);
    assert WriteSettles(c, None) == ReleaseHeld(c2);
    assert ReleaseHeld(c2).replaced == c.replaced + [c.text];
  }

  lemma NewsIsHeld(c: Client, d: Draft)
    requires c.timer ==> c.scheduled > 0
    requires c.sending.Some? && c.saved.None? && d.rev > c.serverRev
    ensures var c1 := Receive(c, d);
      && c1.HeldIsNewest() && c1.held == Some(d)
      && (d.origin == Own && d.text == c.text ==> !c1.retryNeeded)
      && (!c.retryNeeded ==> !c1.retryNeeded)
  {
  }

  lemma ServerSpeaks(w: World, text: string, origin: Origin)
    requires Sound(w) && w.stream == [] && origin != Snapshot && Clean(text) && text != w.history[w.Newest()]
    ensures var a := ServerWrites(text, origin);
      && Enabled(w, a) && Sound(Next(w, a))
      && Next(w, a) == w.(history := w.history + [text], stream := [Draft(|w.history|, text, origin)])
  {
    NormalizeFixesClean(text);
    SoundStep(w, ServerWrites(text, origin));
  }

  lemma HearsNews(w: World, d: Draft)
    requires Sound(w) && w.wire.Orphaned? && w.stream == [d] && d.rev > w.client.serverRev && d.origin != Snapshot
    ensures Enabled(w, EventDelivered) && Sound(Next(w, EventDelivered))
    ensures var end := Next(w, EventDelivered);
      && end.wire == w.wire && end.stream == [] && end.history == w.history
      && end.client.HeldIsNewest() && end.client.held == Some(d)
      && (d.origin == Own && d.text == w.client.text ==> !end.client.retryNeeded)
      && (!w.client.retryNeeded ==> !end.client.retryNeeded)
  {
    SoundStep(w, EventDelivered);
    ReceiveCases(w.client, d);
    NewsIsHeld(w.client, d);
    assert Next(w, EventDelivered).client == Receive(w.client, d);
  }

  /** While the old write is in flight, a newer server text arrives and is held. */
  lemma HearWhileBusy(w: World, text: string, origin: Origin) returns (acts: seq<Action>)
    requires Sound(w) && w.wire.Orphaned? && w.stream == [] && origin != Snapshot
    requires Clean(text) && text != w.history[w.Newest()]
    ensures Run(w, acts) && NoFurtherReset(acts)
    ensures var end := After(w, acts);
      && Sound(end) && end.wire == w.wire && end.stream == [] && end.history == w.history + [text]
      && end.client.HeldIsNewest() && end.client.held.value.text == text
      && (origin == Own && text == w.client.text ==> !end.client.retryNeeded)
      && (!w.client.retryNeeded ==> !end.client.retryNeeded)
  {
    var a0, a1 := ServerWrites(text, origin), EventDelivered;
    ServerSpeaks(w, text, origin);
    var w1 := Next(w, a0);
    HearsNews(w1, Draft(|w.history|, text, origin));
    RunsPrepend(w1, a1, []);
    RunsPrepend(w, a0, [a1] + []);
    acts := [a0] + ([a1] + []);
  }

  /** This tab's own event confirms a typed text `x`, so no retry is due; then another writer's `y` is held. */
  lemma HoldAnother(w: World, x: string, y: string) returns (acts: seq<Action>)
    requires Sound(w) && w.wire.Orphaned? && w.stream == []
    requires Clean(x) && Clean(y) && x != y && x != w.history[w.Newest()]
    ensures Run(w, acts) && NoFurtherReset(acts)
    ensures var end := After(w, acts);
      && Sound(end) && end.wire == w.wire && end.history == w.history + [x, y]
      && end.client.HeldIsNewest() && !end.client.retryNeeded && end.client.held.value.text == y
  {
    NormalizeFixesClean(x);
    var a0 := Composer(Edits(x));
    var w1 := Next(w, a0);
    SoundStep(w, a0);
    var confirm := HearWhileBusy(w1, x, Own);
    var w2 := After(w1, confirm);
    var hold := HearWhileBusy(w2, y, Foreign);
    assert After(w2, hold).history == w.history + [x, y];
    RunsConcatenate(w1, confirm, hold);
    RunsPrepend(w, a0, confirm + hold);
    acts := [a0] + (confirm + hold);
  }

  /** The orphaned text is typed again over the held one, its debounce firing while the old write is in flight. */
  lemma RetypeUnderHeld(w: World) returns (acts: seq<Action>)
    requires Sound(w) && w.wire.Orphaned? && w.wire.text !in w.history
    requires w.client.HeldIsNewest() && !w.client.retryNeeded
    ensures Run(w, acts) && NoFurtherReset(acts) && OrphanUnderHeld(After(w, acts))
  {
    var t := w.wire.text;
    NormalizeFixesClean(t);
    var a0, a1, a2 := Composer(Edits(t)), Composer(EndsComposing(t)), Composer(TimerFired);
    var w1 := Next(w, a0);
    SoundStep(w, a0);
    assert w1.client.text == t && w1.client.timer;
    var w2 := Next(w1, a1);
    SoundStep(w1, a1);
    assert w2.client == w1.client.(composing := false);
    var w3 := Next(w2, a2);
    SoundStep(w2, a2);
    RunsPrepend(w2, a2, []);
    RunsPrepend(w1, a1, [a2] + []);
    RunsPrepend(w, a0, [a1] + ([a2] + []));
    acts := [a0] + ([a1] + ([a2] + []));
  }

  lemma FreshTexts(a: string, b: string) returns (x: string, y: string)
    requires Clean(a) && Clean(b)
    ensures Clean(x) && Clean(y) && x != y && x != a && x != b && y != b
  {
    x := a + b + "x";
    y := x + "y";
  }

  lemma ForgettingOverwrites(w: World) returns (acts: seq<Action>)
    requires Sound(w) && w.wire.Orphaned? && w.stream == [] && w.wire.text !in w.history
    ensures OverwritingRun(w, acts, WriteFails)
  {
    assert w.history[w.Newest()] in w.history;
    var x, y := FreshTexts(w.history[w.Newest()], w.wire.text);
    var first := HoldAnother(w, x, y);
    var held := After(w, first);
    assert held.wire.text !in held.history;
    var second := RetypeUnderHeld(held);
    RunsConcatenate(w, first, second);
    ReplyOverwritesOrphan(After(held, second));
    acts := first + second;
  }

  lemma RememberingProtects(w: World, acts: seq<Action>, a: Action)
    requires Sound(w) && Kept(w)
    ensures !OverwritingRun(w, acts, a)
  {
    if NoFurtherReset(acts) && !a.CounterReset? && Run(w, acts) {
      WithoutResetsAnythingIsTolerated(w, acts, ToleratesForgetting);
      RunsKeep(w, acts);
      if Enabled(After(w, acts), a) {
        KeptStep(After(w, acts), a);
      }
    }
  }

  /** A counter reset can cost unsaved text exactly when it finds an in-flight text the new counter has never held. */
  lemma ForgettingIsExact(w: World, h: seq<string>)
    requires Sound(w) && Enabled(w, CounterReset(h))
    ensures CanOverwriteUnsaved(w, h) <==> Forgets(w, h)
  {
    var w1 := Next(w, CounterReset(h));
    SoundStep(w, CounterReset(h));
    if Forgets(w, h) {
      var acts := ForgettingOverwrites(w1);
    } else {
      assert Kept(w1);
      forall acts, a
        ensures !OverwritingRun(w1, acts, a)
      {
        RememberingProtects(w1, acts, a);
      }
    }
  }

  // ------------------------------------------------------------------ one write at a time

  predicate SettlesWrite(a: Action) {
    a.WriteReplies? || a.WriteFails? || a.OrphanReplies?
  }

  /** Writes start one at a time, never while composing, always with the text on show. */
  lemma WritesStartInTurn(w: World, a: Action)
    requires Sound(w) && Enabled(w, a)
    ensures var c, c' := w.client, Next(w, a).client;
      if SettlesWrite(a) then
        c.sending.Some? && ((c'.writes == c.writes && c'.sending.None?) || StartsWrite(c.(sending := None), c'))
      else
        (c'.writes == c.writes && c'.sending == c.sending) || StartsWrite(c, c')
  {
    match a
    case Composer(input) => ReactIsLocal(w.client, input);
    case EventDelivered => ReceiveCases(w.client, w.stream[0]);
    case _ =>
  }

  function Settlements(acts: seq<Action>): nat
  {
    if acts == [] then 0 else (if SettlesWrite(acts[0]) then 1 else 0) + Settlements(acts[1..])
  }

  function InFlight(w: World): nat {
    if w.client.sending.Some? then 1 else 0
  }

  /** Of all the writes a run starts, at most one is not yet settled. */
  lemma {:induction false} AtMostOneInFlight(w: World, acts: seq<Action>)
    requires Sound(w) && Run(w, acts)
    ensures |After(w, acts).client.writes| + InFlight(w)
         == |w.client.writes| + Settlements(acts) + InFlight(After(w, acts))
    decreases |acts|
  {
    if acts != [] {
      SoundStep(w, acts[0]);
      WritesStartInTurn(w, acts[0]);
      AtMostOneInFlight(Next(w, acts[0]), acts[1..]);
    }
  }

  // ------------------------------------------------------------------ what you see is what is sent

  lemma {:induction false} HistoryGrows(w: World, acts: seq<Action>)
    requires Sound(w) && Run(w, acts) && NoFurtherReset(acts)
    ensures w.history <= After(w, acts).history
    decreases |acts|
  {
    if acts != [] {
      SoundStep(w, acts[0]);
      assert acts[0] in acts;
      assert w.history <= Next(w, acts[0]).history;
      HistoryGrows(Next(w, acts[0]), acts[1..]);
    }
  }

  /**
   * A revision returned by `settledRev` belongs to a server draft that reads exactly as the composer does at that moment. A
   * later submit for it in the same counter finds the draft changed exactly if another revision is the newest by then.
   * Otherwise it sends the trimmed text that was on show, unless that is empty or only for the terminal.
   */
  lemma SentAsSeen(w: World, acts: seq<Action>, rebase: nat, later: seq<Action>,
                   trim: string -> string, terminalOnly: string -> bool)
    requires Opening(w) && Run(w, acts)
    requires SettledOutcome(After(w, acts).client, rebase).At?
    requires Run(After(w, acts), later) && NoFurtherReset(later)
    ensures var seen, then_ := After(w, acts), After(After(w, acts), later);
      var rev := SettledOutcome(seen.client, rebase).rev;
      && Records(seen.history, rev, seen.client.text)
      && |then_.history| > 0
      && var verdict := Submitted(then_, rev, trim, terminalOnly);
         var text := trim(seen.client.text);
         && (verdict.Changed? <==> then_.Newest() != rev)
         && (verdict == Accepted(text) <==> then_.Newest() == rev && text != "" && !terminalOnly(text))
         && (verdict.Refused? <==> then_.Newest() == rev && text != "" && terminalOnly(text))
         && (verdict.Nothing? <==> then_.Newest() == rev && text == "")
  {
    OpeningIsGood(w);
    RunsAreSound(w, acts);
    RunsAreSound(After(w, acts), later);
    HistoryGrows(After(w, acts), later);
  }
}

/**
 * The `DraftSync` object and the server's draft, updated in place. Each `await` ends a method here: a suspended `send` is
 * resumed by `WriteSettled`, a suspended `flush` by `ResumeFlush`, and one turn of the `settledRev` loop is `SettledRev`.
 */
module DraftObjects {
  import opened DraftText
  import opened DraftClient
  import opened DraftWorld
  import opened Wrappers

  class DraftSync {
    var text: string
    var serverRev: nat
    var serverText: string
    var timer: bool
    var scheduled: nat
    var inflight: bool
    var retryNeeded: bool
    var rebases: nat
    var composing: bool
    var saved: Option<Revision>
    var held: Option<Draft>
    var waiters: nat
    // The locals of the suspended `send`, meaningful while `inflight`.
    var sent: string
    var sentRebase: nat
    // What was passed to `write`, and what `onRemote` overwrote.
    var writes: seq<string>
    var replaced: seq<string>

    function State(): Client
      reads this
    {
      Client(text, serverRev, serverText, timer, scheduled,
             if inflight then Some(Sending(sent, sentRebase)) else None,
             retryNeeded, rebases, composing, saved, held, waiters, writes, replaced)
    }

    ghost predicate Valid()
      reads this
    {
      timer ==> scheduled > 0
    }

    constructor (rev: nat, draft: string)
      ensures Valid() && State() == Opened(rev, draft)
    {
      text, serverRev, serverText := draft, rev, draft;
      timer, scheduled, inflight, retryNeeded, rebases, composing := false, 0, false, false, 0, false;
      saved, held, waiters := None, None, 0;
      sent, sentRebase, writes, replaced := "", 0, [], [];
    }

    predicate Dirty()
      reads this
    {
      timer || inflight || retryNeeded
    }

    method LatestSaved() returns (latest: Revision)
      ensures latest == State().LatestSaved()
    {
      if saved.Some? && saved.value.rev > serverRev {
        latest := saved.value;
      } else {
        latest := Revision(serverRev, serverText);
      }
    }

    method Edit(raw: string)
      requires Valid()
      modifies this
      ensures Valid() && State() == DraftClient.Edit(old(State()), raw)
    {
      text := Normalize(raw);
      if !timer {
        timer, scheduled := true, scheduled + 1;
      }
    }

    method CompositionStart()
      requires Valid()
      modifies this
      ensures Valid() && State() == DraftClient.CompositionStart(old(State()))
    {
      composing := true;
    }

    method CompositionEnd(raw: string)
      requires Valid()
      modifies this
      ensures Valid() && State() == DraftClient.CompositionEnd(old(State()), raw)
    {
      composing := false;
      if raw != text {
        Edit(raw);
      }
      if retryNeeded {
        Flush();
      }
      ReleaseHeld();
    }

    method Receive(d: Draft)
      requires Valid()
      modifies this
      ensures Valid() && State() == DraftClient.Receive(old(State()), d)
    {
      if d.origin == Snapshot && d.rev < serverRev {
        Rebase(d);
        return;
      }
      if d.rev <= serverRev {
        return;
      }
      serverRev, serverText := d.rev, d.text;
      if saved.Some? && d.rev <= saved.value.rev {
        return;
      }
      if d.origin == Own || d.origin == Snapshot {
        if d.text == text {
          retryNeeded := false;
        }
      }
      if composing || Dirty() {
        held := Some(d);
        return;
      }
      Apply(d.text);
    }

    /** The branch of `receive` that meets a restarted revision counter. */
    method Rebase(d: Draft)
      requires Valid()
      modifies this
      ensures Valid() && State() == Reset(old(State()), d)
    {
      serverRev, serverText := d.rev, d.text;
      saved, held := None, None;
      retryNeeded := text != d.text;
      rebases := rebases + 1;
      if !composing {
        Flush();
      }
    }

    /** `flush` up to its first suspension. */
    method Flush()
      requires Valid()
      modifies this
      ensures Valid() && State() == DraftClient.Flush(old(State()))
    {
      if inflight {
        waiters := waiters + 1;
        return;
      }
      FlushIdle();
    }

    /** A `flush` suspended on `idleWaiters` finds nothing in flight. */
    method ResumeFlush()
      requires Valid() && waiters > 0 && !inflight
      modifies this
      ensures Valid() && State() == FlushResumes(old(State()))
    {
      waiters := waiters - 1;
      FlushIdle();
    }

    method FlushIdle()
      requires Valid() && !inflight
      modifies this
      ensures Valid() && State() == FlushBody(old(State()))
    {
      if composing {
        return;
      }
      if timer {
        timer, scheduled := false, scheduled - 1;
      }
      var latest := LatestSaved();
      if retryNeeded || text != latest.text {
        Send();
        return;
      }
      ReleaseHeld();
    }

    /** One turn of the `settledRev` loop after the `flush` it awaited; `rebase` was read before it. */
    method SettledRev(rebase: nat) returns (outcome: Settled)
      ensures outcome == SettledOutcome(State(), rebase)
    {
      if rebase != rebases {
        return Again;
      }
      if composing || retryNeeded {
        return Unsaved;
      }
      if Dirty() {
        return Again;
      }
      var latest := LatestSaved();
      if latest.text != text {
        return Unsaved;
      }
      return At(latest.rev);
    }

    method Retry()
      requires Valid()
      modifies this
      ensures Valid() && State() == DraftClient.Retry(old(State()))
    {
      if retryNeeded && !inflight {
        Send();
      }
    }

    method TimerFires()
      requires Valid() && scheduled > 0
      modifies this
      ensures Valid() && State() == DraftClient.TimerFires(old(State()))
    {
      scheduled := scheduled - 1;
      Send();
    }

    /** `send` up to its write. */
    method Send()
      modifies this
      ensures Valid() && State() == DraftClient.Send(old(State()))
    {
      timer := false;
      if composing {
        retryNeeded := true;
        return;
      }
      if inflight {
        return;
      }
      sent, sentRebase := text, rebases;
      inflight := true;
      retryNeeded := false;
      writes := writes + [sent];
    }

    /** `send` from the settling of its write to its end, or to the next write. */
    method WriteSettled(reply: Option<nat>)
      requires Valid() && inflight
      modifies this
      ensures Valid() && State() == WriteSettles(old(State()), reply)
    {
      if sentRebase == rebases {
        if reply.Some? {
          saved := Some(Revision(reply.value, sent));
        } else {
          retryNeeded := true;
        }
      }
      inflight := false;
      if !retryNeeded && text != sent && !timer {
        if composing {
          retryNeeded := true;
        } else {
          Send();
          return;
        }
      }
      ReleaseHeld();
    }

    method ReleaseHeld()
      requires Valid()
      modifies this
      ensures Valid() && State() == DraftClient.ReleaseHeld(old(State()))
    {
      if held.None? || composing || Dirty() {
        return;
      }
      var d := held.value;
      held := None;
      if d.rev == serverRev && (saved.None? || d.rev > saved.value.rev) {
        Apply(d.text);
      }
    }

    method Apply(draft: string)
      requires Valid()
      modifies this
      ensures Valid() && State() == DraftClient.Apply(old(State()), draft)
    {
      if draft == text {
        return;
      }
      replaced := replaced + [text];
      text := draft;
    }
  }

  /** The server's half: one session's draft, and the draft events it has emitted. */
  class Session {
    var rev: nat
    var draft: string
    var events: seq<Draft>
    ghost var history: seq<string>

    ghost predicate Valid()
      reads this
    {
      && |history| == rev + 1
      && history[rev] == draft
      && (forall e <- events :: Records(history, e.rev, e.text))
    }

    constructor (draft: string)
      ensures Valid() && history == [draft] && events == []
    {
      this.rev, this.draft, this.events := 0, draft, [];
      history := [draft];
    }

    method SetDraft(text: string, origin: Origin)
      requires Valid()
      modifies this
      ensures Valid() && old(events) <= events
      ensures forall w: World :: w.history == old(history) ==>
        && history == Stored(w, text, origin).history
        && w.stream + events[|old(events)|..] == Stored(w, text, origin).stream
      ensures Normalize(text) == old(draft) ==> rev == old(rev) && draft == old(draft) && events == old(events)
      ensures Normalize(text) != old(draft) ==>
        rev == old(rev) + 1 && draft == Normalize(text) && events == old(events) + [Draft(rev, draft, origin)]
    {
      var normalized := Normalize(text);
      if normalized == draft {
        return;
      }
      rev, draft := rev + 1, normalized;
      events := events + [Draft(rev, normalized, origin)];
      history := history + [normalized];
      assert events[|old(events)|..] == [Draft(rev, normalized, origin)];
    }

    /**
     * A submit that names the draft's revision sends the trimmed draft and clears it, unless that is empty or only for the
     * terminal. One that is not accepted leaves the draft as it was.
     */
    method Submit(expected: nat, trim: string -> string, terminalOnly: string -> bool) returns (verdict: SubmitVerdict)
      requires Valid()
      modifies this
      ensures Valid()
      ensures forall w: World :: w.history == old(history) ==> verdict == Submitted(w, expected, trim, terminalOnly)
      ensures forall w: World :: w.history == old(history) ==>
        history == (if verdict.Accepted? then Stored(w, "", Own) else w).history
      ensures verdict == Changed <==> expected != old(rev)
      ensures var text := trim(old(draft));
        && (verdict == Accepted(text) <==> expected == old(rev) && text != "" && !terminalOnly(text))
        && (verdict == Refused <==> expected == old(rev) && text != "" && terminalOnly(text))
        && (verdict == Nothing <==> expected == old(rev) && text == "")
      ensures verdict.Accepted? ==> draft == ""
      ensures !verdict.Accepted? ==> rev == old(rev) && draft == old(draft) && events == old(events) && history == old(history)
    {
      if rev != expected {
        return Changed;
      }
      var text := trim(draft);
      if text == "" {
        return Nothing;
      }
      if terminalOnly(text) {
        return Refused;
      }
      SetDraft("", Own);
      return Accepted(text);
    }
  }
}

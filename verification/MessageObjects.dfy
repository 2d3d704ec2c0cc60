/** The message store as an object updated in place. */
module MessageObjects {
  import opened Wrappers
  import opened MessageModel
  import opened MessageRuns
  import opened Sequences

  /** What purging one message does to the thread that holds it, and to no other. */
  lemma OneThreadShrinks(threads: map<nat, Thread>, threadOf: map<nat, nat>, next: nat, id: nat)
    requires Indexed(threads, threadOf, next) && id in threadOf
    ensures threadOf[id] in threads
    ensures var t := threadOf[id]; var rest := Keep(threads[t].messages, {id});
      KeepThreads(threads, {id}) == if rest == [] then threads - {t} else threads[t := threads[t].(messages := rest)]
  {
    var t := threadOf[id];
    assert Filed(id, threads, t);
    forall u | u in threads && u != t
      ensures Keep(threads[u].messages, {id}) == threads[u].messages != []
    {
      OtherThreadStays(u, threads[u], threadOf, next, id);
    }
    OnlyOneChanges(threads, t, {id});
  }

  lemma OnlyOneChanges(threads: map<nat, Thread>, t: nat, gone: set<nat>)
    requires t in threads
    requires forall u | u in threads && u != t :: Keep(threads[u].messages, gone) == threads[u].messages != []
    ensures var rest := Keep(threads[t].messages, gone);
      KeepThreads(threads, gone) == if rest == [] then threads - {t} else threads[t := threads[t].(messages := rest)]
  {
  }

  lemma NothingShrinks(s: Threads, id: nat)
    requires Good(s) && id !in s.threadOf
    ensures KeepThreads(s.threads, {id}) == s.threads && s.threadOf - {id} == s.threadOf
  {
    RollbackOfUnknown(s, id);
  }

  /** The first settled message of a queue, and the queue without it. */
  lemma FirstSettledIs(order: seq<nat>, pending: set<nat>, i: nat)
    requires Distinct(order) && i < |order| && order[i] !in pending && forall k | 0 <= k < i :: order[k] in pending
    ensures KeepIds(order, pending) != [] && KeepIds(order, pending)[0] == order[i]
    ensures KeepIds(order, {order[i]}) == order[..i] + order[i + 1..]
  {
    var before, id, after := order[..i], order[i], order[i + 1..];
    assert order == before + [id] + after;
    KeepIdsJoin(before + [id], after, pending);
    assert (before + [id])[..i] == before;
    KeepIdsNone(before, pending);
    DropAt(before, id, after);
  }

  /** Evicting one more: the first of the settled messages left after `k` went. */
  lemma EvictNext(s: Threads, k: nat)
    requires Good(s) && k < |Settled(s)|
    ensures var s1 := Purge(s, SetOf(Settled(s)[..k]));
      Settled(s1) == Settled(s)[k..] && Purge(s1, {Settled(s)[k]}) == Purge(s, SetOf(Settled(s)[..k + 1]))
  {
    PurgeSettled(s, k);
    var settled := Settled(s);
    assert settled[..k + 1] == settled[..k] + [settled[k]];
    assert SetOf(settled[..k + 1]) == SetOf(settled[..k]) + {settled[k]};
    PurgeTwice(s, SetOf(settled[..k]), {settled[k]});
  }

  lemma NothingEvicted(s: Threads)
    requires Good(s)
    ensures Purge(s, SetOf(Settled(s)[..0])) == s
  {
    assert SetOf(Settled(s)[..0]) == {};
    PurgeNothing(s);
  }

  class MessageThreads {
    var nextMessageId: nat
    var threads: map<nat, Thread>
    var threadByMessage: map<nat, nat>
    var retainedOrder: seq<nat>
    var pending: set<nat>

    ghost function State(): Threads
      reads this
    {
      Threads(nextMessageId, threads, threadByMessage, retainedOrder, pending)
    }

    constructor ()
      ensures State() == EMPTY.store
    {
      nextMessageId, threads, threadByMessage, retainedOrder, pending := 0, map[], map[], [], {};
    }

    /** Both lookups succeed in every good state, so neither of the source's expectations can fail. */
    method FindReplyThread(target: nat, from: Sender, to: nat) returns (t: Result<nat>)
      requires Good(State())
      ensures t == ReplyThread(State(), target, from, to) && t != Err(Inconsistent)
    {
      if target !in threadByMessage {
        return Err(UnknownReplyTarget(target));
      }
      IndexedIsFound(State(), target);
      var thread := threads[threadByMessage[target]];
      var previous := Find(thread.messages, target).value;
      if previous.from == Root {
        return Err(RootNotAddressable);
      }
      if from != Agent(previous.to) || to != previous.from.id {
        return Err(ReplyByNonRecipient(target));
      }
      return Ok(threadByMessage[target]);
    }

    method Prepare(r: Request) returns (m: Result<Message>)
      requires Good(State())
      modifies this`nextMessageId
      ensures (State(), m) == Prepared(old(State()), r) && Good(State())
    {
      PrepareKeeps(State(), r);
      var badBody := ValidateBody(r.body);
      if badBody.Some? {
        return Err(badBody.value);
      }
      var badReply := ValidateReply(r.purpose, r.inReplyTo);
      if badReply.Some? {
        return Err(badReply.value);
      }
      ghost var before := State();
      nextMessageId := nextMessageId + 1;
      var id := nextMessageId;
      var thread := id;
      if r.inReplyTo.Some? {
        var found := FindReplyThread(r.inReplyTo.value, r.from, r.to);
        if found.Err? {
          return Err(found.error);
        }
        thread := found.value;
      }
      return Ok(Message(id, thread, r.from, r.to, r.priority, r.purpose, r.inReplyTo, r.body));
    }

    method Commit(m: Message) returns (thread: Thread)
      requires Good(State()) && Fits(State(), m)
      modifies this
      ensures State() == Committed(old(State()), m) && Good(State())
      ensures thread == threads[m.thread] && thread.messages[|thread.messages| - 1] == m
    {
      CommitIsGood(State(), m);
      thread := if m.thread in threads then threads[m.thread] else Thread(m.thread, (m.from, Agent(m.to)), []);
      threadByMessage := threadByMessage[m.id := m.thread];
      retainedOrder := retainedOrder + [m.id];
      pending := pending + {m.id};
      thread := thread.(messages := thread.messages + [m]);
      threads := threads[m.thread := thread];
    }

    /** Takes a message out of the index and its thread; the last message takes the thread along. */
    method RemoveMessage(id: nat, ghost before: Threads)
      requires Good(before) && threads == before.threads && threadByMessage == before.threadOf
      modifies this`threads, this`threadByMessage
      ensures threads == KeepThreads(before.threads, {id}) && threadByMessage == before.threadOf - {id}
    {
      if id !in threadByMessage {
        NothingShrinks(before, id);
        return;
      }
      OneThreadShrinks(threads, threadByMessage, before.next, id);
      var t := threadByMessage[id];
      threadByMessage := threadByMessage - {id};
      var rest := Keep(threads[t].messages, {id});
      if rest == [] {
        threads := threads - {t};
      } else {
        threads := threads[t := threads[t].(messages := rest)];
      }
    }

    /** The place of the oldest settled message. */
    method FirstSettled() returns (found: Option<nat>)
      requires Distinct(retainedOrder)
      ensures found.None? ==> KeepIds(retainedOrder, pending) == []
      ensures found.Some? ==> found.value < |retainedOrder| && retainedOrder[found.value] !in pending
      ensures found.Some? ==> forall k | 0 <= k < found.value :: retainedOrder[k] in pending
    {
      for i := 0 to |retainedOrder|
        invariant forall k | 0 <= k < i :: retainedOrder[k] in pending
      {
        if retainedOrder[i] !in pending {
          return Some(i);
        }
      }
      KeepIdsNone(retainedOrder, pending);
      return None;
    }

    method EvictAt(i: nat, ghost start: Threads, ghost k: nat)
      requires Good(start) && k < |Settled(start)| && State() == Purge(start, SetOf(Settled(start)[..k]))
      requires i < |retainedOrder| && retainedOrder[i] !in pending && forall j | 0 <= j < i :: retainedOrder[j] in pending
      modifies this`retainedOrder, this`threads, this`threadByMessage
      ensures State() == Purge(start, SetOf(Settled(start)[..k + 1]))
    {
      ghost var before := State();
      PurgeIsGood(start, SetOf(Settled(start)[..k]));
      EvictNext(start, k);
      FirstSettledIs(retainedOrder, pending, i);
      var id := retainedOrder[i];
      retainedOrder := retainedOrder[..i] + retainedOrder[i + 1..];
      RemoveMessage(id, before);
      assert before.pending - {id} == pending;
      assert State() == Purge(before, {id});
    }

    /** The state after the oldest `k` settled messages went. */
    ghost predicate Evicted(start: Threads, k: nat)
      reads this
    {
      && k <= Excess(start)
      && State() == Purge(start, SetOf(Settled(start)[..k]))
      && |retainedOrder| == |start.order| - k
    }

    /** Evicts the oldest settled message, if there is one; the queue is over its bound. */
    method EvictOldest(ghost start: Threads, ghost k: nat) returns (evicted: bool)
      requires Good(start) && Evicted(start, k) && |retainedOrder| > MAX_RETAINED_MESSAGES
      modifies this`retainedOrder, this`threads, this`threadByMessage
      ensures if evicted then Evicted(start, k + 1) else Evicted(start, k) && k == Excess(start)
    {
      PurgeSettled(start, k);
      PurgeIsGood(start, SetOf(Settled(start)[..k]));
      var found := FirstSettled();
      if found.None? {
        return false;
      }
      FirstSettledIs(retainedOrder, pending, found.value);
      EvictAt(found.value, start, k);
      PurgeSettled(start, k + 1);
      return true;
    }

    /** Evicts the oldest settled messages until the bound is met or none is settled. */
    method TrimHistory()
      requires Good(State())
      modifies this`retainedOrder, this`threads, this`threadByMessage
      ensures State() == Trimmed(old(State())) && Good(State())
    {
      ghost var start := State();
      ghost var k: nat := 0;
      NothingEvicted(start);
      while |retainedOrder| > MAX_RETAINED_MESSAGES
        invariant Evicted(start, k)
        decreases Excess(start) - k
      {
        var evicted := EvictOldest(start, k);
        if !evicted {
          break;
        }
        k := k + 1;
      }
      PurgeIsGood(start, SetOf(Settled(start)[..k]));
    }

    method MarkTerminal(id: nat)
      requires Good(State())
      modifies this
      ensures State() == MarkedTerminal(old(State()), id) && Good(State())
    {
      pending := pending - {id};
      TrimHistory();
    }

    method MarkAdmitted(id: nat, disposition: Disposition)
      requires Good(State())
      modifies this
      ensures State() == MarkedAdmitted(old(State()), id, disposition) && Good(State())
    {
      if disposition == Queued {
        return;
      }
      pending := pending - {id};
      TrimHistory();
    }

    method Rollback(id: nat)
      requires Good(State())
      modifies this
      ensures State() == RolledBack(old(State()), id) && Good(State())
    {
      ghost var before := State();
      PurgeIsGood(before, {id});
      pending := pending - {id};
      retainedOrder := KeepIds(retainedOrder, {id});
      RemoveMessage(id, before);
    }
  }
}

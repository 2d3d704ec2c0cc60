/** What every operation on the message store keeps, and what any run of them promises. */
module MessageRuns {
  import opened MessageModel
  import Utf8
  import opened Sequences

  // ------------------------------------------------------------------ keeping and dropping

  lemma {:induction false} KeepMembers(messages: seq<Message>, gone: set<nat>)
    ensures forall m :: m in Keep(messages, gone) <==> m in messages && m.id !in gone
    ensures DistinctMessages(messages) ==> DistinctMessages(Keep(messages, gone))
  {
    if messages != [] {
      var n := |messages| - 1;
      KeepMembers(messages[..n], gone);
      assert messages == messages[..n] + [messages[n]];
      if DistinctMessages(messages) {
        forall k | 0 <= k < |Keep(messages[..n], gone)|
          ensures Keep(messages[..n], gone)[k].id != messages[n].id
        {
          assert Keep(messages[..n], gone)[k] in messages[..n];
        }
      }
    }
  }

  lemma {:induction false} KeepAll(messages: seq<Message>, gone: set<nat>)
    requires forall m <- messages :: m.id !in gone
    ensures Keep(messages, gone) == messages
  {
    if messages != [] {
      var n := |messages| - 1;
      assert messages == messages[..n] + [messages[n]];
      KeepAll(messages[..n], gone);
    }
  }

  lemma {:induction false} KeepTwice(messages: seq<Message>, a: set<nat>, b: set<nat>)
    ensures Keep(Keep(messages, a), b) == Keep(messages, a + b)
  {
    if messages != [] {
      var n := |messages| - 1;
      var first, last := Keep(messages[..n], a), messages[n];
      KeepTwice(messages[..n], a, b);
      assert (first + [last])[..|first|] == first;
      assert first + [] == first;
    }
  }

  lemma {:induction false} KeepIdsMembers(ids: seq<nat>, gone: set<nat>)
    ensures SetOf(KeepIds(ids, gone)) == SetOf(ids) - gone
    ensures Distinct(ids) ==> Distinct(KeepIds(ids, gone))
    ensures |KeepIds(ids, gone)| <= |ids|
  {
    if ids != [] {
      var n := |ids| - 1;
      KeepIdsMembers(ids[..n], gone);
      assert ids == ids[..n] + [ids[n]];
      assert forall id :: id in SetOf(KeepIds(ids[..n], gone)) <==> id in KeepIds(ids[..n], gone);
      assert forall id :: id in SetOf(ids[..n]) <==> id in ids[..n];
      var rest := KeepIds(ids[..n], gone);
      if Distinct(ids) {
        forall k | 0 <= k < |rest|
          ensures rest[k] != ids[n]
        {
          assert rest[k] in rest && rest[k] in SetOf(rest);
        }
      }
    }
  }

  lemma {:induction false} KeepIdsTwice(ids: seq<nat>, a: set<nat>, b: set<nat>)
    ensures KeepIds(KeepIds(ids, a), b) == KeepIds(ids, a + b)
    ensures |KeepIds(ids, a + b)| <= |KeepIds(ids, a)|
  {
    if ids != [] {
      var n := |ids| - 1;
      var first := KeepIds(ids[..n], a);
      KeepIdsTwice(ids[..n], a, b);
      assert (first + [ids[n]])[..|first|] == first;
      assert first + [] == first;
    }
  }

  /** Only the members of a sequence matter to what is kept of it. */
  lemma {:induction false} KeepIdsLocal(ids: seq<nat>, a: set<nat>, b: set<nat>)
    requires forall id <- ids :: id in a <==> id in b
    ensures KeepIds(ids, a) == KeepIds(ids, b)
  {
    if ids != [] {
      var n := |ids| - 1;
      assert ids == ids[..n] + [ids[n]];
      KeepIdsLocal(ids[..n], a, b);
    }
  }

  lemma {:induction false} KeepIdsAll(ids: seq<nat>, gone: set<nat>)
    requires forall id <- ids :: id !in gone
    ensures KeepIds(ids, gone) == ids
  {
    if ids != [] {
      var n := |ids| - 1;
      assert ids == ids[..n] + [ids[n]];
      KeepIdsAll(ids[..n], gone);
    }
  }

  lemma {:induction false} KeepIdsJoin(first: seq<nat>, second: seq<nat>, gone: set<nat>)
    ensures KeepIds(first + second, gone) == KeepIds(first, gone) + KeepIds(second, gone)
  {
    if second == [] {
      assert first + second == first;
    } else {
      var n := |second| - 1;
      assert (first + second)[..|first| + n] == first + second[..n];
      KeepIdsJoin(first, second[..n], gone);
    }
  }

  lemma DropLast(before: seq<nat>, id: nat)
    requires id !in before
    ensures KeepIds(before + [id], {id}) == before
  {
    assert (before + [id])[..|before|] == before;
    KeepIdsAll(before, {id});
  }

  /** Dropping one member of a queue without repeats is dropping it at its place. */
  lemma DropAt(before: seq<nat>, id: nat, after: seq<nat>)
    requires id !in before && id !in after
    ensures KeepIds(before + [id] + after, {id}) == before + after
  {
    KeepIdsJoin(before + [id], after, {id});
    DropLast(before, id);
    KeepIdsAll(after, {id});
  }

  lemma KeepThreadsTwice(threads: map<nat, Thread>, a: set<nat>, b: set<nat>)
    ensures KeepThreads(KeepThreads(threads, a), b) == KeepThreads(threads, a + b)
  {
    forall t | t in threads
      ensures Keep(Keep(threads[t].messages, a), b) == Keep(threads[t].messages, a + b)
    {
      KeepTwice(threads[t].messages, a, b);
    }
    assert Keep([], b) == [];
  }

  lemma PurgeTwice(s: Threads, a: set<nat>, b: set<nat>)
    ensures Purge(Purge(s, a), b) == Purge(s, a + b)
  {
    KeepThreadsTwice(s.threads, a, b);
    KeepIdsTwice(s.order, a, b);
  }

  // ------------------------------------------------------------------ purging keeps the store good

  lemma ThreadKeptWithout(t: nat, thread: Thread, threadOf: map<nat, nat>, next: nat, gone: set<nat>)
    requires ThreadKept(t, thread, threadOf, next) && Keep(thread.messages, gone) != []
    ensures ThreadKept(t, thread.(messages := Keep(thread.messages, gone)), threadOf - gone, next)
  {
    KeepMembers(thread.messages, gone);
    var kept := thread.(messages := Keep(thread.messages, gone));
    forall m | m in kept.messages
      ensures Belongs(m, t, kept, threadOf - gone, next)
    {
      assert Belongs(m, t, thread, threadOf, next);
    }
  }

  lemma FiledWithout(s: Threads, id: nat, gone: set<nat>)
    requires Indexed(s.threads, s.threadOf, s.next) && id in s.threadOf && id !in gone
    ensures Filed(id, KeepThreads(s.threads, gone), s.threadOf[id])
  {
    var t := s.threadOf[id];
    IndexedIsFound(s, id);
    var m := MessageOf(s, id);
    KeepMembers(s.threads[t].messages, gone);
    assert m in Keep(s.threads[t].messages, gone);
    assert t in KeepThreads(s.threads, gone);
    assert m in KeepThreads(s.threads, gone)[t].messages;
  }

  lemma PurgeIsGood(s: Threads, gone: set<nat>)
    requires Good(s)
    ensures Good(Purge(s, gone))
  {
    var s1 := Purge(s, gone);
    forall t | t in s1.threads
      ensures ThreadKept(t, s1.threads[t], s1.threadOf, s1.next)
    {
      ThreadKeptWithout(t, s.threads[t], s.threadOf, s.next, gone);
    }
    forall id | id in s1.threadOf
      ensures Filed(id, s1.threads, s1.threadOf[id])
    {
      FiledWithout(s, id, gone);
    }
    KeepIdsMembers(s.order, gone);
  }

  /** A message that is not purged stays as it is. */
  lemma PurgeSpares(s: Threads, gone: set<nat>, id: nat)
    requires Good(s) && id in s.threadOf && id !in gone
    ensures Good(Purge(s, gone)) && id in Purge(s, gone).threadOf
    ensures MessageOf(Purge(s, gone), id) == MessageOf(s, id)
  {
    PurgeIsGood(s, gone);
    var s1 := Purge(s, gone);
    IndexedIsFound(s, id);
    IndexedIsFound(s1, id);
    var t := s.threadOf[id];
    KeepMembers(s.threads[t].messages, gone);
    SameMessage(s.threads[t].messages, MessageOf(s, id), MessageOf(s1, id));
  }

  lemma SameMessage(messages: seq<Message>, a: Message, b: Message)
    requires DistinctMessages(messages) && a in messages && b in messages && a.id == b.id
    ensures a == b
  {
  }

  // ------------------------------------------------------------------ trimming

  lemma EvictedAreSettled(order: seq<nat>, pending: set<nat>, k: nat)
    requires k <= |KeepIds(order, pending)|
    ensures SetOf(KeepIds(order, pending)[..k]) <= SetOf(order) - pending
  {
    KeepIdsMembers(order, pending);
    var settled := KeepIds(order, pending);
    forall id | id in settled[..k]
      ensures id in SetOf(order) - pending
    {
      assert id in settled && id in SetOf(settled);
    }
  }

  lemma EvictedLeave(order: seq<nat>, pending: set<nat>, k: nat)
    requires Distinct(order) && k <= |KeepIds(order, pending)|
    ensures KeepIds(KeepIds(order, SetOf(KeepIds(order, pending)[..k])), pending) == KeepIds(order, pending)[k..]
  {
    var settled := KeepIds(order, pending);
    var gone := SetOf(settled[..k]);
    KeepIdsTwice(order, gone, pending);
    KeepIdsTwice(order, pending, gone);
    assert gone + pending == pending + gone;
    KeepIdsMembers(order, pending);
    DropPrefix(settled, k);
  }

  lemma EvictedCount(order: seq<nat>, pending: set<nat>, k: nat)
    requires Distinct(order) && k <= |KeepIds(order, pending)|
    ensures |KeepIds(order, SetOf(KeepIds(order, pending)[..k]))| == |order| - k
  {
    EvictedAreSettled(order, pending, k);
    KeepIdsMembers(order, pending);
    DropCount(order, KeepIds(order, pending)[..k]);
  }

  /** Whatever prefix of the settled messages goes, the pending ones stay and the rest stay in order. */
  lemma PurgeSettled(s: Threads, k: nat)
    requires Good(s) && k <= |Settled(s)|
    ensures SetOf(Settled(s)[..k]) !! s.pending
    ensures var s1 := Purge(s, SetOf(Settled(s)[..k]));
      s1.pending == s.pending && Settled(s1) == Settled(s)[k..] && |s1.order| == |s.order| - k
  {
    EvictedAreSettled(s.order, s.pending, k);
    EvictedLeave(s.order, s.pending, k);
    EvictedCount(s.order, s.pending, k);
    assert s.pending - SetOf(Settled(s)[..k]) == s.pending;
  }

  /** Only settled messages are ever evicted, the oldest first, and no more of them than the bound asks for. */
  lemma TrimmingIsBounded(s: Threads)
    requires Good(s)
    ensures Good(Trimmed(s)) && Trimmed(s).pending == s.pending
    ensures Settled(Trimmed(s)) == Settled(s)[Excess(s)..]
    ensures |Trimmed(s).order| == |s.order| - Excess(s)
    ensures |Trimmed(s).order| <= 256 || Settled(Trimmed(s)) == []
    ensures |s.order| <= 256 ==> Trimmed(s) == s
    ensures |s.order| > 256 ==> |Trimmed(s).order| >= 256
  {
    PurgeSettled(s, Excess(s));
    PurgeIsGood(s, SetOf(Settled(s)[..Excess(s)]));
    if Excess(s) == 0 {
      assert SetOf(Settled(s)[..0]) == {};
      PurgeNothing(s);
    }
  }

  lemma TrimmingSparesPending(s: Threads, id: nat)
    requires Good(s) && id in s.pending
    ensures Good(Trimmed(s)) && id in Trimmed(s).threadOf && MessageOf(Trimmed(s), id) == MessageOf(s, id)
  {
    PurgeSettled(s, Excess(s));
    PurgeSpares(s, SetOf(Settled(s)[..Excess(s)]), id);
  }

  lemma PurgeNothing(s: Threads)
    requires Good(s)
    ensures Purge(s, {}) == s
  {
    KeepIdsAll(s.order, {});
    forall t | t in s.threads
      ensures Keep(s.threads[t].messages, {}) == s.threads[t].messages != []
    {
      KeepAll(s.threads[t].messages, {});
      assert ThreadKept(t, s.threads[t], s.threadOf, s.next);
    }
    NoThreadChanges(s.threads, {});
    assert s.threadOf - {} == s.threadOf && s.pending - {} == s.pending;
  }

  lemma DropPrefix(ids: seq<nat>, k: nat)
    requires Distinct(ids) && k <= |ids|
    ensures KeepIds(ids, SetOf(ids[..k])) == ids[k..]
  {
    var first, second := ids[..k], ids[k..];
    assert first + second == ids;
    forall id | id in second
      ensures id !in SetOf(first)
    {
      var j :| 0 <= j < |second| && second[j] == id;
      NotBefore(ids, k + j);
    }
    DropFirst(first, second, SetOf(first));
  }

  lemma NotBefore(ids: seq<nat>, j: nat)
    requires Distinct(ids) && j < |ids|
    ensures forall i | 0 <= i < j :: ids[i] != ids[j]
  {
  }

  lemma DropFirst(first: seq<nat>, second: seq<nat>, gone: set<nat>)
    requires (forall id <- first :: id in gone) && (forall id <- second :: id !in gone)
    ensures KeepIds(first + second, gone) == second
  {
    KeepIdsJoin(first, second, gone);
    KeepIdsNone(first, gone);
    KeepIdsAll(second, gone);
  }

  lemma {:induction false} KeepIdsNone(ids: seq<nat>, gone: set<nat>)
    requires forall id <- ids :: id in gone
    ensures KeepIds(ids, gone) == []
  {
    if ids != [] {
      assert ids == ids[..|ids| - 1] + [ids[|ids| - 1]];
      KeepIdsNone(ids[..|ids| - 1], gone);
    }
  }

  lemma DropOne(ids: seq<nat>, id: nat)
    requires Distinct(ids) && id in SetOf(ids)
    ensures |KeepIds(ids, {id})| == |ids| - 1
  {
    var i :| 0 <= i < |ids| && ids[i] == id;
    DropAt(ids[..i], id, ids[i + 1..]);
    assert ids == ids[..i] + [id] + ids[i + 1..];
  }

  lemma LastDropped(dropped: seq<nat>, n: nat)
    requires Distinct(dropped) && |dropped| == n + 1
    ensures SetOf(dropped) == SetOf(dropped[..n]) + {dropped[n]} && dropped[n] !in SetOf(dropped[..n])
  {
    assert dropped == dropped[..n] + [dropped[n]];
  }

  lemma {:induction false} DropCount(ids: seq<nat>, dropped: seq<nat>)
    requires Distinct(ids) && Distinct(dropped) && SetOf(dropped) <= SetOf(ids)
    ensures |KeepIds(ids, SetOf(dropped))| == |ids| - |dropped|
  {
    if dropped == [] {
      KeepIdsAll(ids, {});
      assert SetOf(dropped) == {};
    } else {
      var n := |dropped| - 1;
      LastDropped(dropped, n);
      DropCount(ids, dropped[..n]);
      KeepIdsMembers(ids, SetOf(dropped[..n]));
      DropOne(KeepIds(ids, SetOf(dropped[..n])), dropped[n]);
      KeepIdsTwice(ids, SetOf(dropped[..n]), {dropped[n]});
    }
  }

  // ------------------------------------------------------------------ the operations

  /** A message that may be committed: its id is new to the store, and its thread, if there, is between the same two. */
  predicate Fits(s: Threads, m: Message) {
    && m.id <= s.next && m.id !in s.threadOf && m.thread <= s.next
    && (m.thread in s.threads ==>
          var thread := s.threads[m.thread]; Parties(m) == {thread.participants.0, thread.participants.1})
  }

  lemma ExtendedIsKept(s: Threads, m: Message)
    requires Good(s) && Fits(s, m)
    ensures ThreadKept(m.thread, Extended(ThreadFor(s.threads, m), m), s.threadOf[m.id := m.thread], s.next)
  {
    var thread := ThreadFor(s.threads, m);
    var grown := Extended(thread, m);
    if m.thread in s.threads {
      assert ThreadKept(m.thread, thread, s.threadOf, s.next);
    }
    forall x | x in grown.messages
      ensures Belongs(x, m.thread, grown, s.threadOf[m.id := m.thread], s.next)
    {
      if x != m {
        assert Belongs(x, m.thread, thread, s.threadOf, s.next);
      }
    }
    forall k | 0 <= k < |thread.messages|
      ensures thread.messages[k].id != m.id
    {
      assert Belongs(thread.messages[k], m.thread, thread, s.threadOf, s.next);
    }
  }

  lemma OtherThreadsAreKept(s: Threads, m: Message, t: nat)
    requires Good(s) && Fits(s, m) && t in s.threads && t != m.thread
    ensures ThreadKept(t, s.threads[t], s.threadOf[m.id := m.thread], s.next)
  {
    assert ThreadKept(t, s.threads[t], s.threadOf, s.next);
    forall x | x in s.threads[t].messages
      ensures Belongs(x, t, s.threads[t], s.threadOf[m.id := m.thread], s.next)
    {
      assert Belongs(x, t, s.threads[t], s.threadOf, s.next);
    }
  }

  lemma CommittedIsFiled(s: Threads, m: Message, id: nat)
    requires Good(s) && Fits(s, m) && (id in s.threadOf || id == m.id)
    ensures var s1 := Committed(s, m); Filed(id, s1.threads, s1.threadOf[id])
  {
    var s1 := Committed(s, m);
    if id == m.id {
      assert m in s1.threads[m.thread].messages;
    } else {
      IndexedIsFound(s, id);
      var x := MessageOf(s, id);
      assert x in s1.threads[s.threadOf[id]].messages;
    }
  }

  lemma CommitIsGood(s: Threads, m: Message)
    requires Good(s) && Fits(s, m)
    ensures Good(Committed(s, m)) && Settled(Committed(s, m)) == Settled(s)
  {
    var s1 := Committed(s, m);
    forall t | t in s1.threads
      ensures ThreadKept(t, s1.threads[t], s1.threadOf, s1.next)
    {
      if t == m.thread {
        ExtendedIsKept(s, m);
      } else {
        OtherThreadsAreKept(s, m, t);
      }
    }
    forall id | id in s1.threadOf
      ensures Filed(id, s1.threads, s1.threadOf[id])
    {
      CommittedIsFiled(s, m, id);
    }
    CommitLines(s.order, s.threadOf, s.pending, m.id, m.thread);
  }

  lemma CommitLines(order: seq<nat>, threadOf: map<nat, nat>, pending: set<nat>, id: nat, t: nat)
    requires Lined(order, threadOf, pending) && id !in threadOf
    ensures Lined(order + [id], threadOf[id := t], pending + {id})
    ensures KeepIds(order + [id], pending + {id}) == KeepIds(order, pending)
  {
    assert SetOf(order + [id]) == SetOf(order) + {id};
    forall k | 0 <= k < |order|
      ensures order[k] != id
    {
      assert order[k] in SetOf(order);
    }
    assert (order + [id])[..|order|] == order;
    KeepIdsLocal(order, pending, pending + {id});
  }

  lemma RolledBackThreads(s: Threads, m: Message)
    requires Good(s) && Fits(s, m)
    ensures KeepThreads(Committed(s, m).threads, {m.id}) == s.threads
  {
    var threads := Committed(s, m).threads;
    forall t | t in threads
      ensures Keep(threads[t].messages, {m.id}) == [] <==> t !in s.threads
      ensures t in s.threads ==> threads[t].(messages := Keep(threads[t].messages, {m.id})) == s.threads[t]
    {
      RolledBackThread(s, m, t);
    }
    KeptAreThese(threads, s.threads, {m.id});
  }

  lemma KeptAreThese(threads: map<nat, Thread>, rest: map<nat, Thread>, gone: set<nat>)
    requires rest.Keys <= threads.Keys
    requires forall t <- threads :: Keep(threads[t].messages, gone) == [] <==> t !in rest
    requires forall t <- rest :: threads[t].(messages := Keep(threads[t].messages, gone)) == rest[t]
    ensures KeepThreads(threads, gone) == rest
  {
    var kept := KeepThreads(threads, gone);
    assert kept.Keys == rest.Keys;
  }

  lemma RolledBackLine(order: seq<nat>, threadOf: map<nat, nat>, pending: set<nat>, id: nat, t: nat)
    requires Lined(order, threadOf, pending) && id !in threadOf
    ensures KeepIds(order + [id], {id}) == order
    ensures threadOf[id := t] - {id} == threadOf && pending + {id} - {id} == pending
  {
    assert forall x <- order :: x in SetOf(order);
    KeepIdsAll(order, {id});
    assert (order + [id])[..|order|] == order;
  }

  /** Taking back a message just committed leaves the store as it was. */
  lemma CommitThenRollback(s: Threads, m: Message)
    requires Good(s) && Fits(s, m)
    ensures RolledBack(Committed(s, m), m.id) == s
  {
    RolledBackThreads(s, m);
    RolledBackLine(s.order, s.threadOf, s.pending, m.id, m.thread);
  }

  /** The thread the message joined loses it again; it is the last message. */
  lemma JoinedThreadRollsBack(s: Threads, m: Message)
    requires Good(s) && Fits(s, m)
    ensures Keep(ThreadFor(s.threads, m).messages + [m], {m.id}) == ThreadFor(s.threads, m).messages
    ensures m.thread in s.threads ==> s.threads[m.thread].messages != []
  {
    var before := ThreadFor(s.threads, m).messages;
    assert (before + [m])[..|before|] == before;
    if m.thread in s.threads {
      KeptWithout(s, m.thread, m.id);
    } else {
      KeepAll(before, {m.id});
    }
  }

  lemma KeptWithout(s: Threads, t: nat, id: nat)
    requires Good(s) && t in s.threads && id !in s.threadOf
    ensures Keep(s.threads[t].messages, {id}) == s.threads[t].messages != []
  {
    OtherThreadStays(t, s.threads[t], s.threadOf, s.next, id);
  }

  lemma RolledBackThread(s: Threads, m: Message, t: nat)
    requires Good(s) && Fits(s, m) && t in Committed(s, m).threads
    ensures var thread := Committed(s, m).threads[t];
      && (Keep(thread.messages, {m.id}) == [] <==> t !in s.threads)
      && (t in s.threads ==> thread.(messages := Keep(thread.messages, {m.id})) == s.threads[t])
  {
    if t == m.thread {
      JoinedThreadRollsBack(s, m);
    } else {
      KeptWithout(s, t, m.id);
    }
  }

  lemma OtherThreadStays(u: nat, thread: Thread, threadOf: map<nat, nat>, next: nat, id: nat)
    requires ThreadKept(u, thread, threadOf, next) && (id in threadOf ==> threadOf[id] != u)
    ensures Keep(thread.messages, {id}) == thread.messages != []
  {
    forall m | m in thread.messages
      ensures m.id != id
    {
      assert Belongs(m, u, thread, threadOf, next);
    }
    KeepAll(thread.messages, {id});
  }

  /** Threads that lose nothing stay as they are. */
  lemma NoThreadChanges(threads: map<nat, Thread>, gone: set<nat>)
    requires forall t <- threads :: Keep(threads[t].messages, gone) == threads[t].messages != []
    ensures KeepThreads(threads, gone) == threads
  {
  }

  lemma UnknownLeavesThreads(s: Threads, id: nat)
    requires Indexed(s.threads, s.threadOf, s.next) && id !in s.threadOf
    ensures KeepThreads(s.threads, {id}) == s.threads
  {
    forall t | t in s.threads
      ensures Keep(s.threads[t].messages, {id}) == s.threads[t].messages != []
    {
      OtherThreadStays(t, s.threads[t], s.threadOf, s.next, id);
    }
    NoThreadChanges(s.threads, {id});
  }

  lemma UnknownLeavesOrder(order: seq<nat>, id: nat)
    requires id !in SetOf(order)
    ensures KeepIds(order, {id}) == order
  {
    assert forall x <- order :: x in SetOf(order);
    KeepIdsAll(order, {id});
  }

  /** A rejected message that is no longer retained is not missed. */
  lemma RollbackOfUnknown(s: Threads, id: nat)
    requires Good(s) && id !in s.threadOf
    ensures RolledBack(s, id) == s
  {
    UnknownLeavesThreads(s, id);
    UnknownLeavesOrder(s.order, id);
    assert s.threadOf - {id} == s.threadOf && s.pending - {id} == s.pending;
  }

  /** A request is refused exactly for the faults it has, and a reply joins the thread of the message it answers, backwards. */
  lemma PreparedAnswers(s: Threads, r: Request)
    requires Good(s)
    ensures var (s1, m) := Prepared(s, r);
      m.Ok? <==>
        && (exists c <- r.body :: !White(c)) && Utf8.Length(r.body) <= 2048
        && (r.purpose == Reply <==> r.inReplyTo.Some?)
        && (r.inReplyTo.Some? ==>
              && r.inReplyTo.value in s.threadOf
              && var previous := MessageOf(s, r.inReplyTo.value);
              r.from == Agent(previous.to) && previous.from == Agent(r.to))
    ensures Prepared(s, r).1 != Err(Inconsistent)
    ensures var (s1, m) := Prepared(s, r);
      m.Ok? ==>
        && s1 == s.(next := s.next + 1) && m.value.id == s1.next && Fits(s1, m.value)
        && Request(m.value.from, m.value.to, m.value.priority, m.value.purpose, m.value.inReplyTo, m.value.body) == r
        && m.value.thread == if r.inReplyTo.Some? then MessageOf(s, r.inReplyTo.value).thread else m.value.id
  {
    var (s1, m) := Prepared(s, r);
    if r.inReplyTo.Some? && r.inReplyTo.value in s.threadOf {
      IndexedIsFound(s, r.inReplyTo.value);
    }
    forall t | t in s.threads
      ensures t <= s.next
    {
      assert ThreadKept(t, s.threads[t], s.threadOf, s.next);
    }
    if m.Ok? && s1.next in s.threadOf {
      IndexedIsFound(s, s1.next);
    }
    if m.Ok? && r.inReplyTo.Some? {
      var t := s.threadOf[r.inReplyTo.value];
      assert ThreadKept(t, s.threads[t], s.threadOf, s.next);
      assert Belongs(MessageOf(s, r.inReplyTo.value), t, s.threads[t], s.threadOf, s.next);
    }
  }

  /** Each refusal names the first fault of the request, in the order in which the source looks for them. */
  lemma RefusalsNameTheFault(s: Threads, r: Request)
    requires Good(s)
    ensures var m := Prepared(s, r).1;
      && (m == Err(Empty) <==> forall c <- r.body :: White(c))
      && (m == Err(TooLarge) <==> (exists c <- r.body :: !White(c)) && Utf8.Length(r.body) > 2048)
      && (ValidateBody(r.body).None? ==>
            && (m == Err(ReplyWithoutTarget) <==> r.purpose == Reply && r.inReplyTo.None?)
            && (m == Err(TargetWithoutReply) <==> r.purpose != Reply && r.inReplyTo.Some?)
            && (r.purpose == Reply && r.inReplyTo.Some? ==>
                  var target := r.inReplyTo.value;
                  && (m == Err(UnknownReplyTarget(target)) <==> target !in s.threadOf)
                  && (target in s.threadOf ==>
                        var previous := MessageOf(s, target);
                        && (m == Err(RootNotAddressable) <==> previous.from == Root)
                        && (m == Err(ReplyByNonRecipient(target)) <==>
                              previous.from != Root && !(r.from == Agent(previous.to) && previous.from == Agent(r.to))))))
  {
    if r.inReplyTo.Some? && r.inReplyTo.value in s.threadOf {
      IndexedIsFound(s, r.inReplyTo.value);
    }
  }

  // ------------------------------------------------------------------ what committing and settling do

  /** A committed message joins its thread, or opens one between its parties; the other threads stay. */
  predicate JoinsThread(before: map<nat, Thread>, after: map<nat, Thread>, m: Message) {
    && m.thread in after
    && (if m.thread in before then after[m.thread] == before[m.thread].(messages := before[m.thread].messages + [m])
        else after[m.thread] == Thread(m.thread, (m.from, Agent(m.to)), [m]))
    && forall t <- before | t != m.thread :: t in after && after[t] == before[t]
  }

  lemma CommitJoins(s: Threads, m: Message)
    ensures JoinsThread(s.threads, Committed(s, m).threads, m)
  {
  }

  lemma CommitIsFound(s: Threads, m: Message)
    requires Good(s) && Fits(s, m)
    ensures Good(Committed(s, m)) && m.id in Committed(s, m).threadOf && MessageOf(Committed(s, m), m.id) == m
  {
    var s1 := Committed(s, m);
    CommitIsGood(s, m);
    CommitJoins(s, m);
    IndexedIsFound(s1, m.id);
    assert ThreadKept(m.thread, s1.threads[m.thread], s1.threadOf, s1.next);
    var messages := s1.threads[m.thread].messages;
    assert messages[|messages| - 1] == m && m in messages;
    SameMessage(messages, m, MessageOf(s1, m.id));
  }

  /** A committed message is retained as it was prepared, last in its thread and in the queue, with its delivery pending. */
  lemma CommitRetains(s: Threads, m: Message)
    requires Good(s) && Fits(s, m)
    ensures var s1 := Committed(s, m);
      && Good(s1) && m.id in s1.threadOf && MessageOf(s1, m.id) == m && s1.threadOf[m.id] == m.thread
      && s1.order == s.order + [m.id] && s1.pending == s.pending + {m.id}
      && JoinsThread(s.threads, s1.threads, m)
  {
    CommitIsFound(s, m);
    CommitJoins(s, m);
  }

  /** A message whose delivery ended is not pending any more, nor does any other's delivery end with it. */
  lemma SettlingSettles(s: Threads, id: nat)
    requires Good(s)
    ensures MarkedTerminal(s, id).pending == s.pending - {id}
    ensures forall d: Disposition ::
      MarkedAdmitted(s, id, d) == if d == Queued then s else MarkedTerminal(s, id)
    ensures |s.order| <= 256 ==> MarkedTerminal(s, id) == s.(pending := s.pending - {id})
  {
    var s0 := s.(pending := s.pending - {id});
    assert Good(s0);
    TrimmingIsBounded(s0);
  }

  // ------------------------------------------------------------------ runs

  /** The store, and the messages prepared but not committed yet. */
  datatype World = World(store: Threads, prepared: set<Message>)

  datatype Action =
    | Prepare(request: Request)
    | Commit(message: Message)
    | Drop(message: Message)
    | MarkAdmitted(id: nat, disposition: Disposition)
    | MarkTerminal(id: nat)
    | Rollback(id: nat)

  predicate Enabled(w: World, a: Action) {
    match a
    case Commit(m) => m in w.prepared
    case Drop(m) => m in w.prepared
    case _ => true
  }

  function Next(w: World, a: Action): World {
    match a
    case Prepare(r) =>
      var (s1, m) := Prepared(w.store, r);
      World(s1, if m.Ok? then w.prepared + {m.value} else w.prepared)
    case Commit(m) => World(Committed(w.store, m), w.prepared - {m})
    case Drop(m) => World(w.store, w.prepared - {m})
    case MarkAdmitted(id, d) => World(MarkedAdmitted(w.store, id, d), w.prepared)
    case MarkTerminal(id) => World(MarkedTerminal(w.store, id), w.prepared)
    case Rollback(id) => World(RolledBack(w.store, id), w.prepared)
  }

  /** Prepared messages each fit, have different ids, and agree on the two parties of a shared thread. */
  predicate Outstanding(s: Threads, prepared: set<Message>) {
    && (forall m <- prepared :: Fits(s, m))
    && (forall m <- prepared, n <- prepared | m != n :: m.id != n.id)
    && (forall m <- prepared, n <- prepared | m.thread == n.thread :: Parties(m) == Parties(n))
  }

  predicate Sound(w: World) {
    Good(w.store) && Outstanding(w.store, w.prepared) && |Settled(w.store)| <= MAX_RETAINED_MESSAGES
  }

  lemma FitsAfterPurge(s: Threads, gone: set<nat>, m: Message)
    requires Good(s) && Fits(s, m)
    ensures Fits(Purge(s, gone), m)
  {
  }

  lemma OutstandingAfterPurge(s: Threads, gone: set<nat>, prepared: set<Message>)
    requires Good(s) && Outstanding(s, prepared)
    ensures Outstanding(Purge(s, gone), prepared)
  {
    forall m | m in prepared
      ensures Fits(Purge(s, gone), m)
    {
      FitsAfterPurge(s, gone, m);
    }
  }

  lemma OutstandingAfterCommit(s: Threads, m: Message, prepared: set<Message>)
    requires Good(s) && Outstanding(s, prepared) && m in prepared
    ensures Outstanding(Committed(s, m), prepared - {m})
  {
    forall n | n in prepared - {m}
      ensures Fits(Committed(s, m), n)
    {
      assert Fits(s, n) && n.id != m.id;
      if n.thread == m.thread {
        assert Parties(n) == Parties(m);
        assert Fits(s, m);
      }
    }
  }

  /** Messages already prepared for the thread a new one joins are between the same two. */
  lemma OutstandingAfterPrepare(s: Threads, r: Request, prepared: set<Message>)
    requires Good(s) && Outstanding(s, prepared)
    ensures Outstanding(Prepared(s, r).0, prepared)
    ensures Prepared(s, r).1.Ok? ==> Outstanding(Prepared(s, r).0, prepared + {Prepared(s, r).1.value})
  {
    PreparedAnswers(s, r);
    var (s1, m) := Prepared(s, r);
    forall n | n in prepared
      ensures Fits(s1, n) && n.id <= s.next && n.thread <= s.next
    {
      assert Fits(s, n);
    }
    if m.Ok? {
      forall n | n in prepared && n.thread == m.value.thread
        ensures Parties(n) == Parties(m.value)
      {
        assert Fits(s, n);
        if r.inReplyTo.Some? {
          IndexedIsFound(s, r.inReplyTo.value);
        }
      }
    }
  }

  lemma MarkingIsSound(s: Threads, id: nat, prepared: set<Message>)
    requires Good(s) && Outstanding(s, prepared)
    ensures Sound(World(MarkedTerminal(s, id), prepared))
  {
    var s0 := s.(pending := s.pending - {id});
    assert Good(s0);
    assert Outstanding(s0, prepared) by {
      forall m | m in prepared
        ensures Fits(s0, m)
      {
        assert Fits(s, m);
      }
    }
    TrimmingIsBounded(s0);
    OutstandingAfterPurge(s0, SetOf(Settled(s0)[..Excess(s0)]), prepared);
    KeepIdsMembers(Trimmed(s0).order, s0.pending);
  }

  lemma RollbackIsSound(s: Threads, id: nat, prepared: set<Message>)
    requires Sound(World(s, prepared))
    ensures Sound(World(RolledBack(s, id), prepared))
  {
    PurgeIsGood(s, {id});
    OutstandingAfterPurge(s, {id}, prepared);
    KeepIdsTwice(s.order, {id}, s.pending - {id});
    KeepIdsTwice(s.order, s.pending, {id});
    assert {id} + (s.pending - {id}) == s.pending + {id};
  }

  lemma StepIsSound(w: World, a: Action)
    requires Sound(w) && Enabled(w, a)
    ensures Sound(Next(w, a)) && w.store.next <= Next(w, a).store.next
  {
    match a
    case Prepare(r) =>
      PreparedAnswers(w.store, r);
      OutstandingAfterPrepare(w.store, r, w.prepared);
      PrepareKeeps(w.store, r);
    case Commit(m) =>
      assert Fits(w.store, m);
      CommitIsGood(w.store, m);
      OutstandingAfterCommit(w.store, m, w.prepared);
    case Drop(m) =>
    case MarkAdmitted(id, d) =>
      MarkingIsSound(w.store, id, w.prepared);
    case MarkTerminal(id) =>
      MarkingIsSound(w.store, id, w.prepared);
    case Rollback(id) =>
      RollbackIsSound(w.store, id, w.prepared);
  }

  /** Preparing touches the counter alone, even when it fails. */
  lemma PrepareKeeps(s: Threads, r: Request)
    requires Good(s)
    ensures var s1 := Prepared(s, r).0;
      Good(s1) && s1 == s.(next := s1.next) && s.next <= s1.next <= s.next + 1
  {
    var s1 := Prepared(s, r).0;
    forall t | t in s.threads
      ensures ThreadKept(t, s.threads[t], s.threadOf, s1.next)
    {
      assert ThreadKept(t, s.threads[t], s.threadOf, s.next);
      forall m | m in s.threads[t].messages
        ensures Belongs(m, t, s.threads[t], s.threadOf, s1.next)
      {
        assert Belongs(m, t, s.threads[t], s.threadOf, s.next);
      }
    }
  }

  predicate Run(w: World, acts: seq<Action>)
    decreases |acts|
  {
    acts == [] || (Enabled(w, acts[0]) && Run(Next(w, acts[0]), acts[1..]))
  }

  function After(w: World, acts: seq<Action>): World
    requires Run(w, acts)
    decreases |acts|
  {
    if acts == [] then w else After(Next(w, acts[0]), acts[1..])
  }

  const EMPTY := World(Threads(0, map[], map[], [], {}), {})

  /** Whatever happens to an empty store, its indexes agree, and at most `MAX_RETAINED_MESSAGES` messages are settled. */
  lemma {:induction false} RunsAreSound(w: World, acts: seq<Action>)
    requires Sound(w) && Run(w, acts)
    ensures Sound(After(w, acts)) && w.store.next <= After(w, acts).store.next
    decreases |acts|
  {
    if acts != [] {
      StepIsSound(w, acts[0]);
      RunsAreSound(Next(w, acts[0]), acts[1..]);
    }
  }

  /** So every store that was ever opened keeps that. */
  lemma StoresAreSound(acts: seq<Action>)
    requires Run(EMPTY, acts)
    ensures Sound(After(EMPTY, acts)) && |Settled(After(EMPTY, acts).store)| <= 256
  {
    RunsAreSound(EMPTY, acts);
  }

  /** What ends a message's delivery. */
  predicate Ends(a: Action, id: nat) {
    || a == Rollback(id) || a == MarkTerminal(id)
    || (a.MarkAdmitted? && a.id == id && a.disposition != Queued)
  }

  lemma StepKeepsPending(w: World, a: Action, id: nat)
    requires Sound(w) && Enabled(w, a) && id in w.store.pending && !Ends(a, id)
    ensures Sound(Next(w, a)) && id in Next(w, a).store.pending
    ensures MessageOf(Next(w, a).store, id) == MessageOf(w.store, id)
  {
    StepIsSound(w, a);
    match a
    case Prepare(r) =>
      PrepareKeeps(w.store, r);
    case Commit(m) =>
      assert Fits(w.store, m);
      CommitKeepsMessage(w.store, m, id);
    case Drop(m) =>
    case MarkAdmitted(x, d) =>
      if d != Queued {
        MarkKeepsPending(w.store, x, id);
      }
    case MarkTerminal(x) =>
      MarkKeepsPending(w.store, x, id);
    case Rollback(x) =>
      PurgeSpares(w.store, {x}, id);
  }

  lemma MarkKeepsPending(s: Threads, x: nat, id: nat)
    requires Good(s) && id in s.pending && x != id
    ensures var s1 := MarkedTerminal(s, x); Good(s1) && id in s1.pending && MessageOf(s1, id) == MessageOf(s, id)
  {
    var s0 := s.(pending := s.pending - {x});
    assert Good(s0);
    TrimmingSparesPending(s0, id);
    TrimmingIsBounded(s0);
  }

  lemma CommitKeepsMessage(s: Threads, m: Message, id: nat)
    requires Good(s) && Fits(s, m) && id in s.threadOf
    ensures Good(Committed(s, m)) && MessageOf(Committed(s, m), id) == MessageOf(s, id)
  {
    var s1 := Committed(s, m);
    CommitIsGood(s, m);
    IndexedIsFound(s, id);
    IndexedIsFound(s1, id);
    var t := s.threadOf[id];
    assert ThreadKept(t, s1.threads[t], s1.threadOf, s1.next);
    SameMessage(s1.threads[t].messages, MessageOf(s, id), MessageOf(s1, id));
  }

  /** A message is never evicted before its delivery ends, however long the history grows meanwhile. */
  lemma {:induction false} PendingIsNeverEvicted(w: World, acts: seq<Action>, id: nat)
    requires Sound(w) && Run(w, acts) && id in w.store.pending
    requires forall a <- acts :: !Ends(a, id)
    ensures Sound(After(w, acts)) && id in After(w, acts).store.pending
    ensures MessageOf(After(w, acts).store, id) == MessageOf(w.store, id)
    decreases |acts|
  {
    if acts != [] {
      assert acts[0] in acts;
      StepKeepsPending(w, acts[0], id);
      PendingIsNeverEvicted(Next(w, acts[0]), acts[1..], id);
    }
  }
}

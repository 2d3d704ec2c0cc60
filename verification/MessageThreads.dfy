/**
 * The bounded store of directed messages: threads indexed by message, a retention queue in commit order, and the messages
 * whose delivery is still pending. Operations are functions on the whole state.
 */
module MessageModel {
  import opened Wrappers
  import Utf8
  import opened Sequences

  const MAX_MESSAGE_BYTES := 2048
  const MAX_RETAINED_MESSAGES := 256

  datatype Sender = Root | Agent(id: nat)

  datatype Priority = Deferred | Urgent

  datatype Purpose = Delegate | Coordinate | Finding | Question | Reply

  datatype Disposition = Started | Queued | Steered

  datatype Message = Message(
    id: nat, thread: nat, from: Sender, to: nat, priority: Priority, purpose: Purpose, inReplyTo: Option<nat>, body: string)

  datatype Thread = Thread(id: nat, participants: (Sender, Sender), messages: seq<Message>)

  datatype Threads = Threads(
    next: nat, threads: map<nat, Thread>, threadOf: map<nat, nat>, order: seq<nat>, pending: set<nat>)

  /** `Inconsistent` stands for the two lookups of a reply that the source expects never to fail. */
  datatype Error =
    | Inconsistent | Empty | TooLarge | ReplyWithoutTarget | TargetWithoutReply
    | UnknownReplyTarget(id: nat) | RootNotAddressable | ReplyByNonRecipient(id: nat)

  datatype Result<+T> = Ok(value: T) | Err(error: Error)

  // ------------------------------------------------------------------ validating

  /** The characters that trimming removes: those of the Unicode property White_Space. */
  predicate White(c: char) {
    var n := c as int;
    || 9 <= n <= 13 || n == 0x20 || n == 0x85 || n == 0xA0 || n == 0x1680 || 0x2000 <= n <= 0x200A
    || n == 0x2028 || n == 0x2029 || n == 0x202F || n == 0x205F || n == 0x3000
  }

  function ValidateBody(body: string): Option<Error> {
    if forall c <- body :: White(c) then Some(Empty)
    else if Utf8.Length(body) > MAX_MESSAGE_BYTES then Some(TooLarge)
    else None
  }

  function ValidateReply(purpose: Purpose, inReplyTo: Option<nat>): Option<Error> {
    if purpose == Reply && inReplyTo.None? then Some(ReplyWithoutTarget)
    else if purpose != Reply && inReplyTo.Some? then Some(TargetWithoutReply)
    else None
  }

  // ------------------------------------------------------------------ looking up and dropping

  function Find(messages: seq<Message>, id: nat): Option<Message> {
    if messages == [] then None
    else if messages[0].id == id then Some(messages[0])
    else Find(messages[1..], id)
  }

  /** The messages whose ids are not in `gone`, in order. */
  function Keep(messages: seq<Message>, gone: set<nat>): seq<Message> {
    if messages == [] then []
    else
      var n := |messages| - 1;
      Keep(messages[..n], gone) + if messages[n].id in gone then [] else [messages[n]]
  }

  /** The ids not in `gone`, in order. */
  function KeepIds(ids: seq<nat>, gone: set<nat>): seq<nat> {
    if ids == [] then []
    else
      var n := |ids| - 1;
      KeepIds(ids[..n], gone) + if ids[n] in gone then [] else [ids[n]]
  }

  function KeepThreads(threads: map<nat, Thread>, gone: set<nat>): map<nat, Thread> {
    map t | t in threads && Keep(threads[t].messages, gone) != [] :: threads[t].(messages := Keep(threads[t].messages, gone))
  }

  /** The state without the messages of `gone`, as if they had never been committed. */
  function Purge(s: Threads, gone: set<nat>): Threads {
    Threads(s.next, KeepThreads(s.threads, gone), s.threadOf - gone, KeepIds(s.order, gone), s.pending - gone)
  }

  /** The retained messages whose delivery is over, oldest first. */
  function Settled(s: Threads): seq<nat> {
    KeepIds(s.order, s.pending)
  }

  /** How many of them must go: all above the bound, as far as there are any. */
  function Excess(s: Threads): nat {
    var over := if |s.order| > MAX_RETAINED_MESSAGES then |s.order| - MAX_RETAINED_MESSAGES else 0;
    if over <= |Settled(s)| then over else |Settled(s)|
  }

  /** Trimming: the oldest settled messages go, until the bound is met or none is settled. */
  function Trimmed(s: Threads): Threads {
    Purge(s, SetOf(Settled(s)[..Excess(s)]))
  }

  // ------------------------------------------------------------------ the invariant

  function Parties(m: Message): set<Sender> {
    {m.from, Agent(m.to)}
  }

  predicate DistinctMessages(messages: seq<Message>) {
    forall i, j :: 0 <= i < j < |messages| ==> messages[i].id != messages[j].id
  }

  /** A message of a thread is indexed under it and is between the thread's two parties. */
  predicate Belongs(m: Message, t: nat, thread: Thread, threadOf: map<nat, nat>, next: nat) {
    && m.thread == t && m.id <= next && m.id in threadOf && threadOf[m.id] == t
    && Parties(m) == {thread.participants.0, thread.participants.1}
  }

  predicate ThreadKept(t: nat, thread: Thread, threadOf: map<nat, nat>, next: nat) {
    && thread.id == t && t <= next && thread.messages != [] && DistinctMessages(thread.messages)
    && forall m <- thread.messages :: Belongs(m, t, thread, threadOf, next)
  }

  predicate Filed(id: nat, threads: map<nat, Thread>, t: nat) {
    t in threads && exists m <- threads[t].messages :: m.id == id
  }

  /** The index and the threads hold the same messages, each once. */
  predicate Indexed(threads: map<nat, Thread>, threadOf: map<nat, nat>, next: nat) {
    && (forall t <- threads :: ThreadKept(t, threads[t], threadOf, next))
    && (forall id <- threadOf :: Filed(id, threads, threadOf[id]))
  }

  /** The retention queue and the index hold the same messages, each once; the pending ones are among them. */
  predicate Lined(order: seq<nat>, threadOf: map<nat, nat>, pending: set<nat>) {
    Distinct(order) && SetOf(order) == threadOf.Keys && pending <= threadOf.Keys
  }

  predicate Good(s: Threads) {
    Indexed(s.threads, s.threadOf, s.next) && Lined(s.order, s.threadOf, s.pending)
  }

  // ------------------------------------------------------------------ the operations

  lemma {:induction false} FindsMember(messages: seq<Message>, id: nat)
    requires exists m <- messages :: m.id == id
    ensures Find(messages, id).Some?
    ensures Find(messages, id).value in messages && Find(messages, id).value.id == id
  {
    if messages[0].id != id {
      var m :| m in messages && m.id == id;
      assert m in messages[1..];
      FindsMember(messages[1..], id);
    }
  }

  /** Both lookups that a reply relies on succeed: an indexed message's thread exists, and holds it. */
  lemma IndexedIsFound(s: Threads, id: nat)
    requires Indexed(s.threads, s.threadOf, s.next) && id in s.threadOf
    ensures s.threadOf[id] in s.threads
    ensures Find(s.threads[s.threadOf[id]].messages, id).Some?
    ensures var m := Find(s.threads[s.threadOf[id]].messages, id).value;
      m in s.threads[s.threadOf[id]].messages && m.id == id && m.thread == s.threadOf[id]
  {
    var t := s.threadOf[id];
    assert Filed(id, s.threads, t);
    FindsMember(s.threads[t].messages, id);
    assert ThreadKept(t, s.threads[t], s.threadOf, s.next);
    assert Belongs(Find(s.threads[t].messages, id).value, t, s.threads[t], s.threadOf, s.next);
  }

  /** A retained message. */
  function MessageOf(s: Threads, id: nat): Message
    requires Indexed(s.threads, s.threadOf, s.next) && id in s.threadOf
  {
    IndexedIsFound(s, id);
    Find(s.threads[s.threadOf[id]].messages, id).value
  }

  /** The thread a reply joins. */
  function ReplyThread(s: Threads, target: nat, from: Sender, to: nat): Result<nat> {
    if target !in s.threadOf then Err(UnknownReplyTarget(target))
    else
      var t := s.threadOf[target];
      var previous := if t in s.threads then Find(s.threads[t].messages, target) else None;
      if previous.None? then Err(Inconsistent)
      else if previous.value.from == Root then Err(RootNotAddressable)
      else if from != Agent(previous.value.to) || to != previous.value.from.id then Err(ReplyByNonRecipient(target))
      else Ok(t)
  }

  /** What a sender asks for. */
  datatype Request = Request(from: Sender, to: nat, priority: Priority, purpose: Purpose, inReplyTo: Option<nat>, body: string)

  function Prepared(s: Threads, r: Request): (Threads, Result<Message>) {
    var badBody := ValidateBody(r.body);
    var badReply := ValidateReply(r.purpose, r.inReplyTo);
    if badBody.Some? then (s, Err(badBody.value))
    else if badReply.Some? then (s, Err(badReply.value))
    else
      var id := s.next + 1;
      var thread := if r.inReplyTo.Some? then ReplyThread(s, r.inReplyTo.value, r.from, r.to) else Ok(id);
      (s.(next := id),
       match thread
       case Err(e) => Err(e)
       case Ok(t) => Ok(Message(id, t, r.from, r.to, r.priority, r.purpose, r.inReplyTo, r.body)))
  }

  function ThreadFor(threads: map<nat, Thread>, m: Message): Thread {
    if m.thread in threads then threads[m.thread] else Thread(m.thread, (m.from, Agent(m.to)), [])
  }

  function Extended(thread: Thread, m: Message): Thread {
    thread.(messages := thread.messages + [m])
  }

  function Committed(s: Threads, m: Message): Threads {
    Threads(s.next, s.threads[m.thread := Extended(ThreadFor(s.threads, m), m)],
            s.threadOf[m.id := m.thread], s.order + [m.id], s.pending + {m.id})
  }

  function MarkedTerminal(s: Threads, id: nat): Threads {
    Trimmed(s.(pending := s.pending - {id}))
  }

  function MarkedAdmitted(s: Threads, id: nat, d: Disposition): Threads {
    if d == Queued then s else MarkedTerminal(s, id)
  }

  function RolledBack(s: Threads, id: nat): Threads {
    Purge(s, {id})
  }
}

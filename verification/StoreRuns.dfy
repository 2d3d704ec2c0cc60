/** The promises of the store over whole runs of requests, in any interleaving of writers. */
module StoreRuns {
  import opened StoreModel
  import opened StoreTables
  import opened Wrappers

  datatype Request =
    | Putting(namespace: string, content: Text, replacement: Option<Key>, now: int)
    | Deleting(namespace: string, key: Key)
    | Syncing(namespace: string, memories: seq<Memory>, now: int)
    | Reading(selectors: set<ReadRequest>, now: int)
    | Scanning(selectors: set<ReadRequest>, now: int)

  ghost function Next(db: Database, r: Request, limits: Limits): Database {
    match r
    case Putting(namespace, content, replacement, now) => Put(db, namespace, content, replacement, now, limits).0
    case Deleting(namespace, key) => Delete(db, namespace, key).0
    case Syncing(namespace, memories, now) =>
      if ValidSnapshot(memories, limits) then Sync(db, namespace, memories, now, limits) else db
    case Reading(selectors, now) => Read(db, selectors, now)
    case Scanning(selectors, now) => Scan(db, selectors, now)
  }

  ghost function After(db: Database, requests: seq<Request>, limits: Limits): Database
    decreases |requests|
  {
    if requests == [] then db else After(Next(db, requests[0], limits), requests[1..], limits)
  }

  // ------------------------------------------------------------------ what every run keeps

  lemma ReadTrims(db: Database, requests: set<ReadRequest>, now: int, namespace: string)
    requires namespace in db
    ensures Trimmed(Read(db, requests, now)[namespace], db[namespace])
    ensures Trimmed(Scan(db, requests, now)[namespace], db[namespace])
    ensures Trimmed(Prune(db, now)[namespace], db[namespace])
  {
  }

  lemma InsertKeeps(db: Database, namespace: string, content: Text, now: int, limits: Limits)
    requires GoodDatabase(db, limits) && ValidateContent(content, limits).None?
    ensures GoodDatabase(Insert(db, namespace, content, now, limits).0, limits)
  {
    PruneKeeps(db, now, limits);
    EnsureKeeps(Prune(db, now), namespace, limits);
    InsertKeepsTable(Ensure(Prune(db, now), namespace)[namespace], content, now, limits);
  }

  lemma ReplaceKeeps(db: Database, namespace: string, id: int, version: nat, content: Text, now: int, limits: Limits)
    requires GoodDatabase(db, limits) && ValidateContent(content, limits).None?
    ensures GoodDatabase(Replace(db, namespace, id, version, content, now, limits).0, limits)
  {
    if version < I64_MAX {
      var db1 := Prune(db, now);
      PruneKeeps(db, now, limits);
      if namespace in db1 {
        ReplaceKeepsTable(db1[namespace], id, version, content, now, limits);
        StoringKeeps(db1, namespace, ReplaceStatement(db1[namespace], id, version, content, now, limits), limits);
      }
    }
  }

  lemma StoringKeeps(db: Database, namespace: string, t: Table, limits: Limits)
    requires GoodDatabase(db, limits) && GoodTable(t, limits)
    ensures GoodDatabase(db[namespace := t], limits)
  {
  }

  lemma PutKeeps(db: Database, namespace: string, content: Text, replacement: Option<Key>, now: int, limits: Limits)
    requires GoodDatabase(db, limits)
    ensures GoodDatabase(Put(db, namespace, content, replacement, now, limits).0, limits)
  {
    if ValidateContent(content, limits).None? {
      if replacement.None? {
        InsertKeeps(db, namespace, content, now, limits);
      } else {
        ReplaceKeeps(db, namespace, replacement.value.id, replacement.value.version, content, now, limits);
      }
    }
  }

  lemma DeleteKeeps(db: Database, namespace: string, key: Key, limits: Limits)
    requires GoodDatabase(db, limits)
    ensures GoodDatabase(Delete(db, namespace, key).0, limits)
  {
    if key.namespace == Some(namespace) && namespace in db {
      TrimmedIsGood(DeleteStatement(db[namespace], key.id, key.version), db[namespace], limits);
    }
  }

  lemma SyncKeeps(db: Database, namespace: string, memories: seq<Memory>, now: int, limits: Limits)
    requires GoodDatabase(db, limits) && ValidSnapshot(memories, limits)
    ensures GoodDatabase(Sync(db, namespace, memories, now, limits), limits)
  {
    PruneKeeps(db, now, limits);
    EnsureKeeps(Prune(db, now), namespace, limits);
    SnapshotIsGood(memories, Ensure(Prune(db, now), namespace)[namespace].next, limits);
  }

  lemma TelemetryKeeps(db: Database, selectors: set<ReadRequest>, now: int, limits: Limits)
    requires GoodDatabase(db, limits)
    ensures GoodDatabase(Read(db, selectors, now), limits) && GoodDatabase(Scan(db, selectors, now), limits)
  {
    forall namespace | namespace in db
      ensures GoodTable(Read(db, selectors, now)[namespace], limits) && GoodTable(Scan(db, selectors, now)[namespace], limits)
    {
      ReadTrims(db, selectors, now, namespace);
      TrimmedIsGood(Read(db, selectors, now)[namespace], db[namespace], limits);
      TrimmedIsGood(Scan(db, selectors, now)[namespace], db[namespace], limits);
    }
  }

  lemma NextKeeps(db: Database, r: Request, limits: Limits)
    requires GoodDatabase(db, limits)
    ensures GoodDatabase(Next(db, r, limits), limits)
  {
    match r
    case Putting(namespace, content, replacement, now) => PutKeeps(db, namespace, content, replacement, now, limits);
    case Deleting(namespace, key) => DeleteKeeps(db, namespace, key, limits);
    case Syncing(namespace, memories, now) =>
      if ValidSnapshot(memories, limits) {
        SyncKeeps(db, namespace, memories, now, limits);
      }
    case Reading(selectors, now) => TelemetryKeeps(db, selectors, now, limits);
    case Scanning(selectors, now) => TelemetryKeeps(db, selectors, now, limits);
  }

  /** From an empty database, every run stays within limits, with unique identities, positive versions and ids below `next`. */
  lemma {:induction false} RunsStayGood(db: Database, requests: seq<Request>, limits: Limits)
    requires GoodDatabase(db, limits)
    ensures GoodDatabase(After(db, requests, limits), limits)
    decreases |requests|
  {
    if requests != [] {
      NextKeeps(db, requests[0], limits);
      RunsStayGood(Next(db, requests[0], limits), requests[1..], limits);
    }
  }

  // ------------------------------------------------------------------ ids are never reused

  lemma NextIdGrows(db: Database, r: Request, namespace: string, limits: Limits)
    ensures TableOf(Next(db, r, limits), namespace).next >= TableOf(db, namespace).next
  {
    if r.Syncing? && ValidSnapshot(r.memories, limits) {
      SyncMirrors(db, r.namespace, r.memories, r.now, limits);
    }
  }

  lemma {:induction false} NextIdGrowsOverRuns(db: Database, requests: seq<Request>, namespace: string, limits: Limits)
    ensures TableOf(After(db, requests, limits), namespace).next >= TableOf(db, namespace).next
    decreases |requests|
  {
    if requests != [] {
      NextIdGrows(db, requests[0], namespace, limits);
      NextIdGrowsOverRuns(Next(db, requests[0], limits), requests[1..], namespace, limits);
    }
  }

  /** An id that was ever present is smaller than any id a later insert hands out, whatever ran in between. */
  lemma IdsAreNeverReused(db: Database, id: nat, requests: seq<Request>, namespace: string, content: Text, now: int, limits: Limits)
    requires GoodDatabase(db, limits) && namespace in db && id in db[namespace].rows
    ensures var verdict := Insert(After(db, requests, limits), namespace, content, now, limits).1;
      verdict.Ok? ==> verdict.value.id > id
  {
    assert GoodRow(id, db[namespace].rows[id], db[namespace].next, limits);
    NextIdGrowsOverRuns(db, requests, namespace, limits);
    RunsStayGood(db, requests, limits);
    InsertVerdictMatches(After(db, requests, limits), namespace, content, now, limits);
  }

  // ------------------------------------------------------------------ compare and swap

  /** The request replaces or deletes the row that this key and version name. */
  ghost predicate TakesEffect(db: Database, r: Request, namespace: string, id: nat, version: nat, limits: Limits) {
    match r
    case Putting(own, content, Some(key), now) =>
      own == namespace && key == Key(Some(namespace), id, version) && Put(db, own, content, Some(key), now, limits).1.Ok?
    case Deleting(own, key) =>
      own == namespace && key == Key(Some(namespace), id, version) &&
      TableOf(Delete(db, own, key).0, namespace) != TableOf(db, namespace)
    case _ => false
  }

  /** No row can answer to this id and version again, short of a sync. */
  predicate Spent(db: Database, namespace: string, id: nat, version: nat) {
    var t := TableOf(db, namespace);
    id < t.next && (id in t.rows ==> t.rows[id].version > version)
  }

  lemma EffectSpends(db: Database, r: Request, namespace: string, id: nat, version: nat, limits: Limits)
    requires GoodDatabase(db, limits) && TakesEffect(db, r, namespace, id, version, limits)
    ensures !Spent(db, namespace, id, version) && Spent(Next(db, r, limits), namespace, id, version)
  {
    match r
    case Putting(own, content, Some(key), now) =>
      if version < I64_MAX {
        ReplaceVerdictMatches(db, own, id, version, content, now, limits);
        ReadTrims(db, {}, now, own);
        assert GoodRow(id, db[own].rows[id], db[own].next, limits);
      }
    case Deleting(own, key) =>
      assert GoodRow(id, db[own].rows[id], db[own].next, limits);
  }

  lemma TrimmingStaysSpent(db: Database, db1: Database, namespace: string, id: nat, version: nat)
    requires Spent(db, namespace, id, version)
    requires namespace !in db ==> namespace !in db1
    requires namespace in db ==> namespace in db1 && Trimmed(db1[namespace], db[namespace])
    ensures Spent(db1, namespace, id, version)
  {
  }

  lemma PruneStaysSpent(db: Database, now: int, namespace: string, id: nat, version: nat)
    requires Spent(db, namespace, id, version)
    ensures Spent(Prune(db, now), namespace, id, version)
  {
    if namespace in db {
      ReadTrims(db, {}, now, namespace);
    }
    TrimmingStaysSpent(db, Prune(db, now), namespace, id, version);
  }

  lemma InsertStaysSpent(t: Table, content: Text, now: int, limits: Limits, id: nat, version: nat)
    requires id < t.next && (id in t.rows ==> t.rows[id].version > version)
    ensures var t1 := InsertStatements(t, content, now, limits); id < t1.next && (id in t1.rows ==> t1.rows[id].version > version)
  {
  }

  lemma PutStaysSpent(db: Database, own: string, content: Text, replacement: Option<Key>, now: int, limits: Limits,
                      namespace: string, id: nat, version: nat)
    requires Spent(db, namespace, id, version)
    ensures Spent(Put(db, own, content, replacement, now, limits).0, namespace, id, version)
  {
    PruneStaysSpent(db, now, namespace, id, version);
    if own == namespace && own in Prune(db, now) {
      InsertStaysSpent(Prune(db, now)[own], content, now, limits, id, version);
    }
  }

  lemma TelemetryStaysSpent(db: Database, selectors: set<ReadRequest>, now: int, namespace: string, id: nat, version: nat)
    requires Spent(db, namespace, id, version)
    ensures Spent(Read(db, selectors, now), namespace, id, version) && Spent(Scan(db, selectors, now), namespace, id, version)
  {
    if namespace in db {
      ReadTrims(db, selectors, now, namespace);
    }
    TrimmingStaysSpent(db, Read(db, selectors, now), namespace, id, version);
    TrimmingStaysSpent(db, Scan(db, selectors, now), namespace, id, version);
  }

  lemma SpentStaysSpent(db: Database, r: Request, namespace: string, id: nat, version: nat, limits: Limits)
    requires Spent(db, namespace, id, version)
    requires r.Syncing? ==> r.namespace != namespace
    ensures Spent(Next(db, r, limits), namespace, id, version)
  {
    match r
    case Putting(own, content, replacement, now) =>
      PutStaysSpent(db, own, content, replacement, now, limits, namespace, id, version);
    case Deleting(own, key) =>
      TrimmingStaysSpent(db, Next(db, r, limits), namespace, id, version);
    case Syncing(own, memories, now) => PruneStaysSpent(db, now, namespace, id, version);
    case Reading(selectors, now) => TelemetryStaysSpent(db, selectors, now, namespace, id, version);
    case Scanning(selectors, now) => TelemetryStaysSpent(db, selectors, now, namespace, id, version);
  }

  /** How many requests of a run replaced or deleted the row this key and version name. */
  ghost function TimesTaken(db: Database, requests: seq<Request>, namespace: string, id: nat, version: nat, limits: Limits): nat
    decreases |requests|
  {
    if requests == [] then 0
    else
      (if TakesEffect(db, requests[0], namespace, id, version, limits) then 1 else 0) +
      TimesTaken(Next(db, requests[0], limits), requests[1..], namespace, id, version, limits)
  }

  /** With no sync of the namespace in between, at most one replace or delete naming a key and version ever takes effect. */
  lemma {:induction false} OneWinnerPerVersion(db: Database, requests: seq<Request>, namespace: string, id: nat, version: nat, limits: Limits)
    requires GoodDatabase(db, limits)
    requires forall r <- requests :: r.Syncing? ==> r.namespace != namespace
    ensures TimesTaken(db, requests, namespace, id, version, limits) <= 1
    ensures Spent(db, namespace, id, version) ==> TimesTaken(db, requests, namespace, id, version, limits) == 0
    decreases |requests|
  {
    if requests != [] {
      var r := requests[0];
      assert r in requests;
      NextKeeps(db, r, limits);
      OneWinnerPerVersion(Next(db, r, limits), requests[1..], namespace, id, version, limits);
      if TakesEffect(db, r, namespace, id, version, limits) {
        EffectSpends(db, r, namespace, id, version, limits);
      } else if Spent(db, namespace, id, version) {
        SpentStaysSpent(db, r, namespace, id, version, limits);
      }
    }
  }

  // ------------------------------------------------------------------ probation

  /** A record that has been used, and so is off probation. */
  predicate Proven(db: Database, namespace: string, id: nat, version: nat, content: Text) {
    && namespace in db && id in db[namespace].rows
    && var r := db[namespace].rows[id]; r.version == version && r.content == content && r.uses > 0
  }

  /** A read proves every record it selects that is still there. */
  lemma ReadingProves(db: Database, requests: set<ReadRequest>, now: int, namespace: string, id: nat)
    requires namespace in db && id in db[namespace].rows && !Expired(db[namespace].rows[id], now)
    requires Wanted(requests, namespace, id, db[namespace].rows[id])
    ensures Proven(Read(db, requests, now), namespace, id, db[namespace].rows[id].version, db[namespace].rows[id].content)
  {
    assert id in Prune(db, now)[namespace].rows;
  }

  /** Requests that name the record, or set its whole namespace. */
  predicate Touches(r: Request, namespace: string, id: nat) {
    match r
    case Putting(own, _, Some(key), _) => own == namespace && key.id == id
    case Deleting(own, key) => own == namespace && key.id == id
    case Syncing(own, _, _) => own == namespace
    case _ => false
  }

  // ------------------------------------------------------------------ a replaced record

  /** When a probation that starts now ends: after the limit's span, as far as the clock goes. */
  function EndOfProbation(now: int, limits: Limits): int {
    if now + limits.probation < 0x7fff_ffff_ffff_ffff then now + limits.probation else 0x7fff_ffff_ffff_ffff
  }

  /** A record that, if it is still there, is unused and on probation until `end`. */
  predicate OnProbation(db: Database, namespace: string, id: nat, version: nat, end: int) {
    && namespace in db && id < db[namespace].next
    && (id in db[namespace].rows ==>
          var r := db[namespace].rows[id]; r.version == version && r.uses == 0 && r.probation == Some(end))
  }

  predicate Present(db: Database, namespace: string, id: nat) {
    namespace in db && id in db[namespace].rows
  }

  /** A read that selects the record before its probation ends. */
  predicate ReadsInTime(r: Request, namespace: string, id: nat, version: nat, end: int) {
    && r.Reading? && r.now < end
    && exists q <- r.selectors :: q.namespace == namespace && q.id == id && (q.version.None? || q.version.value == version)
  }

  predicate Early(r: Request, end: int) {
    r.Deleting? || r.now < end
  }

  lemma PruningLeavesProbation(db: Database, now: int, namespace: string, id: nat, version: nat, end: int)
    requires OnProbation(db, namespace, id, version, end)
    ensures OnProbation(Prune(db, now), namespace, id, version, end)
    ensures Present(Prune(db, now), namespace, id) <==> Present(db, namespace, id) && now < end
  {
  }

  lemma PuttingLeavesProbation(db: Database, r: Request, limits: Limits, namespace: string, id: nat, version: nat, end: int)
    requires r.Putting? && OnProbation(db, namespace, id, version, end) && !Touches(r, namespace, id)
    ensures var db1 := Next(db, r, limits);
      OnProbation(db1, namespace, id, version, end) && (Present(db, namespace, id) && r.now < end ==> Present(db1, namespace, id))
  {
    PruningLeavesProbation(db, r.now, namespace, id, version, end);
  }

  lemma TelemetryLeavesProbation(db: Database, r: Request, limits: Limits, namespace: string, id: nat, version: nat, end: int)
    requires (r.Reading? || r.Scanning?) && OnProbation(db, namespace, id, version, end)
    requires !ReadsInTime(r, namespace, id, version, end)
    ensures var db1 := Next(db, r, limits);
      OnProbation(db1, namespace, id, version, end) && (Present(db, namespace, id) && r.now < end ==> Present(db1, namespace, id))
  {
    PruningLeavesProbation(db, r.now, namespace, id, version, end);
  }

  lemma StepLeavesProbation(db: Database, r: Request, limits: Limits, namespace: string, id: nat, version: nat, end: int)
    requires OnProbation(db, namespace, id, version, end)
    requires !Touches(r, namespace, id) && !ReadsInTime(r, namespace, id, version, end)
    ensures var db1 := Next(db, r, limits);
      OnProbation(db1, namespace, id, version, end) && (Present(db, namespace, id) && Early(r, end) ==> Present(db1, namespace, id))
  {
    match r
    case Putting(_, _, _, _) => PuttingLeavesProbation(db, r, limits, namespace, id, version, end);
    case Syncing(_, _, now) => PruningLeavesProbation(db, now, namespace, id, version, end);
    case Deleting(_, _) =>
    case _ => TelemetryLeavesProbation(db, r, limits, namespace, id, version, end);
  }

  lemma {:induction false} RunsLeaveProbation(
      db: Database, requests: seq<Request>, limits: Limits, namespace: string, id: nat, version: nat, end: int)
    requires OnProbation(db, namespace, id, version, end)
    requires forall r <- requests :: !Touches(r, namespace, id) && !ReadsInTime(r, namespace, id, version, end)
    ensures OnProbation(After(db, requests, limits), namespace, id, version, end)
    ensures Present(db, namespace, id) && (forall r <- requests :: Early(r, end)) ==>
      Present(After(db, requests, limits), namespace, id)
    decreases |requests|
  {
    if requests != [] {
      var r := requests[0];
      assert r in requests;
      StepLeavesProbation(db, r, limits, namespace, id, version, end);
      RunsLeaveProbation(Next(db, r, limits), requests[1..], limits, namespace, id, version, end);
    }
  }

  lemma ReplacedStartsProbation(db: Database, namespace: string, id: nat, version: nat, content: Text, now: int, limits: Limits)
    requires GoodDatabase(db, limits) && Put(db, namespace, content, Some(Key(Some(namespace), id, version)), now, limits).1.Ok?
    ensures var db1 := Put(db, namespace, content, Some(Key(Some(namespace), id, version)), now, limits).0;
      OnProbation(db1, namespace, id, version + 1, EndOfProbation(now, limits)) && Present(db1, namespace, id)
  {
    ReplaceVerdictMatches(db, namespace, id, version, content, now, limits);
    PruneKeeps(db, now, limits);
    var t := Prune(db, now)[namespace];
    assert GoodRow(id, t.rows[id], t.next, limits);
  }

  /**
   * A replaced record is on probation again, however much it was used before: if it is neither read until the probation
   * ends nor named, the next request that prunes drops it, even a read that asks for it. Until then it stays.
   */
  lemma ReplacedIsOnProbationAgain(db: Database, namespace: string, id: nat, version: nat, content: Text, now: int, limits: Limits,
                                   requests: seq<Request>, selectors: set<ReadRequest>, later: int)
    requires GoodDatabase(db, limits) && Put(db, namespace, content, Some(Key(Some(namespace), id, version)), now, limits).1.Ok?
    requires forall r <- requests ::
      !Touches(r, namespace, id) && !ReadsInTime(r, namespace, id, version + 1, EndOfProbation(now, limits))
    ensures var end := EndOfProbation(now, limits);
      var db1 := After(Put(db, namespace, content, Some(Key(Some(namespace), id, version)), now, limits).0, requests, limits);
      && (later >= end ==> !Present(Read(db1, selectors, later), namespace, id) && !Present(Prune(db1, later), namespace, id))
      && ((forall r <- requests :: Early(r, end)) ==>
            Present(db1, namespace, id) && (later < end ==> Present(Prune(db1, later), namespace, id)))
  {
    var end := EndOfProbation(now, limits);
    var db0 := Put(db, namespace, content, Some(Key(Some(namespace), id, version)), now, limits).0;
    ReplacedStartsProbation(db, namespace, id, version, content, now, limits);
    RunsLeaveProbation(db0, requests, limits, namespace, id, version + 1, end);
    PruningLeavesProbation(After(db0, requests, limits), later, namespace, id, version + 1, end);
  }

  // ------------------------------------------------------------------ an inserted record

  /** A record as a client sees it while nobody has used it: dated, unread, and on probation. */
  predicate Unused(m: Memory, namespace: string, version: nat, content: Text, created: int, now: int, limits: Limits) {
    && m.namespace == Some(namespace) && m.version == version && m.content == content
    && m.created == created && m.updated == now
    && m.uses == 0 && m.scans == 0 && m.lastUsed == None && m.lastScanned == None
    && m.probation == Some(EndOfProbation(now, limits))
  }

  predicate Shows(db: Database, m: Memory) {
    && m.namespace.Some? && m.namespace.value in db && m.id >= 0 && m.id in db[m.namespace.value].rows
    && Shown(m.namespace.value, m.id, db[m.namespace.value].rows[m.id]) == m
  }

  /** What an accepted insert returns is there, dated at the insert, unused and on probation, under an id that was free. */
  lemma InsertReturns(db: Database, namespace: string, content: Text, now: int, limits: Limits)
    requires GoodDatabase(db, limits) && Put(db, namespace, content, None, now, limits).1.Ok?
    ensures var (db1, verdict) := Put(db, namespace, content, None, now, limits);
      && Unused(verdict.value, namespace, 1, content, now, now, limits)
      && Shows(db1, verdict.value) && !(namespace in db && verdict.value.id in db[namespace].rows)
      && OnProbation(db1, namespace, verdict.value.id, 1, EndOfProbation(now, limits))
  {
    InsertVerdictMatches(db, namespace, content, now, limits);
    var t := Ensure(Prune(db, now), namespace)[namespace];
    var (db1, verdict) := Insert(db, namespace, content, now, limits);
    assert verdict.value == Shown(namespace, t.next, NewRow(content, now, limits));
    assert db1[namespace].rows[t.next] == NewRow(content, now, limits) && db1[namespace].next == t.next + 1;
    NextIsNew(db, namespace, now, limits);
  }

  /** The next id of a namespace is free, before the pruning and after. */
  lemma NextIsNew(db: Database, namespace: string, now: int, limits: Limits)
    requires GoodDatabase(db, limits)
    ensures !(namespace in db && Ensure(Prune(db, now), namespace)[namespace].next in db[namespace].rows)
  {
    if namespace in db {
      NextIsFree(db[namespace], limits);
    }
  }

  /**
   * A record that was inserted is on probation: if it is neither read until that ends nor named, the next request that
   * prunes drops it, even a read that asks for it. Until then it stays.
   */
  lemma InsertedIsOnProbation(db: Database, namespace: string, id: nat, content: Text, now: int, limits: Limits,
                              requests: seq<Request>, selectors: set<ReadRequest>, later: int)
    requires GoodDatabase(db, limits)
    requires Put(db, namespace, content, None, now, limits).1.Ok? && Put(db, namespace, content, None, now, limits).1.value.id == id
    requires forall r <- requests ::
      !Touches(r, namespace, id) && !ReadsInTime(r, namespace, id, 1, EndOfProbation(now, limits))
    ensures var end := EndOfProbation(now, limits);
      var db1 := After(Put(db, namespace, content, None, now, limits).0, requests, limits);
      && (later >= end ==> !Present(Read(db1, selectors, later), namespace, id) && !Present(Prune(db1, later), namespace, id))
      && ((forall r <- requests :: Early(r, end)) ==>
            Present(db1, namespace, id) && (later < end ==> Present(Prune(db1, later), namespace, id)))
  {
    var db0 := Put(db, namespace, content, None, now, limits).0;
    var end := EndOfProbation(now, limits);
    InsertReturns(db, namespace, content, now, limits);
    RunsLeaveProbation(db0, requests, limits, namespace, id, 1, end);
    PruningLeavesProbation(After(db0, requests, limits), later, namespace, id, 1, end);
  }

  /** What an accepted replace returns is there: the new content under the next version, its use forgotten, its creation kept. */
  lemma ReplaceReturns(db: Database, namespace: string, id: nat, version: nat, content: Text, now: int, limits: Limits)
    requires GoodDatabase(db, limits) && Put(db, namespace, content, Some(Key(Some(namespace), id, version)), now, limits).1.Ok?
    ensures var (db1, verdict) := Put(db, namespace, content, Some(Key(Some(namespace), id, version)), now, limits);
      && namespace in db && id in db[namespace].rows && db[namespace].rows[id].version == version
      && verdict.value.id == id
      && Unused(verdict.value, namespace, version + 1, content, db[namespace].rows[id].created, now, limits)
      && Shows(db1, verdict.value)
  {
    ReplaceVerdictMatches(db, namespace, id, version, content, now, limits);
  }

  /** A put is refused before any statement exactly for a blank or overlong content, or a key of another namespace. */
  lemma PutRefuses(db: Database, namespace: string, content: Text, replacement: Option<Key>, now: int, limits: Limits)
    ensures var (db1, verdict) := Put(db, namespace, content, replacement, now, limits);
      && (limits.blank(content) ==> (db1, verdict) == (db, Err(EmptyContent)))
      && (!limits.blank(content) && |content| > limits.contentBytes ==> (db1, verdict) == (db, Err(ContentTooLarge)))
      && (!limits.blank(content) && |content| <= limits.contentBytes ==>
            var foreign := replacement.Some? && replacement.value.namespace != Some(namespace);
            && (foreign ==> (db1, verdict) == (db, Err(RemoteReadOnly)))
            && (GoodDatabase(db, limits) && !foreign ==>
                  verdict != Err(EmptyContent) && verdict != Err(ContentTooLarge) && verdict != Err(RemoteReadOnly)))
  {
    if GoodDatabase(db, limits) && replacement.None? {
      InsertVerdictMatches(db, namespace, content, now, limits);
    } else if replacement.Some? {
      ReplaceVerdictMatches(db, namespace, replacement.value.id, replacement.value.version, content, now, limits);
    }
  }

  // ------------------------------------------------------------------ telemetry

  /** One more, as far as the counter goes. */
  predicate OneMore(before: nat, after: nat) {
    after == if before < 0x7fff_ffff_ffff_ffff then before + 1 else before
  }

  /** Reading counts one use of each selected record and ends its probation; it changes nothing else but the pruning. */
  lemma ReadingCounts(db: Database, selectors: set<ReadRequest>, now: int, namespace: string, id: nat)
    requires namespace in db && id in db[namespace].rows
    ensures var r, db1 := db[namespace].rows[id], Read(db, selectors, now);
      && namespace in db1 && db1[namespace].next == db[namespace].next
      && (id in db1[namespace].rows <==> r.uses > 0 || r.probation.None? || now < r.probation.value)
      && (id in db1[namespace].rows ==>
            var r1 := db1[namespace].rows[id];
            if exists q <- selectors :: q.namespace == namespace && q.id == id && (q.version.None? || q.version.value == r.version)
            then OneMore(r.uses, r1.uses) && r1 == r.(uses := r1.uses, lastUsed := Some(now), probation := None)
            else r1 == r)
  {
  }

  /** Scanning counts one scan of each candidate and, unlike a read, leaves its probation alone. */
  lemma ScanningCounts(db: Database, selectors: set<ReadRequest>, now: int, namespace: string, id: nat)
    requires namespace in db && id in db[namespace].rows
    ensures var r, db1 := db[namespace].rows[id], Scan(db, selectors, now);
      && namespace in db1 && db1[namespace].next == db[namespace].next
      && (id in db1[namespace].rows <==> r.uses > 0 || r.probation.None? || now < r.probation.value)
      && (id in db1[namespace].rows ==>
            var r1 := db1[namespace].rows[id];
            if exists q <- selectors :: q.namespace == namespace && q.id == id && (q.version.None? || q.version.value == r.version)
            then OneMore(r.scans, r1.scans) && r1 == r.(scans := r1.scans, lastScanned := Some(now))
            else r1 == r)
  {
  }

  // ------------------------------------------------------------------ a record in use

  lemma PruningSpares(db: Database, now: int, namespace: string, id: nat, version: nat, content: Text)
    requires Proven(db, namespace, id, version, content)
    ensures Proven(Prune(db, now), namespace, id, version, content)
  {
    assert id in PruneTable(db[namespace], now).rows;
  }

  lemma InsertSpares(t: Table, content: Text, now: int, limits: Limits, id: nat)
    requires GoodTable(t, limits) && id in t.rows
    ensures var t1 := InsertStatements(t, content, now, limits); id in t1.rows && t1.rows[id] == t.rows[id]
  {
    assert GoodRow(id, t.rows[id], t.next, limits);
  }

  lemma ReplaceSpares(t: Table, other: int, version: nat, content: Text, now: int, limits: Limits, id: nat)
    requires id in t.rows && other != id
    ensures var t1 := ReplaceStatement(t, other, version, content, now, limits); id in t1.rows && t1.rows[id] == t.rows[id]
  {
  }

  lemma InsertingSpares(db: Database, own: string, content: Text, now: int, limits: Limits,
                        namespace: string, id: nat, version: nat, kept: Text)
    requires GoodDatabase(db, limits) && Proven(db, namespace, id, version, kept)
    ensures Proven(Insert(db, own, content, now, limits).0, namespace, id, version, kept)
  {
    PruneKeeps(db, now, limits);
    PruningSpares(db, now, namespace, id, version, kept);
    var db1 := Ensure(Prune(db, now), own);
    assert db1[namespace] == Prune(db, now)[namespace];
    InsertSpares(db1[namespace], content, now, limits, id);
  }

  lemma ReplacingSpares(db: Database, own: string, other: int, otherVersion: nat, content: Text, now: int, limits: Limits,
                        namespace: string, id: nat, version: nat, kept: Text)
    requires Proven(db, namespace, id, version, kept) && (own == namespace ==> other != id)
    ensures Proven(Replace(db, own, other, otherVersion, content, now, limits).0, namespace, id, version, kept)
  {
    PruningSpares(db, now, namespace, id, version, kept);
    ReplaceSpares(Prune(db, now)[namespace], if own == namespace then other else id + 1, otherVersion, content, now, limits, id);
  }

  lemma PuttingSpares(db: Database, own: string, content: Text, replacement: Option<Key>, now: int, limits: Limits,
                      namespace: string, id: nat, version: nat, kept: Text)
    requires GoodDatabase(db, limits) && Proven(db, namespace, id, version, kept)
    requires replacement.Some? && own == namespace ==> replacement.value.id != id
    ensures Proven(Put(db, own, content, replacement, now, limits).0, namespace, id, version, kept)
  {
    if replacement.None? {
      InsertingSpares(db, own, content, now, limits, namespace, id, version, kept);
    } else {
      ReplacingSpares(db, own, replacement.value.id, replacement.value.version, content, now, limits, namespace, id, version, kept);
    }
  }

  lemma TelemetrySpares(db: Database, selectors: set<ReadRequest>, now: int, namespace: string, id: nat, version: nat, content: Text)
    requires Proven(db, namespace, id, version, content)
    ensures Proven(Read(db, selectors, now), namespace, id, version, content)
    ensures Proven(Scan(db, selectors, now), namespace, id, version, content)
  {
    PruningSpares(db, now, namespace, id, version, content);
  }

  lemma SyncingSpares(db: Database, own: string, memories: seq<Memory>, now: int, limits: Limits,
                      namespace: string, id: nat, version: nat, content: Text)
    requires Proven(db, namespace, id, version, content) && own != namespace && ValidSnapshot(memories, limits)
    ensures Proven(Sync(db, own, memories, now, limits), namespace, id, version, content)
  {
    PruningSpares(db, now, namespace, id, version, content);
  }

  lemma DeletingSpares(db: Database, own: string, key: Key, namespace: string, id: nat, version: nat, content: Text)
    requires Proven(db, namespace, id, version, content) && !(own == namespace && key.id == id)
    ensures Proven(Delete(db, own, key).0, namespace, id, version, content)
  {
  }

  lemma StepSpares(db: Database, r: Request, namespace: string, id: nat, version: nat, content: Text, limits: Limits)
    requires GoodDatabase(db, limits) && Proven(db, namespace, id, version, content) && !Touches(r, namespace, id)
    ensures Proven(Next(db, r, limits), namespace, id, version, content)
  {
    if r.Putting? {
      PuttingSpares(db, r.namespace, r.content, r.replacement, r.now, limits, namespace, id, version, content);
    } else if r.Deleting? {
      DeletingSpares(db, r.namespace, r.key, namespace, id, version, content);
    } else if r.Syncing? && ValidSnapshot(r.memories, limits) {
      SyncingSpares(db, r.namespace, r.memories, r.now, limits, namespace, id, version, content);
    } else if r.Reading? || r.Scanning? {
      TelemetrySpares(db, r.selectors, r.now, namespace, id, version, content);
    }
  }

  /** A proven record is never pruned: it stays as it is until a request names it or a sync sets its namespace. */
  lemma {:induction false} ProvenRecordsStay(
      db: Database, requests: seq<Request>, namespace: string, id: nat, version: nat, content: Text, limits: Limits)
    requires GoodDatabase(db, limits) && Proven(db, namespace, id, version, content)
    requires forall r <- requests :: !Touches(r, namespace, id)
    ensures Proven(After(db, requests, limits), namespace, id, version, content)
    decreases |requests|
  {
    if requests != [] {
      assert requests[0] in requests;
      StepSpares(db, requests[0], namespace, id, version, content, limits);
      NextKeeps(db, requests[0], limits);
      ProvenRecordsStay(Next(db, requests[0], limits), requests[1..], namespace, id, version, content, limits);
    }
  }
}

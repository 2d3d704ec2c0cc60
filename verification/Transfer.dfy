/**
 * Pushing the local corpus to a remote namespace: upload, read the corpus again, and repeat while it changed meanwhile. The
 * local store answers each read from a script, so that any local writes may come between two reads; `elsewhere` is what
 * others do to the shared database between an upload and the read that follows it.
 */
module Transfer {
  import opened Wrappers
  import opened StoreModel
  import opened StoreTables
  import StableSorting
  import StoreObjects

  const PUSH_ATTEMPTS := 3

  datatype Role = Reader | Writer

  /** How a push fails: to start, to read the local corpus, to upload it, or because it never stood still. */
  datatype Failure = Unavailable | ReadOnly | Local(error: Error) | PushStore(error: Error) | LocalChanged

  datatype Outcome = Pushed(memories: nat, sync: StoreObjects.SyncReport) | Failed(failure: Failure)

  type Corpus = seq<Memory>
  type Script = nat -> Result<Corpus>
  type Others = nat -> Database -> Database

  const BY_ID: StableSorting.Comparison<Memory> := (a: Memory, b: Memory) => a.id < b.id

  /** The corpus in key order. */
  function Snapshot(corpus: Corpus): Corpus {
    StableSorting.Sort(BY_ID, corpus)
  }

  /** The namespace holds a record for each memory of the corpus, as it is there, and no other. */
  ghost predicate Holds(db: Database, namespace: string, corpus: Corpus) {
    && namespace in db
    && (forall id: nat :: id in db[namespace].rows <==> exists m <- corpus :: m.id == id)
    && (forall m <- corpus :: m.id in db[namespace].rows
          && Shown(namespace, m.id, db[namespace].rows[m.id]) == m.(namespace := Some(namespace)))
  }

  /** Nobody else writes the namespace, and none of its probations runs out meanwhile. */
  ghost predicate LeaveAlone(elsewhere: Others, namespace: string) {
    forall k: nat, db: Database | namespace in db ::
      namespace in elsewhere(k)(db) && elsewhere(k)(db)[namespace] == db[namespace]
  }

  /** The corpus did not change from one read to the next. */
  predicate Still(script: Script, k: nat) {
    script(k).Ok? && script(k + 1).Ok? && Snapshot(script(k).value) == Snapshot(script(k + 1).value)
  }

  predicate Changed(script: Script, k: nat) {
    script(k).Ok? && script(k + 1).Ok? && Snapshot(script(k).value) != Snapshot(script(k + 1).value)
  }

  lemma SyncHolds(db: Database, namespace: string, corpus: Corpus, now: int, limits: Limits)
    requires ValidSnapshot(Snapshot(corpus), limits)
    ensures forall m <- Snapshot(corpus) :: m.id > 0
    ensures Holds(Sync(db, namespace, Snapshot(corpus), now, limits), namespace, corpus)
  {
    SyncMirrors(db, namespace, Snapshot(corpus), now, limits);
    StableSorting.MembersOfSort(BY_ID, corpus);
    var rows := Sync(db, namespace, Snapshot(corpus), now, limits)[namespace].rows;
    forall id: nat
      ensures id in rows <==> exists m <- corpus :: m.id == id
    {
      if id in rows {
        var m :| m in Snapshot(corpus) && m.id as nat == id;
        assert m in corpus;
      }
      if m :| m in corpus && m.id == id {
        assert m in Snapshot(corpus);
      }
    }
  }

  lemma HoldingStays(db: Database, namespace: string, corpus: Corpus, elsewhere: Others, k: nat)
    requires Holds(db, namespace, corpus) && LeaveAlone(elsewhere, namespace)
    ensures Holds(elsewhere(k)(db), namespace, corpus)
  {
  }

  /** Two corpora in the same key order hold the same memories. */
  lemma SameSnapshotSameHold(db: Database, namespace: string, corpus: Corpus, other: Corpus)
    requires Holds(db, namespace, corpus) && Snapshot(corpus) == Snapshot(other)
    ensures Holds(db, namespace, other)
  {
    StableSorting.MembersOfSort(BY_ID, corpus);
    StableSorting.MembersOfSort(BY_ID, other);
    assert forall m :: m in corpus <==> m in other;
  }

  /** Each uploaded record was new, replaced or already there. */
  predicate AddsUp(report: StoreObjects.SyncReport, memories: nat) {
    report.inserted + report.replaced + report.untouched == memories
  }

  /** One upload, and what others do until the corpus is read again. */
  method Upload(remote: StoreObjects.CloudflareMemoryStore, memories: Corpus, elsewhere: Others, k: nat, now: int,
                ghost corpus: Corpus)
    returns (verdict: Result<StoreObjects.SyncReport>)
    requires memories == Snapshot(corpus) && LeaveAlone(elsewhere, remote.namespace)
    modifies remote.database
    ensures verdict.Ok? <==> ValidSnapshot(memories, remote.limits)
    ensures verdict.Ok? ==> Holds(remote.database.tables, remote.namespace, corpus) && AddsUp(verdict.value, |memories|)
    ensures verdict.Err? ==> remote.database.tables == old(remote.database.tables)
  {
    ghost var before := remote.database.tables;
    verdict := remote.Sync(memories, now);
    if verdict.Ok? {
      SyncHolds(before, remote.namespace, corpus, now, remote.limits);
      HoldingStays(remote.database.tables, remote.namespace, corpus, elsewhere, k);
      remote.database.tables := elsewhere(k)(remote.database.tables);
    }
  }

  /** What one more upload and read amount to; no outcome if the corpus changed meanwhile. */
  ghost predicate Attempted(script: Script, k: nat, namespace: string, limits: Limits, tables: Database, outcome: Option<Outcome>)
    requires script(k).Ok?
  {
    match outcome
    case None => Changed(script, k)
    case Some(Pushed(memories, sync)) =>
      && Still(script, k) && Holds(tables, namespace, script(k + 1).value)
      && memories == |script(k + 1).value| && AddsUp(sync, memories)
    case Some(Failed(Local(error))) => script(k + 1) == Err(error)
    case Some(Failed(PushStore(_))) => !ValidSnapshot(Snapshot(script(k).value), limits)
    case _ => false
  }

  lemma StillHolds(db: Database, namespace: string, script: Script, k: nat)
    requires Still(script, k) && Holds(db, namespace, script(k).value)
    ensures Holds(db, namespace, script(k + 1).value)
    ensures |Snapshot(script(k).value)| == |script(k + 1).value|
  {
    var corpus, current := script(k).value, script(k + 1).value;
    SameSnapshotSameHold(db, namespace, corpus, current);
    StableSorting.SortPermutes(BY_ID, current);
    assert |multiset(Snapshot(current))| == |multiset(current)|;
  }

  method Attempt(script: Script, k: nat, remote: StoreObjects.CloudflareMemoryStore, memories: Corpus, elsewhere: Others, now: int)
    returns (outcome: Option<Outcome>, current: Corpus)
    requires script(k).Ok? && memories == Snapshot(script(k).value) && LeaveAlone(elsewhere, remote.namespace)
    modifies remote.database
    ensures script(k).Ok? && Attempted(script, k, remote.namespace, remote.limits, remote.database.tables, outcome)
    ensures outcome.None? ==> current == Snapshot(script(k + 1).value)
    ensures outcome.Some? && outcome.value.Failed? && outcome.value.failure.PushStore? ==>
      remote.database.tables == old(remote.database.tables)
  {
    current := memories;
    var verdict := Upload(remote, memories, elsewhere, k, now, script(k).value);
    if verdict.Err? {
      return Some(Failed(PushStore(verdict.error))), current;
    }
    if script(k + 1).Err? {
      return Some(Failed(Local(script(k + 1).error))), current;
    }
    current := Snapshot(script(k + 1).value);
    if current == memories {
      StillHolds(remote.database.tables, remote.namespace, script, k);
      return Some(Pushed(|memories|, verdict.value)), current;
    }
    return None, current;
  }

  /**
   * A push that succeeds leaves the remote namespace an exact copy of the corpus as last read. It uploads at most
   * three times, again only after a read that found the corpus changed, and gives up only if every read did.
   */
  method Push(script: Script, remote: StoreObjects.CloudflareMemoryStore, role: Option<Role>, elsewhere: Others, clock: nat -> int)
    returns (outcome: Outcome, attempts: nat)
    requires LeaveAlone(elsewhere, remote.namespace)
    modifies remote.database
    ensures attempts <= 3
    ensures role != Some(Writer) <==> outcome == Failed(Unavailable) || outcome == Failed(ReadOnly)
    ensures attempts == 0 <==> role != Some(Writer) || script(0).Err?
    ensures attempts == 0 ==> remote.database.tables == old(remote.database.tables)
    ensures attempts == 0 && role == Some(Writer) ==> outcome == Failed(Local(script(0).error))
    ensures forall k | 0 <= k < attempts - 1 :: Changed(script, k)
    ensures attempts > 0 ==> script(attempts - 1).Ok?
    ensures attempts > 0 ==>
      if outcome == Failed(LocalChanged) then attempts == 3 && Changed(script, attempts - 1)
      else Attempted(script, attempts - 1, remote.namespace, remote.limits, remote.database.tables, Some(outcome))
  {
    if role.None? {
      return Failed(Unavailable), 0;
    }
    if role.value != Writer {
      return Failed(ReadOnly), 0;
    }
    if script(0).Err? {
      return Failed(Local(script(0).error)), 0;
    }
    var memories := Snapshot(script(0).value);
    attempts := 0;
    while attempts < PUSH_ATTEMPTS
      invariant attempts <= PUSH_ATTEMPTS && script(attempts).Ok?
      invariant memories == Snapshot(script(attempts).value)
      invariant forall k | 0 <= k < attempts :: Changed(script, k)
    {
      var result, current := Attempt(script, attempts, remote, memories, elsewhere, clock(attempts));
      attempts := attempts + 1;
      if result.Some? {
        return result.value, attempts;
      }
      memories := current;
    }
    assert Changed(script, attempts - 1);
    return Failed(LocalChanged), attempts;
  }
}

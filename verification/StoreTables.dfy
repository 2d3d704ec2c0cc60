/** What each request keeps of a namespace's table, and what its verdict says about its effect. */
module StoreTables {
  import opened StoreModel
  import opened Wrappers

  // ------------------------------------------------------------------ the byte total

  lemma {:induction false} TotalWithout(rows: map<nat, Row>, id: nat)
    requires id in rows
    ensures TotalBytes(rows) == |rows[id].content| + TotalBytes(rows - {id})
    decreases |rows|
  {
    var k :| k in rows && TotalBytes(rows) == |rows[k].content| + TotalBytes(rows - {k});
    if k != id {
      TotalWithout(rows - {k}, id);
      TotalWithout(rows - {id}, k);
      assert rows - {k} - {id} == rows - {id} - {k};
    }
  }

  lemma TotalWith(rows: map<nat, Row>, id: nat, r: Row)
    ensures TotalBytes(rows[id := r]) ==
      TotalBytes(rows) + |r.content| - if id in rows then |rows[id].content| else 0
  {
    TotalWithout(rows[id := r], id);
    assert rows[id := r] - {id} == rows - {id};
    if id in rows {
      TotalWithout(rows, id);
    } else {
      assert rows - {id} == rows;
    }
  }

  /** Keeping some rows, with contents unchanged, keeps at most their bytes, and all of them when all are kept. */
  lemma {:induction false} TotalOfPart(part: map<nat, Row>, rows: map<nat, Row>)
    requires part.Keys <= rows.Keys && forall id <- part :: part[id].content == rows[id].content
    ensures TotalBytes(part) <= TotalBytes(rows)
    ensures part.Keys == rows.Keys ==> TotalBytes(part) == TotalBytes(rows)
    decreases |rows|
  {
    if rows == map[] {
      assert part == map[];
    } else {
      var k :| k in rows && TotalBytes(rows) == |rows[k].content| + TotalBytes(rows - {k});
      if k in part {
        TotalWithout(part, k);
        TotalOfPart(part - {k}, rows - {k});
        if part.Keys == rows.Keys {
          assert (part - {k}).Keys == (rows - {k}).Keys;
        }
      } else {
        TotalOfPart(part, rows - {k});
      }
    }
  }

  lemma CardOfPart(part: map<nat, Row>, rows: map<nat, Row>)
    requires part.Keys <= rows.Keys
    ensures |part| <= |rows|
  {
    SubsetCard(part.Keys, rows.Keys);
    assert |part| == |part.Keys| && |rows| == |rows.Keys|;
  }

  lemma {:induction false} SubsetCard(a: set<nat>, b: set<nat>)
    requires a <= b
    ensures |a| <= |b|
    decreases b
  {
    if b != {} {
      var x :| x in b;
      SubsetCard(a - {x}, b - {x});
    }
  }

  // ------------------------------------------------------------------ what a table must be

  predicate UniqueIdentities(rows: map<nat, Row>) {
    forall a, b | a in rows && b in rows && a != b :: rows[a].identity != rows[b].identity
  }

  predicate GoodRow(id: nat, r: Row, next: nat, limits: Limits) {
    0 < id < next && r.version > 0 && r.identity == limits.identity(r.content) && ValidateContent(r.content, limits).None?
  }

  /** Within limits, no identity twice, positive versions, and every id below `next`. */
  ghost predicate GoodTable(t: Table, limits: Limits) {
    && 0 < t.next
    && (forall id <- t.rows :: GoodRow(id, t.rows[id], t.next, limits))
    && UniqueIdentities(t.rows)
    && |t.rows| <= limits.records
    && TotalBytes(t.rows) <= limits.totalBytes
  }

  ghost predicate GoodDatabase(db: Database, limits: Limits) {
    forall namespace <- db :: GoodTable(db[namespace], limits)
  }

  // ------------------------------------------------------------------ statements keep tables good

  /** A table that keeps some of its rows, perhaps with other telemetry. */
  predicate Trimmed(t1: Table, t: Table) {
    && t1.next == t.next
    && t1.rows.Keys <= t.rows.Keys
    && forall id <- t1.rows ::
         && t1.rows[id].version == t.rows[id].version
         && t1.rows[id].content == t.rows[id].content
         && t1.rows[id].identity == t.rows[id].identity
  }

  lemma TrimmedIsGood(t1: Table, t: Table, limits: Limits)
    requires GoodTable(t, limits) && Trimmed(t1, t)
    ensures GoodTable(t1, limits)
  {
    TotalOfPart(t1.rows, t.rows);
    CardOfPart(t1.rows, t.rows);
    forall id | id in t1.rows
      ensures GoodRow(id, t1.rows[id], t1.next, limits)
    {
      assert GoodRow(id, t.rows[id], t.next, limits);
    }
  }

  lemma PruneKeeps(db: Database, now: int, limits: Limits)
    requires GoodDatabase(db, limits)
    ensures GoodDatabase(Prune(db, now), limits)
  {
    forall namespace | namespace in db
      ensures GoodTable(Prune(db, now)[namespace], limits)
    {
      TrimmedIsGood(PruneTable(db[namespace], now), db[namespace], limits);
    }
  }

  lemma EnsureKeeps(db: Database, namespace: string, limits: Limits)
    requires GoodDatabase(db, limits)
    ensures GoodDatabase(Ensure(db, namespace), limits)
  {
  }

  lemma InsertKeepsTable(t: Table, content: Text, now: int, limits: Limits)
    requires GoodTable(t, limits) && ValidateContent(content, limits).None?
    ensures GoodTable(InsertStatements(t, content, now, limits), limits)
  {
    if InsertGuard(t, content, limits) {
      var r := NewRow(content, now, limits);
      var t1 := Table(t.rows[t.next := r], t.next + 1);
      TotalWith(t.rows, t.next, r);
      assert t.next !in t.rows;
      assert |t1.rows| == |t.rows| + 1;
      forall id | id in t1.rows
        ensures GoodRow(id, t1.rows[id], t1.next, limits)
      {
        if id != t.next {
          assert GoodRow(id, t.rows[id], t.next, limits);
        }
      }
    }
  }

  lemma ReplaceKeepsTable(t: Table, id: int, version: nat, content: Text, now: int, limits: Limits)
    requires GoodTable(t, limits) && ValidateContent(content, limits).None?
    ensures GoodTable(ReplaceStatement(t, id, version, content, now, limits), limits)
  {
    if ReplaceGuard(t, id, version, content, limits) {
      var r := ReplacedRow(t.rows[id], content, now, limits);
      var t1 := t.(rows := t.rows[id := r]);
      TotalWith(t.rows, id, r);
      assert t1.rows.Keys == t.rows.Keys;
      assert |t1.rows| == |t1.rows.Keys| == |t.rows|;
      forall k | k in t1.rows
        ensures GoodRow(k, t1.rows[k], t1.next, limits)
      {
        assert GoodRow(k, t.rows[k], t.next, limits);
      }
    }
  }

  // ------------------------------------------------------------------ the snapshot as a table

  predicate DistinctIds(memories: seq<Memory>) {
    forall i, j :: 0 <= i < j < |memories| ==> memories[i].id != memories[j].id
  }

  lemma {:induction false} SnapshotStores(memories: seq<Memory>, limits: Limits)
    requires (forall m <- memories :: m.id > 0) && DistinctIds(memories)
    ensures var rows := SnapshotRows(memories, limits);
      && (forall id: nat :: id in rows ==> exists m <- memories :: m.id == id)
      && (forall m <- memories :: m.id in rows && rows[m.id] == Stored(m, limits))
  {
    if memories != [] {
      var n := |memories| - 1;
      assert memories == memories[..n] + [memories[n]];
      SnapshotStores(memories[..n], limits);
      assert forall m <- memories[..n] :: m.id != memories[n].id;
    }
  }

  /** The last record's id is not taken by the ones before. */
  lemma LastIsNew(memories: seq<Memory>, n: nat, limits: Limits)
    requires (forall m <- memories :: m.id > 0) && DistinctIds(memories) && |memories| == n + 1
    ensures (forall m <- memories[..n] :: m.id > 0) && DistinctIds(memories[..n])
    ensures memories[n].id > 0 && memories[n].id !in SnapshotRows(memories[..n], limits)
  {
    assert memories == memories[..n] + [memories[n]];
    assert forall m <- memories[..n] :: m.id != memories[n].id;
    SnapshotStores(memories[..n], limits);
  }

  lemma {:induction false} SnapshotTotals(memories: seq<Memory>, limits: Limits)
    requires (forall m <- memories :: m.id > 0) && DistinctIds(memories)
    ensures var rows := SnapshotRows(memories, limits); |rows| == |memories| && TotalBytes(rows) == BytesOf(memories)
  {
    if memories != [] {
      var n := |memories| - 1;
      LastIsNew(memories, n, limits);
      SnapshotTotals(memories[..n], limits);
      TotalWith(SnapshotRows(memories[..n], limits), memories[n].id, Stored(memories[n], limits));
    }
  }

  lemma SnapshotMembers(memories: seq<Memory>, limits: Limits)
    requires (forall m <- memories :: m.id > 0) && DistinctIds(memories)
    ensures var rows := SnapshotRows(memories, limits);
      && rows.Keys == (set m <- memories :: m.id as nat)
      && (forall m <- memories :: m.id in rows && rows[m.id] == Stored(m, limits))
      && |rows| == |memories|
      && TotalBytes(rows) == BytesOf(memories)
  {
    SnapshotStores(memories, limits);
    SnapshotTotals(memories, limits);
  }

  lemma {:induction false} NextCovers(memories: seq<Memory>, next: nat)
    requires forall m <- memories :: m.id > 0
    ensures NextAfter(memories, next) >= next
    ensures forall m <- memories :: m.id < NextAfter(memories, next)
  {
    if memories != [] {
      var n := |memories| - 1;
      assert memories == memories[..n] + [memories[n]];
      NextCovers(memories[..n], next);
    }
  }

  lemma SnapshotIsGood(memories: seq<Memory>, next: nat, limits: Limits)
    requires ValidSnapshot(memories, limits) && next > 0
    ensures GoodTable(Table(SnapshotRows(memories, limits), NextAfter(memories, next)), limits)
  {
    SnapshotMembers(memories, limits);
    SnapshotRowsAreGood(memories, next, limits);
    SnapshotIdentitiesDiffer(memories, limits);
  }

  lemma SnapshotRowsAreGood(memories: seq<Memory>, next: nat, limits: Limits)
    requires ValidSnapshot(memories, limits) && next > 0
    ensures NextAfter(memories, next) > 0
    ensures var rows := SnapshotRows(memories, limits);
      forall id <- rows :: GoodRow(id, rows[id], NextAfter(memories, next), limits)
  {
    SnapshotMembers(memories, limits);
    NextCovers(memories, next);
    var rows := SnapshotRows(memories, limits);
    forall id | id in rows
      ensures GoodRow(id, rows[id], NextAfter(memories, next), limits)
    {
      var m :| m in memories && m.id == id;
    }
  }

  lemma SnapshotIdentitiesDiffer(memories: seq<Memory>, limits: Limits)
    requires ValidSnapshot(memories, limits)
    ensures UniqueIdentities(SnapshotRows(memories, limits))
  {
    SnapshotMembers(memories, limits);
    var rows := SnapshotRows(memories, limits);
    forall a, b | a in rows && b in rows && a != b
      ensures rows[a].identity != rows[b].identity
    {
      var i :| 0 <= i < |memories| && memories[i].id == a;
      var j :| 0 <= j < |memories| && memories[j].id == b;
      assert memories[i] in memories && memories[j] in memories;
    }
  }

  // ------------------------------------------------------------------ verdict matches effect

  lemma InsertVerdictOfTable(t: Table, namespace: string, content: Text, now: int, limits: Limits)
    requires t.next !in t.rows && |t.rows| <= limits.records
    ensures var t1 := InsertStatements(t, content, now, limits);
      var verdict := InsertVerdict(t, t1, namespace, content, limits);
      && (verdict.Ok? <==> InsertGuard(t, content, limits))
      && (verdict.Ok? <==> t1 != t)
      && (verdict.Ok? ==> verdict.value == Shown(namespace, t.next, NewRow(content, now, limits)))
      && (verdict == Err(Duplicate) ==> HasIdentity(t.rows, limits.identity(content)))
      && (verdict == Err(RecordCapacity) ==> |t.rows| == limits.records)
      && (verdict == Err(ContentCapacity) ==> TotalBytes(t.rows) + |content| > limits.totalBytes)
      && (verdict.Err? ==> verdict.error in {Duplicate, RecordCapacity, ContentCapacity})
  {
    var t1 := InsertStatements(t, content, now, limits);
    if InsertGuard(t, content, limits) {
      assert t1.rows[t.next].identity == limits.identity(content);
      forall id | id in t1.rows && t1.rows[id].identity == limits.identity(content)
        ensures id == t.next
      {
      }
      assert t1.next != t.next;
    }
  }

  /** An insert returns a record exactly when its guarded statement added that row, under an id never used before. */
  lemma InsertVerdictMatches(db: Database, namespace: string, content: Text, now: int, limits: Limits)
    requires GoodDatabase(db, limits)
    ensures var before := Ensure(Prune(db, now), namespace);
      var t := before[namespace];
      var (after, verdict) := Insert(db, namespace, content, now, limits);
      && namespace in after
      && (verdict.Ok? <==> after != before)
      && (verdict.Ok? <==> InsertGuard(t, content, limits))
      && (verdict.Ok? ==>
            && t.next !in t.rows
            && after == before[namespace := Table(t.rows[t.next := NewRow(content, now, limits)], t.next + 1)]
            && verdict.value == Shown(namespace, t.next, NewRow(content, now, limits)))
      && (verdict == Err(Duplicate) ==> HasIdentity(t.rows, limits.identity(content)))
      && (verdict == Err(RecordCapacity) ==> |t.rows| == limits.records)
      && (verdict == Err(ContentCapacity) ==> TotalBytes(t.rows) + |content| > limits.totalBytes)
      && (verdict.Err? ==> verdict.error in {Duplicate, RecordCapacity, ContentCapacity})
  {
    PruneKeeps(db, now, limits);
    EnsureKeeps(Prune(db, now), namespace, limits);
    var before := Ensure(Prune(db, now), namespace);
    var t := before[namespace];
    NextIsFree(t, limits);
    InsertVerdictOfTable(t, namespace, content, now, limits);
    var t1 := InsertStatements(t, content, now, limits);
    if t1 == t {
      assert before[namespace := t1] == before;
    } else {
      assert before[namespace := t1][namespace] != before[namespace];
    }
  }

  lemma NextIsFree(t: Table, limits: Limits)
    requires GoodTable(t, limits)
    ensures t.next !in t.rows && |t.rows| <= limits.records
  {
  }

  lemma ReplaceVerdictOfTable(t: Table, namespace: string, id: int, version: nat, content: Text, now: int, limits: Limits)
    ensures var t1 := ReplaceStatement(t, id, version, content, now, limits);
      var verdict := ReplaceVerdict(t, t1, namespace, id, version, content, limits);
      && (verdict.Ok? <==> ReplaceGuard(t, id, version, content, limits))
      && (verdict.Ok? <==> t1 != t)
      && (verdict.Ok? ==> verdict.value == Shown(namespace, id, ReplacedRow(t.rows[id], content, now, limits)))
      && (verdict.Err? ==> verdict.error in {Duplicate, NotFound, Conflict, ContentCapacity})
  {
    if ReplaceGuard(t, id, version, content, limits) {
      var r := ReplacedRow(t.rows[id], content, now, limits);
      assert t.rows[id := r][id].version == version + 1;
      assert t.rows[id := r] != t.rows;
    }
  }

  lemma ReplaceUnchanged(db: Database, namespace: string, id: int, version: nat, content: Text, now: int, limits: Limits)
    requires version < I64_MAX
    ensures var before := Prune(db, now);
      var t := TableOf(before, namespace);
      Replace(db, namespace, id, version, content, now, limits).0 == before <==>
      ReplaceStatement(t, id, version, content, now, limits) == t
  {
    var before := Prune(db, now);
    var t := TableOf(before, namespace);
    var t1 := ReplaceStatement(t, id, version, content, now, limits);
    if namespace in before {
      if t1 == t {
        assert before[namespace := t] == before;
      } else {
        assert before[namespace := t1][namespace] != before[namespace];
      }
    }
  }

  /**
   * A replace returns the new record exactly when its guarded statement changed that row. At the end of the version range it
   * answers before any statement runs, so not even expired probation is pruned.
   */
  lemma ReplaceVerdictMatches(db: Database, namespace: string, id: int, version: nat, content: Text, now: int, limits: Limits)
    ensures var before := Prune(db, now);
      var t := TableOf(before, namespace);
      var (after, verdict) := Replace(db, namespace, id, version, content, now, limits);
      && (version >= I64_MAX ==> (after, verdict) == (db, Err(Conflict)))
      && (version < I64_MAX ==> (verdict.Ok? <==> after != before))
      && (verdict.Ok? <==> version < I64_MAX && ReplaceGuard(t, id, version, content, limits))
      && (verdict.Ok? ==>
            && namespace in before
            && after == before[namespace := t.(rows := t.rows[id := ReplacedRow(t.rows[id], content, now, limits)])]
            && verdict.value == Shown(namespace, id, ReplacedRow(t.rows[id], content, now, limits)))
      && (verdict.Err? && version < I64_MAX ==> after == before)
      && (verdict.Err? ==> verdict.error in {Duplicate, NotFound, Conflict, ContentCapacity})
  {
    if version < I64_MAX {
      ReplaceVerdictOfTable(TableOf(Prune(db, now), namespace), namespace, id, version, content, now, limits);
      ReplaceUnchanged(db, namespace, id, version, content, now, limits);
    }
  }

  /** The row is there, in the version the caller names. */
  predicate InVersion(t: Table, id: int, version: nat) {
    id in t.rows && t.rows[id].version == version
  }

  /** The error names a condition of the replace statement that does not hold. */
  ghost predicate NamesFailedGuard(e: Error, t: Table, id: int, version: nat, content: Text, limits: Limits) {
    match e
    case Duplicate => IdentityElsewhere(t.rows, limits.identity(content), id)
    case NotFound => id !in t.rows
    case Conflict => !InVersion(t, id, version)
    case ContentCapacity => id in t.rows && TotalBytes(t.rows) - |t.rows[id].content| + |content| > limits.totalBytes
    case _ => false
  }

  /**
   * A refused replace names a guard that really failed, with one exception: at the end of the version range it reports a
   * conflict even if the row is there in the very version named.
   */
  lemma ReplaceErrorIsHonestExactly(db: Database, namespace: string, id: int, version: nat, content: Text, now: int, limits: Limits)
    ensures var t := TableOf(Prune(db, now), namespace);
      var verdict := Replace(db, namespace, id, version, content, now, limits).1;
      verdict.Err? ==>
        (NamesFailedGuard(verdict.error, t, id, version, content, limits) <==> version < I64_MAX || !InVersion(t, id, version))
  {
    ReplaceVerdictOfTable(TableOf(Prune(db, now), namespace), namespace, id, version, content, now, limits);
  }

  /** Such a row can be there: a snapshot may hold a record in the last version, which then no replace can change. */
  lemma LastVersionCannotBeReplaced(db: Database, namespace: string, content: Text, now: int, later: int)
    ensures var limits := Limits(1, 1, 1, 0, (t: Text) => t, (t: Text) => t == "");
      var m := Memory(None, 1, I64_MAX, "a", 0, 0, None, 0, None, 0, None);
      && ValidSnapshot([m], limits)
      && var db1 := Sync(db, namespace, [m], now, limits);
      && InVersion(TableOf(Prune(db1, later), namespace), 1, I64_MAX)
      && Replace(db1, namespace, 1, I64_MAX, content, later, limits) == (db1, Err(Conflict))
  {
    var limits := Limits(1, 1, 1, 0, (t: Text) => t, (t: Text) => t == "");
    var m := Memory(None, 1, I64_MAX, "a", 0, 0, None, 0, None, 0, None);
    assert [m][..0] == [];
    assert BytesOf([m]) == 1;
    SyncMirrors(db, namespace, [m], now, limits);
    var rows := Sync(db, namespace, [m], now, limits)[namespace].rows;
    assert m in [m];
    assert Shown(namespace, 1, rows[1]).version == I64_MAX && Shown(namespace, 1, rows[1]).probation == None;
  }

  /** A delete reports a conflict exactly when the row is there under another version; otherwise the key names no row afterwards. */
  lemma DeleteVerdictMatches(db: Database, namespace: string, key: Key)
    requires key.namespace == Some(namespace)
    ensures var (after, verdict) := Delete(db, namespace, key);
      var t, t1 := TableOf(db, namespace), TableOf(after, namespace);
      && (verdict == Err(Conflict) <==> key.id in t.rows && t.rows[key.id].version != key.version)
      && (verdict.Ok? <==> key.id !in t1.rows)
      && (verdict.Err? ==> after == db)
      && t1.rows.Keys >= t.rows.Keys - {key.id}
      && (forall id <- t1.rows :: id in t.rows && t1.rows[id] == t.rows[id])
  {
    if namespace in db && Delete(db, namespace, key).1.Err? {
      assert db[namespace := db[namespace]] == db;
    }
  }

  /** A sync makes the namespace the snapshot, leaves the others pruned, and never lowers the next id. */
  lemma SyncMirrors(db: Database, namespace: string, memories: seq<Memory>, now: int, limits: Limits)
    requires ValidSnapshot(memories, limits)
    ensures var after := Sync(db, namespace, memories, now, limits);
      && namespace in after
      && after[namespace].rows.Keys == (set m <- memories :: m.id as nat)
      && (forall m <- memories ::
            m.id in after[namespace].rows &&
            Shown(namespace, m.id, after[namespace].rows[m.id]) == m.(namespace := Some(namespace)))
      && |after[namespace].rows| == |memories|
      && after[namespace].next >= TableOf(db, namespace).next
      && (forall other <- after :: other != namespace ==> other in db && after[other] == Prune(db, now)[other])
  {
    SnapshotMembers(memories, limits);
    NextCovers(memories, Ensure(Prune(db, now), namespace)[namespace].next);
  }
}

/**
 * The shared memory store. A database is a table per writer namespace; each statement a request runs is a function on it,
 * and a request is one atomic batch of statements together with the verdict the request computes from their results.
 */
module StoreModel {
  import opened Wrappers

  datatype Result<+T> = Ok(value: T) | Err(error: Error)

  datatype Error =
    | EmptyContent | ContentTooLarge | RecordCapacity | ContentCapacity
    | Duplicate | NotFound | Conflict | RemoteReadOnly | Backend

  const I64_MAX: int := 0x7fff_ffff_ffff_ffff

  /** Texts are sequences of UTF-8 bytes; `identity` and `blank` are the store's text functions. */
  type Text = string

  datatype Limits = Limits(
    contentBytes: nat, records: nat, totalBytes: nat, probation: nat,
    identity: Text -> Text, blank: Text -> bool)

  datatype Row = Row(
    version: nat, content: Text, identity: Text, created: int, updated: int,
    lastScanned: Option<int>, scans: nat, lastUsed: Option<int>, uses: nat, probation: Option<int>)

  datatype Table = Table(rows: map<nat, Row>, next: nat)

  type Database = map<string, Table>

  /** A record as clients see it. */
  datatype Memory = Memory(
    namespace: Option<string>, id: int, version: nat, content: Text, created: int, updated: int,
    lastScanned: Option<int>, scans: nat, lastUsed: Option<int>, uses: nat, probation: Option<int>)

  datatype Key = Key(namespace: Option<string>, id: int, version: nat)

  function Shown(namespace: string, id: nat, r: Row): Memory {
    Memory(Some(namespace), id, r.version, r.content, r.created, r.updated,
           r.lastScanned, r.scans, r.lastUsed, r.uses, r.probation)
  }

  function Stored(m: Memory, limits: Limits): Row {
    Row(m.version, m.content, limits.identity(m.content), m.created, m.updated,
        m.lastScanned, m.scans, m.lastUsed, m.uses, m.probation)
  }

  // ------------------------------------------------------------------ aggregates

  ghost function TotalBytes(rows: map<nat, Row>): nat
    decreases |rows|
  {
    if rows == map[] then 0
    else
      var id :| id in rows;
      |rows[id].content| + TotalBytes(rows - {id})
  }

  predicate HasIdentity(rows: map<nat, Row>, identity: Text) {
    exists id <- rows :: rows[id].identity == identity
  }

  predicate IdentityElsewhere(rows: map<nat, Row>, identity: Text, id: int) {
    exists other <- rows :: rows[other].identity == identity && other != id
  }

  // ------------------------------------------------------------------ statements

  predicate Expired(r: Row, now: int) {
    r.probation.Some? && r.probation.value <= now && r.uses == 0
  }

  function PruneTable(t: Table, now: int): Table {
    t.(rows := map id | id in t.rows && !Expired(t.rows[id], now) :: t.rows[id])
  }

  function Prune(db: Database, now: int): Database {
    map namespace | namespace in db :: PruneTable(db[namespace], now)
  }

  function Ensure(db: Database, namespace: string): Database {
    if namespace in db then db else db[namespace := Table(map[], 1)]
  }

  /** The guard of the insert statement. */
  ghost predicate InsertGuard(t: Table, content: Text, limits: Limits) {
    && |t.rows| < limits.records
    && TotalBytes(t.rows) + |content| <= limits.totalBytes
    && !HasIdentity(t.rows, limits.identity(content))
  }

  function ProbationEnd(now: int, limits: Limits): int {
    if now + limits.probation > I64_MAX then I64_MAX else now + limits.probation
  }

  function NewRow(content: Text, now: int, limits: Limits): Row {
    Row(1, content, limits.identity(content), now, now, None, 0, None, 0, Some(ProbationEnd(now, limits)))
  }

  /** The guarded insert, and the bump of `next_id` when it changed a row. */
  ghost function InsertStatements(t: Table, content: Text, now: int, limits: Limits): Table {
    if InsertGuard(t, content, limits) then Table(t.rows[t.next := NewRow(content, now, limits)], t.next + 1) else t
  }

  /** The guard of the replace statement. */
  ghost predicate ReplaceGuard(t: Table, id: int, version: nat, content: Text, limits: Limits) {
    && id in t.rows
    && t.rows[id].version == version
    && !IdentityElsewhere(t.rows, limits.identity(content), id)
    && TotalBytes(t.rows) - |t.rows[id].content| + |content| <= limits.totalBytes
  }

  function ReplacedRow(row: Row, content: Text, now: int, limits: Limits): Row {
    Row(row.version + 1, content, limits.identity(content), row.created, now, None, 0, None, 0, Some(ProbationEnd(now, limits)))
  }

  ghost function ReplaceStatement(t: Table, id: int, version: nat, content: Text, now: int, limits: Limits): Table {
    if ReplaceGuard(t, id, version, content, limits)
    then t.(rows := t.rows[id := ReplacedRow(t.rows[id], content, now, limits)]) else t
  }

  function DeleteStatement(t: Table, id: int, version: nat): Table {
    if id in t.rows && t.rows[id].version == version then t.(rows := t.rows - {id}) else t
  }

  // ------------------------------------------------------------------ requests

  function ValidateContent(content: Text, limits: Limits): Option<Error> {
    if limits.blank(content) then Some(EmptyContent)
    else if |content| > limits.contentBytes then Some(ContentTooLarge)
    else None
  }

  /** The verdict of an insert, from measurements taken before the guarded statement and a read after it. */
  ghost function InsertVerdict(before: Table, after: Table, namespace: string, content: Text, limits: Limits): Result<Memory> {
    var identity := limits.identity(content);
    if HasIdentity(before.rows, identity) then Err(Duplicate)
    else if |before.rows| >= limits.records then Err(RecordCapacity)
    else if TotalBytes(before.rows) + |content| > limits.totalBytes then Err(ContentCapacity)
    else if HasIdentity(after.rows, identity) then
      var id :| id in after.rows && after.rows[id].identity == identity;
      Ok(Shown(namespace, id, after.rows[id]))
    else Err(Backend)
  }

  ghost function Insert(db: Database, namespace: string, content: Text, now: int, limits: Limits): (Database, Result<Memory>) {
    var db1 := Ensure(Prune(db, now), namespace);
    var t := InsertStatements(db1[namespace], content, now, limits);
    (db1[namespace := t], InsertVerdict(db1[namespace], t, namespace, content, limits))
  }

  /** The table of a namespace, empty when it has none. */
  function TableOf(db: Database, namespace: string): Table {
    if namespace in db then db[namespace] else Table(map[], 1)
  }

  ghost function ReplaceVerdict(before: Table, after: Table, namespace: string, id: int, version: nat,
                                content: Text, limits: Limits): Result<Memory> {
    if IdentityElsewhere(before.rows, limits.identity(content), id) then Err(Duplicate)
    else if id !in before.rows then Err(NotFound)
    else if before.rows[id].version != version then Err(Conflict)
    else if TotalBytes(before.rows) - |before.rows[id].content| + |content| > limits.totalBytes then Err(ContentCapacity)
    else if id in after.rows && after.rows[id].version == version + 1 then Ok(Shown(namespace, id, after.rows[id]))
    else Err(Backend)
  }

  ghost function Replace(db: Database, namespace: string, id: int, version: nat, content: Text, now: int, limits: Limits)
    : (Database, Result<Memory>)
  {
    if version >= I64_MAX then (db, Err(Conflict))
    else
      var db1 := Prune(db, now);
      var before := TableOf(db1, namespace);
      var after := ReplaceStatement(before, id, version, content, now, limits);
      (if namespace in db1 then db1[namespace := after] else db1,
       ReplaceVerdict(before, after, namespace, id, version, content, limits))
  }

  ghost function Put(db: Database, namespace: string, content: Text, replacement: Option<Key>, now: int, limits: Limits)
    : (Database, Result<Memory>)
  {
    var invalid := ValidateContent(content, limits);
    if invalid.Some? then (db, Err(invalid.value))
    else if replacement.None? then Insert(db, namespace, content, now, limits)
    else if replacement.value.namespace != Some(namespace) then (db, Err(RemoteReadOnly))
    else Replace(db, namespace, replacement.value.id, replacement.value.version, content, now, limits)
  }

  function Delete(db: Database, namespace: string, key: Key): (Database, Result<()>) {
    if key.namespace != Some(namespace) then (db, Err(RemoteReadOnly))
    else if namespace !in db then (db, Ok(()))
    else
      var t := db[namespace];
      (db[namespace := DeleteStatement(t, key.id, key.version)],
       if key.id in t.rows && t.rows[key.id].version != key.version then Err(Conflict) else Ok(()))
  }

  // ------------------------------------------------------------------ snapshots

  predicate WellFormed(m: Memory) {
    && m.namespace.None? && m.id > 0 && m.version > 0
    && m.version <= I64_MAX && m.scans <= I64_MAX && m.uses <= I64_MAX
    && m.created >= 0 && m.updated >= m.created
  }

  function BytesOf(memories: seq<Memory>): nat {
    if memories == [] then 0 else BytesOf(memories[..|memories| - 1]) + |memories[|memories| - 1].content|
  }

  /** What a snapshot must be for `sync` to accept it. */
  predicate ValidSnapshot(memories: seq<Memory>, limits: Limits) {
    && |memories| <= limits.records
    && (forall m <- memories :: WellFormed(m) && ValidateContent(m.content, limits).None?)
    && (forall i, j :: 0 <= i < j < |memories| ==> memories[i].id != memories[j].id)
    && (forall i, j :: 0 <= i < j < |memories| ==>
          limits.identity(memories[i].content) != limits.identity(memories[j].content))
    && BytesOf(memories) <= limits.totalBytes
  }

  function SnapshotRows(memories: seq<Memory>, limits: Limits): map<nat, Row>
    requires forall m <- memories :: m.id > 0
  {
    if memories == [] then map[]
    else
      var last := memories[|memories| - 1];
      SnapshotRows(memories[..|memories| - 1], limits)[last.id := Stored(last, limits)]
  }

  function NextAfter(memories: seq<Memory>, next: nat): nat
    requires forall m <- memories :: m.id > 0
  {
    if memories == [] then next
    else
      var rest := NextAfter(memories[..|memories| - 1], next);
      var id := memories[|memories| - 1].id;
      if id + 1 > rest then id + 1 else rest
  }

  /** The namespace becomes the snapshot; the previous rows feed the report. */
  function Sync(db: Database, namespace: string, memories: seq<Memory>, now: int, limits: Limits): Database
    requires forall m <- memories :: m.id > 0
  {
    var db1 := Ensure(Prune(db, now), namespace);
    db1[namespace := Table(SnapshotRows(memories, limits), NextAfter(memories, db1[namespace].next))]
  }

  // ------------------------------------------------------------------ reads and scans

  /** One selector of a read; `version` is absent for a namespace-relative id. */
  datatype ReadRequest = ReadRequest(namespace: string, id: int, version: Option<nat>)

  predicate Wanted(requests: set<ReadRequest>, namespace: string, id: nat, r: Row) {
    exists q <- requests :: q.namespace == namespace && q.id == id && (q.version.None? || q.version.value == r.version)
  }

  function Counted(n: nat): nat {
    if n < I64_MAX then n + 1 else n
  }

  function Used(r: Row, now: int): Row {
    r.(lastUsed := Some(now), uses := Counted(r.uses), probation := None)
  }

  function Read(db: Database, requests: set<ReadRequest>, now: int): Database {
    var db1 := Prune(db, now);
    map namespace | namespace in db1 ::
      db1[namespace].(rows := map id | id in db1[namespace].rows ::
        if Wanted(requests, namespace, id, db1[namespace].rows[id])
        then Used(db1[namespace].rows[id], now) else db1[namespace].rows[id])
  }

  /** The maintenance of a scan: prune, then count each candidate that still has its version. */
  function Scan(db: Database, candidates: set<ReadRequest>, now: int): Database {
    var db1 := Prune(db, now);
    map namespace | namespace in db1 ::
      db1[namespace].(rows := map id | id in db1[namespace].rows ::
        if Wanted(candidates, namespace, id, db1[namespace].rows[id])
        then db1[namespace].rows[id].(lastScanned := Some(now), scans := Counted(db1[namespace].rows[id].scans))
        else db1[namespace].rows[id])
  }
}

/** The store as an object over a shared database, and the loops its requests run outside SQL. */
module StoreObjects {
  import opened StoreModel
  import opened StoreTables
  import StoreRuns
  import opened Wrappers

  // ------------------------------------------------------------------ validating a snapshot

  /** The loop's sets and sum, over the records that passed. */
  ghost predicate Checked(part: seq<Memory>, limits: Limits, ids: set<int>, identities: set<Text>, bytes: nat) {
    && ids == IdsOf(part) && identities == (set m <- part :: limits.identity(m.content)) && bytes == BytesOf(part)
    && (forall m <- part :: WellFormed(m) && ValidateContent(m.content, limits).None?)
    && DistinctIds(part) && DistinctIdentities(part, limits)
  }

  predicate DistinctIdentities(memories: seq<Memory>, limits: Limits) {
    forall i, j :: 0 <= i < j < |memories| ==> limits.identity(memories[i].content) != limits.identity(memories[j].content)
  }

  /** Why the next record is refused after the ones that passed. */
  ghost predicate RefusedAfter(part: seq<Memory>, m: Memory, limits: Limits, e: Error) {
    match e
    case Conflict => !WellFormed(m) || m.id in IdsOf(part)
    case EmptyContent => limits.blank(m.content)
    case ContentTooLarge => |m.content| > limits.contentBytes
    case Duplicate => exists x <- part :: limits.identity(x.content) == limits.identity(m.content)
    case _ => false
  }

  method CheckNext(ghost part: seq<Memory>, m: Memory, limits: Limits, ids: set<int>, identities: set<Text>, ghost bytes: nat)
    returns (failure: Option<Error>)
    requires Checked(part, limits, ids, identities, bytes)
    ensures failure.Some? ==> RefusedAfter(part, m, limits, failure.value)
    ensures failure.None? ==>
      && WellFormed(m) && ValidateContent(m.content, limits).None?
      && m.id !in ids && limits.identity(m.content) !in identities
  {
    if !WellFormed(m) || m.id in ids {
      return Some(Conflict);
    }
    var invalid := ValidateContent(m.content, limits);
    if invalid.Some? {
      return invalid;
    }
    if limits.identity(m.content) in identities {
      return Some(Duplicate);
    }
    return None;
  }

  lemma CheckedGrows(part: seq<Memory>, m: Memory, limits: Limits, ids: set<int>, identities: set<Text>, bytes: nat)
    requires Checked(part, limits, ids, identities, bytes)
    requires WellFormed(m) && ValidateContent(m.content, limits).None?
    requires m.id !in ids && limits.identity(m.content) !in identities
    ensures Checked(part + [m], limits, ids + {m.id}, identities + {limits.identity(m.content)}, bytes + |m.content|)
  {
    IdsAppend(part, m);
    assert (part + [m])[..|part|] == part;
    assert forall i | 0 <= i < |part| :: part[i] in part;
    ListIds(part, m);
  }

  /** A refused record is a rule the whole snapshot breaks. */
  lemma RefusalHolds(memories: seq<Memory>, i: nat, limits: Limits, e: Error)
    requires i < |memories| && RefusedAfter(memories[..i], memories[i], limits, e)
    ensures !ValidSnapshot(memories, limits) && e in {Conflict, EmptyContent, ContentTooLarge, Duplicate}
    ensures e == Conflict ==> !WellFormed(memories[i]) || exists j :: 0 <= j < i && memories[j].id == memories[i].id
    ensures e == Duplicate ==> exists j :: 0 <= j < i && limits.identity(memories[j].content) == limits.identity(memories[i].content)
    ensures e == EmptyContent ==> exists m <- memories :: limits.blank(m.content)
    ensures e == ContentTooLarge ==> exists m <- memories :: |m.content| > limits.contentBytes
  {
    assert memories[i] in memories;
    if e == Conflict && memories[i].id in IdsOf(memories[..i]) {
      var m :| m in memories[..i] && m.id == memories[i].id;
      var j :| 0 <= j < i && memories[j] == m;
    }
    if e == Duplicate {
      var m :| m in memories[..i] && limits.identity(m.content) == limits.identity(memories[i].content);
      var j :| 0 <= j < i && memories[j] == m;
    }
  }

  /** Accepts exactly the valid snapshots, and otherwise names a rule that the snapshot breaks. */
  method ValidateSnapshot(memories: seq<Memory>, limits: Limits) returns (failure: Option<Error>)
    ensures failure.None? <==> ValidSnapshot(memories, limits)
    ensures failure == Some(RecordCapacity) <==> |memories| > limits.records
    ensures failure == Some(Conflict) ==>
      exists i :: 0 <= i < |memories| && (!WellFormed(memories[i]) || exists j :: 0 <= j < i && memories[j].id == memories[i].id)
    ensures failure == Some(EmptyContent) ==> exists m <- memories :: limits.blank(m.content)
    ensures failure == Some(ContentTooLarge) ==> exists m <- memories :: |m.content| > limits.contentBytes
    ensures failure == Some(Duplicate) ==>
      exists i, j :: 0 <= j < i < |memories| && limits.identity(memories[j].content) == limits.identity(memories[i].content)
    ensures failure == Some(ContentCapacity) ==> BytesOf(memories) > limits.totalBytes
    ensures failure.Some? ==>
      failure.value in {RecordCapacity, Conflict, EmptyContent, ContentTooLarge, Duplicate, ContentCapacity}
  {
    if |memories| > limits.records {
      return Some(RecordCapacity);
    }
    var ids: set<int> := {};
    var identities: set<Text> := {};
    var bytes: nat := 0;
    for i := 0 to |memories|
      invariant Checked(memories[..i], limits, ids, identities, bytes)
    {
      var m := memories[i];
      assert memories[..i + 1] == memories[..i] + [m];
      var bad := CheckNext(memories[..i], m, limits, ids, identities, bytes);
      if bad.Some? {
        RefusalHolds(memories, i, limits, bad.value);
        return bad;
      }
      CheckedGrows(memories[..i], m, limits, ids, identities, bytes);
      ids := ids + {m.id};
      identities := identities + {limits.identity(m.content)};
      bytes := bytes + |m.content|;
    }
    assert memories[..|memories|] == memories;
    if bytes > limits.totalBytes {
      return Some(ContentCapacity);
    }
    return None;
  }

  // ------------------------------------------------------------------ reporting a sync

  datatype SyncReport = SyncReport(inserted: nat, replaced: nat, untouched: nat, deleted: nat)

  ghost function IdsOf(memories: seq<Memory>): set<int> {
    set m <- memories :: m.id
  }

  /** The ids whose previous record is already the incoming one. */
  ghost function SameIds(previous: seq<Memory>, incoming: seq<Memory>, namespace: string): set<int> {
    set m | m in incoming && m.(namespace := Some(namespace)) in previous :: m.id
  }

  lemma {:induction false} IdsCounted(memories: seq<Memory>)
    requires DistinctIds(memories)
    ensures |IdsOf(memories)| == |memories|
  {
    if memories != [] {
      var n := |memories| - 1;
      assert memories == memories[..n] + [memories[n]];
      IdsCounted(memories[..n]);
      assert IdsOf(memories) == IdsOf(memories[..n]) + {memories[n].id};
    }
  }

  lemma SplitCount(a: set<int>, b: set<int>)
    ensures |a| == |a * b| + |a - b|
  {
    assert a == (a * b) + (a - b);
  }

  /** The report so far, id by id. */
  ghost predicate Tallied(report: SyncReport, previous: seq<Memory>, part: seq<Memory>, namespace: string) {
    && report.inserted == |IdsOf(part) - IdsOf(previous)|
    && report.untouched == |SameIds(previous, part, namespace)|
    && report.replaced + report.untouched == |IdsOf(part) * IdsOf(previous)|
  }

  lemma IdsAppend(part: seq<Memory>, m: Memory)
    ensures IdsOf(part + [m]) == IdsOf(part) + {m.id}
  {
  }

  /** One more element, in the other set or not. */
  lemma OneMore(a: set<int>, b: set<int>, x: int)
    requires x !in a
    ensures |(a + {x}) - b| == |a - b| + if x in b then 0 else 1
    ensures |(a + {x}) * b| == |a * b| + if x in b then 1 else 0
  {
    if x in b {
      assert (a + {x}) - b == a - b;
      assert (a + {x}) * b == a * b + {x};
    } else {
      assert (a + {x}) - b == a - b + {x};
      assert (a + {x}) * b == a * b;
    }
  }

  lemma TallyNew(previous: seq<Memory>, part: seq<Memory>, m: Memory, namespace: string)
    requires m.id !in IdsOf(part) && m.id !in IdsOf(previous)
    ensures |IdsOf(part + [m]) - IdsOf(previous)| == |IdsOf(part) - IdsOf(previous)| + 1
    ensures |IdsOf(part + [m]) * IdsOf(previous)| == |IdsOf(part) * IdsOf(previous)|
    ensures SameIds(previous, part + [m], namespace) == SameIds(previous, part, namespace)
  {
    IdsAppend(part, m);
    OneMore(IdsOf(part), IdsOf(previous), m.id);
    SameIdsGrow(previous, part, m, namespace);
    assert m.(namespace := Some(namespace)).id == m.id;
  }

  lemma SameIdsGrow(previous: seq<Memory>, part: seq<Memory>, m: Memory, namespace: string)
    ensures SameIds(previous, part + [m], namespace) ==
      SameIds(previous, part, namespace) + if m.(namespace := Some(namespace)) in previous then {m.id} else {}
  {
    var all := SameIds(previous, part + [m], namespace);
    assert forall x <- part :: x in part + [m];
    assert (part + [m])[|part|] == m;
    forall id | id in all
      ensures id in SameIds(previous, part, namespace) + if m.(namespace := Some(namespace)) in previous then {m.id} else {}
    {
      var x :| x in part + [m] && x.(namespace := Some(namespace)) in previous && x.id == id;
      assert x in part || x == m;
    }
  }

  lemma TallyKnown(previous: seq<Memory>, part: seq<Memory>, m: Memory, found: Memory)
    requires m.id !in IdsOf(part) && found in previous && found.id == m.id
    ensures |IdsOf(part + [m]) - IdsOf(previous)| == |IdsOf(part) - IdsOf(previous)|
    ensures |IdsOf(part + [m]) * IdsOf(previous)| == |IdsOf(part) * IdsOf(previous)| + 1
  {
    IdsAppend(part, m);
    assert m.id in IdsOf(previous);
    OneMore(IdsOf(part), IdsOf(previous), m.id);
  }

  lemma TallySame(previous: seq<Memory>, part: seq<Memory>, m: Memory, found: Memory, namespace: string)
    requires m.id !in IdsOf(part) && found in previous
    requires forall x <- previous :: x.id == m.id ==> x == found
    ensures |SameIds(previous, part + [m], namespace)| ==
      |SameIds(previous, part, namespace)| + if found == m.(namespace := Some(namespace)) then 1 else 0
  {
    SameIdsGrow(previous, part, m, namespace);
    assert SameIds(previous, part, namespace) <= IdsOf(part);
    assert m.(namespace := Some(namespace)).id == m.id;
  }

  lemma TalliesAddUp(previous: seq<Memory>, incoming: seq<Memory>)
    requires DistinctIds(previous) && DistinctIds(incoming)
    ensures |IdsOf(incoming) - IdsOf(previous)| + |IdsOf(incoming) * IdsOf(previous)| == |incoming|
    ensures |IdsOf(previous) - IdsOf(incoming)| + |IdsOf(incoming) * IdsOf(previous)| == |previous|
  {
    IdsCounted(previous);
    IdsCounted(incoming);
    SplitCount(IdsOf(incoming), IdsOf(previous));
    SplitCount(IdsOf(previous), IdsOf(incoming));
    assert IdsOf(incoming) * IdsOf(previous) == IdsOf(previous) * IdsOf(incoming);
  }

  lemma DeletedGrows(part: seq<Memory>, m: Memory, incoming: set<int>)
    requires m.id !in IdsOf(part)
    ensures |IdsOf(part + [m]) - incoming| == |IdsOf(part) - incoming| + if m.id in incoming then 0 else 1
  {
    IdsAppend(part, m);
    OneMore(IdsOf(part), incoming, m.id);
  }

  lemma PrefixLacks(memories: seq<Memory>, i: nat)
    requires DistinctIds(memories) && i < |memories|
    ensures memories[i].id !in IdsOf(memories[..i]) && memories[..i + 1] == memories[..i] + [memories[i]]
  {
  }

  method CountDeleted(previous: seq<Memory>, incoming: seq<Memory>) returns (deleted: nat)
    requires DistinctIds(previous)
    ensures deleted == |IdsOf(previous) - IdsOf(incoming)|
  {
    var incomingIds := set m <- incoming :: m.id;
    deleted := 0;
    for i := 0 to |previous|
      invariant deleted == |IdsOf(previous[..i]) - IdsOf(incoming)|
    {
      PrefixLacks(previous, i);
      DeletedGrows(previous[..i], previous[i], IdsOf(incoming));
      if previous[i].id !in incomingIds {
        deleted := deleted + 1;
      }
    }
    assert previous[..|previous|] == previous;
  }

  /** Counts one more incoming record. */
  method TallyOne(report: SyncReport, previous: seq<Memory>, ghost part: seq<Memory>, m: Memory, namespace: string)
    returns (report1: SyncReport)
    requires DistinctIds(previous) && m.id !in IdsOf(part) && Tallied(report, previous, part, namespace)
    ensures Tallied(report1, previous, part + [m], namespace) && report1.deleted == report.deleted
  {
    var found := Find(previous, m.id);
    if found.None? {
      TallyNew(previous, part, m, namespace);
      return report.(inserted := report.inserted + 1);
    }
    TallyKnown(previous, part, m, found.value);
    TallySame(previous, part, m, found.value, namespace);
    if found.value == m.(namespace := Some(namespace)) {
      return report.(untouched := report.untouched + 1);
    }
    return report.(replaced := report.replaced + 1);
  }

  /** Every id is counted once, by what became of it, so the counts add up on both sides. */
  method ReportSync(previous: seq<Memory>, incoming: seq<Memory>, namespace: string) returns (report: SyncReport)
    requires DistinctIds(previous) && DistinctIds(incoming)
    ensures report.inserted == |IdsOf(incoming) - IdsOf(previous)|
    ensures report.deleted == |IdsOf(previous) - IdsOf(incoming)|
    ensures report.untouched == |SameIds(previous, incoming, namespace)|
    ensures report.inserted + report.replaced + report.untouched == |incoming|
    ensures report.deleted + report.replaced + report.untouched == |previous|
  {
    var deleted := CountDeleted(previous, incoming);
    report := SyncReport(0, 0, 0, deleted);
    for i := 0 to |incoming|
      invariant report.deleted == deleted && Tallied(report, previous, incoming[..i], namespace)
    {
      PrefixLacks(incoming, i);
      report := TallyOne(report, previous, incoming[..i], incoming[i], namespace);
    }
    assert incoming[..|incoming|] == incoming;
    TalliesAddUp(previous, incoming);
  }

  /** Records as the rows show them, each once. */
  ghost predicate Lists(records: seq<Memory>, namespace: string, rows: map<nat, Row>) {
    && DistinctIds(records) && |records| == |rows|
    && (forall m <- records :: m.id in rows && m == Shown(namespace, m.id, rows[m.id]))
    && (forall id <- rows :: Shown(namespace, id, rows[id]) in records)
  }

  lemma ListIds(records: seq<Memory>, m: Memory)
    requires DistinctIds(records) && forall x <- records :: x.id != m.id
    ensures DistinctIds(records + [m])
  {
    assert forall i | 0 <= i < |records| :: records[i] in records;
  }

  lemma ListGrows(records: seq<Memory>, namespace: string, rows: map<nat, Row>, id: nat, r: Row)
    requires Lists(records, namespace, rows) && id !in rows
    ensures Lists(records + [Shown(namespace, id, r)], namespace, rows[id := r])
  {
    var grown, rows1 := records + [Shown(namespace, id, r)], rows[id := r];
    ListIds(records, Shown(namespace, id, r));
    assert grown[|records|] == Shown(namespace, id, r);
    assert forall x <- records :: x in grown;
    assert |rows1| == |rows| + 1;
  }

  lemma OneListed(rows: map<nat, Row>, rest: set<nat>, id: nat)
    requires id in rest && rest <= rows.Keys
    ensures (rows - rest)[id := rows[id]] == rows - (rest - {id})
  {
  }

  lemma ListNext(records: seq<Memory>, namespace: string, rows: map<nat, Row>, rest: set<nat>, id: nat)
    requires rest <= rows.Keys && id in rest && Lists(records, namespace, rows - rest)
    ensures Lists(records + [Shown(namespace, id, rows[id])], namespace, rows - (rest - {id}))
  {
    ListGrows(records, namespace, rows - rest, id, rows[id]);
    OneListed(rows, rest, id);
  }

  /** The counts of a sync, against the rows it replaced. */
  ghost predicate Reports(report: SyncReport, rows: map<nat, Row>, incoming: seq<Memory>, namespace: string) {
    && report.inserted == |IdsOf(incoming) - rows.Keys|
    && report.deleted == |rows.Keys - IdsOf(incoming)|
    && report.untouched == |KeptIds(rows, incoming, namespace)|
    && report.inserted + report.replaced + report.untouched == |incoming|
    && report.deleted + report.replaced + report.untouched == |rows|
  }

  /** The ids whose row already shows the incoming record. */
  ghost function KeptIds(rows: map<nat, Row>, incoming: seq<Memory>, namespace: string): set<int> {
    set m | m in incoming && m.id in rows && Shown(namespace, m.id, rows[m.id]) == m.(namespace := Some(namespace)) :: m.id
  }

  lemma ReportIsOfRows(report: SyncReport, previous: seq<Memory>, rows: map<nat, Row>, incoming: seq<Memory>, namespace: string)
    requires Lists(previous, namespace, rows)
    requires report.inserted == |IdsOf(incoming) - IdsOf(previous)|
    requires report.deleted == |IdsOf(previous) - IdsOf(incoming)|
    requires report.untouched == |SameIds(previous, incoming, namespace)|
    requires report.inserted + report.replaced + report.untouched == |incoming|
    requires report.deleted + report.replaced + report.untouched == |previous|
    ensures Reports(report, rows, incoming, namespace)
  {
    ListedIds(previous, namespace, rows);
    SameIdsAreKept(previous, rows, incoming, namespace);
  }

  lemma ListedIds(previous: seq<Memory>, namespace: string, rows: map<nat, Row>)
    requires Lists(previous, namespace, rows)
    ensures IdsOf(previous) == rows.Keys
  {
    forall id | id in rows
      ensures id in IdsOf(previous)
    {
      assert Shown(namespace, id, rows[id]).id == id;
    }
  }

  lemma SameIdsAreKept(previous: seq<Memory>, rows: map<nat, Row>, incoming: seq<Memory>, namespace: string)
    requires Lists(previous, namespace, rows)
    ensures SameIds(previous, incoming, namespace) == KeptIds(rows, incoming, namespace)
  {
    forall m | m in incoming
      ensures m.(namespace := Some(namespace)) in previous <==>
        m.id in rows && Shown(namespace, m.id, rows[m.id]) == m.(namespace := Some(namespace))
    {
      var named := m.(namespace := Some(namespace));
      assert named.id == m.id;
    }
  }

  /** The one record of this id, if any. */
  method Find(memories: seq<Memory>, id: int) returns (found: Option<Memory>)
    requires DistinctIds(memories)
    ensures found.None? <==> id !in IdsOf(memories)
    ensures found.Some? ==> found.value in memories && found.value.id == id
    ensures found.Some? ==> forall m <- memories :: m.id == id ==> m == found.value
  {
    for i := 0 to |memories|
      invariant forall k | 0 <= k < i :: memories[k].id != id
    {
      if memories[i].id == id {
        return Some(memories[i]);
      }
    }
    return None;
  }

  // ------------------------------------------------------------------ collecting read selectors

  /** A selector names its record by namespace and id alone. */
  function Target(q: ReadRequest): (string, int) {
    (q.namespace, q.id)
  }

  /** Every selector a read asks for: versioned remote keys first, then ids in the reader's own namespace. */
  function Asked(namespace: string, ids: seq<int>, keys: seq<Key>): seq<ReadRequest> {
    FromKeys(keys) + seq(|ids|, i requires 0 <= i < |ids| => ReadRequest(namespace, ids[i], None))
  }

  function FromKeys(keys: seq<Key>): seq<ReadRequest> {
    if keys == [] then []
    else
      var last := keys[|keys| - 1];
      FromKeys(keys[..|keys| - 1]) +
      if last.namespace.Some? then [ReadRequest(last.namespace.value, last.id, Some(last.version))] else []
  }

  /** The selectors that survive: the first of each target, in the order asked. */
  function Firsts(asked: seq<ReadRequest>): seq<ReadRequest> {
    if asked == [] then []
    else
      var n := |asked| - 1;
      Firsts(asked[..n]) + if IsFirst(asked, n) then [asked[n]] else []
  }

  predicate IsFirst(asked: seq<ReadRequest>, i: nat)
    requires i < |asked|
  {
    forall j :: 0 <= j < i ==> Target(asked[j]) != Target(asked[i])
  }

  function Targets(asked: seq<ReadRequest>): set<(string, int)> {
    set q <- asked :: Target(q)
  }

  lemma TargetsGrow(asked: seq<ReadRequest>, q: ReadRequest)
    ensures Targets(asked + [q]) == Targets(asked) + {Target(q)}
  {
    assert forall x <- asked :: x in asked + [q];
    assert (asked + [q])[|asked|] == q;
    forall t | t in Targets(asked + [q])
      ensures t in Targets(asked) + {Target(q)}
    {
      var x :| x in asked + [q] && Target(x) == t;
      assert x in asked || x == q;
    }
  }

  lemma FirstsGrow(asked: seq<ReadRequest>, q: ReadRequest)
    ensures Firsts(asked + [q]) == Firsts(asked) + if Target(q) in Targets(asked) then [] else [q]
  {
    var all := asked + [q];
    assert all[..|asked|] == asked;
    if Target(q) in Targets(asked) {
      var p :| p in asked && Target(p) == Target(q);
      var j :| 0 <= j < |asked| && asked[j] == p;
      assert all[j] == p;
    } else {
      forall j | 0 <= j < |asked|
        ensures Target(all[j]) != Target(q)
      {
        assert asked[j] in asked;
      }
    }
  }

  /** No target is dropped altogether, and none survives twice. */
  lemma {:induction false} EachTargetOnce(asked: seq<ReadRequest>)
    ensures Targets(Firsts(asked)) == Targets(asked)
    ensures forall i, j :: 0 <= i < j < |Firsts(asked)| ==> Target(Firsts(asked)[i]) != Target(Firsts(asked)[j])
  {
    if asked != [] {
      var n := |asked| - 1;
      assert asked == asked[..n] + [asked[n]];
      EachTargetOnce(asked[..n]);
      FirstsGrow(asked[..n], asked[n]);
      TargetsGrow(asked[..n], asked[n]);
      TargetsGrow(Firsts(asked[..n]), asked[n]);
      forall i | 0 <= i < |Firsts(asked[..n])|
        ensures Target(Firsts(asked[..n])[i]) in Targets(asked[..n])
      {
        assert Firsts(asked[..n])[i] in Firsts(asked[..n]);
      }
    }
  }

  /** Every survivor is the selector of its target that was asked first. */
  lemma {:induction false} SurvivorsCameFirst(asked: seq<ReadRequest>, q: ReadRequest)
    requires q in Firsts(asked)
    ensures exists i :: 0 <= i < |asked| && asked[i] == q && IsFirst(asked, i)
  {
    var n := |asked| - 1;
    if IsFirst(asked, n) && asked[n] == q {
    } else {
      SurvivorsCameFirst(asked[..n], q);
      var i :| 0 <= i < n && asked[..n][i] == q && IsFirst(asked[..n], i);
      forall j | 0 <= j < i
        ensures Target(asked[j]) != Target(asked[i])
      {
        assert asked[..n][j] == asked[j];
      }
      assert IsFirst(asked, i);
    }
  }

  /** Takes one more selector unless its target has been seen. */
  method Admit(requests: seq<ReadRequest>, seen: set<(string, int)>, q: ReadRequest, ghost asked: seq<ReadRequest>)
    returns (kept: seq<ReadRequest>, seen': set<(string, int)>)
    requires requests == Firsts(asked) && seen == Targets(asked)
    ensures kept == Firsts(asked + [q]) && seen' == Targets(asked + [q])
  {
    FirstsGrow(asked, q);
    TargetsGrow(asked, q);
    kept := if Target(q) in seen then requests else requests + [q];
    seen' := seen + {Target(q)};
  }

  method CollectKeys(keys: seq<Key>) returns (requests: seq<ReadRequest>, seen: set<(string, int)>)
    ensures requests == Firsts(FromKeys(keys)) && seen == Targets(FromKeys(keys))
  {
    seen := {};
    requests := [];
    for i := 0 to |keys|
      invariant requests == Firsts(FromKeys(keys[..i])) && seen == Targets(FromKeys(keys[..i]))
    {
      assert keys[..i + 1][..i] == keys[..i];
      if keys[i].namespace.Some? {
        requests, seen :=
          Admit(requests, seen, ReadRequest(keys[i].namespace.value, keys[i].id, Some(keys[i].version)), FromKeys(keys[..i]));
      } else {
        assert FromKeys(keys[..i + 1]) == FromKeys(keys[..i]);
      }
    }
    assert keys[..|keys|] == keys;
  }

  lemma AskedGrows(namespace: string, ids: seq<int>, i: nat, keys: seq<Key>)
    requires i < |ids|
    ensures Asked(namespace, ids[..i + 1], keys) == Asked(namespace, ids[..i], keys) + [ReadRequest(namespace, ids[i], None)]
  {
  }

  /** Combines versioned remote keys and namespace-relative ids, first come first kept. */
  method Collect(namespace: string, ids: seq<int>, keys: seq<Key>) returns (requests: seq<ReadRequest>)
    ensures requests == Firsts(Asked(namespace, ids, keys))
  {
    var seen: set<(string, int)>;
    requests, seen := CollectKeys(keys);
    assert FromKeys(keys) == Asked(namespace, ids[..0], keys);
    for i := 0 to |ids|
      invariant requests == Firsts(Asked(namespace, ids[..i], keys)) && seen == Targets(Asked(namespace, ids[..i], keys))
    {
      AskedGrows(namespace, ids, i, keys);
      requests, seen := Admit(requests, seen, ReadRequest(namespace, ids[i], None), Asked(namespace, ids[..i], keys));
    }
    assert ids[..|ids|] == ids;
  }

  // ------------------------------------------------------------------ the store over a shared database

  class Backing {
    var tables: Database

    constructor ()
      ensures tables == map[]
    {
      tables := map[];
    }
  }

  class CloudflareMemoryStore {
    const database: Backing
    const namespace: string
    const limits: Limits

    constructor (database: Backing, namespace: string, limits: Limits)
      ensures this.database == database && this.namespace == namespace && this.limits == limits
    {
      this.database, this.namespace, this.limits := database, namespace, limits;
    }

    /** The aggregate of content lengths, row by row. */
    method ContentBytes(rows: map<nat, Row>) returns (bytes: nat)
      ensures bytes == TotalBytes(rows)
    {
      bytes := 0;
      var rest := rows;
      while rest != map[]
        invariant bytes + TotalBytes(rest) == TotalBytes(rows)
        decreases |rest|
      {
        var id :| id in rest;
        TotalWithout(rest, id);
        bytes := bytes + |rest[id].content|;
        rest := rest - {id};
      }
    }

    method Insert(content: Text, now: int) returns (verdict: Result<Memory>)
      requires GoodDatabase(database.tables, limits)
      modifies database
      ensures (database.tables, verdict) == StoreModel.Insert(old(database.tables), namespace, content, now, limits)
    {
      InsertVerdictMatches(database.tables, namespace, content, now, limits);
      database.tables := Ensure(Prune(database.tables, now), namespace);
      var before := database.tables[namespace];
      var duplicate := HasIdentity(before.rows, limits.identity(content));
      var count := |before.rows|;
      var bytes := ContentBytes(before.rows);
      var after := before;
      if count < limits.records && bytes + |content| <= limits.totalBytes && !duplicate {
        after := Table(before.rows[before.next := NewRow(content, now, limits)], before.next + 1);
      }
      database.tables := database.tables[namespace := after];
      if duplicate {
        return Err(Duplicate);
      }
      if count >= limits.records {
        return Err(RecordCapacity);
      }
      if bytes + |content| > limits.totalBytes {
        return Err(ContentCapacity);
      }
      assert after.rows[before.next].identity == limits.identity(content);
      var id :| id in after.rows && after.rows[id].identity == limits.identity(content);
      assert id == before.next;
      return Ok(Shown(namespace, id, after.rows[id]));
    }

    method Replace(id: int, version: nat, content: Text, now: int) returns (verdict: Result<Memory>)
      modifies database
      ensures (database.tables, verdict) ==
        StoreModel.Replace(old(database.tables), namespace, id, version, content, now, limits)
    {
      if version >= I64_MAX {
        return Err(Conflict);
      }
      database.tables := Prune(database.tables, now);
      var before := TableOf(database.tables, namespace);
      var duplicate := IdentityElsewhere(before.rows, limits.identity(content), id);
      var bytes := ContentBytes(before.rows);
      var after := before;
      if id in before.rows && before.rows[id].version == version && !duplicate
        && bytes - |before.rows[id].content| + |content| <= limits.totalBytes {
        after := before.(rows := before.rows[id := ReplacedRow(before.rows[id], content, now, limits)]);
      }
      if namespace in database.tables {
        database.tables := database.tables[namespace := after];
      }
      if duplicate {
        return Err(Duplicate);
      }
      if id !in before.rows {
        return Err(NotFound);
      }
      if before.rows[id].version != version {
        return Err(Conflict);
      }
      if bytes - |before.rows[id].content| + |content| > limits.totalBytes {
        return Err(ContentCapacity);
      }
      return Ok(Shown(namespace, id, after.rows[id]));
    }

    method Put(content: Text, replacement: Option<Key>, now: int) returns (verdict: Result<Memory>)
      requires GoodDatabase(database.tables, limits)
      modifies database
      ensures (database.tables, verdict) ==
        StoreModel.Put(old(database.tables), namespace, content, replacement, now, limits)
      ensures GoodDatabase(database.tables, limits)
    {
      StoreRuns.PutKeeps(database.tables, namespace, content, replacement, now, limits);
      var invalid := ValidateContent(content, limits);
      if invalid.Some? {
        return Err(invalid.value);
      }
      if replacement.None? {
        verdict := Insert(content, now);
      } else if replacement.value.namespace != Some(namespace) {
        return Err(RemoteReadOnly);
      } else {
        verdict := Replace(replacement.value.id, replacement.value.version, content, now);
      }
    }

    method Delete(key: Key) returns (verdict: Result<()>)
      modifies database
      ensures (database.tables, verdict) == StoreModel.Delete(old(database.tables), namespace, key)
    {
      if key.namespace != Some(namespace) {
        return Err(RemoteReadOnly);
      }
      if namespace !in database.tables {
        return Ok(());
      }
      var t := database.tables[namespace];
      database.tables := database.tables[namespace := DeleteStatement(t, key.id, key.version)];
      if key.id in t.rows && t.rows[key.id].version != key.version {
        return Err(Conflict);
      }
      return Ok(());
    }

    /** The records of a table, in whatever order: the report does not depend on it. */
    method Records(rows: map<nat, Row>) returns (records: seq<Memory>)
      ensures Lists(records, namespace, rows)
    {
      records := [];
      var rest := rows.Keys;
      assert rows - rest == map[];
      while rest != {}
        invariant rest <= rows.Keys
        invariant Lists(records, namespace, rows - rest)
        decreases rest
      {
        var id :| id in rest;
        ListNext(records, namespace, rows, rest, id);
        records := records + [Shown(namespace, id, rows[id])];
        rest := rest - {id};
      }
      assert rows - rest == rows;
    }

    /** Stores a snapshot row by row. */
    method StoreSnapshot(memories: seq<Memory>, first: nat) returns (t: Table)
      requires forall m <- memories :: m.id > 0
      ensures t == Table(SnapshotRows(memories, limits), NextAfter(memories, first))
    {
      var rows: map<nat, Row> := map[];
      var next := first;
      for i := 0 to |memories|
        invariant rows == SnapshotRows(memories[..i], limits)
        invariant next == NextAfter(memories[..i], first)
      {
        assert memories[..i + 1][..i] == memories[..i];
        rows := rows[memories[i].id := StoreModel.Stored(memories[i], limits)];
        if memories[i].id + 1 > next {
          next := memories[i].id + 1;
        }
      }
      assert memories[..|memories|] == memories;
      t := Table(rows, next);
    }

    /** Replaces the namespace with a valid snapshot and reports what changed; an invalid one changes nothing. */
    method Sync(memories: seq<Memory>, now: int) returns (verdict: Result<SyncReport>)
      modifies database
      ensures verdict.Ok? <==> ValidSnapshot(memories, limits)
      ensures database.tables ==
        if verdict.Ok? then StoreModel.Sync(old(database.tables), namespace, memories, now, limits)
        else old(database.tables)
      ensures verdict.Ok? ==> Reports(verdict.value, TableOf(Prune(old(database.tables), now), namespace).rows, memories, namespace)
    {
      var invalid := ValidateSnapshot(memories, limits);
      if invalid.Some? {
        return Err(invalid.value);
      }
      var tables := Ensure(Prune(database.tables, now), namespace);
      var previous := Records(tables[namespace].rows);
      var t := StoreSnapshot(memories, tables[namespace].next);
      database.tables := tables[namespace := t];
      var report := ReportSync(previous, memories, namespace);
      ReportIsOfRows(report, previous, tables[namespace].rows, memories, namespace);
      return Ok(report);
    }
  }
}

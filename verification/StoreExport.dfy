/** Paged export: cursors, pages, and what following them collects while writers keep writing. */
module StoreExport {
  import opened StoreModel
  import opened Wrappers
  import opened TextOrder

  datatype Position = Position(namespace: string, id: nat)

  // ------------------------------------------------------------------ the order of keys

  predicate Less(a: Position, b: Position) {
    TextBefore(a.namespace, b.namespace) || (a.namespace == b.namespace && a.id < b.id)
  }

  lemma LessIsStrict(a: Position, b: Position, c: Position)
    ensures !Less(a, a)
    ensures Less(a, b) && Less(b, c) ==> Less(a, c)
  {
    TextsAreTransitive(a.namespace, b.namespace, c.namespace);
  }

  lemma LessIsTotal(a: Position, b: Position)
    ensures Less(a, b) || Less(b, a) || a == b
  {
    TextsAreOrdered(a.namespace, b.namespace);
  }

  // ------------------------------------------------------------------ sorting a set of keys

  predicate Increasing(keys: seq<Position>) {
    forall i, j :: 0 <= i < j < |keys| ==> Less(keys[i], keys[j])
  }

  predicate IsLeast(k: Position, s: set<Position>) {
    k in s && forall x <- s :: x == k || Less(k, x)
  }

  lemma LeastOfTwo(a: Position, k: Position, s: set<Position>)
    requires a in s && IsLeast(k, s - {a})
    ensures IsLeast(a, s) || IsLeast(k, s)
  {
    LessIsTotal(a, k);
    forall x | x in s && Less(a, k)
      ensures x == a || Less(a, x)
    {
      LessIsStrict(a, k, x);
    }
  }

  lemma {:induction false} LeastExists(s: set<Position>)
    requires s != {}
    ensures exists k :: IsLeast(k, s)
    decreases s
  {
    var a :| a in s;
    if s == {a} {
      assert IsLeast(a, s);
    } else {
      LeastExists(s - {a});
      var k :| IsLeast(k, s - {a});
      LeastOfTwo(a, k, s);
    }
  }

  ghost function Least(s: set<Position>): Position
    requires s != {}
  {
    LeastExists(s);
    var k :| IsLeast(k, s);
    k
  }

  ghost function Sorted(s: set<Position>): seq<Position>
    decreases |s|
  {
    if s == {} then [] else [Least(s)] + Sorted(s - {Least(s)})
  }

  lemma {:induction false} SortedSorts(s: set<Position>)
    ensures Increasing(Sorted(s))
    ensures |Sorted(s)| == |s|
    ensures forall k :: k in Sorted(s) <==> k in s
    decreases |s|
  {
    if s != {} {
      var least := Least(s);
      assert IsLeast(least, s);
      SortedSorts(s - {least});
      forall k | k in Sorted(s - {least})
        ensures Less(least, k)
      {
        assert k in s;
      }
    }
  }

  lemma {:induction false} SortedIsUnique(keys: seq<Position>, s: set<Position>)
    requires Increasing(keys) && forall k :: k in keys <==> k in s
    ensures Sorted(s) == keys
    decreases |keys|
  {
    if keys == [] {
      assert s == {};
    } else {
      assert keys[0] in keys;
      var rest := keys[1..];
      assert keys == [keys[0]] + rest;
      assert Least(s) == keys[0] by {
        var i :| 0 <= i < |keys| && keys[i] == Least(s);
        if i != 0 {
          assert Less(keys[0], keys[i]);
          LessIsStrict(keys[0], keys[i], keys[0]);
        }
      }
      forall k
        ensures k in rest <==> k in s - {keys[0]}
      {
        if k in rest {
          LessIsStrict(k, k, k);
        }
      }
      SortedIsUnique(rest, s - {keys[0]});
    }
  }

  // ------------------------------------------------------------------ one page

  /** What one page request sees: the database and the clock when its statement runs. */
  datatype View = View(db: Database, now: int)

  const MAX_EXPORT_PAGE_RECORDS: nat := 128

  function Clamp(limit: nat): nat {
    if limit < 1 then 1 else if limit > MAX_EXPORT_PAGE_RECORDS then MAX_EXPORT_PAGE_RECORDS else limit
  }

  /** Visible, and in a selected namespace. */
  predicate Exports(v: View, selected: Option<set<string>>, k: Position) {
    && k.namespace in v.db && k.id in v.db[k.namespace].rows
    && !Expired(v.db[k.namespace].rows[k.id], v.now)
    && (selected.None? || k.namespace in selected.value)
  }

  predicate Past(cursor: Option<Position>, k: Position) {
    cursor.None? || Less(cursor.value, k)
  }

  ghost function Matching(v: View, selected: Option<set<string>>, cursor: Option<Position>): set<Position> {
    set k <- Present(v.db) | Exports(v, selected, k) && Past(cursor, k)
  }

  /** Every record there is. */
  ghost function Present(db: Database): (keys: set<Position>)
    ensures forall k: Position :: k in keys <==> k.namespace in db && k.id in db[k.namespace].rows
  {
    set namespace, id | namespace in db && id in db[namespace].rows :: Position(namespace, id)
  }

  datatype Page = Page(keys: seq<Position>, next: Option<Position>)

  /** The statement asks for one row more than the page; its presence means there is another page. */
  function PageOf(sorted: seq<Position>, bounded: nat): Page
    requires bounded > 0
  {
    var rows := if |sorted| > bounded + 1 then sorted[..bounded + 1] else sorted;
    if |rows| > bounded then Page(rows[..bounded], Some(rows[bounded - 1])) else Page(rows, None)
  }

  lemma PageIs(sorted: seq<Position>, bounded: nat)
    requires bounded > 0
    ensures PageOf(sorted, bounded) ==
      if |sorted| > bounded then Page(sorted[..bounded], Some(sorted[bounded - 1])) else Page(sorted, None)
  {
  }

  ghost function ExportPage(v: View, selected: Option<set<string>>, cursor: Option<Position>, limit: nat): Page {
    PageOf(Sorted(Matching(v, selected, cursor)), Clamp(limit))
  }

  /** Everything on a page is past its cursor; the page without a next cursor is all there is. */
  lemma PageHolds(v: View, selected: Option<set<string>>, cursor: Option<Position>, limit: nat)
    ensures var page := ExportPage(v, selected, cursor, limit);
      var all := Matching(v, selected, cursor);
      && Increasing(page.keys)
      && (forall k <- page.keys :: k in all)
      && (page.next.None? ==> page.keys == Sorted(all) && |all| <= Clamp(limit) && forall k <- all :: k in page.keys)
      && (page.next.Some? ==>
            && |all| > Clamp(limit) && page.keys == Sorted(all)[..Clamp(limit)]
            && page.next.value == page.keys[|page.keys| - 1]
            && page.next.value in all)
  {
    var sorted := Sorted(Matching(v, selected, cursor));
    SortedSorts(Matching(v, selected, cursor));
    PageIs(sorted, Clamp(limit));
    if |sorted| > Clamp(limit) {
      assert sorted[Clamp(limit) - 1] in sorted;
    }
  }

  /**
   * A page holds as many records as asked for, but at least one and at most 128, and fewer only if there are no more; they
   * come by namespace and, in one namespace, by id.
   */
  lemma PageIsFull(v: View, selected: Option<set<string>>, cursor: Option<Position>, limit: nat)
    ensures var page, all := ExportPage(v, selected, cursor, limit), |Matching(v, selected, cursor)|;
      var asked := if limit == 0 then 1 else if limit <= 128 then limit else 128;
      && |page.keys| == (if all <= asked then all else asked)
      && (page.next.Some? <==> all > asked)
      && (forall i, j :: 0 <= i < j < |page.keys| ==>
            var a, b := page.keys[i], page.keys[j];
            if a.namespace == b.namespace then a.id < b.id else TextBefore(a.namespace, b.namespace))
  {
    PageHolds(v, selected, cursor, limit);
    var keys := ExportPage(v, selected, cursor, limit).keys;
    forall i, j | 0 <= i < j < |keys| && keys[i].namespace == keys[j].namespace
      ensures keys[i].id < keys[j].id
    {
      TextsAreTransitive(keys[i].namespace, keys[i].namespace, keys[i].namespace);
    }
    SortedSorts(Matching(v, selected, cursor));
  }

  /** A page splits the sorted matches at its next cursor. */
  lemma PageSplits(v: View, selected: Option<set<string>>, cursor: Option<Position>, limit: nat)
    requires ExportPage(v, selected, cursor, limit).next.Some?
    ensures var page := ExportPage(v, selected, cursor, limit);
      var all := Matching(v, selected, cursor);
      && (forall k <- page.keys :: k == page.next.value || Less(k, page.next.value))
      && (forall k <- all :: k in page.keys || Less(page.next.value, k))
  {
    PageHolds(v, selected, cursor, limit);
    var all := Matching(v, selected, cursor);
    SortedSorts(all);
    var page := ExportPage(v, selected, cursor, limit);
    forall k | k in all
      ensures k in page.keys || Less(page.next.value, k)
    {
      assert k in Sorted(all);
      var i :| 0 <= i < |all| && Sorted(all)[i] == k;
      if i < Clamp(limit) {
        assert page.keys[i] == k;
      }
    }
  }

  /** What a page leaves out is exactly what the next page chooses from. */
  lemma PagesContinue(v: View, selected: Option<set<string>>, cursor: Option<Position>, limit: nat)
    requires ExportPage(v, selected, cursor, limit).next.Some?
    ensures var page := ExportPage(v, selected, cursor, limit);
      Sorted(Matching(v, selected, cursor)) == page.keys + Sorted(Matching(v, selected, page.next))
  {
    var all := Matching(v, selected, cursor);
    var sorted, n := Sorted(all), Clamp(limit);
    PageIs(sorted, n);
    var last := sorted[n - 1];
    SortedSorts(all);
    assert last in sorted;
    RestIsPast(v, selected, cursor, last);
    TailIsRest(sorted, all, Matching(v, selected, Some(last)), n);
    CutAndJoined(sorted, n);
  }

  lemma CutAndJoined(keys: seq<Position>, n: nat)
    requires n <= |keys|
    ensures keys == keys[..n] + keys[n..]
  {
  }

  lemma RestIsPast(v: View, selected: Option<set<string>>, cursor: Option<Position>, last: Position)
    requires Past(cursor, last)
    ensures Matching(v, selected, Some(last)) == set k <- Matching(v, selected, cursor) | Less(last, k)
  {
    forall k | k in Present(v.db) && Less(last, k)
      ensures Past(cursor, k)
    {
      if cursor.Some? {
        LessIsStrict(cursor.value, last, k);
      }
    }
  }

  /** The keys of a set past its n-th smallest, sorted, are the tail of the whole set sorted. */
  lemma TailIsRest(keys: seq<Position>, s: set<Position>, rest: set<Position>, n: nat)
    requires Increasing(keys) && 0 < n <= |keys| && forall k :: k in keys <==> k in s
    requires forall k :: k in rest <==> k in s && Less(keys[n - 1], k)
    ensures Sorted(rest) == keys[n..]
  {
    var last := keys[n - 1];
    forall k
      ensures k in keys[n..] <==> k in rest
    {
      if k in keys[n..] {
        var i :| 0 <= i < |keys| - n && keys[n..][i] == k;
        assert keys[n + i] == k && k in keys;
      }
      if k in rest {
        var i :| 0 <= i < |keys| && keys[i] == k;
        LessIsStrict(last, k, last);
        assert i >= n;
        assert keys[n..][i - n] == k;
      }
    }
    SortedIsUnique(keys[n..], rest);
  }

  // ------------------------------------------------------------------ following cursors

  /** Everything collected by one page request per view, each with the cursor of the page before. */
  ghost function Collected(views: seq<View>, selected: Option<set<string>>, cursor: Option<Position>, limit: nat): seq<Position>
    decreases |views|
  {
    if views == [] then []
    else
      var page := ExportPage(views[0], selected, cursor, limit);
      page.keys + if page.next.Some? then Collected(views[1..], selected, page.next, limit) else []
  }

  /** The last of these page requests was the first without a next cursor. */
  ghost predicate Finished(views: seq<View>, selected: Option<set<string>>, cursor: Option<Position>, limit: nat)
    decreases |views|
  {
    views != [] &&
    var page := ExportPage(views[0], selected, cursor, limit);
    if page.next.None? then |views| == 1 else Finished(views[1..], selected, page.next, limit)
  }

  /** Whatever writers do between pages, the keys collected strictly increase and were each exported by some view. */
  lemma {:induction false} CollectsInOrder(views: seq<View>, selected: Option<set<string>>, cursor: Option<Position>, limit: nat)
    ensures Increasing(Collected(views, selected, cursor, limit))
    ensures forall k <- Collected(views, selected, cursor, limit) :: Past(cursor, k) && exists v <- views :: Exports(v, selected, k)
    decreases |views|
  {
    if views != [] {
      PageHolds(views[0], selected, cursor, limit);
      var page := ExportPage(views[0], selected, cursor, limit);
      assert views[0] in views;
      if page.next.Some? {
        PageSplits(views[0], selected, cursor, limit);
        var rest := Collected(views[1..], selected, page.next, limit);
        CollectsInOrder(views[1..], selected, page.next, limit);
        forall k, x | k in page.keys && x in rest
          ensures Less(k, x)
        {
          LessIsStrict(k, page.next.value, x);
        }
        forall x | x in rest
          ensures Past(cursor, x) && exists v <- views :: Exports(v, selected, x)
        {
          if cursor.Some? {
            LessIsStrict(cursor.value, page.next.value, x);
          }
          var v :| v in views[1..] && Exports(v, selected, x);
          assert v in views;
        }
      }
    }
  }

  /** Every selected record visible in all the views is collected, whatever happens to the others. */
  lemma {:induction false} CollectsWhatStays(views: seq<View>, selected: Option<set<string>>, cursor: Option<Position>, limit: nat, k: Position)
    requires Finished(views, selected, cursor, limit)
    requires Past(cursor, k) && forall v <- views :: Exports(v, selected, k)
    ensures k in Collected(views, selected, cursor, limit)
    decreases |views|
  {
    PageHolds(views[0], selected, cursor, limit);
    var page := ExportPage(views[0], selected, cursor, limit);
    assert views[0] in views;
    assert k in Matching(views[0], selected, cursor);
    if page.next.Some? && k !in page.keys {
      PageSplits(views[0], selected, cursor, limit);
      assert forall v <- views[1..] :: v in views;
      CollectsWhatStays(views[1..], selected, page.next, limit, k);
    }
  }

  /** A whole export lists each record visible and selected throughout exactly once, in increasing order. */
  lemma ExportIsComplete(views: seq<View>, selected: Option<set<string>>, limit: nat, k: Position)
    requires Finished(views, selected, None, limit)
    requires forall v <- views :: Exports(v, selected, k)
    ensures var keys := Collected(views, selected, None, limit);
      && Increasing(keys)
      && exists i :: 0 <= i < |keys| && keys[i] == k && forall j :: 0 <= j < |keys| && j != i ==> keys[j] != k
  {
    CollectsInOrder(views, selected, None, limit);
    CollectsWhatStays(views, selected, None, limit, k);
    var keys := Collected(views, selected, None, limit);
    var i :| 0 <= i < |keys| && keys[i] == k;
    forall j | 0 <= j < |keys| && j != i
      ensures keys[j] != k
    {
      LessIsStrict(k, k, k);
    }
  }

  function Repeated(v: View, n: nat): seq<View> {
    if n == 0 then [] else [v] + Repeated(v, n - 1)
  }

  lemma OneMore(n: nat, c: nat)
    requires n > 0
    ensures n * c == (n - 1) * c + c
  {
  }

  /** Following cursors over an unchanged database for `pages` pages ends, with everything sorted. */
  ghost predicate ExportsAll(v: View, selected: Option<set<string>>, cursor: Option<Position>, limit: nat, pages: nat) {
    && Finished(Repeated(v, pages), selected, cursor, limit)
    && Collected(Repeated(v, pages), selected, cursor, limit) == Sorted(Matching(v, selected, cursor))
  }

  lemma OnePageMore(v: View, selected: Option<set<string>>, cursor: Option<Position>, limit: nat, more: nat)
    requires var next := ExportPage(v, selected, cursor, limit).next;
      next.Some? && ExportsAll(v, selected, next, limit, more)
    ensures ExportsAll(v, selected, cursor, limit, more + 1)
  {
    PagesContinue(v, selected, cursor, limit);
    PageThenRest(v, Repeated(v, more), selected, cursor, limit);
    assert Repeated(v, more + 1) == [v] + Repeated(v, more);
  }

  lemma PageThenRest(v: View, rest: seq<View>, selected: Option<set<string>>, cursor: Option<Position>, limit: nat)
    requires ExportPage(v, selected, cursor, limit).next.Some?
    ensures var page := ExportPage(v, selected, cursor, limit);
      && Collected([v] + rest, selected, cursor, limit) == page.keys + Collected(rest, selected, page.next, limit)
      && Finished([v] + rest, selected, cursor, limit) == Finished(rest, selected, page.next, limit)
  {
    assert ([v] + rest)[0] == v && ([v] + rest)[1..] == rest;
  }

  lemma LastPage(v: View, selected: Option<set<string>>, cursor: Option<Position>, limit: nat)
    requires ExportPage(v, selected, cursor, limit).next.None?
    ensures ExportsAll(v, selected, cursor, limit, 1)
  {
    PageHolds(v, selected, cursor, limit);
    assert Repeated(v, 1)[0] == v && |Repeated(v, 1)| == 1;
    assert ExportPage(v, selected, cursor, limit).keys + [] == ExportPage(v, selected, cursor, limit).keys;
  }

  lemma NextPageIsSmaller(v: View, selected: Option<set<string>>, cursor: Option<Position>, limit: nat)
    requires ExportPage(v, selected, cursor, limit).next.Some?
    ensures |Matching(v, selected, cursor)|
         == Clamp(limit) + |Matching(v, selected, ExportPage(v, selected, cursor, limit).next)|
  {
    PageHolds(v, selected, cursor, limit);
    PagesContinue(v, selected, cursor, limit);
    SortedSorts(Matching(v, selected, cursor));
    SortedSorts(Matching(v, selected, ExportPage(v, selected, cursor, limit).next));
  }

  /** On an unchanged database the pages concatenate to the sorted visible selection, in no more pages than needed. */
  lemma {:induction false} UnchangedExport(v: View, selected: Option<set<string>>, cursor: Option<Position>, limit: nat) returns (pages: nat)
    ensures ExportsAll(v, selected, cursor, limit, pages)
    ensures 0 < pages && (pages - 1) * Clamp(limit) <= |Matching(v, selected, cursor)|
    decreases |Matching(v, selected, cursor)|
  {
    var next := ExportPage(v, selected, cursor, limit).next;
    if next.None? {
      LastPage(v, selected, cursor, limit);
      pages := 1;
    } else {
      NextPageIsSmaller(v, selected, cursor, limit);
      var more := UnchangedExport(v, selected, next, limit);
      OnePageMore(v, selected, cursor, limit, more);
      pages := more + 1;
      OneMore(more, Clamp(limit));
    }
  }
}

/** Stable sorting by a comparison, and why sorting by one key after another is sorting by both at once. */
module StableSorting {

  type Comparison<!T> = (T, T) -> bool

  predicate Asymmetric<T>(less: Comparison<T>, a: T, b: T) {
    less(a, b) ==> !less(b, a)
  }

  /** Whatever lies between two ordered elements is after the first or before the second. */
  predicate Splits<T>(less: Comparison<T>, a: T, b: T, c: T) {
    less(a, b) ==> less(a, c) || less(c, b)
  }

  /** A comparison that sorts: ties are consistent. */
  ghost predicate StrictWeak<T(!new)>(less: Comparison<T>) {
    && (forall a, b :: Asymmetric(less, a, b))
    && (forall a, b, c :: Splits(less, a, b, c))
  }

  /** Puts an element after every one it is not before. */
  function Insert<T>(less: Comparison<T>, xs: seq<T>, x: T): seq<T> {
    if xs == [] || !less(x, xs[|xs| - 1]) then xs + [x]
    else Insert(less, xs[..|xs| - 1], x) + [xs[|xs| - 1]]
  }

  function Sort<T>(less: Comparison<T>, xs: seq<T>): seq<T> {
    if xs == [] then [] else Insert(less, Sort(less, xs[..|xs| - 1]), xs[|xs| - 1])
  }

  predicate Sorted<T>(less: Comparison<T>, xs: seq<T>) {
    forall i, j :: 0 <= i < j < |xs| ==> !less(xs[j], xs[i])
  }

  // ------------------------------------------------------------------ it is a stable sort

  lemma {:induction false} InsertPermutes<T>(less: Comparison<T>, xs: seq<T>, x: T)
    ensures multiset(Insert(less, xs, x)) == multiset(xs) + multiset{x}
  {
    if xs == [] || !less(x, xs[|xs| - 1]) {
    } else {
      var n := |xs| - 1;
      InsertPermutes(less, xs[..n], x);
      assert xs == xs[..n] + [xs[n]];
    }
  }

  lemma AppendSorted<T>(less: Comparison<T>, xs: seq<T>, x: T)
    requires Sorted(less, xs) && forall i | 0 <= i < |xs| :: !less(x, xs[i])
    ensures Sorted(less, xs + [x])
  {
  }

  lemma {:induction false} InsertSorts<T(!new)>(less: Comparison<T>, xs: seq<T>, x: T)
    requires StrictWeak(less) && Sorted(less, xs)
    ensures Sorted(less, Insert(less, xs, x))
  {
    if xs == [] {
    } else if !less(x, xs[|xs| - 1]) {
      forall i | 0 <= i < |xs|
        ensures !less(x, xs[i])
      {
        assert Splits(less, x, xs[i], xs[|xs| - 1]);
      }
      AppendSorted(less, xs, x);
    } else {
      var n := |xs| - 1;
      var front := Insert(less, xs[..n], x);
      InsertSorts(less, xs[..n], x);
      InsertPermutes(less, xs[..n], x);
      forall i | 0 <= i < |front|
        ensures !less(xs[n], front[i])
      {
        assert front[i] in multiset(front);
        assert Asymmetric(less, x, xs[n]);
        assert front[i] == x || front[i] in xs[..n];
      }
      AppendSorted(less, front, xs[n]);
    }
  }

  /** The elements that tie with `e`, in order. */
  function Ties<T>(less: Comparison<T>, xs: seq<T>, e: T): seq<T> {
    if xs == [] then []
    else
      var n := |xs| - 1;
      Ties(less, xs[..n], e) + if !less(xs[n], e) && !less(e, xs[n]) then [xs[n]] else []
  }

  lemma {:induction false} InsertIsStable<T(!new)>(less: Comparison<T>, xs: seq<T>, x: T, e: T)
    requires StrictWeak(less)
    ensures Ties(less, Insert(less, xs, x), e) == Ties(less, xs + [x], e)
  {
    if xs == [] || !less(x, xs[|xs| - 1]) {
    } else {
      var n := |xs| - 1;
      var front := Insert(less, xs[..n], x);
      InsertIsStable(less, xs[..n], x, e);
      assert (front + [xs[n]])[..|front|] == front;
      assert (xs[..n] + [x])[..n] == xs[..n] && (xs + [x])[..n + 1] == xs;
      assert Splits(less, x, xs[n], e);
    }
  }

  lemma {:induction false} SortPermutes<T>(less: Comparison<T>, xs: seq<T>)
    ensures multiset(Sort(less, xs)) == multiset(xs)
  {
    if xs != [] {
      var n := |xs| - 1;
      SortPermutes(less, xs[..n]);
      InsertPermutes(less, Sort(less, xs[..n]), xs[n]);
      assert xs == xs[..n] + [xs[n]];
    }
  }

  lemma {:induction false} SortSorts<T(!new)>(less: Comparison<T>, xs: seq<T>)
    requires StrictWeak(less)
    ensures Sorted(less, Sort(less, xs))
  {
    if xs != [] {
      var n := |xs| - 1;
      SortSorts(less, xs[..n]);
      InsertSorts(less, Sort(less, xs[..n]), xs[n]);
    }
  }

  lemma {:induction false} SortKeepsTies<T(!new)>(less: Comparison<T>, xs: seq<T>, e: T)
    requires StrictWeak(less)
    ensures Ties(less, Sort(less, xs), e) == Ties(less, xs, e)
  {
    if xs != [] {
      var n := |xs| - 1;
      var rest := Sort(less, xs[..n]);
      SortKeepsTies(less, xs[..n], e);
      InsertIsStable(less, rest, xs[n], e);
      assert (rest + [xs[n]])[..|rest|] == rest;
    }
  }

  /** Sorting rearranges, puts nothing before a smaller element, and keeps the order of elements that tie. */
  lemma SortIsStableSort<T(!new)>(less: Comparison<T>, xs: seq<T>, e: T)
    requires StrictWeak(less)
    ensures multiset(Sort(less, xs)) == multiset(xs)
    ensures Sorted(less, Sort(less, xs))
    ensures Ties(less, Sort(less, xs), e) == Ties(less, xs, e)
  {
    SortPermutes(less, xs);
    SortSorts(less, xs);
    SortKeepsTies(less, xs, e);
  }

  // ------------------------------------------------------------------ one key after another

  /** By the first comparison, and by the second where the first ties. */
  predicate Lexicographic<T>(first: Comparison<T>, second: Comparison<T>, a: T, b: T) {
    first(a, b) || (!first(b, a) && second(a, b))
  }

  function Combined<T>(first: Comparison<T>, second: Comparison<T>): Comparison<T> {
    (a, b) => Lexicographic(first, second, a, b)
  }

  /** Inserting by both keys and inserting by the first commute, if the second orders the two elements. */
  lemma {:induction false} InsertionsCommute<T(!new)>(
      first: Comparison<T>, second: Comparison<T>, zs: seq<T>, x: T, y: T)
    requires StrictWeak(first) && second(x, y)
    ensures var both := Combined(first, second);
      Insert(first, Insert(both, zs, x), y) == Insert(both, Insert(first, zs, y), x)
  {
    var both := Combined(first, second);
    assert Asymmetric(first, x, y) && Asymmetric(first, y, x);
    if zs == [] {
      TwoInserted(first, both, x, y);
    } else {
      var n := |zs| - 1;
      var w := zs[n];
      assert Splits(first, x, w, y) && Splits(first, y, x, w) && Splits(first, y, w, x);
      if first(y, w) && both(x, w) {
        InsertionsCommute(first, second, zs[..n], x, y);
        assert zs == zs[..n] + [w];
        CommuteBeforeLast(first, both, zs[..n], w, x, y);
      } else {
        CommuteAtEnd(first, both, zs, x, y, w);
      }
    }
  }

  /** Neither of the two elements reaches the last one. */
  lemma CommuteBeforeLast<T>(first: Comparison<T>, both: Comparison<T>, zs: seq<T>, w: T, x: T, y: T)
    requires first(y, w) && both(x, w)
    requires Insert(first, Insert(both, zs, x), y) == Insert(both, Insert(first, zs, y), x)
    ensures Insert(first, Insert(both, zs + [w], x), y) == Insert(both, Insert(first, zs + [w], y), x)
  {
    InsertBeforeLast(both, zs, w, x);
    InsertBeforeLast(first, zs, w, y);
    InsertBeforeLast(first, Insert(both, zs, x), w, y);
    InsertBeforeLast(both, Insert(first, zs, y), w, x);
  }

  lemma InsertBeforeLast<T>(less: Comparison<T>, xs: seq<T>, last: T, x: T)
    requires less(x, last)
    ensures Insert(less, xs + [last], x) == Insert(less, xs, x) + [last]
  {
    assert (xs + [last])[..|xs|] == xs;
  }

  lemma InsertAtEnd<T>(less: Comparison<T>, xs: seq<T>, last: T, x: T)
    requires !less(x, last)
    ensures Insert(less, xs + [last], x) == xs + [last] + [x]
  {
  }

  lemma TwoInserted<T>(first: Comparison<T>, both: Comparison<T>, x: T, y: T)
    requires first(y, x) <==> !both(x, y)
    ensures Insert(first, Insert(both, [], x), y) == Insert(both, Insert(first, [], y), x)
  {
    assert [x][..0] == [] && [y][..0] == [];
    assert Insert(both, [], x) == [x] && Insert(first, [], y) == [y];
  }

  /** One of the two elements stays at the end. */
  lemma CommuteAtEnd<T>(first: Comparison<T>, both: Comparison<T>, zs: seq<T>, x: T, y: T, w: T)
    requires zs != [] && w == zs[|zs| - 1]
    requires first(y, x) <==> !both(x, y)
    requires first(y, w) && !both(x, w) ==> first(y, x)
    requires !first(y, w) && both(x, w) ==> both(x, y)
    requires !(first(y, w) && both(x, w))
    ensures Insert(first, Insert(both, zs, x), y) == Insert(both, Insert(first, zs, y), x)
  {
    var xs, ys := Insert(both, zs, x), Insert(first, zs, y);
    if !first(y, w) && !both(x, w) {
      assert xs == zs + [x] && ys == zs + [y];
      if first(y, x) {
        InsertBeforeLast(first, zs, x, y);
      } else {
        InsertBeforeLast(both, zs, y, x);
      }
    } else if first(y, w) {
      assert xs == zs + [x];
      InsertBeforeLast(first, zs, x, y);
      LastStays(first, zs, y);
    } else {
      assert ys == zs + [y];
      InsertBeforeLast(both, zs, y, x);
      LastStays(both, zs, x);
    }
  }

  /** An element inserted before the last leaves the last where it is. */
  lemma LastStays<T>(less: Comparison<T>, xs: seq<T>, x: T)
    requires xs != [] && less(x, xs[|xs| - 1])
    ensures var r := Insert(less, xs, x); r != [] && r[|r| - 1] == xs[|xs| - 1]
  {
  }

  lemma {:induction false} SameInsertion<T>(less: Comparison<T>, other: Comparison<T>, xs: seq<T>, x: T)
    requires forall z <- xs :: less(x, z) <==> other(x, z)
    ensures Insert(less, xs, x) == Insert(other, xs, x)
  {
    if xs != [] && less(x, xs[|xs| - 1]) {
      assert xs == xs[..|xs| - 1] + [xs[|xs| - 1]];
      SameInsertion(less, other, xs[..|xs| - 1], x);
    }
  }

  lemma MembersOfSort<T(!new)>(less: Comparison<T>, xs: seq<T>)
    ensures forall z :: z in Sort(less, xs) <==> z in xs
  {
    SortPermutes(less, xs);
    forall z
      ensures z in Sort(less, xs) <==> z in xs
    {
      assert z in Sort(less, xs) <==> z in multiset(Sort(less, xs));
      assert z in xs <==> z in multiset(xs);
    }
  }

  /** An element after all the others by the second key is inserted by both keys as by the first. */
  lemma InsertLast<T(!new)>(first: Comparison<T>, second: Comparison<T>, ys: seq<T>, x: T)
    requires StrictWeak(first) && StrictWeak(second) && Sorted(second, ys)
    requires ys == [] || !second(x, ys[|ys| - 1])
    ensures Insert(first, Sort(first, ys), x) == Insert(Combined(first, second), Sort(first, ys), x)
  {
    var both := Combined(first, second);
    MembersOfSort(first, ys);
    forall z | z in Sort(first, ys)
      ensures first(x, z) <==> both(x, z)
    {
      var i :| 0 <= i < |ys| && ys[i] == z;
      assert Splits(second, x, z, ys[|ys| - 1]);
      assert Asymmetric(first, x, z);
    }
    SameInsertion(first, both, Sort(first, ys), x);
  }

  lemma SortAppended<T>(less: Comparison<T>, xs: seq<T>, x: T)
    ensures Sort(less, xs + [x]) == Insert(less, Sort(less, xs), x)
  {
    assert (xs + [x])[..|xs|] == xs;
  }

  /** Sorting by the first key what was sorted by the second, with one element more. */
  lemma {:induction false} InsertThenSort<T(!new)>(first: Comparison<T>, second: Comparison<T>, ys: seq<T>, x: T)
    requires StrictWeak(first) && StrictWeak(second) && Sorted(second, ys)
    ensures Sort(first, Insert(second, ys, x)) == Insert(Combined(first, second), Sort(first, ys), x)
  {
    if ys == [] || !second(x, ys[|ys| - 1]) {
      SortAppended(first, ys, x);
      InsertLast(first, second, ys, x);
    } else {
      var n := |ys| - 1;
      InsertThenSort(first, second, ys[..n], x);
      SortAppended(first, Insert(second, ys[..n], x), ys[n]);
      InsertionsCommute(first, second, Sort(first, ys[..n]), x, ys[n]);
    }
  }

  /** Sorting by the second key and then, stably, by the first is sorting once by both. */
  lemma {:induction false} SortTwiceIsSortByBoth<T(!new)>(first: Comparison<T>, second: Comparison<T>, xs: seq<T>)
    requires StrictWeak(first) && StrictWeak(second)
    ensures Sort(first, Sort(second, xs)) == Sort(Combined(first, second), xs)
  {
    if xs != [] {
      var n := |xs| - 1;
      SortTwiceIsSortByBoth(first, second, xs[..n]);
      SortSorts(second, xs[..n]);
      InsertThenSort(first, second, Sort(second, xs[..n]), xs[n]);
    }
  }

  /** A prefix of a sorted sequence holds its least elements. */
  lemma PrefixIsLeast<T>(less: Comparison<T>, xs: seq<T>, k: nat)
    requires Sorted(less, xs) && k <= |xs|
    ensures forall a <- xs[..k], b <- xs[k..] :: !less(b, a)
  {
    forall a, b | a in xs[..k] && b in xs[k..]
      ensures !less(b, a)
    {
      var i :| 0 <= i < k && xs[i] == a;
      var j :| 0 <= j < |xs| - k && xs[k..][j] == b;
      assert xs[k + j] == b;
    }
  }
}

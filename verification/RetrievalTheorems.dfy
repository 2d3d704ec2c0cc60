/** What makes a candidate, what its score says, and why the ranking's two sorts are one. */
module RetrievalTheorems {
  import opened Wrappers
  import opened StableSorting
  import opened RetrievalModel
  import opened TextOrder

  // ------------------------------------------------------------------ evidence

  lemma {:induction false} SpreadIsBounded(term: string, docs: seq<Document>)
    ensures Spread(term, docs) <= |docs|
  {
    if docs != [] {
      SpreadIsBounded(term, docs[..|docs| - 1]);
    }
  }

  /** A logarithm that is positive above one makes every term count. */
  ghost predicate Grows(lang: Language) {
    forall x: real :: x > 1.0 ==> lang.ln(x) > 0.0
  }

  lemma IdfIsPositive(lang: Language, term: string, docs: seq<Document>)
    requires Grows(lang)
    ensures Idf(lang, term, docs) > 0.0
  {
    SpreadIsBounded(term, docs);
    var f := Spread(term, docs) as real;
    var above := |docs| as real - f + 0.5;
    assert above > 0.0 && f + 0.5 > 0.0;
    QuotientIsPositive(above, f + 0.5);
  }

  lemma ProductIsPositive(a: real, b: real)
    requires a > 0.0 && b > 0.0
    ensures a * b > 0.0
  {
  }

  lemma TermIsEvidence(lang: Language, d: Document, term: string, docs: seq<Document>, average: real)
    requires Grows(lang) && average >= 0.0 && term in d.frequencies
    ensures Evidence(lang, d, term, docs, average) > 0.0
  {
    var f := d.frequencies[term];
    IdfIsPositive(lang, term, docs);
    DenominatorIsPositive(d, f, average);
    ProductIsPositive(Idf(lang, term, docs), f as real);
    ProductIsPositive(Idf(lang, term, docs) * f as real, BM25_K1 + 1.0);
    QuotientIsPositive(Idf(lang, term, docs) * f as real * (BM25_K1 + 1.0), Denominator(d, f, average));
  }

  /** A document scores exactly if it shares a term with the query. */
  lemma {:induction false} ScoresOnSharedTerms(
      lang: Language, d: Document, terms: seq<string>, docs: seq<Document>, average: real)
    requires Grows(lang) && average >= 0.0
    ensures Score(lang, d, terms, docs, average) >= 0.0
    ensures Score(lang, d, terms, docs, average) > 0.0 <==> exists t <- terms :: t in d.frequencies
  {
    if terms != [] {
      var n := |terms| - 1;
      assert terms == terms[..n] + [terms[n]];
      ScoresOnSharedTerms(lang, d, terms[..n], docs, average);
      if terms[n] in d.frequencies {
        TermIsEvidence(lang, d, terms[n], docs, average);
      }
    }
  }

  lemma ProductsGrow(a: real, b: real, c: real)
    requires a <= b && c >= 0.0
    ensures a * c <= b * c
  {
  }

  /** Fractions compare as their cross products do. */
  lemma CrossMultiply(p: real, q: real, r: real, s: real)
    requires q > 0.0 && s > 0.0 && p * s < r * q
    ensures p / q < r / s
  {
    var x, y, t := p / q, r / s, q * s;
    assert x * q == p && y * s == r;
    assert p * s == x * t && r * q == y * t;
    ProductIsPositive(q, s);
    if x >= y {
      ProductsGrow(y, x, t);
    }
  }

  /** The part of a term's evidence that depends on the document, for a positive weight of the term. */
  function Saturation(frequency: real, length: real): real
    requires frequency + length > 0.0
  {
    frequency / (frequency + length)
  }

  lemma ProductsStrictlyGrow(a: real, b: real, c: real)
    requires a < b && c > 0.0
    ensures a * c < b * c
  {
  }

  lemma CrossProducts(few: real, many: real, length: real)
    requires 0.0 < few < many && length > 0.0
    ensures few * (many + length) < many * (few + length)
  {
    ProductsStrictlyGrow(few, many, length);
    assert few * (many + length) == few * many + few * length;
    assert many * (few + length) == many * few + many * length;
    assert few * many == many * few;
  }

  lemma SaturationGrows(few: real, many: real, length: real)
    requires 0.0 < few < many && length > 0.0
    ensures Saturation(few, length) < Saturation(many, length) < 1.0
  {
    CrossProducts(few, many, length);
    CrossMultiply(few, few + length, many, many + length);
    assert many * 1.0 == many && 1.0 * (many + length) == many + length;
    CrossMultiply(many, many + length, 1.0, 1.0);
  }

  lemma SaturationFallsWithLength(frequency: real, short: real, long: real)
    requires frequency > 0.0 && 0.0 < short < long
    ensures Saturation(frequency, long) < Saturation(frequency, short)
  {
    ProductIsPositive(frequency, long - short);
    assert frequency * (frequency + short) < frequency * (frequency + long);
    CrossMultiply(frequency, frequency + long, frequency, frequency + short);
  }

  function LengthPart(d: Document, average: real): real {
    BM25_K1 * (1.0 - BM25_B + BM25_B * LengthRatio(d, average))
  }

  lemma EvidenceIsSaturation(lang: Language, d: Document, term: string, docs: seq<Document>, average: real)
    requires average >= 0.0 && term in d.frequencies
    ensures LengthPart(d, average) > 0.0
    ensures Evidence(lang, d, term, docs, average) ==
      Idf(lang, term, docs) * (BM25_K1 + 1.0) * Saturation(d.frequencies[term] as real, LengthPart(d, average))
  {
    var f := d.frequencies[term] as real;
    if average > 0.0 && d.length > 0 {
      QuotientIsPositive(d.length as real, average);
    }
    assert LengthRatio(d, average) >= 0.0;
    var w, q := Idf(lang, term, docs), f + LengthPart(d, average);
    assert w * f * (BM25_K1 + 1.0) == w * (BM25_K1 + 1.0) * f;
    assert (w * (BM25_K1 + 1.0) * f) / q == w * (BM25_K1 + 1.0) * (f / q);
  }

  lemma ScaledBelow(weight: real, a: real, b: real)
    requires weight > 0.0 && a < b
    ensures weight * a < weight * b
  {
    ProductIsPositive(weight, b - a);
  }

  /** Of two documents of one length, the one that holds a term more often scores higher on it, up to a ceiling. */
  lemma MoreOftenScoresHigher(lang: Language, few: Document, many: Document, term: string, docs: seq<Document>, average: real)
    requires Grows(lang) && average >= 0.0 && few.length == many.length
    requires term in few.frequencies && term in many.frequencies && few.frequencies[term] < many.frequencies[term]
    ensures Evidence(lang, few, term, docs, average) < Evidence(lang, many, term, docs, average)
    ensures Evidence(lang, many, term, docs, average) < Idf(lang, term, docs) * (BM25_K1 + 1.0)
  {
    var weight, length := Idf(lang, term, docs) * (BM25_K1 + 1.0), LengthPart(few, average);
    IdfIsPositive(lang, term, docs);
    ProductIsPositive(Idf(lang, term, docs), BM25_K1 + 1.0);
    EvidenceIsSaturation(lang, few, term, docs, average);
    EvidenceIsSaturation(lang, many, term, docs, average);
    var a, b := few.frequencies[term] as real, many.frequencies[term] as real;
    SaturationGrows(a, b, length);
    ScaledBelow(weight, Saturation(a, length), Saturation(b, length));
    ScaledBelow(weight, Saturation(b, length), 1.0);
  }

  /** Of two documents that hold a term equally often, the shorter scores higher on it. */
  lemma ShorterScoresHigher(lang: Language, short: Document, long: Document, term: string, docs: seq<Document>, average: real)
    requires Grows(lang) && average > 0.0 && short.length < long.length
    requires term in short.frequencies && term in long.frequencies && short.frequencies[term] == long.frequencies[term]
    ensures Evidence(lang, long, term, docs, average) < Evidence(lang, short, term, docs, average)
  {
    var weight := Idf(lang, term, docs) * (BM25_K1 + 1.0);
    IdfIsPositive(lang, term, docs);
    ProductIsPositive(Idf(lang, term, docs), BM25_K1 + 1.0);
    EvidenceIsSaturation(lang, short, term, docs, average);
    EvidenceIsSaturation(lang, long, term, docs, average);
    var x, y := short.length as real, long.length as real;
    ProductIsPositive(y - x, average);
    assert x * average < y * average;
    CrossMultiply(x, average, y, average);
    var f := short.frequencies[term] as real;
    SaturationFallsWithLength(f, LengthPart(short, average), LengthPart(long, average));
    ScaledBelow(weight, Saturation(f, LengthPart(long, average)), Saturation(f, LengthPart(short, average)));
  }

  lemma {:induction false} TermsAreTokens(tokens: seq<string>)
    ensures forall t :: t in Terms(tokens) <==> t in tokens
    ensures forall i, j :: 0 <= i < j < |Terms(tokens)| ==> Terms(tokens)[i] != Terms(tokens)[j]
  {
    if tokens != [] {
      assert tokens == tokens[..|tokens| - 1] + [tokens[|tokens| - 1]];
      TermsAreTokens(tokens[..|tokens| - 1]);
    }
  }

  predicate Shares(lang: Language, query: string, m: Memory) {
    exists t <- lang.tokenize(query) :: t in lang.tokenize(m.content)
  }

  /** A memory of the corpus is a candidate exactly if it shares a token with the query. */
  lemma {:induction false} CandidatesShareTokens(
      lang: Language, query: string, part: seq<Memory>, docs: seq<Document>, key: Key)
    requires Grows(lang) && docs != []
    ensures var cs := Candidates(lang, Documents(lang, part), Terms(lang.tokenize(query)), docs);
      && (forall c <- cs :: c.score > 0.0)
      && ((exists c <- cs :: c.key == key) <==> exists m <- part :: m.key == key && Shares(lang, query, m))
  {
    var terms := Terms(lang.tokenize(query));
    var cs := Candidates(lang, Documents(lang, part), terms, docs);
    if part != [] {
      var n := |part| - 1;
      var ds := Documents(lang, part);
      assert ds[..|ds| - 1] == Documents(lang, part[..n]) && part == part[..n] + [part[n]];
      CandidatesShareTokens(lang, query, part[..n], docs, key);
      LastScores(lang, query, part[n], docs);
      var before := Candidates(lang, Documents(lang, part[..n]), terms, docs);
      var added := Added(lang, part[n], terms, docs);
      assert cs == before + added;
      JoinedKeys(before, added, key);
      assert (exists m <- part :: m.key == key && Shares(lang, query, m)) <==>
        (exists m <- part[..n] :: m.key == key && Shares(lang, query, m)) || (part[n].key == key && Shares(lang, query, part[n]));
    }
  }

  /** The candidate that one memory makes, if any. */
  function Added(lang: Language, m: Memory, terms: seq<string>, docs: seq<Document>): seq<Candidate>
    requires docs != []
  {
    var d := DocumentOf(m, lang.tokenize(m.content));
    var score := Score(lang, d, terms, docs, Average(docs));
    if score == 0.0 then [] else [Candidate(m.key, lang.preview(m.content), score)]
  }

  lemma LastScores(lang: Language, query: string, m: Memory, docs: seq<Document>)
    requires Grows(lang) && docs != []
    ensures var added := Added(lang, m, Terms(lang.tokenize(query)), docs);
      (added != [] <==> Shares(lang, query, m)) && forall c <- added :: c.score > 0.0 && c.key == m.key
  {
    var tokens := lang.tokenize(m.content);
    var d := DocumentOf(m, tokens);
    var terms := Terms(lang.tokenize(query));
    TermsAreTokens(lang.tokenize(query));
    ScoresOnSharedTerms(lang, d, terms, docs, Average(docs));
    assert (exists t <- terms :: t in d.frequencies) <==> Shares(lang, query, m);
  }

  lemma JoinedKeys(first: seq<Candidate>, second: seq<Candidate>, key: Key)
    requires |second| <= 1
    ensures (exists c <- first + second :: c.key == key) <==>
      (exists c <- first :: c.key == key) || (second != [] && second[0].key == key)
  {
    var all := first + second;
    if c :| c in first && c.key == key {
      assert c in all;
    }
    if second != [] {
      assert second[0] in all;
    }
  }

  // ------------------------------------------------------------------ orders

  lemma KeysAreOrdered(a: Key, b: Key, c: Key)
    ensures !(KeyBefore(a, b) && KeyBefore(b, a))
    ensures KeyBefore(a, b) || KeyBefore(b, a) || (a.namespace == b.namespace && a.id == b.id)
    ensures KeyBefore(a, b) ==> KeyBefore(a, c) || KeyBefore(c, b)
  {
    if a.namespace.Some? && b.namespace.Some? {
      TextsAreOrdered(a.namespace.value, b.namespace.value);
    }
    if a.namespace.Some? && c.namespace.Some? {
      TextsAreOrdered(a.namespace.value, c.namespace.value);
    }
    if b.namespace.Some? && c.namespace.Some? {
      TextsAreOrdered(b.namespace.value, c.namespace.value);
    }
    if a.namespace.Some? && b.namespace.Some? && c.namespace.Some? {
      TextsSplit(a.namespace.value, b.namespace.value, c.namespace.value);
    }
  }

  const RAW: Comparison<Candidate> := (a, b) => RawBefore(a, b)
  const SCORE: Comparison<Candidate> := (a, b) => ScoreBefore(a, b)

  /** The raw order, read off weighted candidates. */
  function RawOrder(own: Option<string>): Comparison<Candidate> {
    (a, b) => RawOwnBefore(own, a, b)
  }

  predicate RawOwnBefore(own: Option<string>, a: Candidate, b: Candidate) {
    RawScore(own, a) > RawScore(own, b) || (RawScore(own, a) == RawScore(own, b) && KeyBefore(a.key, b.key))
  }

  lemma RawOrderSorts(own: Option<string>)
    ensures StrictWeak(RawOrder(own))
  {
    var less := RawOrder(own);
    forall a, b
      ensures Asymmetric(less, a, b)
    {
      KeysAreOrdered(a.key, b.key, a.key);
    }
    forall a, b, c
      ensures Splits(less, a, b, c)
    {
      KeysAreOrdered(a.key, b.key, c.key);
    }
  }

  lemma ScoreOrderSorts()
    ensures StrictWeak(SCORE)
  {
    forall a, b
      ensures Asymmetric(SCORE, a, b)
    {
    }
    forall a, b, c
      ensures Splits(SCORE, a, b, c)
    {
    }
  }

  lemma WeightingIsUndone(own: Option<string>, c: Candidate)
    ensures RawScore(own, Weighted(own, c)) == c.score && Weighted(own, c).key == c.key
  {
  }

  lemma {:induction false} WeightInsert(own: Option<string>, xs: seq<Candidate>, x: Candidate)
    ensures WeightedAll(own, Insert(RAW, xs, x)) == Insert(RawOrder(own), WeightedAll(own, xs), Weighted(own, x))
  {
    WeightingIsUndone(own, x);
    if xs == [] {
      WeightAppend(own, [], x);
    } else {
      var n := |xs| - 1;
      WeightingIsUndone(own, xs[n]);
      if RAW(x, xs[n]) {
        WeightInsert(own, xs[..n], x);
        WeightAppend(own, Insert(RAW, xs[..n], x), xs[n]);
        InsertBeforeLast(RawOrder(own), WeightedAll(own, xs[..n]), Weighted(own, xs[n]), Weighted(own, x));
      } else {
        WeightAppend(own, xs, x);
        InsertAtEnd(RawOrder(own), WeightedAll(own, xs[..n]), Weighted(own, xs[n]), Weighted(own, x));
      }
    }
  }

  lemma WeightAppend(own: Option<string>, xs: seq<Candidate>, x: Candidate)
    ensures WeightedAll(own, xs + [x]) == WeightedAll(own, xs) + [Weighted(own, x)]
  {
    assert (xs + [x])[..|xs|] == xs;
  }

  /** Weighting what is sorted by raw score is sorting, by raw score, what is weighted. */
  lemma {:induction false} WeightSorted(own: Option<string>, cs: seq<Candidate>)
    ensures WeightedAll(own, Sort(RAW, cs)) == Sort(RawOrder(own), WeightedAll(own, cs))
  {
    if cs != [] {
      var n := |cs| - 1;
      WeightSorted(own, cs[..n]);
      WeightInsert(own, Sort(RAW, cs[..n]), cs[n]);
      var ys := WeightedAll(own, cs);
      assert ys[..|ys| - 1] == WeightedAll(own, cs[..n]);
    }
  }

  lemma {:induction false} SameSort(less: Comparison<Candidate>, other: Comparison<Candidate>, xs: seq<Candidate>)
    requires forall a, b :: less(a, b) <==> other(a, b)
    ensures Sort(less, xs) == Sort(other, xs)
  {
    if xs != [] {
      SameSort(less, other, xs[..|xs| - 1]);
      SameInsertion(less, other, Sort(less, xs[..|xs| - 1]), xs[|xs| - 1]);
    }
  }

  /** The raw sort, the weighting and the stable second sort amount to one sort in the query's order. */
  lemma TwoSortsAreOne(own: Option<string>, cs: seq<Candidate>)
    ensures Sort(SCORE, WeightedAll(own, Sort(RAW, cs))) == Ranking(own, cs)
  {
    WeightSorted(own, cs);
    RawOrderSorts(own);
    ScoreOrderSorts();
    SortTwiceIsSortByBoth(SCORE, RawOrder(own), WeightedAll(own, cs));
    SameSort(Combined(SCORE, RawOrder(own)), QueryOrder(own), WeightedAll(own, cs));
  }

  lemma {:induction false} NothingWeighted(cs: seq<Candidate>)
    ensures WeightedAll(None, cs) == cs
  {
    if cs != [] {
      NothingWeighted(cs[..|cs| - 1]);
    }
  }

  /** Without an own namespace the first sort is already the query's order. */
  lemma OneSortIsEnough(cs: seq<Candidate>)
    ensures Sort(RAW, cs) == Ranking(None, cs)
  {
    NothingWeighted(cs);
    SameSort(RAW, QueryOrder(None), cs);
  }

  lemma QueryOrderSorts(own: Option<string>)
    ensures StrictWeak(QueryOrder(own))
  {
    var less := QueryOrder(own);
    forall a, b
      ensures Asymmetric(less, a, b)
    {
      KeysAreOrdered(a.key, b.key, a.key);
    }
    forall a, b, c
      ensures Splits(less, a, b, c)
    {
      KeysAreOrdered(a.key, b.key, c.key);
    }
  }

  lemma {:induction false} WeightedMembers(own: Option<string>, cs: seq<Candidate>)
    ensures |WeightedAll(own, cs)| == |cs|
    ensures forall k | 0 <= k < |cs| :: WeightedAll(own, cs)[k] == Weighted(own, cs[k])
  {
    if cs != [] {
      WeightedMembers(own, cs[..|cs| - 1]);
    }
  }

  lemma RankingPermutes(own: Option<string>, cs: seq<Candidate>)
    ensures multiset(Ranking(own, cs)) == multiset(WeightedAll(own, cs)) && |Ranking(own, cs)| == |cs|
  {
    SortPermutes(QueryOrder(own), WeightedAll(own, cs));
    WeightedMembers(own, cs);
    assert |multiset(Ranking(own, cs))| == |multiset(WeightedAll(own, cs))|;
  }

  /** No score but an own one changed. */
  lemma RankedIsWeighted(own: Option<string>, cs: seq<Candidate>, a: Candidate)
    requires a in Ranking(own, cs)
    ensures exists c <- cs :: a == Weighted(own, c)
  {
    RankingPermutes(own, cs);
    SameMembers(Ranking(own, cs), WeightedAll(own, cs), a);
    WeightedFrom(own, cs, a);
  }

  lemma SameMembers(xs: seq<Candidate>, ys: seq<Candidate>, a: Candidate)
    requires multiset(xs) == multiset(ys) && a in xs
    ensures a in ys
  {
    assert a in multiset(xs);
  }

  lemma WeightedFrom(own: Option<string>, cs: seq<Candidate>, a: Candidate)
    requires a in WeightedAll(own, cs)
    ensures exists c <- cs :: a == Weighted(own, c)
  {
    WeightedMembers(own, cs);
    var weighted := WeightedAll(own, cs);
    var k :| 0 <= k < |weighted| && weighted[k] == a;
    assert a == Weighted(own, cs[k]) && cs[k] in cs;
  }

  /** What is returned is the best of the ranking: nothing left out is before anything returned. */
  lemma TruncationKeepsTheBest(own: Option<string>, cs: seq<Candidate>, limit: nat)
    ensures var all := Ranking(own, cs); var kept := Take(all, limit);
      && kept <= all && |kept| == (if limit < |cs| then limit else |cs|)
      && forall a <- kept, b <- all[|kept|..] :: !QueryBefore(own, b, a)
  {
    var all := Ranking(own, cs);
    RankingPermutes(own, cs);
    QueryOrderSorts(own);
    SortSorts(QueryOrder(own), WeightedAll(own, cs));
    var kept := Take(all, limit);
    PrefixIsLeast(QueryOrder(own), all, |kept|);
    forall a, b | a in kept && b in all[|kept|..]
      ensures !QueryBefore(own, b, a)
    {
      assert a in all[..|kept|];
      assert !QueryOrder(own)(b, a);
    }
  }

  // ------------------------------------------------------------------ own memories

  predicate OtherKey(a: Candidate, b: Candidate) {
    a.key.namespace != b.key.namespace || a.key.id != b.key.id
  }

  predicate DistinctKeys(cs: seq<Candidate>) {
    forall i, j :: 0 <= i < j < |cs| ==> OtherKey(cs[i], cs[j])
  }

  /** Whoever is before an own memory in the weighted ranking was before it already. */
  lemma NothingOvertakesOwn(own: Option<string>, x: Candidate, c: Candidate)
    requires IsOwn(own, c) && c.score >= 0.0 && QueryBefore(own, x, c)
    ensures RawOwnBefore(own, x, c)
  {
  }

  lemma {:induction false} NoMoreThan(part: seq<Candidate>, whole: seq<Candidate>)
    requires forall i, j :: 0 <= i < j < |part| ==> part[i] != part[j]
    requires forall x <- part :: x in whole
    ensures |part| <= |whole|
  {
    if part != [] {
      var n := |part| - 1;
      assert part[n] in part;
      var k :| 0 <= k < |whole| && whole[k] == part[n];
      var rest := whole[..k] + whole[k + 1..];
      forall x | x in part[..n]
        ensures x in rest
      {
        assert x in part;
        var l :| 0 <= l < |whole| && whole[l] == x;
        assert l < k ==> rest[l] == x;
        assert l > k ==> rest[l - 1] == x;
      }
      NoMoreThan(part[..n], rest);
    }
  }

  lemma {:induction false} InsertKeepsKeys(less: Comparison<Candidate>, xs: seq<Candidate>, x: Candidate)
    requires DistinctKeys(xs) && forall z <- xs :: OtherKey(z, x)
    ensures DistinctKeys(Insert(less, xs, x))
  {
    if xs != [] && less(x, xs[|xs| - 1]) {
      var n := |xs| - 1;
      var front := Insert(less, xs[..n], x);
      InsertKeepsKeys(less, xs[..n], x);
      InsertPermutes(less, xs[..n], x);
      forall k | 0 <= k < |front|
        ensures OtherKey(front[k], xs[n])
      {
        assert front[k] in multiset(front);
        assert front[k] == x || front[k] in xs[..n];
        assert xs[n] in xs;
      }
    }
  }

  lemma {:induction false} SortKeepsKeys(less: Comparison<Candidate>, xs: seq<Candidate>)
    requires DistinctKeys(xs)
    ensures DistinctKeys(Sort(less, xs))
  {
    if xs != [] {
      var n := |xs| - 1;
      SortKeepsKeys(less, xs[..n]);
      MembersOfSort(less, xs[..n]);
      InsertKeepsKeys(less, Sort(less, xs[..n]), xs[n]);
    }
  }

  /** What ranks before an own memory ranks before it in the raw order too. */
  lemma BeforeOwnIsBefore(own: Option<string>, raw: seq<Candidate>, all: seq<Candidate>, i: nat, j: nat, k: nat)
    requires Sorted(RawOrder(own), raw) && Sorted(QueryOrder(own), all) && DistinctKeys(all)
    requires i < |raw| && k < j < |all| && raw[i] == all[j] && all[k] in raw
    requires IsOwn(own, all[j]) && all[j].score >= 0.0
    ensures all[k] in raw[..i]
  {
    var x, c := all[k], all[j];
    assert !QueryOrder(own)(c, x);
    KeysAreOrdered(x.key, c.key, c.key);
    NothingOvertakesOwn(own, x, c);
    assert RawOrder(own)(x, c);
    var l :| 0 <= l < |raw| && raw[l] == x;
    assert raw[..i][l] == x;
  }

  /** Weighting never moves an own memory down: it ranks at least as high as by raw score alone. */
  lemma OwnNeverMovesDown(own: Option<string>, cs: seq<Candidate>, i: nat, j: nat)
    requires (forall c <- cs :: c.score >= 0.0) && DistinctKeys(cs)
    requires i < |WeightedAll(own, Sort(RAW, cs))| && j < |Ranking(own, cs)|
    requires WeightedAll(own, Sort(RAW, cs))[i] == Ranking(own, cs)[j] && IsOwn(own, Ranking(own, cs)[j])
    ensures j <= i
  {
    var weighted := WeightedAll(own, cs);
    var raw, all := Sort(RawOrder(own), weighted), Ranking(own, cs);
    WeightSorted(own, cs);
    RawOrderSorts(own);
    QueryOrderSorts(own);
    SortSorts(RawOrder(own), weighted);
    SortSorts(QueryOrder(own), weighted);
    MembersOfSort(RawOrder(own), weighted);
    MembersOfSort(QueryOrder(own), weighted);
    WeightedMembers(own, cs);
    SortKeepsKeys(QueryOrder(own), weighted);
    assert all[j] in all;
    WeightedIsPositive(own, cs, all[j]);
    forall x | x in all[..j]
      ensures x in raw[..i]
    {
      var k :| 0 <= k < j && all[k] == x;
      assert x in all;
      BeforeOwnIsBefore(own, raw, all, i, j, k);
    }
    DistinctValues(all, j);
    NoMoreThan(all[..j], raw[..i]);
  }

  lemma DistinctValues(xs: seq<Candidate>, n: nat)
    requires DistinctKeys(xs) && n <= |xs|
    ensures forall k, l :: 0 <= k < l < |xs[..n]| ==> xs[..n][k] != xs[..n][l]
  {
  }

  lemma WeightedIsPositive(own: Option<string>, cs: seq<Candidate>, c: Candidate)
    requires (forall x <- cs :: x.score >= 0.0) && c in WeightedAll(own, cs)
    ensures c.score >= 0.0
  {
    WeightedMembers(own, cs);
    var k :| 0 <= k < |cs| && WeightedAll(own, cs)[k] == c;
    assert cs[k] in cs;
  }
}

/** What the score is, in numbers: Okapi BM25 with its constants, by which rarer terms count more. */
module RetrievalWeights {
  import opened Wrappers
  import opened RetrievalModel
  import opened RetrievalTheorems
  import opened StableSorting
  import opened TextOrder

  /** The documents that hold a term. */
  function Holders(term: string, docs: seq<Document>): set<int> {
    set i | 0 <= i < |docs| && term in docs[i].frequencies
  }

  lemma {:induction false} SpreadCounts(term: string, docs: seq<Document>)
    ensures Spread(term, docs) == |Holders(term, docs)|
  {
    if docs != [] {
      var n := |docs| - 1;
      SpreadCounts(term, docs[..n]);
      assert Holders(term, docs) == Holders(term, docs[..n]) + if term in docs[n].frequencies then {n} else {};
    }
  }

  lemma {:induction false} HoldersAreBounded(term: string, docs: seq<Document>)
    ensures |Holders(term, docs)| <= |docs|
  {
    SpreadCounts(term, docs);
    SpreadIsBounded(term, docs);
  }

  /** Of two corpus counts the smaller has the greater odds. */
  lemma RarerHasGreaterOdds(rare: nat, common: nat, all: nat)
    requires rare < common <= all
    ensures 1.0 < 1.0 + (all as real - common as real + 0.5) / (common as real + 0.5)
                < 1.0 + (all as real - rare as real + 0.5) / (rare as real + 0.5)
  {
    var p, q := all as real - common as real + 0.5, common as real + 0.5;
    var r, s := all as real - rare as real + 0.5, rare as real + 0.5;
    QuotientIsPositive(p, q);
    ProductsStrictlyGrow(s, q, p);
    ProductsStrictlyGrow(p, r, q);
    assert p * s == s * p && r * q > p * q;
    CrossMultiply(p, q, r, s);
  }

  ghost predicate StrictlyIncreases(ln: real -> real) {
    forall x: real, y: real :: 0.0 < x < y ==> ln(x) < ln(y)
  }

  /** Of two terms that a document holds equally often, the one fewer documents of the corpus hold adds more to its score. */
  lemma RarerCountsMore(lang: Language, d: Document, rare: string, common: string, docs: seq<Document>, average: real)
    requires StrictlyIncreases(lang.ln) && average >= 0.0
    requires rare in d.frequencies && common in d.frequencies && d.frequencies[rare] == d.frequencies[common]
    requires |Holders(rare, docs)| < |Holders(common, docs)|
    ensures Evidence(lang, d, common, docs, average) < Evidence(lang, d, rare, docs, average)
  {
    SpreadCounts(rare, docs);
    SpreadCounts(common, docs);
    HoldersAreBounded(common, docs);
    RarerHasGreaterOdds(|Holders(rare, docs)|, |Holders(common, docs)|, |docs|);
    EvidenceIsSaturation(lang, d, rare, docs, average);
    EvidenceIsSaturation(lang, d, common, docs, average);
    var f, length := d.frequencies[rare] as real, LengthPart(d, average);
    QuotientIsPositive(f, f + length);
    var part := Saturation(f, length);
    WeightsScale(Idf(lang, common, docs), Idf(lang, rare, docs), part);
  }

  lemma WeightsScale(less: real, more: real, part: real)
    requires less < more && part > 0.0
    ensures less * (BM25_K1 + 1.0) * part < more * (BM25_K1 + 1.0) * part
  {
    ProductsStrictlyGrow(less, more, BM25_K1 + 1.0);
    ProductsStrictlyGrow(less * (BM25_K1 + 1.0), more * (BM25_K1 + 1.0), part);
  }

  /** The mean length of the documents, by which lengths are measured. */
  lemma AverageIsMean(docs: seq<Document>)
    requires docs != []
    ensures Average(docs) * |docs| as real == TotalLength(docs) as real
  {
  }

  lemma QuotientTimes(a: real, b: real)
    requires b != 0.0
    ensures a / b * b == a
  {
  }

  /** The evidence of one term, in the formula's own numbers: k1 = 1.2, b = 0.75, and the odds against holding the term. */
  lemma EvidenceIsBm25(lang: Language, d: Document, term: string, docs: seq<Document>, average: real)
    requires average > 0.0 && term in d.frequencies
    ensures var f, n, all := d.frequencies[term] as real, |Holders(term, docs)| as real, |docs| as real;
      Evidence(lang, d, term, docs, average) * (f + 1.2 * (0.25 + 0.75 * (d.length as real / average)))
        == lang.ln(1.0 + (all - n + 0.5) / (n + 0.5)) * f * 2.2
  {
    SpreadCounts(term, docs);
    var f := d.frequencies[term];
    DenominatorIsPositive(d, f, average);
    QuotientTimes(Idf(lang, term, docs) * f as real * 2.2, Denominator(d, f, average));
  }

  /** An own memory counts for a quarter more, and keeps all else; no other's score changes. */
  lemma OwnCountsMore(own: Option<string>, cs: seq<Candidate>, a: Candidate)
    requires a in Ranking(own, cs)
    ensures exists c <- cs ::
      a == c.(score := if own.Some? && c.key.namespace == own then c.score * 1.25 else c.score)
  {
    RankedIsWeighted(own, cs, a);
  }

  /** The score of a document is the sum of what the query's terms add. */
  lemma {:induction false} ScoresAdd(
      lang: Language, d: Document, first: seq<string>, second: seq<string>, docs: seq<Document>, average: real)
    requires average >= 0.0
    ensures Score(lang, d, first + second, docs, average)
         == Score(lang, d, first, docs, average) + Score(lang, d, second, docs, average)
    ensures forall t :: Score(lang, d, [t], docs, average) == Evidence(lang, d, t, docs, average)
  {
    if second == [] {
      assert first + second == first;
    } else {
      var n := |second| - 1;
      assert (first + second)[..|first| + n] == first + second[..n];
      ScoresAdd(lang, d, first, second[..n], docs, average);
    }
    forall t
      ensures Score(lang, d, [t], docs, average) == Evidence(lang, d, t, docs, average)
    {
      assert [t][..0] == [];
    }
  }

  /** The score of a ranked candidate before its weight. */
  function Unweighted(own: Option<string>, a: Candidate): real {
    if own.Some? && a.key.namespace == own then a.score / 1.25 else a.score
  }

  /** Of two ranked candidates the first scores no less; of equal scores, no less before the weight; of those, its key is less. */
  lemma RankingOrders(own: Option<string>, cs: seq<Candidate>, i: nat, j: nat)
    requires i < j < |Ranking(own, cs)|
    ensures var a, b := Ranking(own, cs)[i], Ranking(own, cs)[j];
      && a.score >= b.score
      && (a.score == b.score ==> Unweighted(own, a) >= Unweighted(own, b))
      && (a.score == b.score && Unweighted(own, a) == Unweighted(own, b) ==>
            && (a.key.namespace == b.key.namespace ==> a.key.id <= b.key.id)
            && (a.key.namespace.Some? ==>
                  b.key.namespace.Some? && !TextBefore(b.key.namespace.value, a.key.namespace.value)))
  {
    QueryOrderSorts(own);
    SortSorts(QueryOrder(own), WeightedAll(own, cs));
    var all := Ranking(own, cs);
    assert !QueryOrder(own)(all[j], all[i]);
  }
}

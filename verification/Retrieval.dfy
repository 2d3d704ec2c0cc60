/**
 * Lexical retrieval over the memory corpus: documents, BM25 over real arithmetic, and the ranking with the caller's own
 * memories weighted. The tokenizer and the logarithm are parameters.
 */
module RetrievalModel {
  import opened Wrappers
  import opened StableSorting
  import opened TextOrder

  const BM25_K1 := 1.2
  const BM25_B := 0.75
  const OWN_MEMORY_WEIGHT := 1.25

  datatype Key = Key(namespace: Option<string>, id: int, version: nat)

  datatype Memory = Memory(key: Key, content: string)

  datatype Candidate = Candidate(key: Key, preview: string, score: real)

  type Positive = n: nat | n > 0 witness 1

  datatype Document = Document(memory: Memory, frequencies: map<string, Positive>, length: nat)

  /** What the model does not compute: tokens, previews and logarithms. */
  datatype Language = Language(tokenize: string -> seq<string>, preview: string -> string, ln: real -> real)

  function DocumentOf(m: Memory, tokens: seq<string>): Document {
    Document(m, map t | t in tokens :: multiset(tokens)[t], |tokens|)
  }

  function Documents(lang: Language, memories: seq<Memory>): seq<Document> {
    if memories == [] then []
    else
      var n := |memories| - 1;
      Documents(lang, memories[..n]) + [DocumentOf(memories[n], lang.tokenize(memories[n].content))]
  }

  function TotalLength(docs: seq<Document>): nat {
    if docs == [] then 0 else TotalLength(docs[..|docs| - 1]) + docs[|docs| - 1].length
  }

  function Average(docs: seq<Document>): (average: real)
    requires docs != []
    ensures average >= 0.0
  {
    TotalLength(docs) as real / |docs| as real
  }

  /** How many documents hold a term. */
  function Spread(term: string, docs: seq<Document>): nat {
    if docs == [] then 0
    else Spread(term, docs[..|docs| - 1]) + if term in docs[|docs| - 1].frequencies then 1 else 0
  }

  function Idf(lang: Language, term: string, docs: seq<Document>): real {
    var f := Spread(term, docs) as real;
    lang.ln(1.0 + (|docs| as real - f + 0.5) / (f + 0.5))
  }

  function LengthRatio(d: Document, average: real): real {
    if average == 0.0 then 0.0 else d.length as real / average
  }

  function Denominator(d: Document, frequency: nat, average: real): real {
    frequency as real + BM25_K1 * (1.0 - BM25_B + BM25_B * LengthRatio(d, average))
  }

  lemma QuotientIsPositive(a: real, b: real)
    requires a > 0.0 && b > 0.0
    ensures a / b > 0.0
  {
  }

  lemma DenominatorIsPositive(d: Document, frequency: Positive, average: real)
    requires average >= 0.0
    ensures Denominator(d, frequency, average) > 0.0
  {
    if average > 0.0 && d.length > 0 {
      QuotientIsPositive(d.length as real, average);
    }
    assert LengthRatio(d, average) >= 0.0;
  }

  /** What one term of the query adds to a document's score. */
  function Evidence(lang: Language, d: Document, term: string, docs: seq<Document>, average: real): real
    requires average >= 0.0
  {
    if term !in d.frequencies then 0.0
    else
      var f := d.frequencies[term];
      DenominatorIsPositive(d, f, average);
      Idf(lang, term, docs) * f as real * (BM25_K1 + 1.0) / Denominator(d, f, average)
  }

  function Score(lang: Language, d: Document, terms: seq<string>, docs: seq<Document>, average: real): real
    requires average >= 0.0
  {
    if terms == [] then 0.0
    else
      var n := |terms| - 1;
      Score(lang, d, terms[..n], docs, average) + Evidence(lang, d, terms[n], docs, average)
  }

  /** The query's terms, each once. */
  function Terms(tokens: seq<string>): seq<string> {
    if tokens == [] then []
    else
      var rest := Terms(tokens[..|tokens| - 1]);
      if tokens[|tokens| - 1] in rest then rest else rest + [tokens[|tokens| - 1]]
  }

  /** The documents with any evidence, as candidates, in corpus order. */
  function Candidates(lang: Language, part: seq<Document>, terms: seq<string>, docs: seq<Document>): seq<Candidate>
    requires docs != []
  {
    if part == [] then []
    else
      var n := |part| - 1;
      var score := Score(lang, part[n], terms, docs, Average(docs));
      Candidates(lang, part[..n], terms, docs)
        + if score == 0.0 then [] else [Candidate(part[n].memory.key, lang.preview(part[n].memory.content), score)]
  }

  // ------------------------------------------------------------------ orders

  /** No namespace comes before any. */
  predicate NamespaceBefore(a: Option<string>, b: Option<string>) {
    b.Some? && (a.None? || TextBefore(a.value, b.value))
  }

  predicate KeyBefore(a: Key, b: Key) {
    NamespaceBefore(a.namespace, b.namespace) || (a.namespace == b.namespace && a.id < b.id)
  }

  /** The order of the first sort: by score, then by key. */
  predicate RawBefore(a: Candidate, b: Candidate) {
    a.score > b.score || (a.score == b.score && KeyBefore(a.key, b.key))
  }

  predicate ScoreBefore(a: Candidate, b: Candidate) {
    a.score > b.score
  }

  function IsOwn(own: Option<string>, c: Candidate): bool {
    own.Some? && c.key.namespace == own
  }

  function Weighted(own: Option<string>, c: Candidate): Candidate {
    if IsOwn(own, c) then c.(score := c.score * OWN_MEMORY_WEIGHT) else c
  }

  /** The score before weighting. */
  function RawScore(own: Option<string>, c: Candidate): real {
    if IsOwn(own, c) then c.score / OWN_MEMORY_WEIGHT else c.score
  }

  /** The order that the remote store's query states: weighted score, raw score, namespace, id. */
  predicate QueryBefore(own: Option<string>, a: Candidate, b: Candidate) {
    || a.score > b.score
    || (a.score == b.score && RawScore(own, a) > RawScore(own, b))
    || (a.score == b.score && RawScore(own, a) == RawScore(own, b) && KeyBefore(a.key, b.key))
  }

  function QueryOrder(own: Option<string>): Comparison<Candidate> {
    (a, b) => QueryBefore(own, a, b)
  }

  function WeightedAll(own: Option<string>, cs: seq<Candidate>): seq<Candidate> {
    if cs == [] then [] else WeightedAll(own, cs[..|cs| - 1]) + [Weighted(own, cs[|cs| - 1])]
  }

  /** What a ranking should be: all candidates weighted, in the query's order. */
  function Ranking(own: Option<string>, cs: seq<Candidate>): seq<Candidate> {
    Sort(QueryOrder(own), WeightedAll(own, cs))
  }

  function Take(cs: seq<Candidate>, limit: nat): seq<Candidate> {
    if |cs| <= limit then cs else cs[..limit]
  }
}

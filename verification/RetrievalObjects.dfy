/** The loops of the retrieval, and the whole ranking. */
module RetrievalObjects {
  import opened Wrappers
  import opened StableSorting
  import opened RetrievalModel
  import opened RetrievalTheorems

  lemma TokensGrow(m: Memory, tokens: seq<string>, i: nat, frequencies: map<string, Positive>)
    requires i < |tokens| && frequencies == DocumentOf(m, tokens[..i]).frequencies
    ensures var seen: nat := if tokens[i] in frequencies then frequencies[tokens[i]] else 0;
      frequencies[tokens[i] := seen + 1] == DocumentOf(m, tokens[..i + 1]).frequencies
  {
    assert tokens[..i + 1] == tokens[..i] + [tokens[i]];
  }

  method NewDocument(memory: Memory, tokens: seq<string>) returns (d: Document)
    ensures d == DocumentOf(memory, tokens)
  {
    var frequencies: map<string, Positive> := map[];
    for i := 0 to |tokens|
      invariant frequencies == DocumentOf(memory, tokens[..i]).frequencies
    {
      TokensGrow(memory, tokens, i, frequencies);
      var seen: nat := if tokens[i] in frequencies then frequencies[tokens[i]] else 0;
      frequencies := frequencies[tokens[i] := seen + 1];
    }
    assert tokens[..|tokens|] == tokens;
    d := Document(memory, frequencies, |tokens|);
  }

  method NewDocuments(lang: Language, memories: seq<Memory>) returns (docs: seq<Document>)
    ensures docs == Documents(lang, memories) && |docs| == |memories|
  {
    docs := [];
    for i := 0 to |memories|
      invariant docs == Documents(lang, memories[..i]) && |docs| == i
    {
      assert memories[..i + 1][..i] == memories[..i];
      var d := NewDocument(memories[i], lang.tokenize(memories[i].content));
      docs := docs + [d];
    }
    assert memories[..|memories|] == memories;
  }

  method CollectCandidates(lang: Language, docs: seq<Document>, terms: seq<string>) returns (candidates: seq<Candidate>)
    requires docs != []
    ensures candidates == Candidates(lang, docs, terms, docs)
  {
    var average := Average(docs);
    candidates := [];
    for i := 0 to |docs|
      invariant candidates == Candidates(lang, docs[..i], terms, docs)
    {
      assert docs[..i + 1][..i] == docs[..i];
      var score := Score(lang, docs[i], terms, docs, average);
      if score != 0.0 {
        candidates := candidates + [Candidate(docs[i].memory.key, lang.preview(docs[i].memory.content), score)];
      }
    }
    assert docs[..|docs|] == docs;
  }

  /** Scales the scores of own candidates in place. */
  method WeightOwn(candidates: seq<Candidate>, own: Option<string>) returns (weighted: seq<Candidate>)
    requires own.Some?
    ensures weighted == WeightedAll(own, candidates)
  {
    weighted := candidates;
    WeightedMembers(own, candidates);
    for i := 0 to |candidates|
      invariant |weighted| == |candidates|
      invariant forall k | 0 <= k < i :: weighted[k] == Weighted(own, candidates[k])
      invariant forall k | i <= k < |candidates| :: weighted[k] == candidates[k]
    {
      if weighted[i].key.namespace == own {
        weighted := weighted[i := weighted[i].(score := weighted[i].score * OWN_MEMORY_WEIGHT)];
      }
    }
  }

  /** Ranks a corpus: the best candidates in the query's order, at most `limit` of them. */
  method Rank(lang: Language, query: string, memories: seq<Memory>, own: Option<string>, limit: nat)
    returns (ranked: seq<Candidate>)
    ensures memories == [] ==> ranked == []
    ensures memories != [] ==>
      var docs := Documents(lang, memories);
      && docs != []
      && ranked == Take(Ranking(own, Candidates(lang, docs, Terms(lang.tokenize(query)), docs)), limit)
  {
    var docs := NewDocuments(lang, memories);
    var terms := Terms(lang.tokenize(query));
    if memories != [] && terms == [] {
      NoTermsNoCandidates(lang, docs, docs);
      assert WeightedAll(own, []) == [];
    }
    if limit == 0 || memories == [] || terms == [] {
      return [];
    }
    var candidates := CollectCandidates(lang, docs, terms);
    TwoSortsAreOne(own, candidates);
    OneSortIsEnough(candidates);
    ranked := Sort(RAW, candidates);
    if own.Some? {
      ranked := WeightOwn(ranked, own);
      ranked := Sort(SCORE, ranked);
    }
    ranked := Take(ranked, limit);
  }

  lemma {:induction false} NoTermsNoCandidates(lang: Language, part: seq<Document>, docs: seq<Document>)
    requires docs != []
    ensures Candidates(lang, part, [], docs) == []
  {
    if part != [] {
      NoTermsNoCandidates(lang, part[..|part| - 1], docs);
    }
  }
}

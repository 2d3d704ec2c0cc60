/** Fuzzy matching behind the composer's pickers: a greedy subsequence match, its score, and the ranking by score. */
module FuzzySearch {
  import opened Wrappers
  import opened Sequences

  function LowerChar(c: char): char {
    if 'A' <= c <= 'Z' then c - 'A' + 'a' else c
  }

  function Lower(text: string): string {
    seq(|text|, i requires 0 <= i < |text| => LowerChar(text[i]))
  }

  /** Lowering a text changes its ASCII capitals, to the letters 32 places on, and nothing else. */
  lemma LoweringIgnoresCase(text: string)
    ensures |Lower(text)| == |text|
    ensures forall i | 0 <= i < |text| ::
      Lower(text)[i] as int == text[i] as int + if 65 <= text[i] as int <= 90 then 32 else 0
  {
  }

  // ------------------------------------------------------------------ the greedy match

  /** The query's characters stand in the text at these places, in order, none before `start`. */
  predicate Embeds(text: string, start: nat, query: string, ps: seq<nat>) {
    && |ps| == |query| && Ascending(ps)
    && forall k | 0 <= k < |ps| :: start <= ps[k] < |text| && text[ps[k]] == query[k]
  }

  /** Each character of the query at its first place after the one before. */
  function Greedy(text: string, start: nat, query: string): Option<seq<nat>>
    decreases |text| - start
  {
    if query == [] then Some([])
    else if start >= |text| then None
    else if text[start] != query[0] then Greedy(text, start + 1, query)
    else match Greedy(text, start + 1, query[1..])
      case None => None
      case Some(rest) => Some([start] + rest)
  }

  lemma {:induction false} GreedyEmbeds(text: string, start: nat, query: string)
    requires Greedy(text, start, query).Some?
    ensures Embeds(text, start, query, Greedy(text, start, query).value)
    decreases |text| - start
  {
    if query == [] {
    } else if text[start] != query[0] {
      GreedyEmbeds(text, start + 1, query);
    } else {
      GreedyEmbeds(text, start + 1, query[1..]);
    }
  }

  /** Every match has each character no earlier than the greedy one, which therefore exists and ends first. */
  lemma {:induction false} GreedyIsEarliest(text: string, start: nat, query: string, ps: seq<nat>)
    requires Embeds(text, start, query, ps)
    ensures Greedy(text, start, query).Some? && |Greedy(text, start, query).value| == |ps|
    ensures forall k | 0 <= k < |ps| :: Greedy(text, start, query).value[k] <= ps[k]
    decreases |text| - start
  {
    if query == [] {
    } else {
      assert start <= ps[0] < |text|;
      if text[start] != query[0] {
        assert ps[0] > start;
        GreedyIsEarliest(text, start + 1, query, ps);
      } else {
        forall k | 1 <= k < |ps|
          ensures ps[k] > start
        {
          assert ps[0] < ps[k];
        }
        GreedyIsEarliest(text, start + 1, query[1..], ps[1..]);
        var rest := Greedy(text, start + 1, query[1..]).value;
        forall k | 1 <= k < |ps|
          ensures rest[k - 1] <= ps[k]
        {
          assert ps[1..][k - 1] == ps[k];
        }
      }
    }
  }

  // ------------------------------------------------------------------ the score

  predicate SegmentStart(text: string, p: nat)
    requires p < |text|
  {
    p == 0 || text[p - 1] == '/'
  }

  /** What one matched character earns. */
  function Points(text: string, ps: seq<nat>, k: nat): nat
    requires k < |ps| && ps[k] < |text|
  {
    10 + (if k > 0 && ps[k - 1] + 1 == ps[k] then 15 else 0) + (if SegmentStart(text, ps[k]) then 8 else 0)
  }

  function Earned(text: string, ps: seq<nat>): nat
    requires forall k | 0 <= k < |ps| :: ps[k] < |text|
  {
    if ps == [] then 0
    else
      var n := |ps| - 1;
      Earned(text, ps[..n]) + Points(text, ps, n)
  }

  function SaturatingSub(a: nat, b: nat): nat {
    if a >= b then a - b else 0
  }

  function FuzzyScore(text: string, query: string): (r: Option<nat>) {
    if query == [] then Some(0)
    else
      var lower := Lower(text);
      match Greedy(lower, 0, query)
      case None => None
      case Some(ps) =>
        GreedyEmbeds(lower, 0, query);
        Some(SaturatingSub(Earned(lower, ps), ps[|ps| - 1]))
  }

  ghost predicate Subsequence(query: string, text: string) {
    exists ps :: Embeds(text, 0, query, ps)
  }

  /** A text matches exactly if the query is a subsequence of it, case ignored. */
  lemma MatchesSubsequences(text: string, query: string)
    ensures FuzzyScore(text, query).Some? <==> Subsequence(query, Lower(text))
  {
    var lower := Lower(text);
    if query == [] {
      assert Embeds(lower, 0, query, []);
    } else {
      if Greedy(lower, 0, query).Some? {
        GreedyEmbeds(lower, 0, query);
      }
      if ps :| Embeds(lower, 0, query, ps) {
        GreedyIsEarliest(lower, 0, query, ps);
      }
    }
  }

  lemma {:induction false} EarnedIsBounded(text: string, ps: seq<nat>)
    requires forall k | 0 <= k < |ps| :: ps[k] < |text|
    ensures 10 * |ps| <= Earned(text, ps)
    ensures ps != [] ==> Earned(text, ps) <= 33 * |ps| - 15
  {
    if ps != [] {
      EarnedIsBounded(text, ps[..|ps| - 1]);
    }
  }

  /** Where the greedy match of a text ends. */
  function MatchEnd(text: string, query: string): nat
    requires query != [] && FuzzyScore(text, query).Some?
  {
    GreedyEmbeds(Lower(text), 0, query);
    var ps := Greedy(Lower(text), 0, query).value;
    ps[|ps| - 1]
  }

  /** Of all ways to match, the greedy one ends first; its end and the query's length bound the score. */
  lemma ScoreIsBounded(text: string, query: string, ps: seq<nat>)
    requires query != [] && Embeds(Lower(text), 0, query, ps)
    ensures FuzzyScore(text, query).Some? && MatchEnd(text, query) <= ps[|ps| - 1]
    ensures var end := MatchEnd(text, query);
      SaturatingSub(10 * |query|, end) <= FuzzyScore(text, query).value <= SaturatingSub(33 * |query| - 15, end)
  {
    var lower := Lower(text);
    GreedyIsEarliest(lower, 0, query, ps);
    GreedyEmbeds(lower, 0, query);
    EarnedIsBounded(lower, Greedy(lower, 0, query).value);
  }

  predicate Follows(ps: seq<nat>, k: int) {
    1 <= k < |ps| && ps[k - 1] + 1 == ps[k]
  }

  predicate Begins(text: string, ps: seq<nat>, k: int) {
    0 <= k < |ps| && ps[k] < |text| && (ps[k] == 0 || text[ps[k] - 1] == '/')
  }

  /** The matched characters that follow the one matched before. */
  function Runs(ps: seq<nat>): set<int> {
    set k | 1 <= k < |ps| && Follows(ps, k)
  }

  /** Those that begin a path segment. */
  function Starts(text: string, ps: seq<nat>): set<int> {
    set k | 0 <= k < |ps| && Begins(text, ps, k)
  }

  lemma RunsGrow(ps: seq<nat>)
    requires ps != []
    ensures var n := |ps| - 1;
      |Runs(ps)| == |Runs(ps[..n])| + if Follows(ps, n) then 1 else 0
  {
    var n := |ps| - 1;
    forall k
      ensures k in Runs(ps) <==> k in Runs(ps[..n]) || (k == n && Follows(ps, n))
    {
      assert k < n ==> Follows(ps, k) == Follows(ps[..n], k);
    }
    assert Runs(ps) == Runs(ps[..n]) + if Follows(ps, n) then {n} else {};
  }

  lemma StartsGrow(text: string, ps: seq<nat>)
    requires ps != []
    ensures var n := |ps| - 1;
      |Starts(text, ps)| == |Starts(text, ps[..n])| + if Begins(text, ps, n) then 1 else 0
  {
    var n := |ps| - 1;
    forall k
      ensures k in Starts(text, ps) <==> k in Starts(text, ps[..n]) || (k == n && Begins(text, ps, n))
    {
      assert k < n ==> Begins(text, ps, k) == Begins(text, ps[..n], k);
    }
    assert Starts(text, ps) == Starts(text, ps[..n]) + if Begins(text, ps, n) then {n} else {};
  }

  /** A match earns 10 for each character, 15 for each that follows the one before, and 8 for each that begins a segment. */
  lemma {:induction false} EarnedCounts(text: string, ps: seq<nat>)
    requires forall k | 0 <= k < |ps| :: ps[k] < |text|
    ensures Earned(text, ps) == 10 * |ps| + 15 * |Runs(ps)| + 8 * |Starts(text, ps)|
  {
    if ps != [] {
      var n := |ps| - 1;
      EarnedCounts(text, ps[..n]);
      RunsGrow(ps);
      StartsGrow(text, ps);
    }
  }

  /** The greedy match of a query. */
  function MatchOf(text: string, query: string): (ps: seq<nat>)
    requires query != [] && FuzzyScore(text, query).Some?
    ensures Embeds(Lower(text), 0, query, ps)
  {
    GreedyEmbeds(Lower(text), 0, query);
    Greedy(Lower(text), 0, query).value
  }

  /** The score in numbers: what the match earns, less the place where it ends, but never below zero. */
  lemma ScoreCounts(text: string, query: string)
    requires query != [] && FuzzyScore(text, query).Some?
    ensures var ps := MatchOf(text, query);
      var points := 10 * |query| + 15 * |Runs(ps)| + 8 * |Starts(Lower(text), ps)| - MatchEnd(text, query);
      FuzzyScore(text, query).value == if points > 0 then points else 0
  {
    EarnedCounts(Lower(text), MatchOf(text, query));
  }

  /** Of two texts the one whose match is more contiguous, begins no fewer segments and ends no later scores higher. */
  lemma ContiguousScoresHigher(text: string, scattered: string, query: string)
    requires query != [] && FuzzyScore(text, query).Some? && FuzzyScore(scattered, query).Some?
    requires |Runs(MatchOf(scattered, query))| < |Runs(MatchOf(text, query))|
    requires |Starts(Lower(scattered), MatchOf(scattered, query))| <= |Starts(Lower(text), MatchOf(text, query))|
    requires MatchEnd(text, query) <= MatchEnd(scattered, query)
    ensures FuzzyScore(scattered, query).value <= FuzzyScore(text, query).value
    ensures FuzzyScore(text, query).value > 0 ==> FuzzyScore(scattered, query).value < FuzzyScore(text, query).value
  {
    ScoreCounts(text, query);
    ScoreCounts(scattered, query);
  }

  // ------------------------------------------------------------------ the loop

  /** The rest of a greedy match, put after what has been matched. */
  function Joined(ps: seq<nat>, rest: Option<seq<nat>>): Option<seq<nat>> {
    match rest
    case None => None
    case Some(more) => Some(ps + more)
  }

  lemma JoinedNothing(rest: Option<seq<nat>>)
    ensures Joined([], rest) == rest
  {
    if rest.Some? {
      assert [] + rest.value == rest.value;
    }
  }

  lemma EarnedGrows(text: string, ps: seq<nat>, p: nat)
    requires (forall k | 0 <= k < |ps| :: ps[k] < |text|) && p < |text|
    ensures Earned(text, ps + [p]) == Earned(text, ps) + Points(text, ps + [p], |ps|)
  {
    assert (ps + [p])[..|ps|] == ps;
  }

  /** What is left of the greedy match once the characters before `index` were scanned, `ps` of them matching. */
  predicate Scanned(text: string, query: string, index: nat, ps: seq<nat>) {
    && |ps| < |query| && (forall k | 0 <= k < |ps| :: ps[k] < index <= |text|)
    && Greedy(text, 0, query) == Joined(ps, Greedy(text, index, query[|ps|..]))
  }

  lemma GreedyTakes(text: string, index: nat, query: string)
    requires query != [] && index < |text| && text[index] == query[0]
    ensures Greedy(text, index, query) == Joined([index], Greedy(text, index + 1, query[1..]))
  {
  }

  lemma JoinedTwice(ps: seq<nat>, more: seq<nat>, rest: Option<seq<nat>>)
    ensures Joined(ps, Joined(more, rest)) == Joined(ps + more, rest)
  {
    if rest.Some? {
      assert ps + (more + rest.value) == (ps + more) + rest.value;
    }
  }

  lemma ScanMatches(text: string, query: string, index: nat, ps: seq<nat>)
    requires Scanned(text, query, index, ps) && index < |text| && text[index] == query[|ps|]
    ensures if |ps| + 1 < |query| then Scanned(text, query, index + 1, ps + [index])
      else Greedy(text, 0, query) == Some(ps + [index])
  {
    var q := query[|ps|..];
    assert q[1..] == query[|ps| + 1..];
    GreedyTakes(text, index, q);
    JoinedTwice(ps, [index], Greedy(text, index + 1, q[1..]));
    if |ps| + 1 == |query| {
      assert Greedy(text, index + 1, q[1..]) == Some([]);
      assert ps + [index] + [] == ps + [index];
    }
  }

  lemma ScanMisses(text: string, query: string, index: nat, ps: seq<nat>)
    requires Scanned(text, query, index, ps) && index < |text| && text[index] != query[|ps|]
    ensures Scanned(text, query, index + 1, ps)
  {
  }

  function Last<T>(xs: seq<T>): Option<T> {
    if xs == [] then None else Some(xs[|xs| - 1])
  }

  /** Adds what a match at `index` earns, from what the scan remembers. */
  method Earn(lower: string, ghost ps: seq<nat>, index: nat, score: nat, previousMatch: Option<nat>,
              previousCharacter: Option<char>)
    returns (score1: nat)
    requires index < |lower| && (forall k | 0 <= k < |ps| :: ps[k] < |lower|) && score == Earned(lower, ps)
    requires previousMatch == Last(ps) && previousCharacter == Last(lower[..index])
    ensures forall k | 0 <= k <= |ps| :: (ps + [index])[k] < |lower|
    ensures score1 == Earned(lower, ps + [index])
  {
    EarnedGrows(lower, ps, index);
    var points := 10;
    if previousMatch.Some? && previousMatch.value + 1 == index {
      points := points + 15;
    }
    if previousCharacter.None? || previousCharacter.value == '/' {
      points := points + 8;
    }
    score1 := score + points;
  }

  lemma ScanStarts(text: string, query: string)
    requires query != []
    ensures Scanned(text, query, 0, [])
  {
    assert query[0..] == query;
    JoinedNothing(Greedy(text, 0, query));
  }

  lemma ScanEnds(text: string, query: string, ps: seq<nat>)
    requires Scanned(Lower(text), query, |text|, ps)
    ensures FuzzyScore(text, query) == None
  {
  }

  lemma ScanFinds(text: string, query: string, ps: seq<nat>)
    requires query != [] && ps != [] && Greedy(Lower(text), 0, query) == Some(ps)
    ensures forall k | 0 <= k < |ps| :: ps[k] < |Lower(text)|
    ensures FuzzyScore(text, query) == Some(SaturatingSub(Earned(Lower(text), ps), ps[|ps| - 1]))
  {
    GreedyEmbeds(Lower(text), 0, query);
  }

  method ScoreByScanning(text: string, query: string) returns (r: Option<nat>)
    ensures r == FuzzyScore(text, query)
  {
    if query == [] {
      return Some(0);
    }
    var lower := Lower(text);
    var next := 1;
    var expected := query[0];
    var score: nat := 0;
    var previousMatch: Option<nat> := None;
    var previousCharacter: Option<char> := None;
    ghost var ps: seq<nat> := [];
    ScanStarts(lower, query);
    for index := 0 to |lower|
      invariant next == |ps| + 1 && next <= |query| && expected == query[|ps|]
      invariant Scanned(lower, query, index, ps)
      invariant score == Earned(lower, ps)
      invariant previousMatch == Last(ps) && previousCharacter == Last(lower[..index])
    {
      var character := lower[index];
      if character == expected {
        ScanMatches(lower, query, index, ps);
        score := Earn(lower, ps, index, score, previousMatch, previousCharacter);
        previousMatch := Some(index);
        ps := ps + [index];
        if next >= |query| {
          ScanFinds(text, query, ps);
          return Some(SaturatingSub(score, index));
        }
        expected := query[next];
        next := next + 1;
      } else {
        ScanMisses(lower, query, index, ps);
      }
      previousCharacter := Some(character);
    }
    ScanEnds(text, query, ps);
    return None;
  }

  // ------------------------------------------------------------------ ranking

  datatype Match = Match(index: nat, score: nat)

  /** The better score first; of equal scores, the earlier item. */
  predicate Before(a: Match, b: Match) {
    a.score > b.score || (a.score == b.score && a.index < b.index)
  }

  predicate Ranked(matches: seq<Match>) {
    forall i, j :: 0 <= i < j < |matches| ==> Before(matches[i], matches[j])
  }

  function InsertMatch(matches: seq<Match>, m: Match): seq<Match> {
    if matches == [] || Before(m, matches[0]) then [m] + matches else [matches[0]] + InsertMatch(matches[1..], m)
  }

  lemma {:induction false} InsertRanks(matches: seq<Match>, m: Match)
    requires Ranked(matches) && forall x <- matches :: x.index != m.index
    ensures Ranked(InsertMatch(matches, m))
    ensures forall x :: x in InsertMatch(matches, m) <==> x in matches || x == m
  {
    if matches == [] {
    } else if Before(m, matches[0]) {
      assert forall x :: x in [m] + matches <==> x == m || x in matches;
    } else {
      var rest := InsertMatch(matches[1..], m);
      assert matches == [matches[0]] + matches[1..];
      assert matches[0] in matches;
      InsertRanks(matches[1..], m);
      forall k | 0 <= k < |rest|
        ensures Before(matches[0], rest[k])
      {
        assert rest[k] in rest;
        if rest[k] != m {
          var l :| 0 <= l < |matches| - 1 && matches[1..][l] == rest[k];
          assert matches[l + 1] == rest[k];
        }
      }
    }
  }

  function SortMatches(matches: seq<Match>): seq<Match> {
    if matches == [] then [] else InsertMatch(SortMatches(matches[..|matches| - 1]), matches[|matches| - 1])
  }

  lemma {:induction false} SortRanks(matches: seq<Match>)
    requires forall i, j :: 0 <= i < j < |matches| ==> matches[i].index != matches[j].index
    ensures Ranked(SortMatches(matches))
    ensures forall x :: x in SortMatches(matches) <==> x in matches
  {
    if matches != [] {
      var n := |matches| - 1;
      assert matches == matches[..n] + [matches[n]];
      SortRanks(matches[..n]);
      forall x | x in SortMatches(matches[..n])
        ensures x.index != matches[n].index
      {
        assert x in matches[..n];
      }
      InsertRanks(SortMatches(matches[..n]), matches[n]);
    }
  }

  /** Of two items that match, the first ranks above the second. */
  predicate RanksBefore(keys: seq<string>, query: string, a: nat, b: nat) {
    && a < |keys| && b < |keys|
    && FuzzyScore(keys[a], query).Some? && FuzzyScore(keys[b], query).Some?
    && Before(Match(a, FuzzyScore(keys[a], query).value), Match(b, FuzzyScore(keys[b], query).value))
  }

  /** Every item that matches is listed, and nothing else is. */
  ghost predicate ListsMatches(keys: seq<string>, query: string, order: seq<nat>) {
    forall i: nat :: i in order <==> i < |keys| && FuzzyScore(keys[i], query).Some?
  }

  method CollectMatches(keys: seq<string>, query: string) returns (matches: seq<Match>)
    ensures forall i, j :: 0 <= i < j < |matches| ==> matches[i].index < matches[j].index
    ensures forall m :: m in matches <==> m.index < |keys| && FuzzyScore(keys[m.index], query) == Some(m.score)
  {
    matches := [];
    for index := 0 to |keys|
      invariant forall i, j :: 0 <= i < j < |matches| ==> matches[i].index < matches[j].index
      invariant forall m :: m in matches <==> m.index < index && FuzzyScore(keys[m.index], query) == Some(m.score)
    {
      var score := ScoreByScanning(keys[index], query);
      assert forall k | 0 <= k < |matches| :: matches[k] in matches;
      if score.Some? {
        matches := matches + [Match(index, score.value)];
      }
    }
  }

  lemma RankedIndices(keys: seq<string>, query: string, matches: seq<Match>, order: seq<nat>)
    requires Ranked(matches) && |order| == |matches| && forall k | 0 <= k < |order| :: order[k] == matches[k].index
    requires forall m :: m in matches <==> m.index < |keys| && FuzzyScore(keys[m.index], query) == Some(m.score)
    ensures ListsMatches(keys, query, order)
    ensures forall i, j :: 0 <= i < j < |order| ==> RanksBefore(keys, query, order[i], order[j])
  {
    forall k | 0 <= k < |order|
      ensures order[k] < |keys| && FuzzyScore(keys[order[k]], query) == Some(matches[k].score)
    {
      assert matches[k] in matches;
    }
    forall i: nat
      ensures i in order <==> i < |keys| && FuzzyScore(keys[i], query).Some?
    {
      if i < |keys| && FuzzyScore(keys[i], query).Some? {
        assert Match(i, FuzzyScore(keys[i], query).value) in matches;
        var k :| 0 <= k < |matches| && matches[k] == Match(i, FuzzyScore(keys[i], query).value);
        assert order[k] == i;
      }
    }
  }

  /** Ranks the items whose key matches, best first and ties in the items' order, each of them once. */
  method Rank(keys: seq<string>, query: string) returns (order: seq<nat>)
    ensures ListsMatches(keys, Lower(query), order)
    ensures forall i, j :: 0 <= i < j < |order| ==> RanksBefore(keys, Lower(query), order[i], order[j])
    ensures forall i, j :: 0 <= i < j < |order| ==> order[i] != order[j]
  {
    var lower := Lower(query);
    var matches := CollectMatches(keys, lower);
    SortRanks(matches);
    var sorted := SortMatches(matches);
    order := seq(|sorted|, k requires 0 <= k < |sorted| => sorted[k].index);
    RankedIndices(keys, lower, sorted, order);
  }
}

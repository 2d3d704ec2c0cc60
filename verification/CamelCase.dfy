/** Splitting an identifier where a capital follows a small letter or a digit. */
module CamelCase {

  /** The letters of the script: what counts as a capital or a small letter. */
  datatype Letters = Letters(upper: char -> bool, lower: char -> bool)

  predicate Small(letters: Letters, c: char) {
    letters.lower(c) || '0' <= c <= '9'
  }

  predicate Cut(letters: Letters, a: char, b: char) {
    letters.upper(b) && Small(letters, a)
  }

  function Join(parts: seq<string>): string {
    if parts == [] then "" else Join(parts[..|parts| - 1]) + parts[|parts| - 1]
  }

  /** A part with no cut inside. */
  predicate Whole(letters: Letters, part: string) {
    forall k | 0 < k < |part| :: !Cut(letters, part[k - 1], part[k])
  }

  /** Two parts with a cut between them. */
  predicate CutBetween(letters: Letters, a: string, b: string) {
    a != "" && b != "" && Cut(letters, a[|a| - 1], b[0])
  }

  /** The parts make up the identifier, and it is cut exactly where a cut is due. */
  predicate SplitOf(letters: Letters, identifier: string, parts: seq<string>) {
    && Join(parts) == identifier
    && (forall p <- parts :: Whole(letters, p))
    && (forall i | 0 < i < |parts| :: CutBetween(letters, parts[i - 1], parts[i]))
  }

  lemma PartAdded(letters: Letters, before: string, parts: seq<string>, part: string)
    requires SplitOf(letters, before, parts) && Whole(letters, part)
    requires parts != [] ==> CutBetween(letters, parts[|parts| - 1], part)
    ensures SplitOf(letters, before + part, parts + [part])
  {
    assert (parts + [part])[..|parts|] == parts;
  }

  lemma WholeGrows(letters: Letters, identifier: string, start: nat, index: nat)
    requires start <= index < |identifier| && Whole(letters, identifier[start..index])
    requires start < index ==> !Cut(letters, identifier[index - 1], identifier[index])
    ensures Whole(letters, identifier[start..index + 1])
  {
    var part := identifier[start..index + 1];
    forall k | 0 < k < |part|
      ensures !Cut(letters, part[k - 1], part[k])
    {
      if k < |part| - 1 {
        assert part[k - 1] == identifier[start..index][k - 1] && part[k] == identifier[start..index][k];
      }
    }
  }

  /** The scan so far: finished parts, and a last one that has begun. */
  predicate Begun(letters: Letters, identifier: string, parts: seq<string>, start: nat, index: nat) {
    && start <= index <= |identifier| && (start == index ==> index == 0)
    && SplitOf(letters, identifier[..start], parts) && (forall p <- parts :: p != "")
    && Whole(letters, identifier[start..index])
    && (parts != [] ==> start < index && CutBetween(letters, parts[|parts| - 1], identifier[start..index]))
  }

  lemma PartGoesOn(letters: Letters, identifier: string, parts: seq<string>, start: nat, index: nat)
    requires Begun(letters, identifier, parts, start, index) && index < |identifier|
    requires start < index ==> !Cut(letters, identifier[index - 1], identifier[index])
    ensures Begun(letters, identifier, parts, start, index + 1)
  {
    WholeGrows(letters, identifier, start, index);
    if parts != [] {
      assert identifier[start..index + 1][0] == identifier[start..index][0];
    }
  }

  lemma PartEnds(letters: Letters, identifier: string, parts: seq<string>, start: nat, index: nat)
    requires Begun(letters, identifier, parts, start, index) && start < index < |identifier|
    requires Cut(letters, identifier[index - 1], identifier[index])
    ensures Begun(letters, identifier, parts + [identifier[start..index]], index, index + 1)
  {
    var part := identifier[start..index];
    PartAdded(letters, identifier[..start], parts, part);
    assert identifier[..start] + part == identifier[..index];
    assert part[|part| - 1] == identifier[index - 1];
  }

  lemma LastPart(letters: Letters, identifier: string, parts: seq<string>, start: nat)
    requires Begun(letters, identifier, parts, start, |identifier|)
    ensures SplitOf(letters, identifier, parts + [identifier[start..]])
    ensures identifier != "" ==> forall p <- parts + [identifier[start..]] :: p != ""
  {
    assert identifier[start..|identifier|] == identifier[start..];
    PartAdded(letters, identifier[..start], parts, identifier[start..]);
    assert identifier[..start] + identifier[start..] == identifier;
  }

  method Advance(letters: Letters, identifier: string, parts: seq<string>, start: nat, index: nat, small: bool)
    returns (parts1: seq<string>, start1: nat)
    requires Begun(letters, identifier, parts, start, index) && index < |identifier|
    requires index > 0 ==> small == Small(letters, identifier[index - 1])
    ensures Begun(letters, identifier, parts1, start1, index + 1)
  {
    if index > start && letters.upper(identifier[index]) && small {
      PartEnds(letters, identifier, parts, start, index);
      return parts + [identifier[start..index]], index;
    }
    PartGoesOn(letters, identifier, parts, start, index);
    return parts, start;
  }

  method SplitCamelCase(letters: Letters, identifier: string) returns (parts: seq<string>)
    ensures SplitOf(letters, identifier, parts)
    ensures identifier != "" ==> forall p <- parts :: p != ""
  {
    parts := [];
    var start: nat := 0;
    var previousWasLowercaseOrDigit := false;
    for index := 0 to |identifier|
      invariant Begun(letters, identifier, parts, start, index)
      invariant index > 0 ==> previousWasLowercaseOrDigit == Small(letters, identifier[index - 1])
    {
      parts, start := Advance(letters, identifier, parts, start, index, previousWasLowercaseOrDigit);
      previousWasLowercaseOrDigit := Small(letters, identifier[index]);
    }
    LastPart(letters, identifier, parts, start);
    parts := parts + [identifier[start..]];
  }
}

/** The binary order of texts: character by character, a proper prefix first. */
module TextOrder {

  predicate TextBefore(a: string, b: string) {
    b != [] && (a == [] || a[0] < b[0] || (a[0] == b[0] && TextBefore(a[1..], b[1..])))
  }

  /** Two texts are ordered by the first place where they differ, the end of a text coming before any character. */
  predicate DifferAt(a: string, b: string, k: nat) {
    && k <= |a| && k < |b| && a[..k] == b[..k]
    && (k == |a| || a[k] < b[k])
  }

  lemma {:induction false} TextsDifferSomewhere(a: string, b: string)
    ensures TextBefore(a, b) <==> exists k: nat :: DifferAt(a, b, k)
  {
    if TextBefore(a, b) {
      if a == [] || a[0] < b[0] {
        assert DifferAt(a, b, 0);
      } else {
        TextsDifferSomewhere(a[1..], b[1..]);
        var k: nat :| DifferAt(a[1..], b[1..], k);
        assert a[..k + 1] == [a[0]] + a[1..][..k] && b[..k + 1] == [b[0]] + b[1..][..k];
        assert DifferAt(a, b, k + 1);
      }
    }
    if k: nat :| DifferAt(a, b, k) {
      if k > 0 {
        assert a[0] == a[..k][0] == b[..k][0] == b[0];
        assert a[1..][..k - 1] == a[..k][1..] && b[1..][..k - 1] == b[..k][1..];
        assert DifferAt(a[1..], b[1..], k - 1);
        TextsDifferSomewhere(a[1..], b[1..]);
      }
    }
  }

  lemma {:induction false} TextsAreOrdered(a: string, b: string)
    ensures !(TextBefore(a, b) && TextBefore(b, a))
    ensures a == b || TextBefore(a, b) || TextBefore(b, a)
  {
    if a != [] && b != [] {
      TextsAreOrdered(a[1..], b[1..]);
      assert a == [a[0]] + a[1..] && b == [b[0]] + b[1..];
    }
  }

  /** Whatever lies between two ordered texts is after the first or before the second. */
  lemma {:induction false} TextsSplit(a: string, b: string, c: string)
    ensures TextBefore(a, b) ==> TextBefore(a, c) || TextBefore(c, b)
  {
    if a != [] && b != [] && c != [] {
      TextsSplit(a[1..], b[1..], c[1..]);
    }
  }

  lemma TextsAreTransitive(a: string, b: string, c: string)
    ensures !TextBefore(a, a)
    ensures TextBefore(a, b) && TextBefore(b, c) ==> TextBefore(a, c)
  {
    TextsAreOrdered(a, a);
    TextsAreOrdered(a, c);
    TextsAreOrdered(b, c);
    TextsSplit(b, c, a);
    TextsAreOrdered(a, b);
  }
}

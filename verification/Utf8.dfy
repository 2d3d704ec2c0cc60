/** Texts as UTF-8 (section 3 of RFC 3629): what a character takes, where characters begin, and cutting a text between them. */
module Utf8 {

  function Encode(c: char): (bytes: seq<nat>)
    ensures 1 <= |bytes| <= 4
  {
    var n := c as int;
    if n < 0x80 then [n]
    else if n < 0x800 then [0xC0 + n / 0x40, 0x80 + n % 0x40]
    else if n < 0x1_0000 then [0xE0 + n / 0x1000, 0x80 + n / 0x40 % 0x40, 0x80 + n % 0x40]
    else [0xF0 + n / 0x4_0000, 0x80 + n / 0x1000 % 0x40, 0x80 + n / 0x40 % 0x40, 0x80 + n % 0x40]
  }

  function EncodeAll(text: string): seq<nat> {
    if text == [] then [] else EncodeAll(text[..|text| - 1]) + Encode(text[|text| - 1])
  }

  function Length(text: string): nat {
    |EncodeAll(text)|
  }

  predicate Continues(byte: nat) {
    0x80 <= byte < 0xC0
  }

  /** A place between two characters, as the bytes alone show it. */
  predicate Boundary(bytes: seq<nat>, at: nat) {
    at == 0 || at == |bytes| || (at < |bytes| && !Continues(bytes[at]))
  }

  /** The character that a sequence of bytes stands for. */
  function Decode(bytes: seq<nat>): nat {
    match |bytes|
    case 1 => bytes[0]
    case 2 => bytes[0] % 0x20 * 0x40 + bytes[1] % 0x40
    case 3 => bytes[0] % 0x10 * 0x1000 + bytes[1] % 0x40 * 0x40 + bytes[2] % 0x40
    case 4 => bytes[0] % 8 * 0x4_0000 + bytes[1] % 0x40 * 0x1000 + bytes[2] % 0x40 * 0x40 + bytes[3] % 0x40
    case _ => 0
  }

  /** The first byte tells how many there are. */
  predicate Leads(byte: nat, length: nat) {
    match length
    case 1 => byte < 0x80
    case 2 => 0xC0 <= byte < 0xE0
    case 3 => 0xE0 <= byte < 0xF0
    case _ => 0xF0 <= byte < 0xF8
  }

  /** What a byte carries below its mark. */
  lemma MarksDrop(digit: nat)
    ensures digit < 0x20 ==> (0xC0 + digit) % 0x20 == digit
    ensures digit < 0x10 ==> (0xE0 + digit) % 0x10 == digit
    ensures digit < 8 ==> (0xF0 + digit) % 8 == digit
    ensures digit < 0x40 ==> (0x80 + digit) % 0x40 == digit
  {
  }

  lemma TwoDigits(n: nat)
    ensures n == n / 0x40 * 0x40 + n % 0x40
  {
  }

  lemma ThreeDigits(n: nat)
    ensures n == n / 0x1000 * 0x1000 + n / 0x40 % 0x40 * 0x40 + n % 0x40
  {
    TwoDigits(n);
    TwoDigits(n / 0x40);
    assert n / 0x40 / 0x40 == n / 0x1000;
  }

  lemma FourDigits(n: nat)
    ensures n == n / 0x4_0000 * 0x4_0000 + n / 0x1000 % 0x40 * 0x1000 + n / 0x40 % 0x40 * 0x40 + n % 0x40
  {
    ThreeDigits(n);
    TwoDigits(n / 0x1000);
    assert n / 0x1000 / 0x40 == n / 0x4_0000;
  }

  lemma TwoReadBack(n: nat)
    requires 0x80 <= n < 0x800
    ensures Decode([0xC0 + n / 0x40, 0x80 + n % 0x40]) == n
  {
    TwoDigits(n);
    MarksDrop(n / 0x40);
    MarksDrop(n % 0x40);
  }

  lemma ThreeReadBack(n: nat)
    requires 0x800 <= n < 0x1_0000
    ensures Decode([0xE0 + n / 0x1000, 0x80 + n / 0x40 % 0x40, 0x80 + n % 0x40]) == n
  {
    ThreeDigits(n);
    MarksDrop(n / 0x1000);
    MarksDrop(n / 0x40 % 0x40);
    MarksDrop(n % 0x40);
  }

  lemma FourReadBack(n: nat)
    requires 0x1_0000 <= n < 0x11_0000
    ensures Decode([0xF0 + n / 0x4_0000, 0x80 + n / 0x1000 % 0x40, 0x80 + n / 0x40 % 0x40, 0x80 + n % 0x40]) == n
  {
    FourDigits(n);
    MarksDrop(n / 0x4_0000);
    MarksDrop(n / 0x1000 % 0x40);
    MarksDrop(n / 0x40 % 0x40);
    MarksDrop(n % 0x40);
  }

  /** A character is encoded so that it can be read back, in as few bytes as it takes. */
  lemma EncodingReadsBack(c: char)
    ensures Decode(Encode(c)) == c as int && Leads(Encode(c)[0], |Encode(c)|)
    ensures |Encode(c)| == if c as int < 0x80 then 1 else if c as int < 0x800 then 2 else if c as int < 0x1_0000 then 3 else 4
  {
    var n := c as int;
    if 0x80 <= n < 0x800 {
      TwoReadBack(n);
    } else if 0x800 <= n < 0x1_0000 {
      ThreeReadBack(n);
    } else if n >= 0x1_0000 {
      FourReadBack(n);
    }
  }

  lemma OnlyFirstStarts(c: char)
    ensures !Continues(Encode(c)[0])
    ensures forall k | 0 < k < |Encode(c)| :: Continues(Encode(c)[k])
  {
  }

  /** The bytes show exactly the places where a prefix of the text ends. */
  lemma {:induction false} BoundariesArePrefixes(text: string, at: nat) returns (k: nat)
    requires at <= Length(text) && Boundary(EncodeAll(text), at)
    ensures k <= |text| && at == Length(text[..k])
  {
    if text == [] {
      return 0;
    }
    var n := |text| - 1;
    var before, last := EncodeAll(text[..n]), Encode(text[n]);
    OnlyFirstStarts(text[n]);
    if at == Length(text) {
      assert text[..|text|] == text;
      return |text|;
    }
    if at < |before| {
      assert EncodeAll(text)[at] == before[at];
    }
    k := BoundariesArePrefixes(text[..n], at);
    assert text[..n][..k] == text[..k];
  }

  lemma BoundariesStay(bytes: seq<nat>, c: char, at: nat)
    requires at <= |bytes| && Boundary(bytes, at)
    ensures Boundary(bytes + Encode(c), at) && (bytes + Encode(c))[..at] == bytes[..at]
  {
    OnlyFirstStarts(c);
  }

  lemma {:induction false} PrefixesAreBoundaries(text: string, k: nat)
    requires k <= |text|
    ensures Length(text[..k]) <= Length(text) && EncodeAll(text[..k]) == EncodeAll(text)[..Length(text[..k])]
    ensures Boundary(EncodeAll(text), Length(text[..k]))
    ensures k < |text| ==> Length(text[..k]) < Length(text)
  {
    if k == |text| {
      assert text[..k] == text;
    } else {
      var n := |text| - 1;
      PrefixesAreBoundaries(text[..n], k);
      assert text[..n][..k] == text[..k];
      var before := EncodeAll(text[..n]);
      BoundariesStay(before, text[n], Length(text[..k]));
      assert EncodeAll(text) == before + Encode(text[n]);
    }
  }

  /** A place in the bytes looks like one between two characters exactly if a prefix of whole characters ends there. */
  lemma BoundariesAreExact(text: string, at: nat)
    requires at <= Length(text)
    ensures Boundary(EncodeAll(text), at) <==> exists k: nat :: k <= |text| && at == Length(text[..k])
  {
    if Boundary(EncodeAll(text), at) {
      var k := BoundariesArePrefixes(text, at);
    }
    if k: nat :| k <= |text| && at == Length(text[..k]) {
      PrefixesAreBoundaries(text, k);
    }
  }

  const PREVIEW_MAX_BYTES := 64

  /** Cuts a text to the longest prefix of whole characters that takes at most 64 bytes. */
  method Preview(ghost text: string, bytes: seq<nat>) returns (cut: seq<nat>, ghost k: nat)
    requires bytes == EncodeAll(text)
    ensures k <= |text| && cut == EncodeAll(text[..k]) && |cut| <= 64
    ensures forall longer | k < longer <= |text| :: Length(text[..longer]) > 64
  {
    if |bytes| <= PREVIEW_MAX_BYTES {
      assert text[..|text|] == text;
      return bytes, |text|;
    }
    var end: nat := PREVIEW_MAX_BYTES;
    while !Boundary(bytes, end)
      invariant end <= PREVIEW_MAX_BYTES
      invariant forall at: nat | end < at <= PREVIEW_MAX_BYTES :: !Boundary(bytes, at)
      decreases end
    {
      end := end - 1;
    }
    k := BoundariesArePrefixes(text, end);
    PrefixesAreBoundaries(text, k);
    forall longer | k < longer <= |text|
      ensures Length(text[..longer]) > PREVIEW_MAX_BYTES
    {
      PrefixesAreBoundaries(text, longer);
      PrefixesAreBoundaries(text[..longer], k);
      assert text[..longer][..k] == text[..k];
    }
    cut := bytes[..end];
  }
}

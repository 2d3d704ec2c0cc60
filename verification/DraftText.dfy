/** Newline normalization shared by the composer and the server. */
module DraftText {

  /** Every `\r\n` and every lone `\r` becomes one `\n`. */
  function Normalize(s: string): (r: string)
  {
    if s == [] then []
    else if s[0] == '\r' then
      ['\n'] + Normalize(if |s| > 1 && s[1] == '\n' then s[2..] else s[1..])
    else
      [s[0]] + Normalize(s[1..])
  }

  /** A text without carriage returns: what a text area and the server hold. */
  predicate Clean(s: string)
  {
    '\r' !in s
  }

  lemma {:induction false} NormalizeCleans(s: string)
    ensures Clean(Normalize(s))
  {
    if s == [] {
    } else if s[0] == '\r' {
      NormalizeCleans(if |s| > 1 && s[1] == '\n' then s[2..] else s[1..]);
    } else {
      NormalizeCleans(s[1..]);
    }
  }

  /** Normalization leaves exactly the clean texts alone, so the server never alters what the composer sends. */
  lemma {:induction false} NormalizeFixesClean(s: string)
    ensures Normalize(s) == s <==> Clean(s)
  {
    NormalizeCleans(s);
    if s != [] && Clean(s) {
      assert Clean(s[1..]);
      NormalizeFixesClean(s[1..]);
      assert s == [s[0]] + s[1..];
    }
  }

  // ------------------------------------------------------------------ lines

  /** A line break stands at the front, one or two characters long. */
  function BreakLength(s: string): nat
    requires s != []
  {
    if s[0] == '\r' then (if |s| > 1 && s[1] == '\n' then 2 else 1) else if s[0] == '\n' then 1 else 0
  }

  /** The lines of a text, whichever of the three ways each is ended in. */
  function Lines(s: string): (lines: seq<string>)
    ensures lines != []
  {
    if s == [] then [""]
    else if BreakLength(s) > 0 then [""] + Lines(s[BreakLength(s)..])
    else
      var rest := Lines(s[1..]);
      [[s[0]] + rest[0]] + rest[1..]
  }

  /** Lines put together again with one newline between two of them. */
  function Unlines(lines: seq<string>): string {
    if |lines| == 0 then "" else if |lines| == 1 then lines[0] else lines[0] + "\n" + Unlines(lines[1..])
  }

  lemma FirstLineGrows(c: char, lines: seq<string>)
    requires lines != []
    ensures Unlines([[c] + lines[0]] + lines[1..]) == [c] + Unlines(lines)
  {
    var grown := [[c] + lines[0]] + lines[1..];
    assert grown[1..] == lines[1..];
    if |lines| > 1 {
      assert [c] + lines[0] + "\n" + Unlines(lines[1..]) == [c] + (lines[0] + "\n" + Unlines(lines[1..]));
    }
  }

  lemma EmptyLineGrows(lines: seq<string>)
    requires lines != []
    ensures Unlines([""] + lines) == "\n" + Unlines(lines)
  {
    assert ([""] + lines)[1..] == lines;
  }

  /** Normalization keeps every line and ends each in exactly one newline. */
  lemma {:induction false} NormalizeKeepsLines(s: string)
    ensures Normalize(s) == Unlines(Lines(s))
    ensures Lines(Normalize(s)) == Lines(s)
    decreases |s|
  {
    if s != [] {
      var n := if BreakLength(s) > 0 then BreakLength(s) else 1;
      NormalizeKeepsLines(s[n..]);
      var c := Normalize(s)[0];
      assert Normalize(s) == [c] + Normalize(s[n..]);
      assert Normalize(s)[1..] == Normalize(s[n..]);
      if BreakLength(s) > 0 {
        EmptyLineGrows(Lines(s[n..]));
      } else {
        FirstLineGrows(c, Lines(s[n..]));
      }
    }
  }
}

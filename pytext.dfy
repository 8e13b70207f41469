/** The few Python string operations the launcher relies on, over `seq<char>`. */
module PyText {

  /** Python 2 `str.isspace` on one character (the ASCII whitespace set). */
  predicate IsSpace(c: char)
  {
    c == ' ' || c == '\t' || c == '\n' || c == '\r' || c == '\U{B}' || c == '\U{C}'
  }

  /** `s.rstrip()`: drop every trailing whitespace character. */
  function RStrip(s: string): (r: string)
    ensures r <= s
    ensures r == [] || !IsSpace(r[|r| - 1])
    ensures forall i :: |r| <= i < |s| ==> IsSpace(s[i])
  {
    if s != [] && IsSpace(s[|s| - 1]) then RStrip(s[..|s| - 1]) else s
  }

  /** A string that `rstrip` leaves as it is. */
  predicate NoTrailingSpace(s: string)
  {
    s == [] || !IsSpace(s[|s| - 1])
  }

  /** `rstrip` removes the newline a line was written with, and only that. */
  lemma {:induction false} RStripNewline(s: string)
    requires NoTrailingSpace(s)
    ensures RStrip(s + "\n") == s
  {
    assert (s + "\n")[..|s + "\n"| - 1] == s;
  }

  /** ASCII lower-casing of one character. */
  function LowerChar(c: char): char
  {
    if 'A' <= c <= 'Z' then (c as int + 32) as char else c
  }

  /** `s.lower()`, restricted to ASCII letters. */
  function Lower(s: string): (r: string)
    ensures |r| == |s|
    ensures forall i :: 0 <= i < |s| ==> r[i] == LowerChar(s[i])
  {
    seq(|s|, i requires 0 <= i < |s| => LowerChar(s[i]))
  }

  /** `needle` occurs in `hay` starting at index `i`. */
  predicate OccursAt(hay: string, needle: string, i: int)
  {
    0 <= i <= |hay| - |needle| && hay[i..i + |needle|] == needle
  }

  /** Python's `needle in hay` on strings: `needle` occurs as a contiguous piece of `hay`. */
  predicate Contains(hay: string, needle: string): (r: bool)
    ensures needle == [] ==> r
    ensures r ==> |needle| <= |hay|
  {
    assert needle == [] ==> OccursAt(hay, needle, 0);
    exists i | 0 <= i <= |hay| :: OccursAt(hay, needle, i)
  }
}

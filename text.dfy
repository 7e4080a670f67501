/**
 * Character and string helpers shared by the encoder and the decoder:
 * ASCII-only uppercasing, runs of dots, and joining lines with newlines.
 */
module Text {

  predicate IsAsciiLower(c: char) { 'a' <= c <= 'z' }
  predicate IsAsciiUpper(c: char) { 'A' <= c <= 'Z' }

  /** Rust's `char::make_ascii_uppercase`: only 'a'..'z' change, everything else is kept. */
  function AsciiUpper(c: char): char
  {
    if IsAsciiLower(c) then (c as int - 32) as char else c
  }

  /** What ASCII uppercasing promises: letters of either case land on 'A'..'Z'
      (the same letter), nothing else moves, and doing it twice changes nothing. */
  lemma AsciiUpperSpec(c: char)
    ensures IsAsciiUpper(AsciiUpper(c)) <==> IsAsciiLower(c) || IsAsciiUpper(c)
    ensures IsAsciiLower(c) ==> AsciiUpper(c) as int - 'A' as int == c as int - 'a' as int
    ensures !IsAsciiLower(c) ==> AsciiUpper(c) == c
    ensures AsciiUpper(AsciiUpper(c)) == AsciiUpper(c)
  {
  }

  /** A string ASCII-uppercased character by character. */
  function Upper(s: string): (u: string)
    ensures |u| == |s|
    ensures forall k :: 0 <= k < |s| ==> u[k] == AsciiUpper(s[k])
  {
    if |s| == 0 then "" else Upper(s[..|s| - 1]) + [AsciiUpper(s[|s| - 1])]
  }

  /** `".".repeat(n)`. */
  function Dots(n: nat): (s: string)
    ensures |s| == n
    ensures forall k :: 0 <= k < n ==> s[k] == '.'
  {
    if n == 0 then "" else Dots(n - 1) + "."
  }

  /** The text written when every line is followed by a newline (`writeln!`). */
  function JoinLines(ls: seq<string>): string
  {
    if |ls| == 0 then "" else JoinLines(ls[..|ls| - 1]) + ls[|ls| - 1] + "\n"
  }

  /** Joining newline-free lines gives exactly one newline per line. */
  lemma {:induction false} JoinLinesNewlines(ls: seq<string>)
    requires forall k :: 0 <= k < |ls| ==> '\n' !in ls[k]
    ensures multiset(JoinLines(ls))['\n'] == |ls|
  {
    if |ls| > 0 {
      var init := ls[..|ls| - 1];
      JoinLinesNewlines(init);
      assert '\n' !in ls[|ls| - 1];
      assert multiset(ls[|ls| - 1])['\n'] == 0;
      assert JoinLines(ls) == JoinLines(init) + ls[|ls| - 1] + "\n";
    }
  }
}

/**
 * Encoding followed by decoding: each encoded line decodes, from
 * `IndexingColumn`, to exactly the letters the encoder accepted and leaves the
 * decoder back in `IndexingColumn`, so no state crosses into the next line.
 */
module RoundTrip {
  import opened Text
  import opened Grid
  import opened Encoder
  import opened Decoder

  /** The text the encoder's tokens stand for: each line's accepted letters and a newline. */
  function AcceptedText(lines: seq<string>, remap: map<char, char>, lookup: map<char, (nat, nat)>): string
  {
    if |lines| == 0 then ""
    else AcceptedText(lines[..|lines| - 1], remap, lookup) + AcceptedLetters(lines[|lines| - 1], remap, lookup) + "\n"
  }

  /** One line: decoding its encoding from the start state gives back the accepted
      letters (the resolved, uppercased characters that have grid coordinates) and
      ends in the start state. */
  lemma {:induction false} LineRoundTrip(line: string, remap: map<char, char>, lookup: map<char, (nat, nat)>)
    requires IsLookupTable(lookup)
    ensures Run(EncodeLine(line, remap, lookup), Start).0 == Start
    ensures Run(EncodeLine(line, remap, lookup), Start).1 == AcceptedLetters(line, remap, lookup)
  {
    if |line| > 0 {
      var init, last := line[..|line| - 1], line[|line| - 1];
      LineRoundTrip(init, remap, lookup);
      RunConcat(EncodeLine(init, remap, lookup), EncodeChar(last, remap, lookup), Start);
      ClassifyAgainstGrid(last, remap, lookup);
      var o := Classify(last, remap, lookup);
      if o.Accepted? {
        TokenDecodes(o.row, o.col);
        LetterCases(o.row, o.col);
      }
    }
  }

  /** A whole stream: the decoder, fed the encoder's lines, writes the accepted text
      and finishes in `IndexingColumn`. */
  lemma {:induction false} StreamRoundTrip(lines: seq<string>, remap: map<char, char>, lookup: map<char, (nat, nat)>)
    requires IsLookupTable(lookup)
    ensures DecodeFrom(EncodedLines(lines, remap, lookup), IndexingColumn).0 == IndexingColumn
    ensures Decode(EncodedLines(lines, remap, lookup)) == AcceptedText(lines, remap, lookup)
  {
    if |lines| > 0 {
      var init := lines[..|lines| - 1];
      var last := lines[|lines| - 1];
      StreamRoundTrip(init, remap, lookup);
      var encoded := EncodedLines(lines, remap, lookup);
      assert encoded[..|encoded| - 1] == EncodedLines(init, remap, lookup);
      assert encoded[|encoded| - 1] == EncodeLine(last, remap, lookup);
      LineRoundTrip(last, remap, lookup);
    }
  }

  /** With no remap table, a line of grid letters in either case is accepted whole,
      uppercased. */
  lemma {:induction false} AcceptsGridLetters(line: string, lookup: map<char, (nat, nat)>)
    requires IsLookupTable(lookup)
    requires forall k :: 0 <= k < |line| ==> 'A' <= AsciiUpper(line[k]) <= 'Z' && AsciiUpper(line[k]) != 'K'
    ensures AcceptedLetters(line, map[], lookup) == Upper(line)
  {
    if |line| > 0 {
      var init := line[..|line| - 1];
      assert forall k :: 0 <= k < |init| ==> init[k] == line[k];
      AcceptsGridLetters(init, lookup);
      var u := AsciiUpper(line[|line| - 1]);
      var p := Position(u);
      assert ConvertTable[p.0][p.1] in lookup;
    }
  }

  /** A line written only with grid letters, in either case and with no remap
      table, comes back uppercased. */
  lemma GridLettersRoundTrip(line: string, lookup: map<char, (nat, nat)>)
    requires IsLookupTable(lookup)
    requires forall k :: 0 <= k < |line| ==> 'A' <= AsciiUpper(line[k]) <= 'Z' && AsciiUpper(line[k]) != 'K'
    ensures Decode([EncodeLine(line, map[], lookup)]) == Upper(line) + "\n"
  {
    AcceptsGridLetters(line, lookup);
    var encoded := EncodeLine(line, map[], lookup);
    LineRoundTrip(line, map[], lookup);
    DecodeFromStep([encoded], 0, IndexingColumn);
    assert [encoded][..1] == [encoded] && [encoded][..0] == [];
  }

  /** With no remap table, a letter whose uppercase sits in cell (`row`, `col`) is
      written as that cell's token. */
  lemma LetterToken(ch: char, row: nat, col: nat, lookup: map<char, (nat, nat)>)
    requires IsLookupTable(lookup)
    requires 1 <= row <= Size && 1 <= col <= Size && ConvertTable[row - 1][col - 1] == AsciiUpper(ch)
    ensures EncodeChar(ch, map[], lookup) == Token(row, col)
  {
    assert lookup[ConvertTable[row - 1][col - 1]] == (row, col);
  }

  /** The tokens of the letters of "hello", read from any lookup table. */
  lemma HelloTokens(lookup: map<char, (nat, nat)>)
    requires IsLookupTable(lookup)
    ensures EncodeChar('h', map[], lookup) == Token(2, 3)
    ensures EncodeChar('e', map[], lookup) == Token(1, 5)
    ensures EncodeChar('l', map[], lookup) == Token(3, 1)
    ensures EncodeChar('o', map[], lookup) == Token(3, 4)
  {
    assert AsciiUpper('h') == 'H' && AsciiUpper('e') == 'E' && AsciiUpper('l') == 'L' && AsciiUpper('o') == 'O';
    assert ConvertTable[1][2] == 'H' && ConvertTable[0][4] == 'E';
    assert ConvertTable[2][0] == 'L' && ConvertTable[2][3] == 'O';
    LetterToken('h', 2, 3, lookup);
    LetterToken('e', 1, 5, lookup);
    LetterToken('l', 3, 1, lookup);
    LetterToken('o', 3, 4, lookup);
  }

  /** "hello" is encoded letter by letter, left to right. */
  lemma HelloSpelled(lookup: map<char, (nat, nat)>)
    ensures EncodeLine("hello", map[], lookup) ==
      EncodeChar('h', map[], lookup) + EncodeChar('e', map[], lookup) + EncodeChar('l', map[], lookup) +
      EncodeChar('l', map[], lookup) + EncodeChar('o', map[], lookup)
  {
    var e := map[];
    assert "hello"[..4] == "hell" && "hell"[..3] == "hel" && "hel"[..2] == "he" && "he"[..1] == "h" && "h"[..0] == "";
    assert EncodeLine("h", e, lookup) == EncodeChar('h', e, lookup);
    assert EncodeLine("he", e, lookup) == EncodeLine("h", e, lookup) + EncodeChar('e', e, lookup);
    assert EncodeLine("hel", e, lookup) == EncodeLine("he", e, lookup) + EncodeChar('l', e, lookup);
    assert EncodeLine("hell", e, lookup) == EncodeLine("hel", e, lookup) + EncodeChar('l', e, lookup);
    assert EncodeLine("hello", e, lookup) == EncodeLine("hell", e, lookup) + EncodeChar('o', e, lookup);
  }

  /** The tokens of H, E, L and O written out. */
  lemma HelloTokenText()
    ensures Token(2, 3) == ".. ... " && Token(1, 5) == ". ..... "
    ensures Token(3, 1) == "... . " && Token(3, 4) == "... .... "
  {
    assert Dots(1) == "." && Dots(2) == ".." && Dots(3) == "..." && Dots(4) == "...." && Dots(5) == ".....";
  }

  /** Decoding the encoding of "hello" gives "HELLO". */
  lemma HelloDecodes(lookup: map<char, (nat, nat)>)
    requires IsLookupTable(lookup)
    ensures Decode([EncodeLine("hello", map[], lookup)]) == "HELLO\n"
  {
    var line := "hello";
    assert AsciiUpper('h') == 'H' && AsciiUpper('e') == 'E' && AsciiUpper('l') == 'L' && AsciiUpper('o') == 'O';
    GridLettersRoundTrip(line, lookup);
    assert Upper(line) == "HELLO";
  }

  /** "hello" encodes to five tokens, for H (2, 3), E (1, 5), L (3, 1), L and O (3, 4),
      and these decode to "HELLO". */
  lemma HelloExample(lookup: map<char, (nat, nat)>)
    requires IsLookupTable(lookup)
    ensures EncodeLine("hello", map[], lookup) == Token(2, 3) + Token(1, 5) + Token(3, 1) + Token(3, 1) + Token(3, 4)
    ensures Token(2, 3) == ".. ... " && Token(1, 5) == ". ..... "
    ensures Token(3, 1) == "... . " && Token(3, 4) == "... .... "
    ensures Decode([EncodeLine("hello", map[], lookup)]) == "HELLO\n"
  {
    HelloTokens(lookup);
    HelloSpelled(lookup);
    HelloTokenText();
    HelloDecodes(lookup);
  }
}

/**
 * The encoder (`encode_to`): every input line becomes one output line of
 * `<row dots> <column dots> ` tokens, one per accepted character.
 */
module Encoder {
  import opened Text
  import opened Grid
  import Remap
  import opened Wrappers

  /** A character after uppercasing and remapping: the remap table is consulted with
      the uppercased character and its value is uppercased again. */
  function Resolve(ch: char, remap: map<char, char>): char
  {
    var u := AsciiUpper(ch);
    if u in remap then AsciiUpper(remap[u]) else u
  }

  /** What the encoder does with one character: drop it silently (it resolved to
      '-'), report it as unsupported (no lookup entry), or emit its coordinates. */
  datatype Outcome = Skipped | Unsupported(ch: char) | Accepted(letter: char, row: nat, col: nat)

  function Classify(ch: char, remap: map<char, char>, lookup: map<char, (nat, nat)>): Outcome
  {
    var m := Resolve(ch, remap);
    if m == Remap.SkipSentinel then Skipped
    else if m !in lookup then Unsupported(m)
    else Accepted(m, lookup[m].0, lookup[m].1)
  }

  /** `write!(output, "{i} {j} ")` with `i` and `j` runs of dots. */
  function Token(row: nat, col: nat): string
  {
    Dots(row) + " " + Dots(col) + " "
  }

  function EncodeChar(ch: char, remap: map<char, char>, lookup: map<char, (nat, nat)>): string
  {
    match Classify(ch, remap, lookup)
    case Accepted(_, r, c) => Token(r, c)
    case _ => ""
  }

  /** The tokens written for one line, left to right (without its newline). */
  function EncodeLine(line: string, remap: map<char, char>, lookup: map<char, (nat, nat)>): string
  {
    if |line| == 0 then ""
    else EncodeLine(line[..|line| - 1], remap, lookup) + EncodeChar(line[|line| - 1], remap, lookup)
  }

  /** The characters reported as unsupported on one line, in order. */
  function UnsupportedIn(line: string, remap: map<char, char>, lookup: map<char, (nat, nat)>): seq<char>
  {
    if |line| == 0 then []
    else
      UnsupportedIn(line[..|line| - 1], remap, lookup) +
      match Classify(line[|line| - 1], remap, lookup)
      case Unsupported(m) => [m]
      case _ => []
  }

  /** The letters a line's tokens stand for, in order. */
  function AcceptedLetters(line: string, remap: map<char, char>, lookup: map<char, (nat, nat)>): string
  {
    if |line| == 0 then ""
    else
      AcceptedLetters(line[..|line| - 1], remap, lookup) +
      match Classify(line[|line| - 1], remap, lookup)
      case Accepted(m, _, _) => [m]
      case _ => ""
  }

  function EncodedLines(lines: seq<string>, remap: map<char, char>, lookup: map<char, (nat, nat)>): seq<string>
  {
    if |lines| == 0 then []
    else EncodedLines(lines[..|lines| - 1], remap, lookup) + [EncodeLine(lines[|lines| - 1], remap, lookup)]
  }

  /** The whole output of `encode_to`: each encoded line followed by a newline. */
  function Encode(lines: seq<string>, remap: map<char, char>, lookup: map<char, (nat, nat)>): string
  {
    JoinLines(EncodedLines(lines, remap, lookup))
  }

  /** All unsupported-character diagnostics of a run, in order. */
  function Diagnostics(lines: seq<string>, remap: map<char, char>, lookup: map<char, (nat, nat)>): seq<char>
  {
    if |lines| == 0 then []
    else Diagnostics(lines[..|lines| - 1], remap, lookup) + UnsupportedIn(lines[|lines| - 1], remap, lookup)
  }

  /** One more character of a line extends the line's tokens, diagnostics and letters
      by that character's share. */
  lemma EncodeStep(line: string, k: nat, remap: map<char, char>, lookup: map<char, (nat, nat)>)
    requires k < |line|
    ensures EncodeLine(line[..k + 1], remap, lookup) == EncodeLine(line[..k], remap, lookup) + EncodeChar(line[k], remap, lookup)
    ensures UnsupportedIn(line[..k + 1], remap, lookup) == UnsupportedIn(line[..k], remap, lookup) +
      match Classify(line[k], remap, lookup) case Unsupported(m) => [m] case _ => []
    ensures AcceptedLetters(line[..k + 1], remap, lookup) == AcceptedLetters(line[..k], remap, lookup) +
      match Classify(line[k], remap, lookup) case Accepted(m, _, _) => [m] case _ => ""
  {
    assert line[..k + 1][..k] == line[..k];
  }

  /** One more input line extends the output by its tokens and a newline. */
  lemma EncodeLinesStep(lines: seq<string>, n: nat, remap: map<char, char>, lookup: map<char, (nat, nat)>)
    requires n < |lines|
    ensures Encode(lines[..n + 1], remap, lookup) == Encode(lines[..n], remap, lookup) + EncodeLine(lines[n], remap, lookup) + "\n"
    ensures Diagnostics(lines[..n + 1], remap, lookup) == Diagnostics(lines[..n], remap, lookup) + UnsupportedIn(lines[n], remap, lookup)
  {
    assert lines[..n + 1][..n] == lines[..n];
    var ls := EncodedLines(lines[..n + 1], remap, lookup);
    assert ls[..|ls| - 1] == EncodedLines(lines[..n], remap, lookup);
  }

  /** The character loop of `encode_to` for one line: the tokens it writes and the
      characters it reports as unsupported. */
  method EncodeLineTo(line: string, remap: map<char, char>, lookup: map<char, (nat, nat)>)
    returns (written: string, unsupported: seq<char>)
    ensures written == EncodeLine(line, remap, lookup)
    ensures unsupported == UnsupportedIn(line, remap, lookup)
  {
    written, unsupported := "", [];
    for k := 0 to |line|
      invariant written == EncodeLine(line[..k], remap, lookup)
      invariant unsupported == UnsupportedIn(line[..k], remap, lookup)
    {
      EncodeStep(line, k, remap, lookup);
      var character := AsciiUpper(line[k]);
      if character in remap {
        character := AsciiUpper(remap[character]);
      }
      assert character == Resolve(line[k], remap);
      if character == Remap.SkipSentinel {
        assert Classify(line[k], remap, lookup) == Skipped;
        continue;
      }
      if character !in lookup {
        assert Classify(line[k], remap, lookup) == Unsupported(character);
        unsupported := unsupported + [character];
        continue;
      }
      var (row, col) := lookup[character];
      var i, j := Dots(row), Dots(col);
      assert EncodeChar(line[k], remap, lookup) == i + " " + j + " ";
      written := written + (i + " " + j + " ");
    }
    assert line[..|line|] == line;
  }

  /** `encode_to` over already-split input lines, with the lookup table passed in;
      besides the output it returns the characters it reported as unsupported. */
  method EncodeTo(input: seq<string>, remap: map<char, char>, lookup: map<char, (nat, nat)>)
    returns (output: string, unsupported: seq<char>)
    ensures output == Encode(input, remap, lookup)
    ensures unsupported == Diagnostics(input, remap, lookup)
  {
    output, unsupported := "", [];
    for n := 0 to |input|
      invariant output == Encode(input[..n], remap, lookup)
      invariant unsupported == Diagnostics(input[..n], remap, lookup)
    {
      EncodeLinesStep(input, n, remap, lookup);
      var written, reported := EncodeLineTo(input[n], remap, lookup);
      output := output + written + "\n";
      unsupported := unsupported + reported;
    }
    assert input[..|input|] == input;
  }

  /** How one character is treated, against the grid: it is dropped silently exactly
      when it resolves to '-'; it is unsupported exactly when it resolves to anything
      else that is not an uppercase letter other than 'K'; otherwise its token holds
      the 1-based coordinates of the resolved letter, and it is written out as those
      dots and two spaces and nothing else. */
  lemma ClassifyAgainstGrid(ch: char, remap: map<char, char>, lookup: map<char, (nat, nat)>)
    requires IsLookupTable(lookup)
    ensures Classify(ch, remap, lookup).Skipped? <==> Resolve(ch, remap) == Remap.SkipSentinel
    ensures Classify(ch, remap, lookup).Unsupported? <==>
      Resolve(ch, remap) != Remap.SkipSentinel && !('A' <= Resolve(ch, remap) <= 'Z' && Resolve(ch, remap) != 'K')
    ensures Classify(ch, remap, lookup).Unsupported? ==> Classify(ch, remap, lookup).ch == Resolve(ch, remap)
    ensures Classify(ch, remap, lookup).Accepted? ==>
      var o := Classify(ch, remap, lookup);
      o.letter == Resolve(ch, remap) && 1 <= o.row <= Size && 1 <= o.col <= Size &&
      ConvertTable[o.row - 1][o.col - 1] == o.letter &&
      EncodeChar(ch, remap, lookup) == Dots(o.row) + [' '] + Dots(o.col) + [' ']
    ensures !Classify(ch, remap, lookup).Accepted? ==> EncodeChar(ch, remap, lookup) == ""
  {
    LookupTableKeys(lookup);
    var m := Resolve(ch, remap);
    if m in lookup {
      assert InGrid(m, lookup[m]);
    }
  }

  /** Remapping is substitution: encoding `ch` with a remap table does the same as
      encoding its substitute with no table at all. An empty table remaps nothing. */
  lemma RemapThenEncode(ch: char, remap: map<char, char>, lookup: map<char, (nat, nat)>)
    ensures Resolve(ch, map[]) == AsciiUpper(ch)
    ensures Classify(ch, remap, lookup) == Classify(Resolve(ch, remap), map[], lookup)
    ensures EncodeChar(ch, remap, lookup) == EncodeChar(Resolve(ch, remap), map[], lookup)
  {
    AsciiUpperSpec(ch);
    var u := AsciiUpper(ch);
    if u in remap {
      AsciiUpperSpec(remap[u]);
    }
  }

  predicate DotsAndSpaces(s: string)
  {
    forall k :: 0 <= k < |s| ==> s[k] == '.' || s[k] == ' '
  }

  lemma DotsAndSpacesConcat(a: string, b: string)
    requires DotsAndSpaces(a) && DotsAndSpaces(b)
    ensures DotsAndSpaces(a + b)
  {
    forall k | 0 <= k < |a + b| ensures (a + b)[k] == '.' || (a + b)[k] == ' ' {
      if k >= |a| {
        assert (a + b)[k] == b[k - |a|];
      }
    }
  }

  /** An encoded line is made of dots and spaces only, so it holds no newline. */
  lemma {:induction false} EncodeLineAlphabet(line: string, remap: map<char, char>, lookup: map<char, (nat, nat)>)
    ensures DotsAndSpaces(EncodeLine(line, remap, lookup))
    ensures '\n' !in EncodeLine(line, remap, lookup)
  {
    if |line| > 0 {
      var init, last := line[..|line| - 1], line[|line| - 1];
      EncodeLineAlphabet(init, remap, lookup);
      var o := Classify(last, remap, lookup);
      if o.Accepted? {
        DotsAndSpacesConcat(Dots(o.row), " ");
        DotsAndSpacesConcat(Dots(o.row) + " ", Dots(o.col));
        DotsAndSpacesConcat(Dots(o.row) + " " + Dots(o.col), " ");
      }
      DotsAndSpacesConcat(EncodeLine(init, remap, lookup), EncodeChar(last, remap, lookup));
    }
    assert forall k :: 0 <= k < |EncodeLine(line, remap, lookup)| ==> EncodeLine(line, remap, lookup)[k] != '\n';
  }

  /** Line preservation: N input lines give N newline-free encoded lines, the k-th
      being the encoding of the k-th input line, and the output holds exactly N
      newlines, one after each of them, whatever was dropped. */
  lemma {:induction false} LinePreserving(lines: seq<string>, remap: map<char, char>, lookup: map<char, (nat, nat)>)
    ensures |EncodedLines(lines, remap, lookup)| == |lines|
    ensures forall k :: 0 <= k < |lines| ==>
      EncodedLines(lines, remap, lookup)[k] == EncodeLine(lines[k], remap, lookup) &&
      '\n' !in EncodedLines(lines, remap, lookup)[k]
  {
    if |lines| > 0 {
      var n := |lines| - 1;
      var init := lines[..n];
      LinePreserving(init, remap, lookup);
      EncodeLineAlphabet(lines[n], remap, lookup);
      assert EncodedLines(lines, remap, lookup) == EncodedLines(init, remap, lookup) + [EncodeLine(lines[n], remap, lookup)];
      forall k | 0 <= k < n
        ensures EncodedLines(lines, remap, lookup)[k] == EncodeLine(lines[k], remap, lookup)
      {
        assert init[k] == lines[k];
      }
    }
  }

  lemma NewlinePerLine(lines: seq<string>, remap: map<char, char>, lookup: map<char, (nat, nat)>)
    ensures multiset(Encode(lines, remap, lookup))['\n'] == |lines|
  {
    LinePreserving(lines, remap, lookup);
    JoinLinesNewlines(EncodedLines(lines, remap, lookup));
  }

  /** The worked example: "A" becomes ". . ". */
  lemma EncodeExampleA(lookup: map<char, (nat, nat)>)
    requires IsLookupTable(lookup)
    ensures Encode(["A"], map[], lookup) == ". . \n"
  {
    assert ConvertTable[0][0] == 'A';
    assert lookup['A'] == (1, 1);
    assert Dots(1) == ".";
    assert Token(1, 1) == ". . ";
    assert "A"[..0] == "";
    assert EncodeChar('A', map[], lookup) == ". . ";
    assert EncodeLine("A", map[], lookup) == ". . ";
    assert ["A"][..0] == [];
    assert EncodedLines(["A"], map[], lookup) == [". . "];
    assert [". . "][..0] == [];
  }

  /** With the remap table read from the single line `H,X`, the line "HI" encodes 'H'
      at X's coordinates (row 5, column 3) while 'I' passes through at its own (row 2,
      column 4). */
  lemma EncodeExampleRemap(lookup: map<char, (nat, nat)>)
    requires IsLookupTable(lookup)
    ensures Remap.ParseTable(["H,X"]) == Some(map['H' := 'X'])
    ensures EncodeLine("HI", Remap.ParseTable(["H,X"]).value, lookup) == "..... ... .. .... "
  {
    Remap.ParseExample();
    var remap := map['H' := 'X'];
    assert ConvertTable[4][2] == 'X';
    assert ConvertTable[1][3] == 'I';
    assert Resolve('H', remap) == 'X' && Resolve('I', remap) == 'I';
    assert Dots(2) == ".." && Dots(3) == "..." && Dots(4) == "...." && Dots(5) == ".....";
    assert EncodeChar('H', remap, lookup) == "..... ... ";
    assert EncodeChar('I', remap, lookup) == ".. .... ";
    assert "HI"[..1] == "H" && "H"[..0] == "";
    assert EncodeLine("H", remap, lookup) == "..... ... ";
  }

  /** A missing or unreadable table file leaves the encoder as if there were no table. */
  lemma MissingTableIsNoTable(lines: seq<string>, lookup: map<char, (nat, nat)>)
    ensures Remap.RemapTableOf(None) == map[]
    ensures Encode(lines, Remap.RemapTableOf(None), lookup) == Encode(lines, map[], lookup)
  {
  }
}

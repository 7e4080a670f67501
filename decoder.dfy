/**
 * The decoder (`decode_to`): a two-state machine reading dot runs. In
 * `IndexingColumn` dots count `i` (the grid row), a space moves to `IndexingRow`;
 * there dots count `j` (the column) and a space completes the token.
 */
module Decoder {
  import opened Text
  import opened Grid

  datatype DecoderState = IndexingColumn | IndexingRow

  /** The machine: its state and the two counters. */
  datatype Machine = Machine(state: DecoderState, i: nat, j: nat)

  const Start := Machine(IndexingColumn, 0, 0)

  /** What completing a token writes: a zero counter means index 1, any other counter
      is one more than its 0-based index, and an index outside the grid writes nothing. */
  function Letter(i: nat, j: nat): string
  {
    var col := if i == 0 then 1 else i - 1;
    var idx := if j == 0 then 1 else j - 1;
    if col < |ConvertTable| && idx < |ConvertTable[col]| then [ConvertTable[col][idx]] else ""
  }

  /** One character of the `match state` in `decode_to`. */
  function Step(m: Machine, chr: char): (Machine, string)
  {
    match m.state
    case IndexingColumn =>
      if chr == '.' then (m.(i := m.i + 1), "")
      else if chr == ' ' then (m.(state := IndexingRow), "")
      else (m, "")
    case IndexingRow =>
      if chr == '.' then (m.(j := m.j + 1), "")
      else if chr == ' ' then (Start, Letter(m.i, m.j))
      else (m, "")
  }

  /** The machine run over a string: its final configuration and what it wrote. */
  function Run(s: string, m: Machine): (Machine, string)
  {
    if |s| == 0 then (m, "")
    else
      var prev := Run(s[..|s| - 1], m);
      var next := Step(prev.0, s[|s| - 1]);
      (next.0, prev.1 + next.1)
  }

  /** Decoding lines from a given state: the counters restart at zero on every
      line, the state does not, and each line's output is followed by a newline. */
  function DecodeFrom(lines: seq<string>, state: DecoderState): (DecoderState, string)
  {
    if |lines| == 0 then (state, "")
    else
      var prev := DecodeFrom(lines[..|lines| - 1], state);
      var line := Run(lines[|lines| - 1], Machine(prev.0, 0, 0));
      (line.0.state, prev.1 + line.1 + "\n")
  }

  /** The whole output of `decode_to`, starting in `IndexingColumn`. */
  function Decode(lines: seq<string>): string
  {
    DecodeFrom(lines, IndexingColumn).1
  }

  lemma RunStep(s: string, k: nat, m: Machine)
    requires k < |s|
    ensures Run(s[..k + 1], m) ==
      (Step(Run(s[..k], m).0, s[k]).0, Run(s[..k], m).1 + Step(Run(s[..k], m).0, s[k]).1)
  {
    assert s[..k + 1][..k] == s[..k];
  }

  lemma DecodeFromStep(lines: seq<string>, n: nat, state: DecoderState)
    requires n < |lines|
    ensures DecodeFrom(lines[..n + 1], state) ==
      var prev := DecodeFrom(lines[..n], state);
      var line := Run(lines[n], Machine(prev.0, 0, 0));
      (line.0.state, prev.1 + line.1 + "\n")
  {
    assert lines[..n + 1][..n] == lines[..n];
  }

  /** The character loop of `decode_to` for one line, entered in `state` with both
      counters zero: what it writes and the state it leaves for the next line. */
  method DecodeLineTo(line: string, state: DecoderState) returns (written: string, endState: DecoderState)
    ensures endState == Run(line, Machine(state, 0, 0)).0.state
    ensures written == Run(line, Machine(state, 0, 0)).1
  {
    written, endState := "", state;
    var i: nat, j: nat := 0, 0;
    for k := 0 to |line|
      invariant Run(line[..k], Machine(state, 0, 0)).0 == Machine(endState, i, j)
      invariant written == Run(line[..k], Machine(state, 0, 0)).1
    {
      RunStep(line, k, Machine(state, 0, 0));
      var chr := line[k];
      if endState == IndexingColumn && chr == '.' {
        i := i + 1;
      } else if endState == IndexingRow && chr == '.' {
        j := j + 1;
      } else if endState == IndexingColumn && chr == ' ' {
        endState := IndexingRow;
      } else if endState == IndexingRow && chr == ' ' {
        var col := if i == 0 then 1 else i - 1;
        var idx := if j == 0 then 1 else j - 1;
        if col < |ConvertTable| && idx < |ConvertTable[col]| {
          written := written + [ConvertTable[col][idx]];
        }
        i, j := 0, 0;
        endState := IndexingColumn;
      }
    }
    assert line[..|line|] == line;
  }

  /** `decode_to` over already-split input lines: `state` is set once, before the line
      loop, and carried from each line into the next. */
  method DecodeTo(input: seq<string>) returns (output: string)
    ensures output == Decode(input)
  {
    output := "";
    var state := IndexingColumn;
    for n := 0 to |input|
      invariant DecodeFrom(input[..n], IndexingColumn) == (state, output)
    {
      DecodeFromStep(input, n, IndexingColumn);
      var written;
      written, state := DecodeLineTo(input[n], state);
      output := output + written + "\n";
    }
    assert input[..|input|] == input;
  }

  /** The token letter: counters 1..5 select `ConvertTable[i - 1][j - 1]`; a zero
      counter acts as a counter of 2 (index 1); a counter of 6 or more (index 5 or
      more) writes nothing; at most one character, an uppercase letter, is written. */
  lemma LetterCases(i: nat, j: nat)
    ensures 1 <= i <= Size && 1 <= j <= Size ==> Letter(i, j) == [ConvertTable[i - 1][j - 1]]
    ensures Letter(0, j) == Letter(2, j) && Letter(i, 0) == Letter(i, 2)
    ensures i > Size || j > Size ==> Letter(i, j) == ""
    ensures |Letter(i, j)| <= 1
    ensures forall k :: 0 <= k < |Letter(i, j)| ==> 'A' <= Letter(i, j)[k] <= 'Z'
  {
    GridWellFormed();
  }

  /** Running over two strings one after the other is running over their concatenation. */
  lemma {:induction false} RunConcat(s: string, t: string, m: Machine)
    ensures Run(s + t, m).0 == Run(t, Run(s, m).0).0
    ensures Run(s + t, m).1 == Run(s, m).1 + Run(t, Run(s, m).0).1
  {
    if |t| == 0 {
      assert s + t == s;
    } else {
      var t' := t[..|t| - 1];
      assert (s + t)[..|s + t| - 1] == s + t';
      assert (s + t)[|s + t| - 1] == t[|t| - 1];
      RunConcat(s, t', m);
    }
  }

  /** Characters other than '.' and ' ' change nothing and write nothing. */
  lemma {:induction false} IgnoresOtherChars(s: string, m: Machine)
    requires forall k :: 0 <= k < |s| ==> s[k] != '.' && s[k] != ' '
    ensures Run(s, m).0 == m && Run(s, m).1 == ""
  {
    if |s| > 0 {
      var init := s[..|s| - 1];
      assert forall k :: 0 <= k < |init| ==> init[k] == s[k];
      IgnoresOtherChars(init, m);
      assert Step(m, s[|s| - 1]).1 == "";
    }
  }

  /** A run of `n` dots adds `n` to the counter of the current state. */
  lemma {:induction false} RunDots(n: nat, m: Machine)
    ensures Run(Dots(n), m).0 == if m.state == IndexingColumn then m.(i := m.i + n) else m.(j := m.j + n)
    ensures Run(Dots(n), m).1 == ""
  {
    if n > 0 {
      RunDots(n - 1, m);
      var d := Dots(n);
      assert d[..n - 1] == Dots(n - 1);
      assert d[n - 1] == '.';
      var prev := Run(d[..n - 1], m);
      assert prev.1 == "";
      assert Run(d, m) == (Step(prev.0, '.').0, prev.1 + Step(prev.0, '.').1);
    }
  }

  /** Running over a single character is one step. */
  lemma RunOne(c: char, m: Machine)
    ensures Run([c], m).0 == Step(m, c).0 && Run([c], m).1 == Step(m, c).1
  {
    assert [c][..0] == "";
  }

  /** Running over `s` and then the character `c`. */
  lemma RunSnoc(s: string, c: char, m: Machine)
    ensures Run(s + [c], m).0 == Step(Run(s, m).0, c).0
    ensures Run(s + [c], m).1 == Run(s, m).1 + Step(Run(s, m).0, c).1
  {
    assert (s + [c])[..|s|] == s;
  }

  /** A whole token `i` dots, space, `j` dots, space, read from the start state, writes
      the token letter and leaves the machine back in `IndexingColumn` with both
      counters zero. */
  lemma TokenDecodes(i: nat, j: nat)
    ensures Run(Dots(i) + " " + Dots(j) + " ", Start).0 == Start
    ensures Run(Dots(i) + " " + Dots(j) + " ", Start).1 == Letter(i, j)
  {
    var rowRun := Dots(i) + " ";
    RunDots(i, Start);
    RunSnoc(Dots(i), ' ', Start);
    var m1 := Run(rowRun, Start).0;
    assert m1 == Machine(IndexingRow, i, 0) && Run(rowRun, Start).1 == "";
    RunDots(j, m1);
    RunConcat(rowRun, Dots(j), Start);
    var m2 := Run(rowRun + Dots(j), Start).0;
    assert m2 == Machine(IndexingRow, i, j) && Run(rowRun + Dots(j), Start).1 == "";
    RunSnoc(rowRun + Dots(j), ' ', Start);
  }

  /** The machine writes only uppercase letters, never a newline. */
  lemma {:induction false} RunWritesLetters(s: string, m: Machine)
    ensures forall k :: 0 <= k < |Run(s, m).1| ==> 'A' <= Run(s, m).1[k] <= 'Z'
    ensures '\n' !in Run(s, m).1
  {
    if |s| > 0 {
      RunWritesLetters(s[..|s| - 1], m);
      var prev := Run(s[..|s| - 1], m);
      LetterCases(prev.0.i, prev.0.j);
    }
  }

  /** Exactly one newline per input line, whatever the line holds, an unfinished
      token at its end included. */
  lemma {:induction false} NewlinePerLine(lines: seq<string>, state: DecoderState)
    ensures multiset(DecodeFrom(lines, state).1)['\n'] == |lines|
    ensures |lines| > 0 ==> DecodeFrom(lines, state).1[|DecodeFrom(lines, state).1| - 1] == '\n'
  {
    if |lines| > 0 {
      var prev := DecodeFrom(lines[..|lines| - 1], state);
      NewlinePerLine(lines[..|lines| - 1], state);
      RunWritesLetters(lines[|lines| - 1], Machine(prev.0, 0, 0));
      assert multiset(Run(lines[|lines| - 1], Machine(prev.0, 0, 0)).1)['\n'] == 0;
    }
  }

  /** The state is not reset between lines, only the counters are: a token cut after its
      row run leaves the next line in `IndexingRow` with zero counters, so ". " on the
      next line writes 'F' (row index 1 from the zero counter). Decoding the two lines
      separately writes nothing. */
  lemma StateCarriesAcrossLines()
    ensures Decode([". ", ". "]) == "\nF\n"
    ensures Decode([". "]) + Decode([". "]) == "\n\n"
  {
    var m := Machine(IndexingRow, 0, 0);
    RunOne('.', Start);
    RunSnoc(".", ' ', Start);
    assert "." + [' '] == ". ";
    assert Run(". ", Start).0 == Machine(IndexingRow, 1, 0) && Run(". ", Start).1 == "";
    RunOne('.', m);
    RunSnoc(".", ' ', m);
    assert ConvertTable[1][0] == 'F';
    assert Run(". ", m).0 == Start && Run(". ", m).1 == "F";
    assert [". ", ". "][..1] == [". "] && [". "][..0] == [];
  }

  /** The zero-counter fallback: " . " (no row dots) decodes like ".. . ". */
  lemma ZeroCounterExample()
    ensures Decode([" . "]) == "F\n"
    ensures Decode([".. . "]) == Decode([" . "])
  {
    LetterCases(0, 1);
    assert ConvertTable[1][0] == 'F';
    TokenDecodes(0, 1);
    TokenDecodes(2, 1);
    assert Dots(0) + " " + Dots(1) + " " == " . ";
    assert Dots(2) + " " + Dots(1) + " " == ".. . ";
    assert [" . "][..0] == [] && [".. . "][..0] == [];
  }
}

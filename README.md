# Pigpen grid codec, modelled in Dafny

This project models the codec of `taper`, a command-line tool that turns text into a
"pigpen"-style dot notation and back. Everything lives in `src/main.rs`:

- **Grid** (`grid.dfy`): the constant 5x5 table `CONVERT_TABLE`. It holds the alphabet
  without `K`, row by row. There is also the lookup table built from the grid by a nested
  loop. It sends each letter to its 1-based `(row, column)` pair.
- **Remap table** (`remap.dfy`): `try_read_mapping_table` reads one `key,value` pair per
  line. It is all or nothing: a line with no comma, or with an empty key, makes the whole
  result `None`. An empty value becomes `-`. Later lines overwrite earlier ones. `main`
  turns a missing, unreadable or malformed table into the empty map.
- **Encoder** (`encoder.dfy`): `encode_to`. Each character is ASCII-uppercased, then
  remapped, and the remapped value is uppercased again. It is dropped silently if it is
  now `-`. It is reported and dropped if the lookup table does not have it. Otherwise it
  is written as `row` dots, a space, `column` dots and a space. Every input line ends with
  a newline.
- **Decoder** (`decoder.dfy`): `decode_to`. It is a two-state machine
  (`IndexingColumn` / `IndexingRow`) with counters `i` and `j`. The counters restart on
  every line; the state does not. A zero counter selects index 1. An index outside the
  grid writes nothing. Characters other than `.` and space are ignored.
- **Round trip** (`roundtrip.dfy`): decoding the encoder's lines gives back exactly the
  letters the encoder accepted. The decoder ends each line in `IndexingColumn`.

`text.dfy` holds ASCII uppercasing, dot runs and newline-joined output. `wrappers.dfy`
holds `Option`.

Two details of the decoder are easy to miss:

- `state` is set once, at `src/main.rs:130`, and only `i` and `j` are reset per line, at
  `src/main.rs:133`. A token cut off at the end of a line therefore carries its state into
  the next line (`Decoder.StateCarriesAcrossLines`).
- A zero counter selects the 0-based index 1, so it acts like a counter of 2
  (`Decoder.LetterCases`, `Decoder.ZeroCounterExample`).

The global `OnceLock` table is replaced by a value passed explicitly.
`Grid.IsLookupTable` characterises that value, and `Grid.LookupTableUnique` shows the
characterisation admits exactly one map. `Grid.BuildLookupTable` builds it.

## Model

| member | source | states |
|---|---|---|
| Grid.CellCode | src/main.rs:9-15 | The grid is 5x5. The letter in row `r`, column `c` is the letter at row-major position `5r+c` of the alphabet with `K` left out. |
| Grid.GridWellFormed | src/main.rs:9-15 | The grid has 5 rows of 5 letters each. Every cell holds an uppercase letter other than `K`. No two cells hold the same letter. |
| Grid.Position | src/main.rs:9-15 | Every uppercase letter other than `K` occurs in the grid at the returned 0-based cell, so `K` is the only letter missing. |
| Grid.CellsDistinct | src/main.rs:9-15 | Two different cells of the grid hold different letters. |
| Grid.CellIsNew | src/main.rs:41-45 | When the build loop reaches a cell, that cell's letter is not yet a key. |
| Grid.InsertCell | src/main.rs:41-45 | After one insertion of the build loop, one more cell (in row-major order) is a key with its value `(row+1, col+1)`. Every key is still a grid letter at its coordinates. |
| Grid.BuildLookupTable | src/main.rs:38-48 | The nested loop builds the lookup table: each cell's letter maps to `(row+1, col+1)` and each key is a grid letter at its coordinates. The table has exactly 25 entries. |
| Grid.LookupTableKeys | src/main.rs:38-48 | The keys of the lookup table are exactly the uppercase letters other than `K`, so `K`, digits and punctuation are not keys. Both coordinates are always in 1..5. |
| Grid.KeyIsGridLetter | src/main.rs:38-48 | A key of the lookup table is an uppercase letter other than `K`, and both of its coordinates are in 1..5. |
| Grid.LookupTableUnique | src/main.rs:38-48 | Any two maps that satisfy the lookup-table characterisation are equal. |
| Remap.SplitOnce | src/main.rs:30 | `split_once(',')` returns `None` exactly when the line has no comma. Otherwise the line is the first part, a comma and the second part, and the first part holds no comma. |
| Remap.ParseLine | src/main.rs:30-31 | A line is rejected exactly when it has no comma or when it starts with a comma (an empty key). |
| Remap.ParseLineAt | src/main.rs:30-31 | Let `k` be the position of the first comma. A line with `k = 0` fails. Otherwise the entry is `(line[0], line[k+1])`, or `(line[0], '-')` when nothing follows the comma. |
| Remap.TryReadMappingTable | src/main.rs:25-35 | The loop inserts the entries in line order. It returns `None` as soon as a line is malformed; otherwise it returns the parsed table. |
| Remap.ParseNoneIff | src/main.rs:29-32 | The parse is all or nothing: it fails if and only if some line is malformed. |
| Remap.ParsePrefix | src/main.rs:29-32 | If the whole table parses, then every prefix of it parses, and so does every single line. |
| Remap.ParseHasEveryKey | src/main.rs:29-32 | After a successful parse, every line's key is a key of the table. |
| Remap.ParseLastWins | src/main.rs:31 | When keys repeat, the last line with a key decides its value. |
| Remap.ParseEntriesFromLines | src/main.rs:29-34 | Every entry of a parsed table is the key and value of some input line. |
| Remap.ParseTable | src/main.rs:29-34 | The table parse, one line at a time: the whole parse fails if any line fails, and each line inserts its key, so a later line overwrites an earlier one. Its properties are the `Remap.Parse…` lemma rows. |
| Remap.ParseExample | src/main.rs:25-35 | The one-line table file `H,X` parses to the table mapping `H` to `X`. |
| Remap.RemapTableDegrades | src/main.rs:77-80 | No table file, an unreadable one, or one with any line lacking a comma or a key gives the empty map. When every line parses, the result is the parsed table. |
| Encoder.MissingTableIsNoTable | src/main.rs:77-80 | Encoding with the table `main` gets from an absent or unreadable file is encoding with no remap table at all. |
| Text.AsciiUpperSpec | src/main.rs:101-104 | ASCII uppercasing sends `a`..`z` to the same letter in `A`..`Z` and leaves every other character unchanged. Applying it twice changes nothing. |
| Text.Upper | src/main.rs:101 | A string is uppercased character by character, and its length is kept. |
| Text.Dots | src/main.rs:116-117 | `".".repeat(n)` is `n` characters, all of them `.`. |
| Text.JoinLinesNewlines | src/main.rs:122 | Lines without newlines, each followed by a newline, give exactly one newline per line. |
| Encoder.Resolve | src/main.rs:101-106 | A character is uppercased, looked up in the remap table, and a value found there is uppercased again. Its properties are stated by `Encoder.RemapThenEncode`. |
| Encoder.Classify | src/main.rs:101-114 | A resolved `-` is dropped silently, a character with no lookup entry is reported, and any other is written at its coordinates. Its properties are stated by `Encoder.ClassifyAgainstGrid`. |
| Encoder.EncodeStep | src/main.rs:100-120 | One more character extends the line's tokens and its diagnostics by that character's share and by nothing else. |
| Encoder.EncodeLinesStep | src/main.rs:99-123 | One more input line extends the output by that line's tokens and one newline. |
| Encoder.EncodeLineTo | src/main.rs:100-120 | The character loop writes exactly the line's tokens and reports exactly the line's unsupported characters, in order. |
| Encoder.EncodeTo | src/main.rs:90-126 | `encode_to` writes each line's tokens followed by a newline. It reports every unsupported character after remapping, in order. |
| Encoder.ClassifyAgainstGrid | src/main.rs:101-119 | A character is dropped silently exactly when it resolves to `-`. It is reported exactly when it resolves to anything else that is not a grid letter. Otherwise it is written as `row` dots, a space, `col` dots and a space, and nothing else; `(row, col)` are the resolved letter's 1-based grid coordinates. |
| Encoder.RemapThenEncode | src/main.rs:101-105 | The remap lookup uses the uppercased character. Encoding a character with a remap table is the same as encoding its uppercased substitute with no table. An empty table remaps nothing. |
| Encoder.EncodeLineAlphabet | src/main.rs:116-119 | An encoded line holds only dots and spaces, so it holds no newline. |
| Encoder.LinePreserving | src/main.rs:99-123 | N input lines give N encoded lines. The k-th is the encoding of the k-th input line, and none holds a newline, even when all of a line's characters were dropped. |
| Encoder.NewlinePerLine | src/main.rs:99-123 | The encoder's output holds exactly one newline per input line. |
| Encoder.EncodeExampleA | src/main.rs:90-126 | `"A"` encodes to `". . "` and a newline. |
| Encoder.EncodeExampleRemap | src/main.rs:101-119 | With the remap table read from the single line `H,X`, `"HI"` encodes `H` at the coordinates of `X` (row 5, column 3). `I` passes through at its own coordinates (row 2, column 4). |
| Decoder.Letter | src/main.rs:144-149 | The letter for counters `i` and `j`, or nothing when either index is outside the grid. Its properties are stated by `Decoder.LetterCases`. |
| Decoder.Step | src/main.rs:138-155 | One character of the decoder's `match`: a dot adds one to the current counter. A space while indexing the column switches to the row. A space while indexing the row writes the letter, zeroes both counters and switches back. Anything else is ignored. Its properties are stated by `Decoder.RunStep` and `Decoder.IgnoresOtherChars`. |
| Decoder.RunStep | src/main.rs:135-156 | Reading one more character applies one machine step to the configuration reached so far. |
| Decoder.DecodeFromStep | src/main.rs:132-159 | One more line is read from the carried-over state with both counters at zero, and a newline follows its output. |
| Decoder.DecodeLineTo | src/main.rs:133-158 | The character loop, entered in the carried-over state with both counters zero, writes what the machine writes on the line. It returns the state the machine ends in. |
| Decoder.DecodeTo | src/main.rs:128-162 | `decode_to` writes what the machine writes on each line, followed by one newline per line. Across lines the state carries over and the counters restart at zero. |
| Decoder.LetterCases | src/main.rs:143-149 | Counters 1..5 write `CONVERT_TABLE[i-1][j-1]`. A zero counter acts like a counter of 2. A counter of 6 or more writes nothing. At most one uppercase letter is written. |
| Decoder.RunConcat | src/main.rs:135-156 | Reading two strings in turn is the same as reading their concatenation. |
| Decoder.IgnoresOtherChars | src/main.rs:154 | Characters other than `.` and space change neither the state nor the counters, and write nothing. |
| Decoder.RunDots | src/main.rs:139-140 | A run of `n` dots adds `n` to the counter of the current state and writes nothing. |
| Decoder.RunOne | src/main.rs:138-155 | Reading a single character is one machine step. |
| Decoder.RunSnoc | src/main.rs:138-155 | Reading a string and then one more character is one step after the string. |
| Decoder.TokenDecodes | src/main.rs:139-153 | From `IndexingColumn` with zero counters, a token of `i` dots, a space, `j` dots and a space writes the token letter for `(i, j)`. It leaves both counters at zero and the state at `IndexingColumn`. |
| Decoder.RunWritesLetters | src/main.rs:147-148 | The machine writes only uppercase letters, and never a newline. |
| Decoder.NewlinePerLine | src/main.rs:132-159 | Decoding writes exactly one newline per input line, and the output ends with one; an unfinished token at the end of a line does not change this. |
| Decoder.StateCarriesAcrossLines | src/main.rs:130-133 | A row run cut off at the end of a line carries `IndexingRow` into the next line. So `[". ", ". "]` decodes to a newline, `F` and a newline. Decoding those lines separately gives only two newlines. |
| Decoder.ZeroCounterExample | src/main.rs:144-145 | `" . "`, a token with no row dots, decodes to `F`, the same as `".. . "`. |
| RoundTrip.LineRoundTrip | src/main.rs:100-156 | Decoding an encoded line from `IndexingColumn` gives exactly the letters the encoder accepted, in order, and ends back in `IndexingColumn`. This holds for any remap table. |
| RoundTrip.StreamRoundTrip | src/main.rs:90-162 | The decoder, fed the encoder's lines, writes each line's accepted letters followed by a newline, and finishes in `IndexingColumn`. |
| RoundTrip.AcceptsGridLetters | src/main.rs:101-119 | With no remap table, a line of grid letters written in either case is accepted whole and uppercased. |
| RoundTrip.GridLettersRoundTrip | src/main.rs:90-162 | A line made only of grid letters, in either case and with no remap table, is encoded and then decoded back to the same line uppercased. |
| RoundTrip.HelloExample | src/main.rs:90-162 | `"hello"` encodes to the five tokens of H (row 2, column 3), E (1, 5), L (3, 1), L and O (3, 4), written `.. ... `, `. ..... `, `... . `, `... . `, `... .... `. These decode to `HELLO`. |

## Left out

- Argument parsing, the panics on missing arguments, opening and creating files, and choosing stdout with `-` (`src/main.rs:50-76`). These are I/O plumbing. `Remap.RemapTableOf` takes the table file's contents as an optional value instead: `None` means the file is absent or unreadable.
- `OnceLock` and `.expect` (`src/main.rs:17`, `38`, `97`). The lookup table is an explicit parameter. The encoder's properties assume it satisfies `Grid.IsLookupTable`, which `Grid.BuildLookupTable` guarantees.
- The wording of the `eprintln!` diagnostics. The encoder returns the sequence of characters it would report.
- How input is split into lines. `BufRead::lines` and `str::lines` split at `\n` and strip a trailing `\r`, and `map_while(Result::ok)` stops at invalid UTF-8. The model receives the lines already split.
- Write errors (`io::Result`). Output is an append that cannot fail.
- The `usize` counters of the decoder and the lookup coordinates are unbounded `nat`s. A line with 2^64 dots, where the Rust counters would overflow, is not modelled.
- Non-ASCII case mapping. The source only uses ASCII uppercasing, and so does the model.
- Encoder.EncodeTo: the character loop of `encode_to` is the separate method `Encoder.EncodeLineTo`, called once per line. The behaviour is the same; only the loop nesting differs.
- Decoder.DecodeTo: the same holds for the character loop of `decode_to`, which is `Decoder.DecodeLineTo`. The state goes in and comes back out, so it still carries over from line to line. `i` and `j` are local to each line.

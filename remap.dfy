/**
 * The optional remap table (`try_read_mapping_table`): one `key,value` pair per
 * line, all or nothing. The file contents arrive already split into lines.
 */
module Remap {
  import opened Wrappers

  /** The value used when a line has nothing after its comma; the encoder drops it. */
  const SkipSentinel: char := '-'

  /** `str::split_once(',')`: the text before and after the first comma. */
  function SplitOnce(line: string): (r: Option<(string, string)>)
    ensures r.None? <==> ',' !in line
    ensures r.Some? ==> line == r.value.0 + "," + r.value.1 && ',' !in r.value.0
  {
    if |line| == 0 then None
    else if line[0] == ',' then Some(("", line[1..]))
    else
      match SplitOnce(line[1..])
      case None => None
      case Some(parts) => Some(([line[0]] + parts.0, parts.1))
  }

  /** One line of the table: the key is the first character before the first comma
      (none there is an error), the value the first character after it, or '-'. */
  function ParseLine(line: string): (r: Option<(char, char)>)
    ensures r.None? <==> ',' !in line || line[0] == ','
  {
    match SplitOnce(line)
    case None => None
    case Some(parts) =>
      if |parts.0| == 0 then None
      else Some((parts.0[0], if |parts.1| > 0 then parts.1[0] else SkipSentinel))
  }

  /** Stated through the position `k` of the first comma: an empty key fails,
      otherwise the entry is the first character and the one after the comma. */
  lemma ParseLineAt(line: string, k: nat)
    requires k < |line| && line[k] == ',' && ',' !in line[..k]
    ensures ParseLine(line) == if k == 0 then None
      else Some((line[0], if k + 1 < |line| then line[k + 1] else SkipSentinel))
  {
    var parts := SplitOnce(line).value;
    var p := |parts.0|;
    assert line[p] == ',';
    assert parts.1 == line[k + 1..];
  }

  /** What the loop of `try_read_mapping_table` computes: entries inserted in line
      order, the first bad line turning the whole result into `None`. */
  function ParseTable(lines: seq<string>): Option<map<char, char>>
  {
    if |lines| == 0 then Some(map[])
    else
      match ParseTable(lines[..|lines| - 1])
      case None => None
      case Some(m) =>
        match ParseLine(lines[|lines| - 1])
        case None => None
        case Some(entry) => Some(m[entry.0 := entry.1])
  }

  /** `try_read_mapping_table` after the file has been read. */
  method TryReadMappingTable(lines: seq<string>) returns (result: Option<map<char, char>>)
    ensures result == ParseTable(lines)
  {
    var table: map<char, char> := map[];
    for n := 0 to |lines|
      invariant ParseTable(lines[..n]) == Some(table)
    {
      assert lines[..n + 1][..n] == lines[..n];
      var split := SplitOnce(lines[n]);
      if split.None? {
        ParseNoneIff(lines);
        assert ParseLine(lines[n]).None?;
        return None;
      }
      var (key, value) := split.value;
      if |key| == 0 {
        ParseNoneIff(lines);
        assert ParseLine(lines[n]).None?;
        return None;
      }
      table := table[key[0] := if |value| > 0 then value[0] else SkipSentinel];
    }
    assert lines[..|lines|] == lines;
    result := Some(table);
  }

  /** All or nothing: the parse fails exactly when some line is malformed. */
  lemma {:induction false} ParseNoneIff(lines: seq<string>)
    ensures ParseTable(lines).None? <==>
      exists k :: 0 <= k < |lines| && ParseLine(lines[k]).None?
  {
    if |lines| > 0 {
      var init := lines[..|lines| - 1];
      ParseNoneIff(init);
      assert forall k :: 0 <= k < |init| ==> init[k] == lines[k];
      if ParseTable(lines).None? && ParseTable(init).Some? {
        assert ParseLine(lines[|lines| - 1]).None?;
      }
    }
  }

  /** The key and the value of a line that parses. */
  function Key(line: string): char
    requires ParseLine(line).Some?
  {
    ParseLine(line).value.0
  }

  function Value(line: string): char
    requires ParseLine(line).Some?
  {
    ParseLine(line).value.1
  }

  /** The table read from the first `n` lines, which parse because the whole table does. */
  lemma {:induction false} ParsePrefix(lines: seq<string>, n: nat)
    requires n <= |lines| && ParseTable(lines).Some?
    ensures ParseTable(lines[..n]).Some?
    ensures forall k :: 0 <= k < |lines| ==> ParseLine(lines[k]).Some?
  {
    ParseNoneIff(lines);
    ParseNoneIff(lines[..n]);
    assert forall k :: 0 <= k < n ==> lines[..n][k] == lines[k];
  }

  /** A successful parse has every line's key as a key. */
  lemma {:induction false} ParseHasEveryKey(lines: seq<string>)
    requires ParseTable(lines).Some?
    ensures forall k :: 0 <= k < |lines| ==> ParseLine(lines[k]).Some? && Key(lines[k]) in ParseTable(lines).value
  {
    ParsePrefix(lines, 0);
    if |lines| > 0 {
      var n := |lines| - 1;
      ParsePrefix(lines, n);
      var init := lines[..n];
      assert forall k :: 0 <= k < n ==> init[k] == lines[k];
      ParseHasEveryKey(init);
    }
  }

  /** Later lines overwrite earlier ones: a key is mapped to the value of the
      last line that has it. */
  lemma {:induction false} ParseLastWins(lines: seq<string>, k: nat)
    requires ParseTable(lines).Some? && k < |lines|
    requires ParseLine(lines[k]).Some?
    requires forall k' :: k < k' < |lines| ==> ParseLine(lines[k']).Some? && Key(lines[k']) != Key(lines[k])
    ensures Key(lines[k]) in ParseTable(lines).value
    ensures ParseTable(lines).value[Key(lines[k])] == Value(lines[k])
  {
    var n := |lines| - 1;
    ParsePrefix(lines, n);
    var init := lines[..n];
    if k < n {
      assert forall k' :: 0 <= k' < n ==> init[k'] == lines[k'];
      ParseLastWins(init, k);
    }
  }

  /** Every entry of a successful parse comes from some line. */
  lemma {:induction false} ParseEntriesFromLines(lines: seq<string>, ch: char)
    requires ParseTable(lines).Some? && ch in ParseTable(lines).value
    ensures exists k :: 0 <= k < |lines| && ParseLine(lines[k]) == Some((ch, ParseTable(lines).value[ch]))
  {
    var n := |lines| - 1;
    ParsePrefix(lines, n);
    var init := lines[..n];
    if ch == Key(lines[n]) {
      assert ParseLine(lines[n]) == Some((ch, ParseTable(lines).value[ch]));
    } else {
      ParseEntriesFromLines(init, ch);
      var k :| 0 <= k < |init| && ParseLine(init[k]) == Some((ch, ParseTable(init).value[ch]));
      assert init[k] == lines[k];
    }
  }

  /** `main`'s `.and_then(try_read_mapping_table).unwrap_or_default()`: no table file,
      an unreadable one (`None` contents) or a malformed one all give the empty map. */
  function RemapTableOf(contents: Option<seq<string>>): map<char, char>
  {
    match contents
    case None => map[]
    case Some(lines) =>
      match ParseTable(lines)
      case None => map[]
      case Some(m) => m
  }

  /** The one-line table file `H,X` maps 'H' to 'X'. */
  lemma ParseExample()
    ensures ParseTable(["H,X"]) == Some(map['H' := 'X'])
  {
    ParseLineAt("H,X", 1);
    assert ["H,X"][..0] == [];
  }

  /** The table `main` ends up with, stated through the lines: missing contents or any
      malformed line give the empty map; when every line parses, the parsed table. */
  lemma RemapTableDegrades(contents: Option<seq<string>>)
    ensures (contents.None? ||
             exists k :: 0 <= k < |contents.value| && ParseLine(contents.value[k]).None?) ==>
            RemapTableOf(contents) == map[]
    ensures contents.Some? && (forall k :: 0 <= k < |contents.value| ==> ParseLine(contents.value[k]).Some?) ==>
      ParseTable(contents.value).Some? && RemapTableOf(contents) == ParseTable(contents.value).value
  {
    if contents.Some? {
      ParseNoneIff(contents.value);
    }
  }
}

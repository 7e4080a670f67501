/**
 * The fixed 5x5 substitution grid (`CONVERT_TABLE`) and the lookup table built
 * from it, which sends every grid letter to its 1-based (row, column) pair.
 */
module Grid {

  /** `CONVERT_TABLE`: the alphabet without 'K', row by row. */
  const ConvertTable: seq<seq<char>> := ["ABCDE", "FGHIJ", "LMNOP", "QRSTU", "VWXYZ"]

  const Size: nat := 5

  /** The letters are the alphabet in order with 'K' left out, so the cell
      at (r, c) holds the letter whose code is fixed by its row-major index. */
  lemma CellCode(r: nat, c: nat)
    requires r < Size && c < Size
    ensures |ConvertTable| == Size && |ConvertTable[r]| == Size
    ensures ConvertTable[r][c] as int == 'A' as int + Size * r + c + (if r >= 2 then 1 else 0)
  {
    if r == 0 {
      assert ConvertTable[r] == "ABCDE";
    } else if r == 1 {
      assert ConvertTable[r] == "FGHIJ";
    } else if r == 2 {
      assert ConvertTable[r] == "LMNOP";
    } else if r == 3 {
      assert ConvertTable[r] == "QRSTU";
    } else {
      assert ConvertTable[r] == "VWXYZ";
    }
  }

  /** The grid is 5x5, holds 25 distinct uppercase letters, and 'K' is not among them. */
  lemma GridWellFormed()
    ensures |ConvertTable| == Size
    ensures forall r :: 0 <= r < Size ==> |ConvertTable[r]| == Size
    ensures forall r, c :: 0 <= r < Size && 0 <= c < Size ==>
      'A' <= ConvertTable[r][c] <= 'Z' && ConvertTable[r][c] != 'K'
    ensures forall r1, c1, r2, c2 ::
      (0 <= r1 < Size && 0 <= c1 < Size && 0 <= r2 < Size && 0 <= c2 < Size &&
       ConvertTable[r1][c1] == ConvertTable[r2][c2]) ==> r1 == r2 && c1 == c2
  {
    CellCode(0, 0);
    forall r | 0 <= r < Size ensures |ConvertTable[r]| == Size {
      CellCode(r, 0);
    }
    forall r, c | 0 <= r < Size && 0 <= c < Size
      ensures 'A' <= ConvertTable[r][c] <= 'Z' && ConvertTable[r][c] != 'K'
    {
      CellCode(r, c);
    }
    forall r1, c1, r2, c2 |
      0 <= r1 < Size && 0 <= c1 < Size && 0 <= r2 < Size && 0 <= c2 < Size &&
      ConvertTable[r1][c1] == ConvertTable[r2][c2]
      ensures r1 == r2 && c1 == c2
    {
      CellCode(r1, c1);
      CellCode(r2, c2);
    }
  }

  /** Where an uppercase letter other than 'K' sits in the grid (0-based), so
      every such letter does occur: 'K' is the only one missing. */
  function Position(ch: char): (p: (nat, nat))
    requires 'A' <= ch <= 'Z' && ch != 'K'
    ensures p.0 < Size && p.1 < Size && ConvertTable[p.0][p.1] == ch
  {
    var n := ch as int - 'A' as int - (if ch > 'K' then 1 else 0);
    var p := (n / Size, n % Size);
    CellCode(p.0, p.1);
    p
  }

  /** `ch` is the letter at the 1-based position `p`. */
  predicate InGrid(ch: char, p: (nat, nat))
  {
    1 <= p.0 <= Size && 1 <= p.1 <= Size &&
    |ConvertTable| == Size && |ConvertTable[p.0 - 1]| == Size &&
    ConvertTable[p.0 - 1][p.1 - 1] == ch
  }

  /** `t` is the lookup table: every cell's letter is a key and maps to the cell's
      1-based coordinates, and every key is a grid letter at its coordinates. */
  predicate IsLookupTable(t: map<char, (nat, nat)>)
  {
    |ConvertTable| == Size &&
    (forall r :: 0 <= r < Size ==> |ConvertTable[r]| == Size) &&
    (forall r, c :: 0 <= r < Size && 0 <= c < Size ==>
      ConvertTable[r][c] in t && t[ConvertTable[r][c]] == (r + 1, c + 1)) &&
    (forall ch :: ch in t ==> InGrid(ch, t[ch]))
  }

  /** Every cell before row-major index `n` has its letter in `t`, with its coordinates. */
  predicate Covers(t: map<char, (nat, nat)>, n: nat)
  {
    forall r, c :: 0 <= r < Size && 0 <= c < Size && Size * r + c < n ==>
      ConvertTable[r][c] in t && t[ConvertTable[r][c]] == (r + 1, c + 1)
  }

  /** Every key of `t` is a grid letter at its coordinates, found before row-major index `n`. */
  predicate OnlyBefore(t: map<char, (nat, nat)>, n: nat)
  {
    forall ch :: ch in t ==> InGrid(ch, t[ch]) && Size * (t[ch].0 - 1) + t[ch].1 - 1 < n
  }

  /** The letters of two different cells differ. */
  lemma CellsDistinct(r1: nat, c1: nat, r2: nat, c2: nat)
    requires r1 < Size && c1 < Size && r2 < Size && c2 < Size
    requires (r1, c1) != (r2, c2)
    ensures |ConvertTable| == Size && |ConvertTable[r1]| == Size && |ConvertTable[r2]| == Size
    ensures ConvertTable[r1][c1] != ConvertTable[r2][c2]
  {
    CellCode(r1, c1);
    CellCode(r2, c2);
  }

  /** Before the build loop inserts cell (i, j), that cell's letter is not yet a key. */
  lemma CellIsNew(t: map<char, (nat, nat)>, i: nat, j: nat)
    requires i < Size && j < Size
    requires OnlyBefore(t, Size * i + j)
    ensures |ConvertTable| == Size && |ConvertTable[i]| == Size
    ensures ConvertTable[i][j] !in t
  {
    CellCode(i, j);
    forall ch | ch in t ensures ch != ConvertTable[i][j] {
      assert InGrid(ch, t[ch]);
      CellsDistinct(t[ch].0 - 1, t[ch].1 - 1, i, j);
    }
  }

  /** One insertion of the build loop: afterwards one more cell is covered, and
      every key is still a grid letter found before the next cell. */
  lemma InsertCell(t: map<char, (nat, nat)>, i: nat, j: nat)
    requires i < Size && j < Size
    requires Covers(t, Size * i + j) && OnlyBefore(t, Size * i + j)
    requires |ConvertTable| == Size && |ConvertTable[i]| == Size
    ensures Covers(t[ConvertTable[i][j] := (i + 1, 1 + j)], Size * i + j + 1)
    ensures OnlyBefore(t[ConvertTable[i][j] := (i + 1, 1 + j)], Size * i + j + 1)
  {
    var t' := t[ConvertTable[i][j] := (i + 1, 1 + j)];
    forall r, c | 0 <= r < Size && 0 <= c < Size && Size * r + c < Size * i + j + 1
      ensures ConvertTable[r][c] in t' && t'[ConvertTable[r][c]] == (r + 1, c + 1)
    {
      if (r, c) != (i, j) {
        CellsDistinct(r, c, i, j);
      }
    }
  }

  /** The closure given to `LOOKUP_TABLE.get_or_init`: a nested loop over the
      grid inserting each letter with its (row + 1, column + 1). */
  method BuildLookupTable() returns (table: map<char, (nat, nat)>)
    ensures IsLookupTable(table)
    ensures |table| == Size * Size
  {
    table := map[];
    for i := 0 to Size
      invariant |table| == Size * i
      invariant Covers(table, Size * i) && OnlyBefore(table, Size * i)
    {
      for j := 0 to Size
        invariant |table| == Size * i + j
        invariant Covers(table, Size * i + j) && OnlyBefore(table, Size * i + j)
      {
        CellIsNew(table, i, j);
        InsertCell(table, i, j);
        table := table[ConvertTable[i][j] := (i + 1, 1 + j)];
      }
    }
    GridWellFormed();
  }

  /** The keys of the lookup table are exactly the uppercase letters other than 'K'
      (so digits, punctuation and 'K' are not), and every coordinate is in 1..5. */
  lemma LookupTableKeys(t: map<char, (nat, nat)>)
    requires IsLookupTable(t)
    ensures forall ch :: ch in t <==> 'A' <= ch <= 'Z' && ch != 'K'
    ensures forall ch :: ch in t ==> 1 <= t[ch].0 <= Size && 1 <= t[ch].1 <= Size
  {
    forall ch | ch in t ensures 'A' <= ch <= 'Z' && ch != 'K' && 1 <= t[ch].0 <= Size && 1 <= t[ch].1 <= Size {
      KeyIsGridLetter(t, ch);
    }
    forall ch | 'A' <= ch <= 'Z' && ch != 'K' ensures ch in t {
      var p := Position(ch);
      assert ConvertTable[p.0][p.1] in t;
    }
  }

  lemma KeyIsGridLetter(t: map<char, (nat, nat)>, ch: char)
    requires IsLookupTable(t) && ch in t
    ensures 'A' <= ch <= 'Z' && ch != 'K' && 1 <= t[ch].0 <= Size && 1 <= t[ch].1 <= Size
  {
    assert InGrid(ch, t[ch]);
    CellCode(t[ch].0 - 1, t[ch].1 - 1);
  }

  /** `IsLookupTable` pins the table down: any two lookup tables are equal. */
  lemma LookupTableUnique(t1: map<char, (nat, nat)>, t2: map<char, (nat, nat)>)
    requires IsLookupTable(t1) && IsLookupTable(t2)
    ensures t1 == t2
  {
    forall ch | ch in t1 ensures ch in t2 && t2[ch] == t1[ch] {
      assert InGrid(ch, t1[ch]);
      var r, c := t1[ch].0 - 1, t1[ch].1 - 1;
      assert ConvertTable[r][c] == ch;
    }
    forall ch | ch in t2 ensures ch in t1 {
      assert InGrid(ch, t2[ch]);
      var r, c := t2[ch].0 - 1, t2[ch].1 - 1;
      assert ConvertTable[r][c] == ch;
    }
    assert t1.Keys == t2.Keys;
  }
}

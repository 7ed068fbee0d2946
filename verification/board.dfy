/** The fixed 3x3 board shared by both revisions: squares are numbered 1 to 9
    row by row, and a player wins by claiming every square of one of eight
    lines. */
module Board {

  /** The winning patterns, in the order both revisions list them. */
  const WinningPatterns: seq<seq<int>> :=
    [ [1, 2, 3],
      [1, 5, 9],
      [1, 4, 7],
      [2, 5, 8],
      [3, 5, 7],
      [3, 6, 9],
      [4, 5, 6],
      [7, 8, 9] ]

  /** `pattern.every(v => squares.includes(v))`: every square of the pattern
      is among the claimed squares. */
  predicate Covers(squares: seq<int>, pattern: seq<int>) {
    forall v :: v in pattern ==> v in squares
  }

  /** Row `r` (counted from 0) of the row-major grid. */
  function Row(r: int): set<int> {
    {3 * r + 1, 3 * r + 2, 3 * r + 3}
  }

  /** Column `c` (counted from 0) of the row-major grid. */
  function Column(c: int): set<int> {
    {c + 1, c + 4, c + 7}
  }

  /** The geometric meaning of a winning line: a row, a column or one of the
      two diagonals of the grid. */
  ghost predicate IsLine(squares: set<int>) {
    || (exists r :: 0 <= r < 3 && squares == Row(r))
    || (exists c :: 0 <= c < 3 && squares == Column(c))
    || squares == {1, 5, 9}
    || squares == {3, 5, 7}
  }

  function AsSet(pattern: seq<int>): set<int> {
    set v | v in pattern
  }

  /** Each entry of the pattern table is three squares forming a line of the
      grid. */
  lemma PatternsAreLines()
    ensures |WinningPatterns| == 8
    ensures forall k :: 0 <= k < |WinningPatterns| ==>
      |WinningPatterns[k]| == 3 && IsLine(AsSet(WinningPatterns[k]))
  {
    assert AsSet(WinningPatterns[0]) == Row(0);
    assert AsSet(WinningPatterns[1]) == {1, 5, 9};
    assert AsSet(WinningPatterns[2]) == Column(0);
    assert AsSet(WinningPatterns[3]) == Column(1);
    assert AsSet(WinningPatterns[4]) == {3, 5, 7};
    assert AsSet(WinningPatterns[5]) == Column(2);
    assert AsSet(WinningPatterns[6]) == Row(1);
    assert AsSet(WinningPatterns[7]) == Row(2);
  }

  /** No line is listed twice. */
  lemma PatternsDistinct()
    ensures forall j, k :: 0 <= j < k < |WinningPatterns| ==>
      AsSet(WinningPatterns[j]) != AsSet(WinningPatterns[k])
  {
    forall j, k | 0 <= j < k < |WinningPatterns|
      ensures AsSet(WinningPatterns[j]) != AsSet(WinningPatterns[k])
    {
      var p, q := WinningPatterns[j], WinningPatterns[k];
      assert p != q;
      if p[0] != q[0] {
        assert p[0] in AsSet(p) && p[0] !in AsSet(q);
      } else {
        assert p[1] in AsSet(p) && p[1] !in AsSet(q);
      }
    }
  }

  /** Every row, column and diagonal of the grid is listed. */
  lemma EveryLineListed(line: set<int>)
    requires IsLine(line)
    ensures exists k :: 0 <= k < |WinningPatterns| && AsSet(WinningPatterns[k]) == line
  {
    if r :| 0 <= r < 3 && line == Row(r) {
      if r == 0 { assert AsSet(WinningPatterns[0]) == line; }
      else if r == 1 { assert AsSet(WinningPatterns[6]) == line; }
      else { assert AsSet(WinningPatterns[7]) == line; }
    } else if c :| 0 <= c < 3 && line == Column(c) {
      if c == 0 { assert AsSet(WinningPatterns[2]) == line; }
      else if c == 1 { assert AsSet(WinningPatterns[3]) == line; }
      else { assert AsSet(WinningPatterns[5]) == line; }
    } else if line == {1, 5, 9} {
      assert AsSet(WinningPatterns[1]) == line;
    } else {
      assert AsSet(WinningPatterns[4]) == line;
    }
  }

  /** Every square a pattern names lies on the board. */
  lemma PatternsOnBoard()
    ensures forall k, v :: 0 <= k < |WinningPatterns| && v in WinningPatterns[k] ==> 1 <= v <= 9
  {
  }
}

/**
 * The board of the tic-tac-toe game and the winner scan over its eight lines
 * (`calculateWinner` in src/index.js).
 */
module Board {

  datatype Player = X | O

  /** A square: empty (`null` in the game) or holding a player's mark. */
  datatype Cell = Empty | Mark(player: Player)

  /** Board positions, row-major: row i / 3, column i % 3. */
  type Index = i: nat | i < 9

  /** A board snapshot always has exactly nine squares. */
  type Squares = s: seq<Cell> | |s| == 9
    witness [Empty, Empty, Empty, Empty, Empty, Empty, Empty, Empty, Empty]

  const EmptyBoard: Squares := [Empty, Empty, Empty, Empty, Empty, Empty, Empty, Empty, Empty]

  /** The text a mark is shown as. */
  function Name(p: Player): string
  {
    match p
    case X => "X"
    case O => "O"
  }

  /** Three board positions that win when they hold the same mark. */
  datatype Line = Line(a: Index, b: Index, c: Index)

  /** The lines in the order they are scanned: rows, columns, diagonals. */
  const Lines: seq<Line> := [
    Line(0, 1, 2), Line(3, 4, 5), Line(6, 7, 8),
    Line(0, 3, 6), Line(1, 4, 7), Line(2, 5, 8),
    Line(0, 4, 8), Line(2, 4, 6)
  ]

  /** All three squares of `l` are equal and not empty. */
  predicate LineWon(s: Squares, l: Line)
  {
    s[l.a] != Empty && s[l.a] == s[l.b] && s[l.a] == s[l.c]
  }

  /** The scan's outcome: `{winner: null, winnerRow: null}` or the winner and its line. */
  datatype WinResult = NoWinner | Won(winner: Player, winnerRow: Line)

  /** The scan of `Lines[k..]`: the first line that is won, if any. */
  function FirstWin(s: Squares, k: nat): WinResult
    requires k <= |Lines|
    decreases |Lines| - k
  {
    if k == |Lines| then NoWinner
    else if LineWon(s, Lines[k]) then Won(s[Lines[k].a].player, Lines[k])
    else FirstWin(s, k + 1)
  }

  /** The outcome of the whole scan. */
  function Winner(s: Squares): WinResult
  {
    FirstWin(s, 0)
  }

  /** Line `j` is won on `s` and no line in `Lines[k..j]` is. */
  predicate FirstWinningLineFrom(s: Squares, k: nat, j: int)
  {
    k <= j < |Lines| && LineWon(s, Lines[j]) &&
    forall j' :: k <= j' < j ==> !LineWon(s, Lines[j'])
  }

  lemma {:induction false} FirstWinFrom(s: Squares, k: nat)
    requires k <= |Lines|
    ensures FirstWin(s, k).NoWinner? <==> forall j :: k <= j < |Lines| ==> !LineWon(s, Lines[j])
    ensures forall j :: FirstWinningLineFrom(s, k, j) ==>
      FirstWin(s, k) == Won(s[Lines[j].a].player, Lines[j])
    ensures FirstWin(s, k).Won? ==>
      exists j :: FirstWinningLineFrom(s, k, j) && FirstWin(s, k) == Won(s[Lines[j].a].player, Lines[j])
    decreases |Lines| - k
  {
    if k < |Lines| {
      FirstWinFrom(s, k + 1);
      if LineWon(s, Lines[k]) {
        assert FirstWinningLineFrom(s, k, k);
        forall j | FirstWinningLineFrom(s, k, j)
          ensures j == k
        {
          if j != k {
            assert false;
          }
        }
      } else {
        forall j | FirstWinningLineFrom(s, k, j)
          ensures FirstWinningLineFrom(s, k + 1, j)
        {
          assert j != k;
        }
        if FirstWin(s, k).Won? {
          var j :| FirstWinningLineFrom(s, k + 1, j) &&
            FirstWin(s, k + 1) == Won(s[Lines[j].a].player, Lines[j]);
          assert FirstWinningLineFrom(s, k, j);
        }
      }
    }
  }

  /**
   * The scan reports `p` and `l` exactly when `l` is the first won line in
   * list order and holds `p`'s mark.
   */
  lemma WinnerIsFirstWinningLine(s: Squares, p: Player, l: Line)
    ensures Winner(s) == Won(p, l) <==>
      exists j :: FirstWinningLineFrom(s, 0, j) && Lines[j] == l && s[l.a] == Mark(p)
  {
    FirstWinFrom(s, 0);
  }

  /** The scan reports no winner exactly when no line is won. */
  lemma NoWinnerIff(s: Squares)
    ensures Winner(s).NoWinner? <==> forall j :: 0 <= j < |Lines| ==> !LineWon(s, Lines[j])
  {
    FirstWinFrom(s, 0);
  }

  /** A reported winner's line is one of the eight lines, won by the winner's mark. */
  lemma WinnerOwnsRow(s: Squares)
    requires Winner(s).Won?
    ensures Winner(s).winnerRow in Lines
    ensures LineWon(s, Winner(s).winnerRow)
    ensures forall p :: p in [Winner(s).winnerRow.a, Winner(s).winnerRow.b, Winner(s).winnerRow.c] ==>
      s[p] == Mark(Winner(s).winner)
  {
    FirstWinFrom(s, 0);
  }

  /**
   * `calculateWinner`: scans the lines in order and returns at the first
   * one whose three squares hold the same mark. The board is a value, so
   * it cannot be changed by the scan.
   */
  method CalculateWinner(squares: Squares) returns (r: WinResult)
    ensures r == Winner(squares)
  {
    for i := 0 to |Lines|
      invariant FirstWin(squares, i) == Winner(squares)
    {
      var line := Lines[i];
      if squares[line.a] != Empty && squares[line.a] == squares[line.b] && squares[line.a] == squares[line.c] {
        return Won(squares[line.a].player, line);
      }
    }
    return NoWinner;
  }
}

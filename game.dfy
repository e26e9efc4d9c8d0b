/**
 * The `Game` component of the tic-tac-toe game: the move history with its
 * step pointer and turn flag, the click and jump handlers, and the views
 * derived from that state (status line, move-list labels, position labels).
 */
module TicTacToe {
  import opened Board

  datatype Option<T> = None | Some(value: T)

  /**
   * One history entry. The initial entry has neither a position label nor a
   * step number; every later entry has both.
   */
  datatype Entry = Entry(squares: Squares, position: Option<string>, stepNumber: Option<nat>)

  const InitialEntry: Entry := Entry(EmptyBoard, None, None)

  /** A decimal digit as a one-character string. */
  function DigitText(d: nat): string
    requires d < 10
  {
    [(('0' as int) + d) as char]
  }

  /**
   * `getPosition`: the fixed table from a board position to its label;
   * positions outside the board have no label (`undefined`).
   */
  function GetPosition(move: nat): (r: Option<string>)
    ensures r.Some? <==> move < 9
    ensures move < 9 ==> r.value == "row " + DigitText(move / 3 + 1) + ", col " + DigitText(move % 3 + 1)
  {
    match move
    case 0 => Some("row 1, col 1")
    case 1 => Some("row 1, col 2")
    case 2 => Some("row 1, col 3")
    case 3 => Some("row 2, col 1")
    case 4 => Some("row 2, col 2")
    case 5 => Some("row 2, col 3")
    case 6 => Some("row 3, col 1")
    case 7 => Some("row 3, col 2")
    case 8 => Some("row 3, col 3")
    case _ => None
  }

  /** Different board positions have different labels. */
  lemma GetPositionInjective(i: nat, j: nat)
    requires GetPosition(i).Some? && GetPosition(i) == GetPosition(j)
    ensures i == j
  {
  }

  /** The mark the turn flag selects: `xIsNext ? 'X' : 'O'`. */
  function Mover(xIsNext: bool): Player
  {
    if xIsNext then X else O
  }

  /**
   * `next` is the entry that an accepted click produces from entry `prev`
   * at step `k`: `prev` has no winner, and some empty square receives the mark
   * of step `k`'s player, labelled with its position and numbered `k + 1`.
   */
  ghost predicate IsMove(prev: Entry, next: Entry, k: nat)
  {
    Winner(prev.squares).NoWinner? &&
    exists i: Index :: prev.squares[i] == Empty &&
      next == Entry(prev.squares[i := Mark(Mover(k % 2 == 0))], GetPosition(i), Some(k + 1))
  }

  /** A history the game can build: the initial entry followed by moves. */
  ghost predicate HistoryValid(h: seq<Entry>)
  {
    |h| >= 1 && h[0] == InitialEntry &&
    forall k :: 0 <= k < |h| - 1 ==> IsMove(h[k], h[k + 1], k)
  }

  /**
   * The state invariant: the history is valid, the step pointer is inside
   * it, and X is next exactly on even steps.
   */
  ghost predicate ValidState(h: seq<Entry>, currentStepNumber: nat, xIsNext: bool)
  {
    HistoryValid(h) && currentStepNumber < |h| && xIsNext == (currentStepNumber % 2 == 0)
  }

  /**
   * A click on an empty square of a board without a winner, at step `k`, is
   * a move by step `k`'s player.
   */
  lemma AcceptedClickIsMove(prev: Entry, i: Index, k: nat)
    requires Winner(prev.squares).NoWinner? && prev.squares[i] == Empty
    ensures IsMove(prev, Entry(prev.squares[i := Mark(Mover(k % 2 == 0))], GetPosition(i), Some(k + 1)), k)
  {
  }

  /**
   * Truncating a valid history after step `k` and appending a move made at
   * step `k` gives a valid history again.
   */
  lemma TruncateAppend(h: seq<Entry>, k: nat, e: Entry)
    requires HistoryValid(h) && k < |h| && IsMove(h[k], e, k)
    ensures HistoryValid(h[..k + 1] + [e])
    ensures |h[..k + 1] + [e]| == k + 2
  {
    var h' := h[..k + 1] + [e];
    forall j | 0 <= j < |h'| - 1
      ensures IsMove(h'[j], h'[j + 1], j)
    {
      if j < k {
        assert IsMove(h[j], h[j + 1], j);
      }
    }
  }

  /**
   * An accepted click, applied to a valid state, gives a valid state whose
   * history is the kept prefix plus the new entry.
   */
  lemma ClickKeepsValid(h: seq<Entry>, k: nat, xIsNext: bool, i: Index)
    requires ValidState(h, k, xIsNext)
    requires Winner(h[k].squares).NoWinner? && h[k].squares[i] == Empty
    ensures ValidState(h[..k + 1] + [Entry(h[k].squares[i := Mark(Mover(xIsNext))], GetPosition(i), Some(k + 1))],
                       k + 1, !xIsNext)
  {
    AcceptedClickIsMove(h[k], i, k);
    TruncateAppend(h, k, Entry(h[k].squares[i := Mark(Mover(xIsNext))], GetPosition(i), Some(k + 1)));
  }

  /**
   * Entry `k` of a valid history holds exactly `k` marks, X's and O's
   * alternating from X; hence no history is longer than ten entries.
   */
  lemma {:induction false} MarkCounts(h: seq<Entry>, k: nat)
    requires HistoryValid(h) && k < |h|
    ensures multiset(h[k].squares)[Empty] == 9 - k
    ensures multiset(h[k].squares)[Mark(X)] == (k + 1) / 2
    ensures multiset(h[k].squares)[Mark(O)] == k / 2
  {
    if k == 0 {
      EmptyBoardCounts();
    } else {
      MarkCounts(h, k - 1);
      var i := MoveAt(h, k);
      var s, m := h[k - 1].squares, (k - 1) / 2;
      if (k - 1) % 2 == 0 {
        MarkEmptySquare(s, i, X, O);
        assert k == 2 * m + 1 && (k + 1) / 2 == m + 1 && k / 2 == m;
      } else {
        MarkEmptySquare(s, i, O, X);
        assert k == 2 * m + 2 && (k + 1) / 2 == m + 1 && k / 2 == m + 1;
      }
    }
  }

  /** The empty board holds nine empty squares and no marks. */
  lemma EmptyBoardCounts()
    ensures multiset(EmptyBoard)[Empty] == 9
    ensures multiset(EmptyBoard)[Mark(X)] == 0 && multiset(EmptyBoard)[Mark(O)] == 0
  {
  }

  /** The square that the move into entry `k` of a valid history filled. */
  lemma MoveAt(h: seq<Entry>, k: nat) returns (i: Index)
    requires HistoryValid(h) && 0 < k < |h|
    ensures h[k - 1].squares[i] == Empty
    ensures h[k].squares == h[k - 1].squares[i := Mark(Mover((k - 1) % 2 == 0))]
    ensures h[k].position == GetPosition(i)
  {
    assert IsMove(h[k - 1], h[k], k - 1);
    var s := h[k - 1].squares;
    i :| s[i] == Empty &&
      h[k] == Entry(s[i := Mark(Mover((k - 1) % 2 == 0))], GetPosition(i), Some(k));
  }

  /** Marking an empty square for `p` moves one count from `Empty` to `p`'s mark. */
  lemma MarkEmptySquare(s: Squares, i: Index, p: Player, q: Player)
    requires s[i] == Empty && p != q
    ensures multiset(s[i := Mark(p)])[Empty] == multiset(s)[Empty] - 1
    ensures multiset(s[i := Mark(p)])[Mark(p)] == multiset(s)[Mark(p)] + 1
    ensures multiset(s[i := Mark(p)])[Mark(q)] == multiset(s)[Mark(q)]
  {
    assert multiset(s[i := Mark(p)]) == multiset(s) - multiset{Empty} + multiset{Mark(p)};
  }

  /** A valid history has at most ten entries: the start and nine moves. */
  lemma HistoryLengthBound(h: seq<Entry>)
    requires HistoryValid(h)
    ensures |h| <= 10
  {
    MarkCounts(h, |h| - 1);
  }

  /** Once a square holds a mark, every later entry holds the same mark there. */
  lemma {:induction false} MarksPersist(h: seq<Entry>, j: nat, k: nat, c: Index)
    requires HistoryValid(h) && j <= k < |h| && h[j].squares[c] != Empty
    ensures h[k].squares[c] == h[j].squares[c]
    decreases k - j
  {
    if j < k {
      MarksPersist(h, j, k - 1, c);
      assert IsMove(h[k - 1], h[k], k - 1);
    }
  }

  /** Every entry that is followed by another has no winner: nobody moves after a win. */
  lemma NoMoveAfterWin(h: seq<Entry>, k: nat)
    requires HistoryValid(h) && k < |h| - 1
    ensures Winner(h[k].squares).NoWinner?
  {
    assert IsMove(h[k], h[k + 1], k);
  }

  const DrawStatus: string := "No winner, it's a draw"

  /**
   * The status line of the board shown at step `currentStepNumber`: the
   * winner, else a draw at step 9, else whose turn it is.
   */
  function StatusText(squares: Squares, currentStepNumber: nat, xIsNext: bool): (r: string)
    ensures |r| >= 8 && (r[..8] == "Winner: " <==> Winner(squares).Won?)
    ensures Winner(squares).Won? ==> r[8..] == Name(Winner(squares).winner)
    ensures r == DrawStatus <==> Winner(squares).NoWinner? && currentStepNumber == 9
    ensures Winner(squares).NoWinner? && currentStepNumber != 9 ==>
      r == "Next player: " + Name(Mover(xIsNext)) && (r == "Next player: X" <==> xIsNext)
  {
    match Winner(squares)
    case Won(w, _) => "Winner: " + Name(w)
    case NoWinner =>
      if currentStepNumber == 9 then
        assert DrawStatus[0] == 'N' != 'W';
        DrawStatus
      else
        var r := "Next player: " + Name(Mover(xIsNext));
        assert r[0] == 'N' && r[1] == 'e' != DrawStatus[1] && r[13] == Name(Mover(xIsNext))[0];
        r
  }

  /**
   * In a valid state the status says: the winner if there is one; a draw
   * exactly when nobody has won and the board is full; otherwise the player
   * with fewer marks (X when the counts are equal) is next.
   */
  lemma StatusInValidGame(h: seq<Entry>, currentStepNumber: nat, xIsNext: bool)
    requires ValidState(h, currentStepNumber, xIsNext)
    ensures var s := h[currentStepNumber].squares;
      Winner(s).Won? ==> StatusText(s, currentStepNumber, xIsNext) == "Winner: " + Name(Winner(s).winner)
    ensures var s := h[currentStepNumber].squares;
      StatusText(s, currentStepNumber, xIsNext) == DrawStatus <==> Winner(s).NoWinner? && Empty !in s
    ensures var s := h[currentStepNumber].squares;
      Winner(s).NoWinner? && Empty in s ==>
        StatusText(s, currentStepNumber, xIsNext) ==
        "Next player: " + Name(if multiset(s)[Mark(X)] == multiset(s)[Mark(O)] then X else O)
  {
    var s := h[currentStepNumber].squares;
    MarkCounts(h, currentStepNumber);
    assert Empty in s <==> Empty in multiset(s);
    if Winner(s).Won? {
      assert StatusText(s, currentStepNumber, xIsNext)[0] == 'W' != DrawStatus[0];
    } else if currentStepNumber != 9 {
      assert StatusText(s, currentStepNumber, xIsNext)[1] == 'e' != DrawStatus[1];
    }
  }

  /** The text a template literal prints for a possibly missing position. */
  function PositionText(position: Option<string>): string
  {
    match position
    case Some(t) => t
    case None => "undefined"
  }

  /** The label of history entry number `move` in the move list. */
  function MoveLabel(e: Entry, move: nat): (r: string)
    ensures r == "Go to game start" <==> move == 0
    ensures move != 0 ==> |r| >= 11 && r[..11] == "Go to move " && r[11..] == PositionText(e.position)
    ensures move != 0 && e.position.None? ==> r == "Go to move undefined"
  {
    if move != 0 then
      var r := "Go to move " + PositionText(e.position);
      assert r[6] == 'm' != "Go to game start"[6];
      r
    else "Go to game start"
  }

  /** The move list's labels, one per history entry, in history order. */
  function MoveLabels(h: seq<Entry>): (r: seq<string>)
    ensures |r| == |h|
    ensures forall k :: 0 <= k < |r| ==> (r[k] == "Go to game start" <==> k == 0)
  {
    seq(|h|, k requires 0 <= k < |h| => MoveLabel(h[k], k))
  }

  /**
   * In a valid history the first label is the game start, and the label of
   * every later entry names the square that its move filled.
   */
  lemma MoveLabelNamesMove(h: seq<Entry>, k: nat)
    requires HistoryValid(h) && k < |h|
    ensures k == 0 ==> MoveLabels(h)[k] == "Go to game start"
    ensures k > 0 ==> exists i: Index ::
      h[k - 1].squares[i] == Empty && h[k].squares[i] != Empty &&
      MoveLabels(h)[k] == "Go to move row " + DigitText(i / 3 + 1) + ", col " + DigitText(i % 3 + 1)
  {
    if k > 0 {
      var i := MoveAt(h, k);
      assert h[k].squares[i] != Empty;
      assert MoveLabels(h)[k] == MoveLabel(h[k], k);
    }
  }

  /** The game's state; each handler is one atomic state change. */
  class Game {
    var history: seq<Entry>
    var currentStepNumber: nat
    var xIsNext: bool
    var ascendentOrder: bool

    ghost predicate Valid()
      reads this
    {
      ValidState(history, currentStepNumber, xIsNext)
    }

    /** The board at the current step. */
    function Current(): Squares
      reads this
      requires Valid()
    {
      history[currentStepNumber].squares
    }

    /** The status line rendered for the current state. */
    function Status(): (r: string)
      reads this
      requires Valid()
      ensures Winner(Current()).Won? ==> r == "Winner: " + Name(Winner(Current()).winner)
      ensures r == DrawStatus <==> Winner(Current()).NoWinner? && Empty !in Current()
      ensures Winner(Current()).NoWinner? && Empty in Current() ==>
        r == "Next player: " + Name(if multiset(Current())[Mark(X)] == multiset(Current())[Mark(O)] then X else O)
    {
      StatusInValidGame(history, currentStepNumber, xIsNext);
      StatusText(Current(), currentStepNumber, xIsNext)
    }

    constructor ()
      ensures Valid()
      ensures history == [InitialEntry] && currentStepNumber == 0
      ensures xIsNext && ascendentOrder
    {
      history := [InitialEntry];
      currentStepNumber := 0;
      xIsNext := true;
      ascendentOrder := true;
    }

    /**
     * `handleClick(i)`: a click on square `i` is ignored when the current
     * board has a winner or the square is taken; otherwise the history after
     * the current step is dropped, the current board with the mover's mark at
     * `i` is appended, and the step and turn advance.
     */
    method HandleClick(i: Index)
      requires Valid()
      modifies this
      ensures Valid()
      ensures ascendentOrder == old(ascendentOrder)
      ensures old(Winner(Current()).Won? || Current()[i] != Empty) ==>
        history == old(history) && currentStepNumber == old(currentStepNumber) && xIsNext == old(xIsNext)
      ensures old(Winner(Current()).NoWinner? && Current()[i] == Empty) ==>
        && history == old(history[..currentStepNumber + 1]) +
             [Entry(old(Current()[i := Mark(Mover(xIsNext))]), GetPosition(i), Some(old(currentStepNumber) + 1))]
        && currentStepNumber == old(currentStepNumber) + 1 == |history| - 1
        && xIsNext == !old(xIsNext)
    {
      var hist := history[..currentStepNumber + 1];
      var current := hist[|hist| - 1];
      var squares := new Cell[9](j requires 0 <= j < 9 => current.squares[j]);
      assert squares[..] == current.squares;
      var result := CalculateWinner(squares[..]);
      if result.Won? || squares[i] != Empty {
        return;
      }
      squares[i] := Mark(Mover(xIsNext));
      var entry := Entry(squares[..], GetPosition(i), Some(|hist|));
      assert squares[..] == current.squares[i := Mark(Mover(xIsNext))];
      ClickKeepsValid(history, currentStepNumber, xIsNext, i);
      history := hist + [entry];
      currentStepNumber := |hist|;
      xIsNext := !xIsNext;
    }

    /** `jumpTo(step)`: moves the step pointer and sets the turn from the step's parity. */
    method JumpTo(step: nat)
      requires Valid() && step < |history|
      modifies this
      ensures Valid()
      ensures history == old(history) && ascendentOrder == old(ascendentOrder)
      ensures currentStepNumber == step && xIsNext == (step % 2 == 0)
    {
      currentStepNumber := step;
      xIsNext := step % 2 == 0;
    }

    /**
     * `changeOrder(asc)`: sets the sort flag to the negation of `asc`, which
     * the sorting button passes as the current flag.
     */
    method ChangeOrder(asc: bool)
      requires Valid()
      modifies this
      ensures Valid()
      ensures ascendentOrder == !asc
      ensures history == old(history) && currentStepNumber == old(currentStepNumber) && xIsNext == old(xIsNext)
    {
      ascendentOrder := !asc;
    }
  }

  /**
   * A client, first half: X plays 0 and 1 while O plays 3; every click is
   * accepted and X is next again.
   */
  method TopRowOpening() returns (g: Game)
    ensures fresh(g) && g.Valid() && g.currentStepNumber == 3 && |g.history| == 4 && !g.xIsNext
    ensures g.Current() == [Mark(X), Mark(X), Empty, Mark(O), Empty, Empty, Empty, Empty, Empty]
  {
    g := new Game();
    g.HandleClick(0);
    assert g.Current() == [Mark(X), Empty, Empty, Empty, Empty, Empty, Empty, Empty, Empty];
    g.HandleClick(3);
    assert g.Current() == [Mark(X), Empty, Empty, Mark(O), Empty, Empty, Empty, Empty, Empty];
    g.HandleClick(1);
  }

  /**
   * A client, second half: O plays 4 and X completes the top row; the status
   * names X, a click on square 5 is ignored, and jumping to the start shows
   * the empty board without dropping any history.
   */
  method TopRowScenario()
  {
    var g := TopRowOpening();
    g.HandleClick(4);
    assert g.Current() == [Mark(X), Mark(X), Empty, Mark(O), Mark(O), Empty, Empty, Empty, Empty];
    g.HandleClick(2);
    assert g.Current() == [Mark(X), Mark(X), Mark(X), Mark(O), Mark(O), Empty, Empty, Empty, Empty];
    assert FirstWinningLineFrom(g.Current(), 0, 0);
    WinnerIsFirstWinningLine(g.Current(), X, Line(0, 1, 2));
    assert g.Status() == "Winner: X";
    var before := g.history;
    g.HandleClick(5);
    assert g.history == before && |before| == 6;
    g.JumpTo(0);
    assert g.Current() == EmptyBoard && g.xIsNext && |g.history| == 6;
  }
}

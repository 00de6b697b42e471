// Tic-tac-toe against a random AI.  The player is X; after each player move
// that neither wins nor fills the board, the AI puts an O on a random empty
// square.  The AI's delayed reply is one atomic step here.

module TicTacToe {
  import opened Wrappers

  datatype Mark = X | O

  type Board = seq<Option<Mark>>

  /** The eight rows, columns and diagonals, in the order they are checked. */
  const LINES: seq<(nat, nat, nat)> := [
    (0, 1, 2), (3, 4, 5), (6, 7, 8),
    (0, 3, 6), (1, 4, 7), (2, 5, 8),
    (0, 4, 8), (2, 4, 6)
  ]

  function EmptyBoard(): (b: Board)
    ensures |b| == 9 && forall i :: 0 <= i < 9 ==> b[i] == None
  {
    [None, None, None, None, None, None, None, None, None]
  }

  /** Line k holds three m marks. */
  predicate LineOf(sq: Board, k: nat, m: Mark)
    requires |sq| == 9
  {
    k < |LINES| && sq[LINES[k].0] == Some(m) && sq[LINES[k].1] == Some(m) && sq[LINES[k].2] == Some(m)
  }

  /** The scan in checkWinner from line k on: the first line with three equal marks decides. */
  function WinnerFrom(sq: Board, k: nat): Option<Mark>
    requires |sq| == 9
    decreases |LINES| - k
  {
    if k >= |LINES| then None
    else
      var (a, b, c) := LINES[k];
      if sq[a] != None && sq[a] == sq[b] && sq[a] == sq[c] then sq[a] else WinnerFrom(sq, k + 1)
  }

  function CheckWinner(sq: Board): Option<Mark>
    requires |sq| == 9
  {
    WinnerFrom(sq, 0)
  }

  lemma {:induction false} WinnerFromSpec(sq: Board, k: nat)
    requires |sq| == 9
    ensures forall m :: WinnerFrom(sq, k) == Some(m) ==> exists j :: k <= j && LineOf(sq, j, m)
    ensures WinnerFrom(sq, k) == None ==> forall j, m :: k <= j ==> !LineOf(sq, j, m)
    decreases |LINES| - k
  {
    if k < |LINES| {
      WinnerFromSpec(sq, k + 1);
      var (a, b, c) := LINES[k];
      if sq[a] != None && sq[a] == sq[b] && sq[a] == sq[c] {
        assert LineOf(sq, k, sq[a].value);
      } else {
        forall j, m | k <= j
          ensures !LineOf(sq, j, m) || WinnerFrom(sq, k) != None
        {
        }
      }
    }
  }

  /** checkWinner returns a mark exactly when some line holds three of it,
      and null when no line is complete. */
  lemma CheckWinnerSpec(sq: Board)
    requires |sq| == 9
    ensures forall m :: CheckWinner(sq) == Some(m) ==> exists k :: LineOf(sq, k, m)
    ensures CheckWinner(sq) == None <==> forall k, m :: !LineOf(sq, k, m)
  {
    WinnerFromSpec(sq, 0);
  }

  predicate Full(sq: Board) {
    forall i :: 0 <= i < |sq| ==> sq[i] != None
  }

  /** The indices of the empty squares, in increasing order. */
  function EmptyIndices(sq: Board, from: nat): (r: seq<nat>)
    requires from <= |sq|
    ensures forall e :: e in r <==> from <= e < |sq| && sq[e] == None
    decreases |sq| - from
  {
    if from == |sq| then []
    else (if sq[from] == None then [from] else []) + EmptyIndices(sq, from + 1)
  }

  /** How many squares hold m. */
  function Count(sq: Board, m: Mark): nat {
    if sq == [] then 0 else (if sq[0] == Some(m) then 1 else 0) + Count(sq[1..], m)
  }

  lemma {:induction false} CountUpdate(sq: Board, i: nat, m: Mark)
    requires i < |sq| && sq[i] == None
    ensures Count(sq[i := Some(m)], m) == Count(sq, m) + 1
    ensures forall n :: n != m ==> Count(sq[i := Some(m)], n) == Count(sq, n)
  {
    if i > 0 {
      CountUpdate(sq[1..], i - 1, m);
      assert sq[i := Some(m)][1..] == sq[1..][i - 1 := Some(m)];
    } else {
      assert sq[i := Some(m)][1..] == sq[1..];
    }
  }

  lemma {:induction false} CountFull(sq: Board)
    requires Full(sq)
    ensures Count(sq, X) + Count(sq, O) == |sq|
  {
    if sq != [] {
      forall i | 0 <= i < |sq| - 1 ensures sq[1..][i] != None {
        assert sq[1..][i] == sq[i + 1];
      }
      CountFull(sq[1..]);
      assert Count(sq, X) == (if sq[0] == Some(X) then 1 else 0) + Count(sq[1..], X);
      assert Count(sq, O) == (if sq[0] == Some(O) then 1 else 0) + Count(sq[1..], O);
      assert sq[0] != None;
      assert sq[0].value == X || sq[0].value == O;
    }
  }

  class TicTacToe {
    var board: Board
    var winner: Option<Mark>
    var isDraw: bool

    /** winner is what checkWinner says about the board; a draw is a full board
        with no winner; X has moved once more than O only once the game is over. */
    ghost predicate Valid()
      reads this
    {
      |board| == 9 && winner == CheckWinner(board) &&
      (isDraw ==> Full(board) && winner == None) &&
      (Count(board, X) == Count(board, O) ||
       (Count(board, X) == Count(board, O) + 1 && (winner != None || isDraw)))
    }

    predicate GameOver()
      reads this
    {
      winner != None || isDraw
    }

    constructor ()
      ensures Valid() && board == EmptyBoard() && winner == None && !isDraw
    {
      CheckWinnerSpec(EmptyBoard());
      board := EmptyBoard();
      winner := None;
      isDraw := false;
    }

    /** handleClick on square i, followed by the AI reply; pick stands for the
        random draw, taken modulo the number of empty squares. */
    method Click(i: nat, pick: nat)
      requires Valid() && i < 9
      modifies this
      ensures Valid()
      ensures old(board)[i] != None || old(GameOver()) ==>
                board == old(board) && winner == old(winner) && isDraw == old(isDraw)
      ensures old(board)[i] == None && !old(GameOver()) ==>
                var afterX := old(board)[i := Some(X)];
                if CheckWinner(afterX) != None then
                  board == afterX && winner == CheckWinner(afterX) && !isDraw
                else if Full(afterX) then
                  board == afterX && isDraw && winner == None
                else
                  exists k :: 0 <= k < 9 && afterX[k] == None && board == afterX[k := Some(O)] && !isDraw
    {
      if board[i] != None || winner != None || isDraw {
        return;
      }
      var newBoard := board[i := Some(X)];
      CountUpdate(board, i, X);
      board := newBoard;
      var win := CheckWinner(newBoard);
      if win != None {
        winner := win;
        return;
      }
      if Full(newBoard) {
        isDraw := true;
        return;
      }
      // the AI's turn
      var empty := EmptyIndices(newBoard, 0);
      var free :| 0 <= free < 9 && newBoard[free] == None;
      assert free in empty;
      if |empty| > 0 {
        var aiMove := empty[pick % |empty|];
        assert aiMove in empty;
        CountUpdate(newBoard, aiMove, O);
        newBoard := newBoard[aiMove := Some(O)];
        board := newBoard;
        winner := CheckWinner(newBoard);
      }
    }

    /** The board never fills on the player's turn: when the game is not over,
        X and O are even, so at least one square is free. */
    lemma PlayerCanMove()
      requires Valid() && !GameOver()
      ensures exists i :: 0 <= i < 9 && board[i] == None
    {
      if forall i :: 0 <= i < 9 ==> board[i] != None {
        CountFull(board);
        assert false;
      }
    }

    /** reset: an empty board, no winner, no draw. */
    method Reset()
      modifies this
      ensures Valid() && board == EmptyBoard() && winner == None && !isDraw
    {
      CheckWinnerSpec(EmptyBoard());
      board := EmptyBoard();
      winner := None;
      isDraw := false;
    }
  }
}

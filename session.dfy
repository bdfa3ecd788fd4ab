/** One match of tic-tac-toe: the board, whose turn it is, and the outcome,
    with the steps the game loop takes on a click or on the computer's turn. */
module Session {
  import opened Board
  import opened Opponent

  const Width := 600
  const Height := 600
  const GridSize := 3
  const CellSize := Width / GridSize

  /** The cell under pixel (x, y): the row from y and the column from x, by
      floor division by the cell size (Dafny's / floors for a positive divisor,
      as the game's // does). */
  function ClickedCell(x: int, y: int): (cell: (int, int))
    ensures cell.0 * CellSize <= y < cell.0 * CellSize + CellSize
    ensures cell.1 * CellSize <= x < cell.1 * CellSize + CellSize
    ensures 0 <= x < Width && 0 <= y < Height ==> InRange(cell)
  {
    assert CellSize == 200;
    (y / CellSize, x / CellSize)
  }

  /** What the outcome check makes of (gameOver, winner) for board g: X's line
      first, then O's, then a full board; otherwise nothing changes. */
  function Judge(g: Grid, over: bool, w: Option<Player>): (r: (bool, Option<Player>))
    ensures r.0 <==> over || Wins(g, X) || Wins(g, O) || IsFull(g)
    ensures Wins(g, X) ==> r.1 == Some(X)
    ensures !Wins(g, X) && Wins(g, O) ==> r.1 == Some(O)
    ensures !Wins(g, X) && !Wins(g, O) ==> r.1 == w
  {
    if Wins(g, X) then (true, Some(X))
    else if Wins(g, O) then (true, Some(O))
    else if IsFull(g) then (true, w)
    else (over, w)
  }

  /** Checking the outcome twice is the same as checking it once. */
  lemma JudgeIdempotent(g: Grid, over: bool, w: Option<Player>)
    ensures Judge(g, Judge(g, over, w).0, Judge(g, over, w).1) == Judge(g, over, w)
  {
  }

  /** The outcome stored with a board is settled when it is what the check
      makes of the board starting from a game in progress with no winner, and
      the board does not show a line for both players at once. */
  predicate Settled(g: Grid, over: bool, w: Option<Player>) {
    (over, w) == Judge(g, false, None) && !(Wins(g, X) && Wins(g, O))
  }

  /** A settled game in progress has no winner, no line and a free cell. */
  lemma SettledInProgress(g: Grid, w: Option<Player>)
    requires Settled(g, false, w)
    ensures w == None && !Wins(g, X) && !Wins(g, O) && !IsFull(g)
  {
  }

  /** The empty board is settled as a game in progress. */
  lemma EmptyGridSettled()
    ensures !Wins(EmptyGrid, X) && !Wins(EmptyGrid, O) && !IsFull(EmptyGrid)
    ensures Settled(EmptyGrid, false, None)
  {
    assert Get(EmptyGrid, 0, 0) == Empty;
    forall p: Player
      ensures !Wins(EmptyGrid, p)
    {
      forall i | 0 <= i < 3
        ensures !RowFilled(EmptyGrid, p, i) && !ColFilled(EmptyGrid, p, i)
      {
        assert Get(EmptyGrid, i, 0) == Empty && Get(EmptyGrid, 0, i) == Empty;
      }
      assert Get(EmptyGrid, 0, 0) != p && AntiDiagonal(EmptyGrid, 0) != p;
    }
  }

  /** What one computer turn came to. */
  datatype StepResult =
    | Placed(row: int, col: int)      // the mark went on an empty cell
    // The reply named a taken cell, so nothing happens (the emptiness test of the
    // computer's turn fails). No reachable state produces it: the contract of
    // ComputerTurn gives Placed or NotAMove at every level.
    | Occupied(row: int, col: int)
    | NotAMove(reply: Reply)          // no cell to mark: a bare score (the game's unpack crashes) or no draw hit an empty cell

  class Game {
    var board: array2<Cell>
    var turn: Player
    var gameOver: bool
    var winner: Option<Player>

    ghost predicate Valid()
      reads this
    {
      board.Length0 == 3 && board.Length1 == 3
    }

    /** The board as a value. */
    function Cells(): Grid
      reads this, board
      requires Valid()
    {
      Snapshot(board)
    }

    /** A fresh game: empty board, X to move, no outcome. */
    constructor ()
      ensures Valid() && fresh(board)
      ensures Cells() == EmptyGrid && turn == X && !gameOver && winner == None
      ensures Settled(Cells(), gameOver, winner)
    {
      var blank := new Cell[3, 3]((r, c) => Empty);
      BlankSnapshot(blank);
      board := blank;
      turn := X;
      gameOver := false;
      winner := None;
      new;
      EmptyGridSettled();
    }

    /** Record the outcome of the board: a line for X (checked first) or for O
        ends the game with that winner, a full board ends it with the winner
        left as it was, and otherwise nothing changes. */
    method CheckWinner()
      requires Valid()
      modifies this`gameOver, this`winner
      ensures Valid()
      ensures (gameOver, winner) == Judge(Cells(), old(gameOver), old(winner))
    {
      var g := Cells();
      if Wins(g, X) {
        winner := Some(X);
        gameOver := true;
      } else if Wins(g, O) {
        winner := Some(O);
        gameOver := true;
      } else if IsFull(g) {
        gameOver := true;
      }
    }

    /** Start over, whatever the state: a new empty board, X to move, no outcome. */
    method Restart()
      modifies this
      ensures Valid() && fresh(board)
      ensures Cells() == EmptyGrid && turn == X && !gameOver && winner == None
      ensures Settled(Cells(), gameOver, winner)
    {
      var blank := new Cell[3, 3]((r, c) => Empty);
      BlankSnapshot(blank);
      board := blank;
      turn := X;
      gameOver := false;
      winner := None;
      EmptyGridSettled();
    }

    /** A click on the board during a game between two people: the clicked
        cell takes the mark of the player to move if it is empty, the outcome
        is checked, and the turn passes even when the move ends the game. A
        click on a taken cell changes nothing. */
    method Click(x: int, y: int) returns (accepted: bool)
      requires Valid() && Settled(Cells(), gameOver, winner) && !gameOver
      requires 0 <= x < Width && 0 <= y < Height
      modifies board, this`turn, this`gameOver, this`winner
      ensures Valid() && board == old(board) && Settled(Cells(), gameOver, winner)
      ensures accepted == (Get(old(Cells()), ClickedCell(x, y).0, ClickedCell(x, y).1) == Empty)
      ensures accepted ==>
        Cells() == Place(old(Cells()), ClickedCell(x, y).0, ClickedCell(x, y).1, old(turn)) &&
        (gameOver, winner) == Judge(Cells(), old(gameOver), old(winner)) &&
        turn == Other(old(turn))
      ensures !accepted ==>
        Cells() == old(Cells()) && turn == old(turn) && gameOver == old(gameOver) && winner == old(winner)
    {
      var (row, col) := ClickedCell(x, y);
      accepted := board[row, col] == Empty;
      if accepted {
        Mark(row, col);
      }
    }

    /** The step both kinds of turn end with: the player to move marks an
        empty cell, the outcome is checked, and the turn passes (even when the
        mark ends the game). */
    method Mark(row: int, col: int)
      requires Valid() && Settled(Cells(), gameOver, winner) && !gameOver
      requires InRange((row, col)) && Get(Cells(), row, col) == Empty
      modifies board, this`turn, this`gameOver, this`winner
      ensures Valid() && board == old(board) && Settled(Cells(), gameOver, winner)
      ensures Cells() == Place(old(Cells()), row, col, old(turn))
      ensures (gameOver, winner) == Judge(Cells(), old(gameOver), old(winner))
      ensures turn == Other(old(turn))
    {
      ghost var g := Cells();
      SettledInProgress(g, winner);
      MarkKeepsNoLine(g, 3 * row + col, turn);
      board[row, col] := turn;
      GridsEqual(Cells(), Place(g, row, col, old(turn)));
      CheckWinner();
      if turn == X {
        turn := O;
      } else {
        turn := X;
      }
    }

    /** The move the computer proposes at the given level; the random draws of
        the Easy level are supplied by the caller. The Hard level answers with
        the minimax score of the board, not with a cell. The search works on
        the board itself and leaves it as it found it. */
    method AiMove(difficulty: Difficulty, draws: seq<(int, int)>) returns (reply: Reply)
      requires Valid() && AllInRange(draws)
      modifies board
      ensures Valid() && Cells() == old(Cells())
      ensures difficulty == Easy ==> reply == FirstEmptyMove(Cells(), draws)
      ensures difficulty == Medium ==> reply == MediumMove(Cells(), gameOver)
      ensures difficulty == Hard ==> reply == Score(MinimaxValue(Cells(), O))
    {
      match difficulty
      case Easy =>
        reply := EasyMove(Cells(), draws);
      case Medium =>
        reply := MediumMove(Cells(), gameOver);
      case Hard =>
        var best := Minimax(board, O);
        reply := Score(best);
    }

    /** The computer's turn (it plays O): take its reply and, if it names an
        empty cell, mark it, check the outcome and hand the turn to X. */
    method ComputerTurn(difficulty: Difficulty, draws: seq<(int, int)>) returns (result: StepResult)
      requires Valid() && Settled(Cells(), gameOver, winner) && !gameOver && turn == O
      requires AllInRange(draws)
      modifies board, this`turn, this`gameOver, this`winner
      ensures Valid() && board == old(board) && Settled(Cells(), gameOver, winner)
      ensures difficulty == Easy ==>
        (var reply := FirstEmptyMove(old(Cells()), draws);
         result == if reply.Move? then Placed(reply.row, reply.col) else NotAMove(reply))
      ensures difficulty == Medium ==> result.Placed? && Move(result.row, result.col) == MediumMove(old(Cells()), false)
      ensures difficulty == Hard ==> result == NotAMove(Score(MinimaxValue(old(Cells()), O)))
      ensures result.Placed? ==>
        InRange((result.row, result.col)) && Get(old(Cells()), result.row, result.col) == Empty &&
        Cells() == Place(old(Cells()), result.row, result.col, O) &&
        (gameOver, winner) == Judge(Cells(), false, None) && turn == X
      ensures !result.Placed? ==>
        Cells() == old(Cells()) && turn == old(turn) && gameOver == old(gameOver) && winner == old(winner)
    {
      SettledInProgress(Cells(), winner);
      var reply := AiMove(difficulty, draws);
      if reply.Move? {
        var row, col := reply.row, reply.col;
        if board[row, col] == Empty {
          Mark(row, col);
          result := Placed(row, col);
        } else {
          result := Occupied(row, col);
        }
      } else {
        result := NotAMove(reply);
      }
    }
  }
}

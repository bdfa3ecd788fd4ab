/** Concrete games: the outcomes and the Medium replies that the rules give
    for particular boards. */
module Scenarios {
  import opened Board
  import opened Opponent
  import opened Session

  /** X takes the top row while O holds (1, 1) and (1, 0). */
  const TopRowGame: Grid :=
    Place(Place(Place(Place(Place(EmptyGrid, 0, 0, X), 1, 1, O), 0, 1, X), 1, 0, O), 0, 2, X)

  /** A full board on which neither player holds a line. */
  const DrawnGame: Grid := [X, O, X, X, O, O, O, X, X]

  lemma TopRowWins()
    ensures Wins(TopRowGame, X) && !IsFull(TopRowGame)
    ensures Judge(TopRowGame, false, None) == (true, Some(X))
  {
    assert TopRowGame == [X, X, X, O, O, Empty, Empty, Empty, Empty];
    assert RowFilled(TopRowGame, X, 0);
    assert Get(TopRowGame, 2, 2) == Empty;
  }

  lemma DrawnGameIsDraw()
    ensures IsFull(DrawnGame) && !Wins(DrawnGame, X) && !Wins(DrawnGame, O)
    ensures Judge(DrawnGame, false, None) == (true, None)
  {
    forall p: Player, i | 0 <= i < 3
      ensures !RowFilled(DrawnGame, p, i) && !ColFilled(DrawnGame, p, i)
    {
      assert Get(DrawnGame, i, 0) != p || Get(DrawnGame, i, 1) != p || Get(DrawnGame, i, 2) != p;
      assert Get(DrawnGame, 0, i) != p || Get(DrawnGame, 1, i) != p || Get(DrawnGame, 2, i) != p;
    }
    assert Get(DrawnGame, 0, 0) != Get(DrawnGame, 1, 1);
    assert AntiDiagonal(DrawnGame, 0) != AntiDiagonal(DrawnGame, 1);
    assert Get(DrawnGame, 2, 2) != Empty;
  }

  lemma MediumOpensInCentre()
    ensures MediumMove(EmptyGrid, false) == Move(1, 1)
  {
  }

  lemma MediumTakesFirstCorner()
    ensures MediumMove(Place(EmptyGrid, 1, 1, X), false) == Move(0, 0)
  {
  }

  /** X on the four corners and the centre, O on the edge cells: the board is
      full, yet X holds both diagonals, so the game ends as X's win and not
      as a draw. */
  const CornersAndCentre: Grid := [X, O, X, O, X, O, X, O, X]

  lemma CornersAndCentreIsWin()
    ensures IsFull(CornersAndCentre) && Wins(CornersAndCentre, X)
    ensures Judge(CornersAndCentre, false, None) == (true, Some(X))
  {
    assert Get(CornersAndCentre, 0, 0) == X && Get(CornersAndCentre, 1, 1) == X && Get(CornersAndCentre, 2, 2) == X;
  }
}

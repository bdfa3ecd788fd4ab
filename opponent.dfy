/** The computer opponent: the Medium priority rule, the Easy random pick (with
    the random draws supplied by the caller), and the minimax scorer used by Hard. */
module Opponent {
  import opened Board

  datatype Difficulty = Easy | Medium | Hard

  /** What the opponent hands back to the game loop: a (row, col) pair, a bare
      minimax score (what the Hard level returns), or nothing at all. */
  datatype Reply = Move(row: int, col: int) | Score(value: int) | NoReply

  /** The corners in the order the Medium level tries them. */
  const Corners: seq<(int, int)> := [(0, 0), (0, 2), (2, 0), (2, 2)]

  /** Every cell, row by row. */
  const RowMajor: seq<(int, int)> := [(0, 0), (0, 1), (0, 2), (1, 0), (1, 1), (1, 2), (2, 0), (2, 1), (2, 2)]

  /** Index of the first empty cell of cells at or after position i, if any. */
  function FirstEmptyFrom(g: Grid, cells: seq<(int, int)>, i: nat): (found: Option<nat>)
    requires AllInRange(cells) && i <= |cells|
    ensures found.Some? ==> i <= found.value < |cells| && At(g, cells[found.value]) == Empty
    ensures found.Some? ==> forall j | i <= j < found.value :: At(g, cells[j]) != Empty
    ensures found.None? <==> forall j | i <= j < |cells| :: At(g, cells[j]) != Empty
    decreases |cells| - i
  {
    if i == |cells| then None
    else if At(g, cells[i]) == Empty then Some(i)
    else FirstEmptyFrom(g, cells, i + 1)
  }

  /** The first empty cell of cells, as a move; NoReply when all are taken. */
  function FirstEmptyMove(g: Grid, cells: seq<(int, int)>): (reply: Reply)
    requires AllInRange(cells)
    ensures reply.Move? || reply == NoReply
    ensures reply == NoReply <==> forall j | 0 <= j < |cells| :: At(g, cells[j]) != Empty
    ensures reply.Move? ==> exists k | 0 <= k < |cells| ::
      reply == Move(cells[k].0, cells[k].1) && At(g, cells[k]) == Empty &&
      forall j | 0 <= j < k :: At(g, cells[j]) != Empty
  {
    match FirstEmptyFrom(g, cells, 0)
    case Some(k) => Move(cells[k].0, cells[k].1)
    case None => NoReply
  }

  /** The Medium level: the sentinel (-1, -1) once the game is over; otherwise
      the centre, then the first free corner, then the first free cell. */
  function MediumMove(g: Grid, gameOver: bool): (reply: Reply)
    ensures gameOver ==> reply == Move(-1, -1)
    ensures !gameOver && Get(g, 1, 1) == Empty ==> reply == Move(1, 1)
    ensures !gameOver && Get(g, 1, 1) != Empty && FirstEmptyMove(g, Corners).Move? ==>
      reply == FirstEmptyMove(g, Corners)
    ensures !gameOver && Get(g, 1, 1) != Empty && FirstEmptyMove(g, Corners) == NoReply ==>
      reply == FirstEmptyMove(g, RowMajor)
    ensures !gameOver ==> (reply == NoReply <==> IsFull(g))
    ensures !gameOver && reply.Move? ==> InRange((reply.row, reply.col)) && Get(g, reply.row, reply.col) == Empty
  {
    if gameOver then Move(-1, -1)
    else if Get(g, 1, 1) == Empty then Move(1, 1)
    else
      var corner := FirstEmptyMove(g, Corners);
      if corner.Move? then corner
      else
        var any := FirstEmptyMove(g, RowMajor);
        assert any == NoReply ==> IsFull(g) by {
          if any == NoReply {
            forall r, c | 0 <= r < 3 && 0 <= c < 3
              ensures Get(g, r, c) != Empty
            {
              assert RowMajor[3 * r + c] == (r, c);
            }
          }
        }
        any
  }

  /** The Easy level: keep drawing random cells until one is empty. The draws
      are supplied by the caller; NoReply means none of them was empty. */
  method EasyMove(g: Grid, draws: seq<(int, int)>) returns (reply: Reply)
    requires AllInRange(draws)
    ensures reply == FirstEmptyMove(g, draws)
  {
    var i := 0;
    while i < |draws|
      invariant 0 <= i <= |draws|
      invariant FirstEmptyFrom(g, draws, i) == FirstEmptyFrom(g, draws, 0)
    {
      var (row, col) := draws[i];
      if Get(g, row, col) == Empty {
        return Move(row, col);
      }
      i := i + 1;
    }
    return NoReply;
  }

  /** The scores a board can have. */
  predicate IsScore(v: int) {
    v == 10 || v == -10 || v == 0
  }

  /** Keep the better of the best score so far and a new one: larger for O,
      smaller for X; of equal scores the first is kept. */
  function Better(best: Option<int>, score: int, p: Player): Option<int>
  {
    if best.None? then Some(score)
    else if p == O then (if score > best.value then Some(score) else best)
    else (if score < best.value then Some(score) else best)
  }

  /** The minimax score of board g with p to move: 10 if O holds a line, else
      -10 if X does, else 0 if the board is full, else the best score among
      the children, O maximising and X minimising. */
  function MinimaxValue(g: Grid, p: Player): (score: int)
    ensures IsScore(score)
    decreases EmptyCount(g), 1
  {
    if Wins(g, O) then 10
    else if Wins(g, X) then -10
    else if IsFull(g) then 0
    else
      assert exists k | 0 <= k < 9 :: g[k] == Empty by {
        var r, c :| 0 <= r < 3 && 0 <= c < 3 && Get(g, r, c) == Empty;
      }
      Scan(g, p, 9).value
  }

  /** The score of the child reached by p marking cell k (row-major) of g. */
  function ChildValue(g: Grid, p: Player, k: int): int
    requires 0 <= k < 9 && g[k] == Empty
    decreases EmptyCount(g), 0, 0
  {
    FillCounts(g, k, p);
    MinimaxValue(g[k := p], Other(p))
  }

  /** The best score found once the nested loops have visited the first k
      cells in row-major order; None while no empty cell has been seen. */
  function Scan(g: Grid, p: Player, k: int): (best: Option<int>)
    requires 0 <= k <= 9
    ensures best.Some? <==> exists j | 0 <= j < k :: g[j] == Empty
    ensures best.Some? ==> IsScore(best.value)
    decreases EmptyCount(g), 0, k
  {
    if k == 0 then None
    else if g[k - 1] == Empty then Better(Scan(g, p, k - 1), ChildValue(g, p, k - 1), p)
    else Scan(g, p, k - 1)
  }

  /** The scores of finished boards: 10 when O holds a line (checked first),
      -10 when X does, 0 for a full board with no line. */
  lemma MinimaxTerminal(g: Grid, p: Player)
    ensures Wins(g, O) ==> MinimaxValue(g, p) == 10
    ensures !Wins(g, O) && Wins(g, X) ==> MinimaxValue(g, p) == -10
    ensures !Wins(g, O) && !Wins(g, X) && IsFull(g) ==> MinimaxValue(g, p) == 0
  {
  }

  /** On an unfinished board the score is what the full scan finds. */
  lemma MinimaxUnfold(g: Grid, p: Player)
    requires !Wins(g, O) && !Wins(g, X) && !IsFull(g)
    ensures Scan(g, p, 9).Some? && MinimaxValue(g, p) == Scan(g, p, 9).value
  {
    var r, c :| 0 <= r < 3 && 0 <= c < 3 && Get(g, r, c) == Empty;
  }

  /** One more iteration of the nested loops over (row, col). */
  lemma ScanStep(g: Grid, p: Player, row: int, col: int)
    requires 0 <= row < 3 && 0 <= col < 3
    ensures Scan(g, p, 3 * row + col + 1) ==
      if Get(g, row, col) == Empty then Better(Scan(g, p, 3 * row + col), MinimaxValue(Place(g, row, col, p), Other(p)), p)
      else Scan(g, p, 3 * row + col)
  {
  }

  /** Score a is at least as good as score b for player p. */
  predicate NoWorse(p: Player, a: int, b: int) {
    if p == O then a >= b else a <= b
  }

  /** After visiting k cells, the best score is no worse than the score of any
      visited child. */
  lemma {:induction false} ScanBounds(g: Grid, p: Player, k: int)
    requires 0 <= k <= 9
    ensures forall j | 0 <= j < k && g[j] == Empty ::
      Scan(g, p, k).Some? && NoWorse(p, Scan(g, p, k).value, ChildValue(g, p, j))
  {
    if k > 0 {
      ScanBounds(g, p, k - 1);
      if g[k - 1] == Empty {
        var prev, s := Scan(g, p, k - 1), ChildValue(g, p, k - 1);
        assert Scan(g, p, k) == Better(prev, s, p);
        forall j | 0 <= j < k && g[j] == Empty
          ensures NoWorse(p, Scan(g, p, k).value, ChildValue(g, p, j))
        {
          if j < k - 1 {
            assert prev.Some? && NoWorse(p, prev.value, ChildValue(g, p, j));
          }
        }
      }
    }
  }

  /** After visiting k cells, the best score, once there is one, is the score
      of one of the visited children: the one returned. */
  lemma {:induction false} ScanAttained(g: Grid, p: Player, k: int) returns (j: int)
    requires 0 <= k <= 9 && Scan(g, p, k).Some?
    ensures 0 <= j < k && g[j] == Empty && Scan(g, p, k).value == ChildValue(g, p, j)
  {
    var prev := Scan(g, p, k - 1);
    if g[k - 1] == Empty && (prev.None? || Scan(g, p, k).value != prev.value) {
      j := k - 1;
    } else {
      j := ScanAttained(g, p, k - 1);
    }
  }

  /** On an unfinished board the minimax score is the maximum (O to move) or
      the minimum (X to move) of the scores of its children, and child k
      attains it. */
  lemma MinimaxIsBestChild(g: Grid, p: Player) returns (k: int)
    requires !Wins(g, O) && !Wins(g, X) && !IsFull(g)
    ensures forall j | 0 <= j < 9 && g[j] == Empty :: NoWorse(p, MinimaxValue(g, p), ChildValue(g, p, j))
    ensures 0 <= k < 9 && g[k] == Empty && MinimaxValue(g, p) == ChildValue(g, p, k)
  {
    MinimaxUnfold(g, p);
    ScanBounds(g, p, 9);
    k := ScanAttained(g, p, 9);
  }

  /** Marking a cell for p cannot give the other player a line. */
  lemma MarkKeepsNoLine(g: Grid, k: int, p: Player)
    requires 0 <= k < 9 && !Wins(g, Other(p))
    ensures !Wins(g[k := p], Other(p))
  {
    var h := g[k := p];
    if Wins(h, Other(p)) {
      var line := WinningLine(h, Other(p));
      forall j | 0 <= j < |Lines[line]|
        ensures At(g, Lines[line][j]) == Other(p)
      {
        assert At(h, Lines[line][j]) == Other(p);
      }
      LineWins(g, Other(p), line);
    }
  }

  /** A player to move who can complete a line at once scores it: 10 for O,
      -10 for X. */
  lemma ImmediateWin(g: Grid, p: Player, k: int)
    requires !Wins(g, O) && !Wins(g, X) && !IsFull(g)
    requires 0 <= k < 9 && g[k] == Empty && Wins(g[k := p], p)
    ensures MinimaxValue(g, p) == if p == O then 10 else -10
  {
    var _ := MinimaxIsBestChild(g, p);
    MinimaxTerminal(g[k := p], Other(p));
    if p == X {
      MarkKeepsNoLine(g, k, p);
    }
    assert NoWorse(p, MinimaxValue(g, p), ChildValue(g, p, k));
  }

  /** The search as the game runs it, on the board itself: score a finished
      board directly, otherwise try every empty cell and keep the best score. */
  method Minimax(b: array2<Cell>, player: Player) returns (score: int)
    requires b.Length0 == 3 && b.Length1 == 3
    modifies b
    ensures Snapshot(b) == old(Snapshot(b))
    ensures score == MinimaxValue(Snapshot(b), player)
    decreases EmptyCount(Snapshot(b)), 1
  {
    var g := Snapshot(b);
    MinimaxTerminal(g, player);
    if Wins(g, O) {
      return 10;
    } else if Wins(g, X) {
      return -10;
    } else if IsFull(g) {
      return 0;
    }
    var best: Option<int> := None;
    for row := 0 to 3
      invariant Snapshot(b) == g
      invariant best == Scan(g, player, 3 * row)
    {
      for col := 0 to 3
        invariant Snapshot(b) == g
        invariant best == Scan(g, player, 3 * row + col)
      {
        ScanStep(g, player, row, col);
        if b[row, col] == Empty {
          var s := TryMove(b, row, col, player);
          best := Better(best, s, player);
        }
      }
    }
    MinimaxUnfold(g, player);
    score := best.value;
  }

  /** One step of the search: mark an empty cell, score the child, undo the mark. */
  method TryMove(b: array2<Cell>, row: int, col: int, player: Player) returns (s: int)
    requires b.Length0 == 3 && b.Length1 == 3 && 0 <= row < 3 && 0 <= col < 3 && b[row, col] == Empty
    modifies b
    ensures Snapshot(b) == old(Snapshot(b))
    ensures s == MinimaxValue(Place(Snapshot(b), row, col, player), Other(player))
    decreases EmptyCount(Snapshot(b)), 0
  {
    ghost var g := Snapshot(b);
    assert Get(g, row, col) == Empty;
    PlaceFills(g, row, col, player);
    Write(b, row, col, player);
    s := Minimax(b, Other(player));
    Write(b, row, col, Empty);
    PlaceUndo(g, row, col, player);
  }
}

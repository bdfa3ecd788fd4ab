/** The 3x3 board of tic-tac-toe: cell values, the board as a value, the eight
    winning lines, and the bridge from the mutable board (an array2) to the value. */
module Board {

  datatype Option<+T> = None | Some(value: T)

  /** A cell holds nothing ("" in the game) or a player's mark. */
  datatype Cell = Empty | X | O

  /** The two marks that can be placed. */
  type Player = c: Cell | c != Empty witness X

  function Other(p: Player): (q: Player)
    ensures q != p
  {
    if p == X then O else X
  }

  /** The board as a value: its nine cells in row-major order, so that cell
      (row, col) is at index 3 * row + col. */
  type Grid = g: seq<Cell> | |g| == 9
    witness [Empty, Empty, Empty, Empty, Empty, Empty, Empty, Empty, Empty]

  const EmptyGrid: Grid := [Empty, Empty, Empty, Empty, Empty, Empty, Empty, Empty, Empty]

  /** The cell in the given row and column. */
  function Get(g: Grid, row: int, col: int): Cell
    requires 0 <= row < 3 && 0 <= col < 3
  {
    g[3 * row + col]
  }

  predicate InRange(cell: (int, int)) {
    0 <= cell.0 < 3 && 0 <= cell.1 < 3
  }

  predicate AllInRange(cells: seq<(int, int)>) {
    forall k | 0 <= k < |cells| :: InRange(cells[k])
  }

  function At(g: Grid, cell: (int, int)): Cell
    requires InRange(cell)
  {
    Get(g, cell.0, cell.1)
  }

  /** Index k of the row-major order is row k / 3, column k % 3. */
  lemma RowMajorIndex(k: int)
    requires 0 <= k < 9
    ensures 0 <= k / 3 < 3 && 0 <= k % 3 < 3 && k == 3 * (k / 3) + k % 3
  {
  }

  /** The board with one cell overwritten. */
  function Place(g: Grid, row: int, col: int, v: Cell): (h: Grid)
    requires 0 <= row < 3 && 0 <= col < 3
    ensures Get(h, row, col) == v
    ensures forall r, c | 0 <= r < 3 && 0 <= c < 3 && (r != row || c != col) :: Get(h, r, c) == Get(g, r, c)
  {
    g[3 * row + col := v]
  }

  /** Two boards with the same cells are the same board. */
  lemma GridsEqual(g: Grid, h: Grid)
    requires forall r, c | 0 <= r < 3 && 0 <= c < 3 :: Get(g, r, c) == Get(h, r, c)
    ensures g == h
  {
    forall k | 0 <= k < 9
      ensures g[k] == h[k]
    {
      RowMajorIndex(k);
      assert Get(g, k / 3, k % 3) == Get(h, k / 3, k % 3);
    }
  }

  /** No cell is empty. */
  predicate IsFull(g: Grid) {
    forall r, c | 0 <= r < 3 && 0 <= c < 3 :: Get(g, r, c) != Empty
  }

  predicate RowFilled(g: Grid, p: Player, r: int)
    requires 0 <= r < 3
  {
    forall c | 0 <= c < 3 :: Get(g, r, c) == p
  }

  predicate ColFilled(g: Grid, p: Player, c: int)
    requires 0 <= c < 3
  {
    forall r | 0 <= r < 3 :: Get(g, r, c) == p
  }

  /** Win detection as the game scans for it: some row, then some column, then
      the main diagonal or the anti-diagonal holds p in every cell. */
  predicate Wins(g: Grid, p: Player)
  {
    (exists r | 0 <= r < 3 :: RowFilled(g, p, r)) ||
    (exists c | 0 <= c < 3 :: ColFilled(g, p, c)) ||
    (forall i | 0 <= i < 3 :: Get(g, i, i) == p) ||
    (forall i | 0 <= i < 3 :: AntiDiagonal(g, i) == p)
  }

  /** Cell i of the anti-diagonal, from the top-right corner down. */
  function AntiDiagonal(g: Grid, i: int): Cell
    requires 0 <= i < 3
  {
    Get(g, i, 2 - i)
  }

  /** The eight lines of the board: three rows, three columns, two diagonals. */
  const Lines: seq<seq<(int, int)>> := [
    [(0, 0), (0, 1), (0, 2)], [(1, 0), (1, 1), (1, 2)], [(2, 0), (2, 1), (2, 2)],
    [(0, 0), (1, 0), (2, 0)], [(0, 1), (1, 1), (2, 1)], [(0, 2), (1, 2), (2, 2)],
    [(0, 0), (1, 1), (2, 2)], [(0, 2), (1, 1), (2, 0)]
  ]

  /** Player p holds every cell of the given line. */
  predicate Fills(g: Grid, p: Player, line: seq<(int, int)>)
    requires AllInRange(line)
  {
    forall k | 0 <= k < |line| :: At(g, line[k]) == p
  }

  /** The scan in Wins finds a win exactly when one of the eight lines is filled. */
  lemma WinsIffSomeLine(g: Grid, p: Player)
    ensures Wins(g, p) <==> exists k | 0 <= k < |Lines| :: Fills(g, p, Lines[k])
  {
    if Wins(g, p) {
      var k := WinningLine(g, p);
    }
    if k :| 0 <= k < |Lines| && Fills(g, p, Lines[k]) {
      LineWins(g, p, k);
    }
  }

  /** A win found by the scan names a filled line of the table. */
  lemma WinningLine(g: Grid, p: Player) returns (k: int)
    requires Wins(g, p)
    ensures 0 <= k < |Lines| && Fills(g, p, Lines[k])
  {
    var r := if RowFilled(g, p, 0) then 0 else if RowFilled(g, p, 1) then 1 else 2;
    var c := if ColFilled(g, p, 0) then 0 else if ColFilled(g, p, 1) then 1 else 2;
    if RowFilled(g, p, r) {
      k := r;
      assert Get(g, r, 0) == p && Get(g, r, 1) == p && Get(g, r, 2) == p;
    } else if ColFilled(g, p, c) {
      k := 3 + c;
      assert Get(g, 0, c) == p && Get(g, 1, c) == p && Get(g, 2, c) == p;
    } else if forall i | 0 <= i < 3 :: Get(g, i, i) == p {
      k := 6;
      assert Get(g, 0, 0) == p && Get(g, 1, 1) == p && Get(g, 2, 2) == p;
    } else {
      k := 7;
      assert AntiDiagonal(g, 0) == p && AntiDiagonal(g, 1) == p && AntiDiagonal(g, 2) == p;
    }
  }

  /** A filled line of the table is found by the scan. */
  lemma LineWins(g: Grid, p: Player, k: int)
    requires 0 <= k < |Lines| && Fills(g, p, Lines[k])
    ensures Wins(g, p)
  {
    assert At(g, Lines[k][0]) == p && At(g, Lines[k][1]) == p && At(g, Lines[k][2]) == p;
    if k < 3 {
      assert RowFilled(g, p, k);
    } else if k < 6 {
      assert ColFilled(g, p, k - 3);
    }
  }

  /** Number of empty cells in a run of cells; on the board it measures how
      far a game can still go. */
  function EmptyCount(s: seq<Cell>): nat
  {
    if s == [] then 0 else (if s[0] == Empty then 1 else 0) + EmptyCount(s[1..])
  }

  lemma {:induction false} FillCounts(s: seq<Cell>, i: int, p: Player)
    requires 0 <= i < |s| && s[i] == Empty
    ensures EmptyCount(s[i := p]) + 1 == EmptyCount(s)
    decreases i
  {
    if i == 0 {
      assert s[i := p][1..] == s[1..];
    } else {
      FillCounts(s[1..], i - 1, p);
      assert s[i := p][1..] == s[1..][i - 1 := p];
    }
  }

  /** Marking an empty cell removes exactly one empty cell. */
  lemma PlaceFills(g: Grid, row: int, col: int, p: Player)
    requires 0 <= row < 3 && 0 <= col < 3 && Get(g, row, col) == Empty
    ensures EmptyCount(Place(g, row, col, p)) + 1 == EmptyCount(g)
  {
    FillCounts(g, 3 * row + col, p);
  }

  /** The value held by a 3x3 array: the game's board at this moment. */
  function Snapshot(b: array2<Cell>): (g: Grid)
    reads b
    requires b.Length0 == 3 && b.Length1 == 3
    ensures forall r, c | 0 <= r < 3 && 0 <= c < 3 :: Get(g, r, c) == b[r, c]
  {
    [b[0, 0], b[0, 1], b[0, 2], b[1, 0], b[1, 1], b[1, 2], b[2, 0], b[2, 1], b[2, 2]]
  }

  /** A 3x3 array with no mark on it holds the empty board. */
  lemma BlankSnapshot(b: array2<Cell>)
    requires b.Length0 == 3 && b.Length1 == 3
    requires forall r, c | 0 <= r < 3 && 0 <= c < 3 :: b[r, c] == Empty
    ensures Snapshot(b) == EmptyGrid
  {
    GridsEqual(Snapshot(b), EmptyGrid);
  }

  /** Writing one cell of the array changes its value as Place says. */
  method Write(b: array2<Cell>, row: int, col: int, v: Cell)
    requires b.Length0 == 3 && b.Length1 == 3 && 0 <= row < 3 && 0 <= col < 3
    modifies b
    ensures Snapshot(b) == Place(old(Snapshot(b)), row, col, v)
  {
    ghost var g := Snapshot(b);
    b[row, col] := v;
    GridsEqual(Snapshot(b), Place(g, row, col, v));
  }

  /** Clearing a cell that was just marked on an empty cell gives back the board. */
  lemma PlaceUndo(g: Grid, row: int, col: int, p: Player)
    requires 0 <= row < 3 && 0 <= col < 3 && Get(g, row, col) == Empty
    ensures Place(Place(g, row, col, p), row, col, Empty) == g
  {
    assert Place(Place(g, row, col, p), row, col, Empty) == g[3 * row + col := Empty];
  }
}

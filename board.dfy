/** Board grids: the integer grid built by src/modules/board.py, the cell
    records a combatant's board holds, and the single-cell write every
    mutator of a grid is made of. */
module Board {
  import opened Utils

  /** One cell of a combatant's board: `state` is 0 water, 1 intact ship,
      2 missed shot, 3 hit ship; `ship` names the ship placed there. */
  datatype Cell = Cell(state: int, ship: Option<string>)

  const Water := Cell(0, None)

  predicate InGrid<T>(g: seq<seq<T>>, r: int, c: int) {
    0 <= r < |g| && 0 <= c < |g[r]|
  }

  /** g has n rows of n entries each. */
  predicate IsSquare<T>(g: seq<seq<T>>, n: int) {
    |g| == n && forall r :: 0 <= r < |g| ==> |g[r]| == n
  }

  /** On a square grid of side n, is_within_bounds holds of exactly the
      cells the grid can be indexed at. */
  lemma WithinBoundsIsInGrid<T>(g: seq<seq<T>>, n: int, r: int, c: int)
    requires IsSquare(g, n)
    ensures IsWithinBounds(r, c, n) <==> InGrid(g, r, c)
  {
  }

  predicate SameShape<T, U>(a: seq<seq<T>>, b: seq<seq<U>>) {
    |a| == |b| && forall r :: 0 <= r < |a| ==> |a[r]| == |b[r]|
  }

  /** Writes one cell. Rows are separate values, so no other cell, in this
      row or in any other, changes. */
  function SetCell<T>(g: seq<seq<T>>, r: int, c: int, v: T): (h: seq<seq<T>>)
    requires InGrid(g, r, c)
    ensures SameShape(h, g)
    ensures h[r][c] == v
    ensures forall i, j :: InGrid(g, i, j) && (i != r || j != c) ==> h[i][j] == g[i][j]
  {
    g[r := g[r][c := v]]
  }

  /** Writes the value v into every cell of the list, in order. */
  function Paint<T>(g: seq<seq<T>>, cells: seq<(int, int)>, v: T): (h: seq<seq<T>>)
    requires forall k :: 0 <= k < |cells| ==> InGrid(g, cells[k].0, cells[k].1)
    ensures SameShape(h, g)
    decreases |cells|
  {
    if cells == [] then g
    else
      var last := cells[|cells| - 1];
      var h := Paint(g, cells[..|cells| - 1], v);
      assert InGrid(g, last.0, last.1) && |h[last.0]| == |g[last.0]|;
      SetCell(h, last.0, last.1, v)
  }

  /** After painting, exactly the listed cells hold v; every other cell is
      as before. */
  lemma {:induction false} PaintAt<T>(g: seq<seq<T>>, cells: seq<(int, int)>, v: T, r: int, c: int)
    requires forall k :: 0 <= k < |cells| ==> InGrid(g, cells[k].0, cells[k].1)
    requires InGrid(g, r, c)
    ensures Paint(g, cells, v)[r][c] == if (r, c) in cells then v else g[r][c]
    decreases |cells|
  {
    if cells != [] {
      var init := cells[..|cells| - 1];
      PaintAt(g, init, v, r, c);
      assert cells == init + [cells[|cells| - 1]];
    }
  }

  /** The grid a combatant's board object holds. The class itself is not
      part of the shown program; this is the minimal container its callers
      rely on: a fixed side `size` and a `grid` of cells. */
  class GameBoard {
    const size: nat
    var grid: seq<seq<Cell>>

    ghost predicate Valid()
      reads this
    {
      IsSquare(grid, size)
    }

    constructor (size: nat)
      ensures Valid() && this.size == size
      ensures forall r, c :: InGrid(grid, r, c) ==> grid[r][c] == Water
    {
      this.size := size;
      grid := seq(size, _ => seq(size, _ => Water));
    }
  }

  /** board.py's create_board: `size` separate rows of `size` zeros, built by
      appending in two nested loops. */
  method CreateBoard(size: nat) returns (board: seq<seq<int>>)
    ensures IsSquare(board, size)
    ensures forall r, c :: InGrid(board, r, c) ==> board[r][c] == 0
  {
    board := [];
    var i := 0;
    while i < size
      invariant 0 <= i <= size
      invariant |board| == i
      invariant forall r :: 0 <= r < i ==> |board[r]| == size
      invariant forall r, c :: InGrid(board, r, c) ==> board[r][c] == 0
    {
      var row: seq<int> := [];
      var j := 0;
      while j < size
        invariant 0 <= j <= size
        invariant |row| == j
        invariant forall c :: 0 <= c < j ==> row[c] == 0
      {
        row := row + [0];
        j := j + 1;
      }
      board := board + [row];
      i := i + 1;
    }
  }
}

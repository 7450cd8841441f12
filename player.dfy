/** A combatant (src/modules/player.py): its board, fleet and counters, ship
    placement against its own list of occupied cells, the cell state machine
    of an incoming shot, and the three stamina- or radar-gated abilities. */
module Player {
  import opened Utils
  import opened Board
  import opened Warships

  datatype AttackResult = Hit | Miss | AlreadyAttacked

  /** What a shot reports about a cell: a ship (1) is hit, water (0) is a
      miss, and any other state has been shot at before. */
  function ResultOf(c: Cell): AttackResult {
    if c.state == 1 then Hit else if c.state == 0 then Miss else AlreadyAttacked
  }

  /** The cell after a shot: ship 1 becomes hit 3, water 0 becomes miss 2,
      any other state stays. */
  function Struck(c: Cell): Cell {
    if c.state == 1 then c.(state := 3) else if c.state == 0 then c.(state := 2) else c
  }

  /** One incoming shot on values: the grid, the defender's life and the
      result after a shot at (r, c). */
  function Strike(g: seq<seq<Cell>>, life: int, r: int, c: int): (out: (seq<seq<Cell>>, int, AttackResult))
    requires InGrid(g, r, c)
    ensures SameShape(out.0, g)
  {
    var cell := g[r][c];
    (if ResultOf(cell) == AlreadyAttacked then g else SetCell(g, r, c, Struck(cell)),
     if ResultOf(cell) == Hit then life - 1 else life,
     ResultOf(cell))
  }

  /** Hit and miss are terminal: a second shot at the same cell reports
      already_attacked and changes neither the grid nor life. */
  lemma StrikeTwiceIsNoOp(g: seq<seq<Cell>>, life: int, r: int, c: int)
    requires InGrid(g, r, c)
    ensures var (g1, l1, _) := Strike(g, life, r, c);
      InGrid(g1, r, c) && Strike(g1, l1, r, c) == (g1, l1, AlreadyAttacked)
  {
  }

  /** A shot costs life exactly when it hits, and only the target cell can
      change. */
  lemma StrikeEffect(g: seq<seq<Cell>>, life: int, r: int, c: int)
    requires InGrid(g, r, c)
    ensures var (g1, l1, res) := Strike(g, life, r, c);
      (l1 == life - 1 <==> res == Hit) && (l1 == life <==> res != Hit)
      && g1[r][c] == Struck(g[r][c])
      && forall i, j :: InGrid(g, i, j) && (i != r || j != c) ==> g1[i][j] == g[i][j]
  {
  }

  type Shot = (int, int, AttackResult)

  predicate AllInGrid<T>(g: seq<seq<T>>, cells: seq<(int, int)>) {
    forall k :: 0 <= k < |cells| ==> InGrid(g, cells[k].0, cells[k].1)
  }

  /** Shots at the listed cells in order, each seeing the grid the earlier
      ones left, collecting (row, col, result) per shot. */
  function Barrage(g: seq<seq<Cell>>, life: int, cells: seq<(int, int)>): (out: (seq<seq<Cell>>, int, seq<Shot>))
    requires AllInGrid(g, cells)
    ensures SameShape(out.0, g) && |out.2| == |cells|
    decreases |cells|
  {
    if cells == [] then (g, life, [])
    else
      var p := cells[|cells| - 1];
      var prev := Barrage(g, life, cells[..|cells| - 1]);
      assert InGrid(g, p.0, p.1) && |prev.0[p.0]| == |g[p.0]|;
      var s := Strike(prev.0, prev.1, p.0, p.1);
      (s.0, s.1, prev.2 + [(p.0, p.1, s.2)])
  }

  /** Ship cells among the listed ones. */
  function ShipsAt(g: seq<seq<Cell>>, cells: seq<(int, int)>): nat
    requires AllInGrid(g, cells)
    decreases |cells|
  {
    if cells == [] then 0
    else
      var p := cells[|cells| - 1];
      ShipsAt(g, cells[..|cells| - 1]) + (if g[p.0][p.1].state == 1 then 1 else 0)
  }

  /** After a barrage on distinct cells, exactly the listed cells are
      struck; every other cell is as before. */
  lemma {:induction false} BarrageGrid(g: seq<seq<Cell>>, life: int, cells: seq<(int, int)>, r: int, c: int)
    requires AllInGrid(g, cells) && NoDuplicates(cells) && InGrid(g, r, c)
    ensures Barrage(g, life, cells).0[r][c] == if (r, c) in cells then Struck(g[r][c]) else g[r][c]
    decreases |cells|
  {
    if cells != [] {
      var init := cells[..|cells| - 1];
      var p := cells[|cells| - 1];
      assert cells == init + [p];
      BarrageGrid(g, life, init, r, c);
      BarrageGrid(g, life, init, p.0, p.1);
      assert p !in init by {
        forall k | 0 <= k < |init| ensures init[k] != p {
          assert init[k] == cells[k];
        }
      }
    }
  }

  /** Each shot of a barrage on distinct cells reports what its cell held
      before the barrage, and life drops by the number of ship cells hit. */
  lemma {:induction false} BarrageShots(g: seq<seq<Cell>>, life: int, cells: seq<(int, int)>)
    requires AllInGrid(g, cells) && NoDuplicates(cells)
    ensures forall k :: 0 <= k < |cells| ==>
      Barrage(g, life, cells).2[k] == (cells[k].0, cells[k].1, ResultOf(g[cells[k].0][cells[k].1]))
    ensures Barrage(g, life, cells).1 == life - ShipsAt(g, cells)
    decreases |cells|
  {
    if cells != [] {
      var init := cells[..|cells| - 1];
      var p := cells[|cells| - 1];
      BarrageShots(g, life, init);
      assert p !in init by {
        forall k | 0 <= k < |init| ensures init[k] != p {
          assert init[k] == cells[k];
        }
      }
      BarrageGrid(g, life, init, p.0, p.1);
    }
  }

  /** The cells of row r from column c0 up to (not including) c1. */
  function RowCells(r: int, c0: int, c1: int): seq<(int, int)>
    decreases c1 - c0
  {
    if c1 <= c0 then [] else RowCells(r, c0, c1 - 1) + [(r, c1 - 1)]
  }

  /** The block [r0, r1) x [c0, c1) in row-major order, the order of two
      nested `for` loops over rows and then columns. */
  function Block(r0: int, r1: int, c0: int, c1: int): seq<(int, int)>
    decreases r1 - r0
  {
    if r1 <= r0 then [] else Block(r0, r1 - 1, c0, c1) + RowCells(r1 - 1, c0, c1)
  }

  /** p comes strictly before q in row-major order. */
  predicate RowMajorBefore(p: (int, int), q: (int, int)) {
    p.0 < q.0 || (p.0 == q.0 && p.1 < q.1)
  }

  predicate RowMajorSorted(s: seq<(int, int)>) {
    forall i, j :: 0 <= i < j < |s| ==> RowMajorBefore(s[i], s[j])
  }

  lemma {:induction false} RowCellsShape(r: int, c0: int, c1: int)
    ensures forall p :: p in RowCells(r, c0, c1) <==> p.0 == r && c0 <= p.1 < c1
    ensures RowMajorSorted(RowCells(r, c0, c1))
    ensures |RowCells(r, c0, c1)| == if c1 <= c0 then 0 else c1 - c0
    decreases c1 - c0
  {
    if c1 > c0 {
      RowCellsShape(r, c0, c1 - 1);
    }
  }

  lemma SortedConcat(a: seq<(int, int)>, b: seq<(int, int)>)
    requires RowMajorSorted(a) && RowMajorSorted(b)
    requires forall x, y :: x in a && y in b ==> RowMajorBefore(x, y)
    ensures RowMajorSorted(a + b)
  {
    forall i, j | 0 <= i < j < |a + b| ensures RowMajorBefore((a + b)[i], (a + b)[j]) {
      if j < |a| {
      } else if i >= |a| {
        assert (a + b)[i] == b[i - |a|] && (a + b)[j] == b[j - |a|];
      } else {
        assert (a + b)[i] == a[i] && (a + b)[j] == b[j - |a|];
      }
    }
  }

  /** A block holds exactly the cells of its rectangle, each once, in
      row-major order. */
  lemma {:induction false} BlockShape(r0: int, r1: int, c0: int, c1: int)
    ensures forall p :: p in Block(r0, r1, c0, c1) <==> r0 <= p.0 < r1 && c0 <= p.1 < c1
    ensures RowMajorSorted(Block(r0, r1, c0, c1))
    decreases r1 - r0
  {
    if r1 > r0 {
      BlockShape(r0, r1 - 1, c0, c1);
      RowCellsShape(r1 - 1, c0, c1);
      SortedConcat(Block(r0, r1 - 1, c0, c1), RowCells(r1 - 1, c0, c1));
    }
  }

  lemma SortedHasNoDuplicates(s: seq<(int, int)>)
    requires RowMajorSorted(s)
    ensures NoDuplicates(s)
  {
  }

  /** The cells special_attack_square fires at: the 2x2 block from the
      target, cut at the board's far edges. */
  function SquareCells(row: nat, col: nat, n: nat): seq<(int, int)> {
    Block(row, Min(row + 2, n), col, Min(col + 2, n))
  }

  /** Those cells are exactly [row, min(row+2, n)) x [col, min(col+2, n)),
      in row-major order, at most four of them. */
  lemma SquareCellsShape(row: nat, col: nat, n: nat)
    ensures forall p :: p in SquareCells(row, col, n) <==>
      row <= p.0 < Min(row + 2, n) && col <= p.1 < Min(col + 2, n)
    ensures RowMajorSorted(SquareCells(row, col, n)) && NoDuplicates(SquareCells(row, col, n))
    ensures |SquareCells(row, col, n)| <= 4
  {
    BlockShape(row, Min(row + 2, n), col, Min(col + 2, n));
    SortedHasNoDuplicates(SquareCells(row, col, n));
    var r1, c1 := Min(row + 2, n), Min(col + 2, n);
    RowCellsShape(row, col, c1);
    RowCellsShape(row + 1, col, c1);
    if r1 > row + 1 {
      assert Block(row, r1, col, c1) == Block(row, row + 1, col, c1) + RowCells(row + 1, col, c1);
      assert Block(row, row + 1, col, c1) == Block(row, row, col, c1) + RowCells(row, col, c1);
    } else if r1 > row {
      assert Block(row, r1, col, c1) == Block(row, row, col, c1) + RowCells(row, col, c1);
    }
  }

  /** The cells special_attack_line fires at among the first k of the three
      cells from (row, col): those with row and column below n. */
  function LineCells(row: nat, col: nat, o: Orientation, n: nat, k: nat): seq<(int, int)>
    decreases k
  {
    if k == 0 then []
    else
      var p := ShipCell(row, col, o, k - 1);
      LineCells(row, col, o, n, k - 1) + (if p.0 < n && p.1 < n then [p] else [])
  }

  /** The line ability spans three cells. */
  const LineLength: nat := 3

  function LineTargets(row: nat, col: nat, o: Orientation, n: nat): seq<(int, int)> {
    LineCells(row, col, o, n, LineLength)
  }

  /** Exactly the on-board cells among the first k from (row, col) going
      right (H) or down (V). */
  lemma {:induction false} LineCellsShape(row: nat, col: nat, o: Orientation, n: nat, k: nat)
    ensures forall p :: p in LineCells(row, col, o, n, k) <==>
      exists i :: 0 <= i < k && p == ShipCell(row, col, o, i) && p.0 < n && p.1 < n
    ensures |LineCells(row, col, o, n, k)| <= k
    decreases k
  {
    if k > 0 {
      LineCellsShape(row, col, o, n, k - 1);
      var p := ShipCell(row, col, o, k - 1);
      var prev := LineCells(row, col, o, n, k - 1);
      forall q | q in LineCells(row, col, o, n, k)
        ensures exists i :: 0 <= i < k && q == ShipCell(row, col, o, i) && q.0 < n && q.1 < n
      {
        if q !in prev {
          assert q == p;
        }
      }
    }
  }

  /** The cells come in laying order, all before the k-th cell of the
      line, so none is fired at twice. */
  lemma {:induction false} LineCellsSorted(row: nat, col: nat, o: Orientation, n: nat, k: nat)
    ensures RowMajorSorted(LineCells(row, col, o, n, k)) && NoDuplicates(LineCells(row, col, o, n, k))
    ensures forall q :: q in LineCells(row, col, o, n, k) ==> RowMajorBefore(q, ShipCell(row, col, o, k))
    decreases k
  {
    if k > 0 {
      LineCellsSorted(row, col, o, n, k - 1);
      var p := ShipCell(row, col, o, k - 1);
      var prev := LineCells(row, col, o, n, k - 1);
      if p.0 < n && p.1 < n {
        SortedConcat(prev, [p]);
        assert LineCells(row, col, o, n, k) == prev + [p];
      }
    }
    SortedHasNoDuplicates(LineCells(row, col, o, n, k));
  }

  /** The square ability's whole effect on a square board: exactly the
      cells of the 2x2 block (cut at the far edges) are struck, life drops
      by the ship cells among them, and each shot reports its cell's state
      before the ability. */
  lemma SquareBarrageEffect(g: seq<seq<Cell>>, life: int, row: nat, col: nat, n: nat)
    requires IsSquare(g, n)
    ensures AllInGrid(g, SquareCells(row, col, n))
    ensures var cells := SquareCells(row, col, n); var out := Barrage(g, life, cells);
      (forall r, c :: InGrid(g, r, c) ==>
        out.0[r][c] == if row <= r < row + 2 && col <= c < col + 2 then Struck(g[r][c]) else g[r][c])
      && out.1 == life - ShipsAt(g, cells)
      && |out.2| <= 4
      && forall k :: 0 <= k < |out.2| ==> out.2[k] == (cells[k].0, cells[k].1, ResultOf(g[cells[k].0][cells[k].1]))
  {
    var cells := SquareCells(row, col, n);
    SquareCellsShape(row, col, n);
    assert AllInGrid(g, cells) by {
      forall k | 0 <= k < |cells| ensures InGrid(g, cells[k].0, cells[k].1) {
        assert cells[k] in cells;
      }
    }
    forall r, c | InGrid(g, r, c)
      ensures Barrage(g, life, cells).0[r][c] == if row <= r < row + 2 && col <= c < col + 2 then Struck(g[r][c]) else g[r][c]
    {
      BarrageGrid(g, life, cells, r, c);
    }
    BarrageShots(g, life, cells);
  }

  /** The line ability's whole effect on a square board: exactly the
      on-board cells among the three from (row, col), rightwards (H) or
      downwards (V), are struck; life and shots as for the square. */
  lemma LineBarrageEffect(g: seq<seq<Cell>>, life: int, row: nat, col: nat, o: Orientation, n: nat)
    requires IsSquare(g, n)
    ensures AllInGrid(g, LineTargets(row, col, o, n))
    ensures var cells := LineTargets(row, col, o, n); var out := Barrage(g, life, cells);
      (forall r, c :: InGrid(g, r, c) ==>
        out.0[r][c] == if (o == H && r == row && col <= c < col + 3) || (o == V && c == col && row <= r < row + 3)
                       then Struck(g[r][c]) else g[r][c])
      && out.1 == life - ShipsAt(g, cells)
      && |out.2| <= 3
      && forall k :: 0 <= k < |out.2| ==> out.2[k] == (cells[k].0, cells[k].1, ResultOf(g[cells[k].0][cells[k].1]))
  {
    var cells := LineTargets(row, col, o, n);
    LineCellsShape(row, col, o, n, LineLength);
    LineCellsSorted(row, col, o, n, LineLength);
    assert AllInGrid(g, cells) by {
      forall k | 0 <= k < |cells| ensures InGrid(g, cells[k].0, cells[k].1) {
        assert cells[k] in cells;
      }
    }
    forall r, c | InGrid(g, r, c)
      ensures Barrage(g, life, cells).0[r][c] ==
        if (o == H && r == row && col <= c < col + 3) || (o == V && c == col && row <= r < row + 3)
        then Struck(g[r][c]) else g[r][c]
    {
      BarrageGrid(g, life, cells, r, c);
      LineTargetAt(row, col, o, n, r, c);
    }
    BarrageShots(g, life, cells);
  }

  /** An on-board cell is a line target iff it is one of the three cells
      from (row, col) in the line's direction. */
  lemma LineTargetAt(row: nat, col: nat, o: Orientation, n: nat, r: int, c: int)
    requires 0 <= r < n && 0 <= c < n
    ensures (r, c) in LineTargets(row, col, o, n) <==>
      (o == H && r == row && col <= c < col + 3) || (o == V && c == col && row <= r < row + 3)
  {
    var p0, p1, p2 := ShipCell(row, col, o, 0), ShipCell(row, col, o, 1), ShipCell(row, col, o, 2);
    var e0 := if p0.0 < n && p0.1 < n then [p0] else [];
    var e1 := if p1.0 < n && p1.1 < n then [p1] else [];
    var e2 := if p2.0 < n && p2.1 < n then [p2] else [];
    assert LineCells(row, col, o, n, 1) == e0 by {
      assert LineCells(row, col, o, n, 0) == [];
    }
    assert LineCells(row, col, o, n, 2) == e0 + e1;
    assert LineTargets(row, col, o, n) == e0 + e1 + e2;
  }

  /** The 3x3 window around (row, col) the radar scans, cut at the board's
      edges. */
  predicate InRadarWindow(row: int, col: int, n: int, r: int, c: int) {
    Max(0, row - 1) <= r < Min(row + 2, n) && Max(0, col - 1) <= c < Min(col + 2, n)
  }

  lemma NoDuplicatesConcat<T>(a: seq<T>, b: seq<T>)
    requires NoDuplicates(a) && NoDuplicates(b)
    requires forall x :: x in b ==> x !in a
    ensures NoDuplicates(a + b)
  {
    forall i, j | 0 <= i < j < |a + b| ensures (a + b)[i] != (a + b)[j] {
      if j < |a| {
        assert (a + b)[j] == a[j] && (a + b)[i] == a[i];
      } else if i < |a| {
        assert (a + b)[j] == b[j - |a|] && (a + b)[i] == a[i];
        assert b[j - |a|] in b;
      } else {
        assert (a + b)[j] == b[j - |a|] && (a + b)[i] == b[i - |a|];
      }
    }
  }

  /** Appending the cells of a ship that fits keeps the placed cells on the
      board and pairwise distinct. */
  lemma PlacedStayApart(placed: seq<(int, int)>, cells: seq<(int, int)>, n: int)
    requires NoDuplicates(placed) && NoDuplicates(cells)
    requires forall k :: 0 <= k < |placed| ==> IsWithinBounds(placed[k].0, placed[k].1, n)
    requires forall k :: 0 <= k < |cells| ==> IsWithinBounds(cells[k].0, cells[k].1, n) && cells[k] !in placed
    ensures NoDuplicates(placed + cells)
    ensures forall k :: 0 <= k < |placed + cells| ==> IsWithinBounds((placed + cells)[k].0, (placed + cells)[k].1, n)
  {
    NoDuplicatesConcat(placed, cells);
    forall k | 0 <= k < |placed + cells|
      ensures IsWithinBounds((placed + cells)[k].0, (placed + cells)[k].1, n)
    {
      if k >= |placed| {
        assert (placed + cells)[k] == cells[k - |placed|];
      }
    }
  }

  /** Life a fleet gives: one point per ship cell. */
  function FleetLife(fleet: seq<Ship>): int
    decreases |fleet|
  {
    if fleet == [] then 0 else FleetLife(fleet[..|fleet| - 1]) + fleet[|fleet| - 1].size
  }

  lemma {:induction false} FleetLifeIsTotalSize(fleet: seq<Ship>, ships: seq<(string, nat)>)
    requires |fleet| == |ships|
    requires forall k :: 0 <= k < |fleet| ==> fleet[k].size == ships[k].1
    ensures FleetLife(fleet) == TotalSize(ships)
    decreases |fleet|
  {
    if fleet != [] {
      FleetLifeIsTotalSize(fleet[..|fleet| - 1], ships[..|ships| - 1]);
    }
  }

  /** One shot of a multi-cell attack: fired at the defender and appended
      to the shots so far, which stay the barrage of the cells done. */
  method FireNext(defender: Player, r: int, c: int, shots: seq<Shot>,
                  ghost g0: seq<seq<Cell>>, ghost l0: int, ghost done: seq<(int, int)>)
    returns (shots': seq<Shot>)
    requires defender.board.Valid() && IsWithinBounds(r, c, defender.board.size)
    requires AllInGrid(g0, done) && InGrid(g0, r, c)
    requires (defender.board.grid, defender.life, shots) == Barrage(g0, l0, done)
    modifies defender`life, defender.board`grid
    ensures defender.board.Valid() && AllInGrid(g0, done + [(r, c)])
    ensures (defender.board.grid, defender.life, shots') == Barrage(g0, l0, done + [(r, c)])
  {
    var res := defender.ReceiveAttack(r, c);
    shots' := shots + [(r, c, res)];
    assert (done + [(r, c)])[..|done|] == done;
  }

  /** The two nested loops of the 2x2 ability: rows row .. min(row+2, N)-1,
      and in each the columns col .. min(col+2, N)-1, one shot per cell. */
  method SquareVolley(defender: Player, row: nat, col: nat) returns (shots: seq<Shot>)
    requires defender.board.Valid()
    modifies defender`life, defender.board`grid
    ensures defender.board.Valid()
    ensures AllInGrid(old(defender.board.grid), SquareCells(row, col, defender.board.size))
    ensures (defender.board.grid, defender.life, shots)
      == Barrage(old(defender.board.grid), old(defender.life), SquareCells(row, col, defender.board.size))
  {
    var n := defender.board.size;
    ghost var g0, l0 := defender.board.grid, defender.life;
    var rEnd, cEnd := Min(row + 2, n), Min(col + 2, n);
    ghost var cells: seq<(int, int)> := [];
    shots := [];
    var r := row;
    while r < rEnd
      invariant row <= r <= Max(row, rEnd)
      invariant defender.board.Valid()
      invariant cells == Block(row, r, col, cEnd)
      invariant AllInGrid(g0, cells)
      invariant (defender.board.grid, defender.life, shots) == Barrage(g0, l0, cells)
    {
      shots := RowVolley(defender, r, col, cEnd, shots, g0, l0, cells);
      BlockStep(row, r, col, cEnd);
      cells := cells + RowCells(r, col, cEnd);
      r := r + 1;
    }
    BlockDone(row, r, rEnd, col, cEnd);
  }

  lemma BlockStep(r0: int, r: int, c0: int, c1: int)
    requires r0 <= r
    ensures Block(r0, r + 1, c0, c1) == Block(r0, r, c0, c1) + RowCells(r, c0, c1)
  {
  }

  lemma BlockDone(r0: int, r: int, r1: int, c0: int, c1: int)
    requires r0 <= r <= Max(r0, r1) && r >= r1
    ensures Block(r0, r, c0, c1) == Block(r0, r1, c0, c1)
  {
  }

  /** The inner loop of the 2x2 ability: one shot per column c0 .. c1-1 of
      row r. */
  method RowVolley(defender: Player, r: nat, c0: nat, c1: nat, shots: seq<Shot>,
                   ghost g0: seq<seq<Cell>>, ghost l0: int, ghost before: seq<(int, int)>)
    returns (shots': seq<Shot>)
    requires defender.board.Valid() && r < defender.board.size && c1 <= defender.board.size
    requires IsSquare(g0, defender.board.size) && AllInGrid(g0, before)
    requires (defender.board.grid, defender.life, shots) == Barrage(g0, l0, before)
    modifies defender`life, defender.board`grid
    ensures defender.board.Valid()
    ensures AllInGrid(g0, before + RowCells(r, c0, c1))
    ensures (defender.board.grid, defender.life, shots') == Barrage(g0, l0, before + RowCells(r, c0, c1))
  {
    shots' := shots;
    var c := c0;
    ghost var done := before;
    assert before + RowCells(r, c0, c) == before;
    while c < c1
      invariant c0 <= c <= Max(c0, c1)
      invariant defender.board.Valid()
      invariant done == before + RowCells(r, c0, c)
      invariant AllInGrid(g0, done)
      invariant (defender.board.grid, defender.life, shots') == Barrage(g0, l0, done)
    {
      RowCellsStep(before, r, c0, c);
      shots' := FireNext(defender, r, c, shots', g0, l0, done);
      done := done + [(r, c)];
      c := c + 1;
    }
    assert RowCells(r, c0, c) == RowCells(r, c0, c1);
  }

  lemma RowCellsStep(before: seq<(int, int)>, r: int, c0: int, c: int)
    requires c0 <= c
    ensures before + RowCells(r, c0, c + 1) == (before + RowCells(r, c0, c)) + [(r, c)]
  {
  }

  /** The loop of the line ability: for i in 0, 1, 2 the cell i steps from
      (row, col), shot at only when its row and column are below N. */
  method LineVolley(defender: Player, row: nat, col: nat, o: Orientation) returns (shots: seq<Shot>)
    requires defender.board.Valid()
    modifies defender`life, defender.board`grid
    ensures defender.board.Valid()
    ensures AllInGrid(old(defender.board.grid), LineTargets(row, col, o, defender.board.size))
    ensures (defender.board.grid, defender.life, shots)
      == Barrage(old(defender.board.grid), old(defender.life), LineTargets(row, col, o, defender.board.size))
  {
    shots := LineLoop(defender, row, col, o, LineLength);
  }

  /** The first k iterations of the line ability's loop. */
  method LineLoop(defender: Player, row: nat, col: nat, o: Orientation, k: nat) returns (shots: seq<Shot>)
    requires defender.board.Valid()
    modifies defender`life, defender.board`grid
    ensures defender.board.Valid()
    ensures AllInGrid(old(defender.board.grid), LineCells(row, col, o, defender.board.size, k))
    ensures (defender.board.grid, defender.life, shots)
      == Barrage(old(defender.board.grid), old(defender.life), LineCells(row, col, o, defender.board.size, k))
  {
    var n := defender.board.size;
    ghost var g0, l0 := defender.board.grid, defender.life;
    shots := [];
    var i := 0;
    while i < k
      invariant 0 <= i <= k
      invariant defender.board.Valid()
      invariant AllInGrid(g0, LineCells(row, col, o, n, i))
      invariant (defender.board.grid, defender.life, shots) == Barrage(g0, l0, LineCells(row, col, o, n, i))
    {
      shots := LineStep(defender, row, col, o, i, shots, g0, l0);
      i := i + 1;
    }
  }

  /** One iteration of the line ability's loop. */
  method LineStep(defender: Player, row: nat, col: nat, o: Orientation, i: nat, shots: seq<Shot>,
                  ghost g0: seq<seq<Cell>>, ghost l0: int)
    returns (shots': seq<Shot>)
    requires defender.board.Valid() && IsSquare(g0, defender.board.size)
    requires AllInGrid(g0, LineCells(row, col, o, defender.board.size, i))
    requires (defender.board.grid, defender.life, shots) == Barrage(g0, l0, LineCells(row, col, o, defender.board.size, i))
    modifies defender`life, defender.board`grid
    ensures defender.board.Valid() && AllInGrid(g0, LineCells(row, col, o, defender.board.size, i + 1))
    ensures (defender.board.grid, defender.life, shots') == Barrage(g0, l0, LineCells(row, col, o, defender.board.size, i + 1))
  {
    var n := defender.board.size;
    var (r, c) := ShipCell(row, col, o, i);
    if r < n && c < n {
      assert LineCells(row, col, o, n, i + 1) == LineCells(row, col, o, n, i) + [(r, c)];
      shots' := FireNext(defender, r, c, shots, g0, l0, LineCells(row, col, o, n, i));
    } else {
      assert LineCells(row, col, o, n, i + 1) == LineCells(row, col, o, n, i);
      shots' := shots;
    }
  }

  /** The two kinds of Python value the radar's comparison meets: a board
      cell, which the source stores as a record of state and ship, and an
      integer. */
  datatype Value = Record(cell: Cell) | Int(i: int)

  /** Python's `==` on these values: values of different kinds are never
      equal, values of one kind are equal when their contents are. */
  predicate PyEquals(a: Value, b: Value) {
    a == b
  }

  /** A cell record never equals an integer, so the source's radar test
      `grid[r][c] == 1` is false on every cell. */
  lemma RecordIsNeverInt(cell: Cell, v: int)
    ensures !PyEquals(Record(cell), Int(v))
  {
  }

  /** The radar as written and as intended, side by side: two scouts with a
      radar use left each scan (0, 0) of a 2x2 board whose only ship cell
      is (0, 0). The written comparison misses it; the state comparison
      reports it. */
  method RadarDiscrepancy(first: Player, second: Player, foe: Player)
    returns (asWritten: Option<(int, int)>, corrected: Option<(int, int)>)
    requires first != second && first.radar > 0 && second.radar > 0
    requires foe.board.Valid() && foe.board.size == 2
    requires foe.board.grid == [[Cell(1, Some("Destructor")), Water], [Water, Water]]
    modifies first`radar, second`radar
    ensures asWritten == None
    ensures corrected == Some((0, 0))
  {
    asWritten := first.UseRadarAsWritten(foe, 0, 0);
    ghost var g: seq<seq<Cell>> := foe.board.grid;
    assert g[0][1].state == 0 && g[1][0].state == 0 && g[1][1].state == 0;
    corrected := second.UseRadar(foe, 0, 0);
    assert InRadarWindow(0, 0, 2, 0, 0) && g[0][0].state == 1;
    assert foe.board.grid == g;
    assert corrected.Some?;
    assert 0 <= corrected.value.0 < 2 && 0 <= corrected.value.1 < 2;
  }

  class Player {
    const name: string
    const board: GameBoard
    const fleet: seq<Ship>
    var life: int
    var stamina: int
    var shields: int
    var radar: int
    /** Every cell a ship was placed on through PlaceShip. */
    var placedShips: seq<(int, int)>
    /** What this combatant knows of the opponent's grid: 0 unknown, 1 water,
        2 hit. */
    var attackBoard: seq<seq<int>>
    var turnSkipped: bool
    var tempShield: bool

    /** The board is square, and the placed cells are on it and never
        shared by two ships. */
    ghost predicate Valid()
      reads this, board
    {
      board.Valid()
      && NoDuplicates(placedShips)
      && forall k :: 0 <= k < |placedShips| ==> IsWithinBounds(placedShips[k].0, placedShips[k].1, board.size)
    }

    /** A combatant starts with the default fleet, one life point per ship
        cell (26), stamina 5, two shields, one radar use and nothing placed. */
    constructor (name: string, board: GameBoard)
      requires board.Valid()
      ensures Valid() && this.name == name && this.board == board
      ensures |fleet| == |Expand(ShipDefinitions)|
      ensures forall k :: 0 <= k < |fleet| ==>
        (fleet[k].name, fleet[k].size) == Expand(ShipDefinitions)[k] && fleet[k].positions == []
      ensures life == FleetLife(fleet) == 26
      ensures stamina == 5 && shields == 2 && radar == 1 && placedShips == []
      ensures IsSquare(attackBoard, board.size)
      ensures forall r, c :: InGrid(attackBoard, r, c) ==> attackBoard[r][c] == 0
      ensures !turnSkipped && !tempShield
    {
      this.name := name;
      this.board := board;
      var f := CreateFleet();
      fleet := f;
      FleetLifeIsTotalSize(f, Expand(ShipDefinitions));
      FleetCatalogue();
      life := FleetLife(f);
      stamina := 5;
      shields := 2;
      radar := 1;
      placedShips := [];
      var ab := CreateBoard(board.size);
      attackBoard := ab;
      turnSkipped := false;
      tempShield := false;
    }

    /** A ship of `ship.size` cells fits from (startRow, startCol) when every
        cell is on the board and none is already taken by a placed ship. */
    method CanPlaceShip(ship: Ship, startRow: int, startCol: int, o: Orientation) returns (ok: bool)
      ensures ok <==> forall i :: 0 <= i < ship.size ==>
        IsWithinBounds(ShipCell(startRow, startCol, o, i).0, ShipCell(startRow, startCol, o, i).1, board.size)
        && ShipCell(startRow, startCol, o, i) !in placedShips
    {
      var i := 0;
      while i < ship.size
        invariant 0 <= i <= ship.size
        invariant forall j :: 0 <= j < i ==>
          IsWithinBounds(ShipCell(startRow, startCol, o, j).0, ShipCell(startRow, startCol, o, j).1, board.size)
          && ShipCell(startRow, startCol, o, j) !in placedShips
      {
        var row := startRow + (if o == V then i else 0);
        var col := startCol + (if o == H then i else 0);
        assert (row, col) == ShipCell(startRow, startCol, o, i);
        if row >= board.size || col >= board.size || row < 0 || col < 0 {
          return false;
        }
        if (row, col) in placedShips {
          return false;
        }
        i := i + 1;
      }
      return true;
    }

    /** Places the ship if it fits: its cells are appended to placedShips
        and each becomes an intact ship cell carrying the ship's name. If it
        does not fit, nothing changes. */
    method PlaceShip(ship: Ship, startRow: int, startCol: int, o: Orientation) returns (placed: bool)
      requires Valid()
      modifies this`placedShips, board`grid, ship`positions
      ensures Valid()
      ensures placed <==> forall i :: 0 <= i < ship.size ==>
        IsWithinBounds(ShipCell(startRow, startCol, o, i).0, ShipCell(startRow, startCol, o, i).1, board.size)
        && ShipCell(startRow, startCol, o, i) !in old(placedShips)
      ensures !placed ==>
        placedShips == old(placedShips) && board.grid == old(board.grid) && ship.positions == old(ship.positions)
      ensures placed ==>
        var cells := ShipCells(startRow, startCol, o, ship.size);
        ship.positions == cells
        && placedShips == old(placedShips) + cells
        && board.grid == Paint(old(board.grid), cells, Cell(1, Some(ship.name)))
    {
      placed := CanPlaceShip(ship, startRow, startCol, o);
      if !placed {
        return;
      }
      var onBoard := ship.Place(startRow, startCol, o, board.size);
      assert onBoard;
      ShipCellsAreDistinct(startRow, startCol, o, ship.size);
      PlacedStayApart(placedShips, ship.positions, board.size);
      Occupy(ship.positions, Cell(1, Some(ship.name)));
    }

    /** The loop of place_ship: each cell is appended to placedShips and
        written with v, in order. */
    method Occupy(cells: seq<(int, int)>, v: Cell)
      requires board.Valid()
      requires forall k :: 0 <= k < |cells| ==> IsWithinBounds(cells[k].0, cells[k].1, board.size)
      modifies this`placedShips, board`grid
      ensures board.Valid()
      ensures AllInGrid(old(board.grid), cells)
      ensures placedShips == old(placedShips) + cells
      ensures board.grid == Paint(old(board.grid), cells, v)
    {
      assert AllInGrid(board.grid, cells);
      var k := 0;
      while k < |cells|
        invariant 0 <= k <= |cells|
        invariant placedShips == old(placedShips) + cells[..k]
        invariant board.grid == Paint(old(board.grid), cells[..k], v)
        invariant board.Valid()
      {
        var pos := cells[k];
        assert cells[..k + 1] == cells[..k] + [pos];
        placedShips := placedShips + [pos];
        board.grid := SetCell(board.grid, pos.0, pos.1, v);
        k := k + 1;
      }
      assert cells[..k] == cells;
    }

    /** A shot received at (row, col): an intact ship cell becomes hit and
        costs one life point, water becomes a miss, and a cell already shot
        at reports so with nothing changed. */
    method ReceiveAttack(row: int, col: int) returns (result: AttackResult)
      requires board.Valid() && IsWithinBounds(row, col, board.size)
      modifies this`life, board`grid
      ensures board.Valid()
      ensures old(board.grid[row][col].state) == 1 ==>
        result == Hit && life == old(life) - 1
        && board.grid == SetCell(old(board.grid), row, col, old(board.grid[row][col]).(state := 3))
      ensures old(board.grid[row][col].state) == 0 ==>
        result == Miss && life == old(life)
        && board.grid == SetCell(old(board.grid), row, col, old(board.grid[row][col]).(state := 2))
      ensures old(board.grid[row][col].state) != 0 && old(board.grid[row][col].state) != 1 ==>
        result == AlreadyAttacked && life == old(life) && board.grid == old(board.grid)
      ensures (board.grid, life, result) == Strike(old(board.grid), old(life), row, col)
    {
      var cell := board.grid[row][col];
      if cell.state == 1 {
        board.grid := SetCell(board.grid, row, col, cell.(state := 3));
        life := life - 1;
        return Hit;
      } else if cell.state == 0 {
        board.grid := SetCell(board.grid, row, col, cell.(state := 2));
        return Miss;
      }
      return AlreadyAttacked;
    }

    /** A normal shot at the opponent; a hit earns one stamina point. */
    method Attack(opponent: Player, row: int, col: int) returns (result: AttackResult)
      requires opponent.board.Valid() && IsWithinBounds(row, col, opponent.board.size)
      modifies this`stamina, opponent`life, opponent.board`grid
      ensures opponent.board.Valid()
      ensures (opponent.board.grid, opponent.life, result)
        == Strike(old(opponent.board.grid), old(opponent.life), row, col)
      ensures stamina == old(stamina) + (if result == Hit then 1 else 0)
    {
      result := opponent.ReceiveAttack(row, col);
      if result == Hit {
        stamina := stamina + 1;
      }
    }

    /** The 2x2 ability: refused (None, nothing changed) below 2 stamina;
        otherwise costs 2 and fires, in row-major order, at the block
        [row, min(row+2, N)) x [col, min(col+2, N)) of the opponent's board. */
    method SpecialAttackSquare(opponent: Player, row: nat, col: nat) returns (results: Option<seq<Shot>>)
      requires opponent.board.Valid()
      modifies this`stamina, opponent`life, opponent.board`grid
      ensures opponent.board.Valid()
      ensures old(stamina) < 2 ==>
        results == None && stamina == old(stamina)
        && opponent.life == old(opponent.life) && opponent.board.grid == old(opponent.board.grid)
      ensures old(stamina) >= 2 ==> stamina == old(stamina) - 2 && results.Some?
      ensures old(stamina) >= 2 ==> AllInGrid(old(opponent.board.grid), SquareCells(row, col, opponent.board.size))
      ensures old(stamina) >= 2 ==>
        (opponent.board.grid, opponent.life, results.value)
        == Barrage(old(opponent.board.grid), old(opponent.life), SquareCells(row, col, opponent.board.size))
    {
      if stamina < 2 {
        return None;
      }
      stamina := stamina - 2;
      var shots := SquareVolley(opponent, row, col);
      results := Some(shots);
    }

    /** The line ability: refused (None, nothing changed) below 3 stamina;
        otherwise costs 3 and fires at those of the three cells from
        (row, col), going right (H) or down (V), that are on the board. */
    method SpecialAttackLine(opponent: Player, row: nat, col: nat, o: Orientation) returns (results: Option<seq<Shot>>)
      requires opponent.board.Valid()
      modifies this`stamina, opponent`life, opponent.board`grid
      ensures opponent.board.Valid()
      ensures old(stamina) < 3 ==>
        results == None && stamina == old(stamina)
        && opponent.life == old(opponent.life) && opponent.board.grid == old(opponent.board.grid)
      ensures old(stamina) >= 3 ==> stamina == old(stamina) - 3 && results.Some?
      ensures old(stamina) >= 3 ==> AllInGrid(old(opponent.board.grid), LineTargets(row, col, o, opponent.board.size))
      ensures old(stamina) >= 3 ==>
        (opponent.board.grid, opponent.life, results.value)
        == Barrage(old(opponent.board.grid), old(opponent.life), LineTargets(row, col, o, opponent.board.size))
    {
      if stamina < 3 {
        return None;
      }
      stamina := stamina - 3;
      var shots := LineVolley(opponent, row, col, o);
      results := Some(shots);
    }

    /** The radar: refused (None, nothing changed) without radar uses left;
        otherwise uses one up, whatever it finds, and reports the first
        intact ship cell, in row-major order, of the 3x3 window around
        (row, col) cut at the board's edges, or None if the window holds
        none. */
    method UseRadar(opponent: Player, row: int, col: int) returns (found: Option<(int, int)>)
      requires opponent.board.Valid()
      modifies this`radar
      ensures old(radar) <= 0 ==> found == None && radar == old(radar)
      ensures old(radar) > 0 ==> radar == old(radar) - 1
      ensures found.Some? ==>
        var (fr, fc) := found.value;
        InRadarWindow(row, col, opponent.board.size, fr, fc)
        && opponent.board.grid[fr][fc].state == 1
        && forall r, c :: InRadarWindow(row, col, opponent.board.size, r, c) && RowMajorBefore((r, c), (fr, fc))
             ==> opponent.board.grid[r][c].state != 1
      ensures old(radar) > 0 && found.None? ==>
        forall r, c :: InRadarWindow(row, col, opponent.board.size, r, c) ==> opponent.board.grid[r][c].state != 1
    {
      if radar <= 0 {
        return None;
      }
      radar := radar - 1;
      var n := opponent.board.size;
      var r0, r1 := Max(0, row - 1), Min(row + 2, n);
      var c0, c1 := Max(0, col - 1), Min(col + 2, n);
      var r := r0;
      while r < r1
        invariant r0 <= r
        invariant forall i, j :: InRadarWindow(row, col, n, i, j) && i < r ==> opponent.board.grid[i][j].state != 1
      {
        var c := c0;
        while c < c1
          invariant c0 <= c
          invariant forall i, j :: InRadarWindow(row, col, n, i, j) && i < r ==> opponent.board.grid[i][j].state != 1
          invariant forall j :: c0 <= j < c && j < c1 ==> opponent.board.grid[r][j].state != 1
        {
          if opponent.board.grid[r][c].state == 1 {
            return Some((r, c));
          }
          c := c + 1;
        }
        r := r + 1;
      }
      return None;
    }

    /** use_radar as written: the scan compares the whole cell record with
        1 rather than its state, so it never reports a cell; the radar use
        is spent all the same. */
    method UseRadarAsWritten(opponent: Player, row: int, col: int) returns (found: Option<(int, int)>)
      requires opponent.board.Valid()
      modifies this`radar
      ensures old(radar) <= 0 ==> radar == old(radar)
      ensures old(radar) > 0 ==> radar == old(radar) - 1
      ensures found == None
    {
      if radar <= 0 {
        return None;
      }
      radar := radar - 1;
      var n := opponent.board.size;
      var r0, r1 := Max(0, row - 1), Min(row + 2, n);
      var c0, c1 := Max(0, col - 1), Min(col + 2, n);
      var r := r0;
      while r < r1
        invariant r0 <= r
      {
        var c := c0;
        while c < c1
          invariant c0 <= c
        {
          if PyEquals(Record(opponent.board.grid[r][c]), Int(1)) {
            return Some((r, c));
          }
          c := c + 1;
        }
        r := r + 1;
      }
      return None;
    }
  }
}

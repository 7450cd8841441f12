/** Ship placement by the human player (src/modules/game_logic.py): the
    fit test and the grid write on a board object, and the placement loop
    that turns keyboard and mouse events, frame by frame, into placed ships. */
module GameLogic {
  import opened Utils
  import opened Board
  import opened Warships

  /** The fit test on a grid: every one of the `size` cells from
      (row, col) is on the board and carries no ship. */
  predicate Fits(g: seq<seq<Cell>>, n: int, size: nat, row: int, col: int, o: Orientation)
    requires IsSquare(g, n)
  {
    forall i :: 0 <= i < size ==>
      IsWithinBounds(ShipCell(row, col, o, i).0, ShipCell(row, col, o, i).1, n)
      && g[ShipCell(row, col, o, i).0][ShipCell(row, col, o, i).1].ship == None
  }

  /** The grid after a ship is written from (row, col): its cells hold an
      intact cell carrying its name, every other cell is as before. */
  function Placed(g: seq<seq<Cell>>, n: int, ship: (string, nat), row: int, col: int, o: Orientation): (h: seq<seq<Cell>>)
    requires IsSquare(g, n) && Fits(g, n, ship.1, row, col, o)
    ensures IsSquare(h, n)
    ensures forall r, c :: InGrid(g, r, c) ==>
      h[r][c] == if (r, c) in ShipCells(row, col, o, ship.1) then Cell(1, Some(ship.0)) else g[r][c]
    ensures forall i :: 0 <= i < ship.1 ==>
      h[ShipCell(row, col, o, i).0][ShipCell(row, col, o, i).1] == Cell(1, Some(ship.0))
  {
    var cells := ShipCells(row, col, o, ship.1);
    PaintEverywhere(g, cells, Cell(1, Some(ship.0)));
    CellsListed(row, col, o, ship.1);
    Paint(g, cells, Cell(1, Some(ship.0)))
  }

  lemma CellsListed(row: int, col: int, o: Orientation, size: nat)
    ensures forall i :: 0 <= i < size ==> ShipCell(row, col, o, i) in ShipCells(row, col, o, size)
  {
    forall i | 0 <= i < size
      ensures ShipCell(row, col, o, i) in ShipCells(row, col, o, size)
    {
      assert ShipCells(row, col, o, size)[i] == ShipCell(row, col, o, i);
    }
  }

  lemma PaintEverywhere(g: seq<seq<Cell>>, cells: seq<(int, int)>, v: Cell)
    requires forall k :: 0 <= k < |cells| ==> InGrid(g, cells[k].0, cells[k].1)
    ensures forall r, c :: InGrid(g, r, c) ==> Paint(g, cells, v)[r][c] == if (r, c) in cells then v else g[r][c]
  {
    forall r, c | InGrid(g, r, c)
      ensures Paint(g, cells, v)[r][c] == if (r, c) in cells then v else g[r][c]
    {
      PaintAt(g, cells, v, r, c);
    }
  }

  /** can_place_ship: a read-only scan of the ship's cells that stops at the
      first one off the board or already carrying a ship. */
  method CanPlaceShip(board: GameBoard, size: nat, startRow: int, startCol: int, o: Orientation) returns (ok: bool)
    requires board.Valid()
    ensures ok <==> forall i :: 0 <= i < size ==>
      IsWithinBounds(ShipCell(startRow, startCol, o, i).0, ShipCell(startRow, startCol, o, i).1, board.size)
      && board.grid[ShipCell(startRow, startCol, o, i).0][ShipCell(startRow, startCol, o, i).1].ship == None
  {
    for i := 0 to size
      invariant forall j :: 0 <= j < i ==>
        IsWithinBounds(ShipCell(startRow, startCol, o, j).0, ShipCell(startRow, startCol, o, j).1, board.size)
        && board.grid[ShipCell(startRow, startCol, o, j).0][ShipCell(startRow, startCol, o, j).1].ship == None
    {
      var (row, col) := ShipCell(startRow, startCol, o, i);
      if !IsWithinBounds(row, col, board.size) || board.grid[row][col].ship != None {
        return false;
      }
    }
    return true;
  }

  /** place_ship: each of the ship's cells becomes an intact ship cell
      carrying the ship's name; no other cell changes. The source indexes the
      grid without a check, so the cells must be on the board. */
  method PlaceShip(board: GameBoard, ship: Ship, startRow: int, startCol: int, o: Orientation)
    requires board.Valid() && AllWithinBounds(startRow, startCol, o, ship.size, board.size)
    modifies board`grid
    ensures board.Valid()
    ensures forall r, c :: InGrid(old(board.grid), r, c) ==>
      board.grid[r][c] == if (r, c) in ShipCells(startRow, startCol, o, ship.size) then Cell(1, Some(ship.name)) else old(board.grid[r][c])
    ensures board.grid == Paint(old(board.grid), ShipCells(startRow, startCol, o, ship.size), Cell(1, Some(ship.name)))
  {
    ghost var g0 := board.grid;
    var v := Cell(1, Some(ship.name));
    for i := 0 to ship.size
      invariant board.Valid()
      invariant board.grid == Paint(g0, ShipCells(startRow, startCol, o, i), v)
    {
      var (row, col) := ShipCell(startRow, startCol, o, i);
      assert ShipCells(startRow, startCol, o, i + 1) == ShipCells(startRow, startCol, o, i) + [(row, col)];
      board.grid := SetCell(board.grid, row, col, v);
    }
    forall r, c | InGrid(g0, r, c)
      ensures board.grid[r][c] == if (r, c) in ShipCells(startRow, startCol, o, ship.size) then v else g0[r][c]
    {
      PaintAt(g0, ShipCells(startRow, startCol, o, ship.size), v, r, c);
    }
  }

  /** The orientation toggle of the V key and the right mouse button. */
  function Toggle(o: Orientation): (r: Orientation)
    ensures r != o
  {
    if o == V then H else V
  }

  lemma ToggleTwice(o: Orientation)
    ensures Toggle(Toggle(o)) == o
  {
  }

  /** The input events the placement loop reacts to; the quit event ends the
      process and is not part of this model. */
  datatype Event =
    | KeyPress(key: Key)
    | Motion(x: int, y: int)
    | ButtonDown(button: int, x: int, y: int)
    | Ignored

  /** Where the board is drawn: top-left pixel and cell side. */
  datatype Geometry = Geometry(startX: int, startY: int, cellSize: int)

  /** The loop's local variables: ship index, orientation, cursor and the
      running flag. */
  datatype Placing = Placing(idx: nat, o: Orientation, row: int, col: int, running: bool)

  const Start := Placing(0, H, 0, 0, true)

  /** Confirmation: RETURN or SPACE, or the left mouse button. */
  predicate IsConfirm(e: Event) {
    (e.KeyPress? && (e.key == Return || e.key == Space)) || (e.ButtonDown? && e.button == 1)
  }

  /** The cursor after the event's navigation part: arrow keys move it, a
      mouse event over the board puts it on the cell under the pointer. */
  function Cursor(s: Placing, n: int, e: Event, geo: Geometry): (int, int)
    requires geo.cellSize != 0
  {
    match e
    case KeyPress(key) => HandleKeyboardNavigation(key, s.row, s.col, n, n)
    case Motion(x, y) =>
      var sel := HandleMouseSelection(MouseMotion, x, y, geo.startX, geo.startY, geo.cellSize, n);
      if sel.Some? then sel.value else (s.row, s.col)
    case ButtonDown(_, x, y) =>
      var sel := HandleMouseSelection(MouseButtonDown, x, y, geo.startX, geo.startY, geo.cellSize, n);
      if sel.Some? then sel.value else (s.row, s.col)
    case Ignored => (s.row, s.col)
  }

  /** A confirmation with the cursor and orientation of `t`. When the ship
      fits there, exactly its cells become intact cells carrying its name,
      every other cell stays, and the index goes up by one; when it does not
      fit, neither the grid nor the loop state changes. */
  function TryPlace(g: seq<seq<Cell>>, n: int, ship: (string, nat), t: Placing): (out: (seq<seq<Cell>>, Placing))
    requires IsSquare(g, n)
    ensures IsSquare(out.0, n)
    ensures Fits(g, n, ship.1, t.row, t.col, t.o) ==>
      out.1 == t.(idx := t.idx + 1)
      && (forall i :: 0 <= i < ship.1 ==>
            out.0[ShipCell(t.row, t.col, t.o, i).0][ShipCell(t.row, t.col, t.o, i).1] == Cell(1, Some(ship.0)))
      && (forall r, c :: InGrid(g, r, c) && (r, c) !in ShipCells(t.row, t.col, t.o, ship.1) ==> out.0[r][c] == g[r][c])
    ensures !Fits(g, n, ship.1, t.row, t.col, t.o) ==> out == (g, t)
  {
    if Fits(g, n, ship.1, t.row, t.col, t.o) then (Placed(g, n, ship, t.row, t.col, t.o), t.(idx := t.idx + 1))
    else (g, t)
  }

  /** One event of the placement loop, with `ship` the ship being placed.
      ESCAPE clears the running flag; the cursor moves; V or the right button
      toggles the orientation; a confirmation places the ship and advances
      the index exactly when the ship fits at the cursor. */
  function StepEvent(g: seq<seq<Cell>>, n: int, s: Placing, ship: (string, nat), e: Event, geo: Geometry): (out: (seq<seq<Cell>>, Placing))
    requires IsSquare(g, n) && geo.cellSize != 0
    ensures IsSquare(out.0, n)
    ensures (out.1.row, out.1.col) == Cursor(s, n, e, geo)
    ensures out.1.running == (s.running && e != KeyPress(Escape))
    ensures out.1.o == if e == KeyPress(KeyV) || (e.ButtonDown? && e.button == 3) then Toggle(s.o) else s.o
    ensures out.1.idx == s.idx + 1 <==> IsConfirm(e) && Fits(g, n, ship.1, out.1.row, out.1.col, out.1.o)
    ensures out.1.idx == s.idx || out.1.idx == s.idx + 1
    ensures out.1.idx == s.idx ==> out.0 == g
    ensures out.1.idx == s.idx + 1 ==>
      Fits(g, n, ship.1, out.1.row, out.1.col, out.1.o) && out.0 == Placed(g, n, ship, out.1.row, out.1.col, out.1.o)
  {
    var (r, c) := Cursor(s, n, e, geo);
    match e
    case KeyPress(key) =>
      var t := Placing(s.idx, if key == KeyV then Toggle(s.o) else s.o, r, c, if key == Escape then false else s.running);
      if key == Return || key == Space then TryPlace(g, n, ship, t) else (g, t)
    case Motion(_, _) =>
      (g, s.(row := r, col := c))
    case ButtonDown(button, _, _) =>
      var t := s.(row := r, col := c);
      if button == 1 then TryPlace(g, n, ship, t)
      else if button == 3 then (g, t.(o := Toggle(t.o)))
      else (g, t)
    case Ignored =>
      (g, s)
  }

  /** A confirmation carried out on the board object. */
  method Confirm(board: GameBoard, ship: Ship, t: Placing) returns (t': Placing)
    requires board.Valid()
    modifies board`grid
    ensures board.Valid()
    ensures (board.grid, t') == TryPlace(old(board.grid), board.size, (ship.name, ship.size), t)
  {
    t' := t;
    var ok := CanPlaceShip(board, ship.size, t.row, t.col, t.o);
    if ok {
      PlaceShip(board, ship, t.row, t.col, t.o);
      t' := t.(idx := t.idx + 1);
    }
  }

  /** One event, carried out on the board object. */
  method HandleEvent(board: GameBoard, ship: Ship, s: Placing, e: Event, geo: Geometry) returns (t: Placing)
    requires board.Valid() && geo.cellSize != 0
    modifies board`grid
    ensures board.Valid()
    ensures (board.grid, t) == StepEvent(old(board.grid), board.size, s, (ship.name, ship.size), e, geo)
  {
    t := s;
    match e {
      case KeyPress(key) =>
        if key == Escape {
          t := t.(running := false);
        }
        var (r, c) := HandleKeyboardNavigation(key, t.row, t.col, board.size, board.size);
        t := t.(row := r, col := c);
        if key == KeyV {
          t := t.(o := Toggle(t.o));
        }
        if key == Return || key == Space {
          t := Confirm(board, ship, t);
        }
      case Motion(x, y) =>
        var sel := HandleMouseSelection(MouseMotion, x, y, geo.startX, geo.startY, geo.cellSize, board.size);
        if sel.Some? {
          t := t.(row := sel.value.0, col := sel.value.1);
        }
      case ButtonDown(button, x, y) =>
        var sel := HandleMouseSelection(MouseButtonDown, x, y, geo.startX, geo.startY, geo.cellSize, board.size);
        if sel.Some? {
          t := t.(row := sel.value.0, col := sel.value.1);
        }
        if button == 1 {
          t := Confirm(board, ship, t);
        } else if button == 3 {
          t := t.(o := Toggle(t.o));
        }
      case Ignored =>
    }
  }

  /** The events of one frame as the source handles them: the ship is read
      once, at the top of the frame, and every event of the frame uses it. */
  function FrameAsWritten(g: seq<seq<Cell>>, n: int, s: Placing, ship: (string, nat), events: seq<Event>, geo: Geometry): (out: (seq<seq<Cell>>, Placing))
    requires IsSquare(g, n) && geo.cellSize != 0
    ensures IsSquare(out.0, n)
    decreases |events|
  {
    if events == [] then (g, s)
    else
      var prev := FrameAsWritten(g, n, s, ship, events[..|events| - 1], geo);
      StepEvent(prev.0, n, prev.1, ship, events[|events| - 1], geo)
  }

  /** The events of one frame with the ship read at each event, and no event
      handled once every ship is placed. */
  function Frame(g: seq<seq<Cell>>, n: int, s: Placing, fleet: seq<(string, nat)>, events: seq<Event>, geo: Geometry): (out: (seq<seq<Cell>>, Placing))
    requires IsSquare(g, n) && geo.cellSize != 0
    ensures IsSquare(out.0, n)
    ensures s.idx <= out.1.idx
    ensures s.idx <= |fleet| ==> out.1.idx <= |fleet|
    decreases |events|
  {
    if events == [] then (g, s)
    else
      var prev := Frame(g, n, s, fleet, events[..|events| - 1], geo);
      if prev.1.idx < |fleet| then StepEvent(prev.0, n, prev.1, fleet[prev.1.idx], events[|events| - 1], geo)
      else prev
  }

  /** The frame loop as the source runs it: a frame is handled while the
      loop runs and ships remain. */
  function RunAsWritten(g: seq<seq<Cell>>, n: int, s: Placing, fleet: seq<(string, nat)>, frames: seq<seq<Event>>, geo: Geometry): (out: (seq<seq<Cell>>, Placing))
    requires IsSquare(g, n) && geo.cellSize != 0
    ensures IsSquare(out.0, n)
    decreases |frames|
  {
    if frames == [] then (g, s)
    else
      var prev := RunAsWritten(g, n, s, fleet, frames[..|frames| - 1], geo);
      if prev.1.running && prev.1.idx < |fleet| then
        FrameAsWritten(prev.0, n, prev.1, fleet[prev.1.idx], frames[|frames| - 1], geo)
      else prev
  }

  /** The frame loop with the per-event ship. */
  function Run(g: seq<seq<Cell>>, n: int, s: Placing, fleet: seq<(string, nat)>, frames: seq<seq<Event>>, geo: Geometry): (out: (seq<seq<Cell>>, Placing))
    requires IsSquare(g, n) && geo.cellSize != 0
    ensures IsSquare(out.0, n)
    ensures s.idx <= out.1.idx
    ensures s.idx <= |fleet| ==> out.1.idx <= |fleet|
    decreases |frames|
  {
    if frames == [] then (g, s)
    else
      var prev := Run(g, n, s, fleet, frames[..|frames| - 1], geo);
      if prev.1.running && prev.1.idx < |fleet| then
        Frame(prev.0, n, prev.1, fleet, frames[|frames| - 1], geo)
      else prev
  }

  /** What place_ships returns once its loop has ended: whether the index
      reached the fleet's length. While the loop would still wait for input
      there is no result yet. */
  function Outcome(s: Placing, fleetLength: nat): Option<bool> {
    if s.running && s.idx < fleetLength then None else Some(s.idx == fleetLength)
  }

  function Specs(fleet: seq<Ship>): (specs: seq<(string, nat)>)
    ensures |specs| == |fleet|
    ensures forall k :: 0 <= k < |fleet| ==> specs[k] == (fleet[k].name, fleet[k].size)
  {
    seq(|fleet|, k requires 0 <= k < |fleet| => (fleet[k].name, fleet[k].size))
  }

  /** Frames after the loop has stopped change nothing. */
  lemma {:induction false} RunStops(g: seq<seq<Cell>>, n: int, s: Placing, fleet: seq<(string, nat)>,
                                    frames: seq<seq<Event>>, f: nat, geo: Geometry)
    requires IsSquare(g, n) && geo.cellSize != 0 && f <= |frames|
    requires var out := Run(g, n, s, fleet, frames[..f], geo); !(out.1.running && out.1.idx < |fleet|)
    ensures Run(g, n, s, fleet, frames, geo) == Run(g, n, s, fleet, frames[..f], geo)
    decreases |frames| - f
  {
    if f < |frames| {
      var prefix := frames[..f + 1];
      assert prefix[..|prefix| - 1] == frames[..f];
      RunStops(g, n, s, fleet, frames, f + 1, geo);
    } else {
      assert frames[..f] == frames;
    }
  }

  /** One frame on the board object, the ship re-read at each event. */
  method ProcessFrame(board: GameBoard, fleet: seq<Ship>, s: Placing, events: seq<Event>, geo: Geometry) returns (t: Placing)
    requires board.Valid() && geo.cellSize != 0
    modifies board`grid
    ensures board.Valid()
    ensures (board.grid, t) == Frame(old(board.grid), board.size, s, Specs(fleet), events, geo)
  {
    ghost var g0 := board.grid;
    t := s;
    for j := 0 to |events|
      invariant board.Valid()
      invariant (board.grid, t) == Frame(g0, board.size, s, Specs(fleet), events[..j], geo)
    {
      assert events[..j + 1][..j] == events[..j];
      if t.idx < |fleet| {
        t := HandleEvent(board, fleet[t.idx], t, events[j], geo);
      }
    }
    assert events[..|events|] == events;
  }

  /** place_ships: frames are handled while the loop runs and ships remain;
      the result is whether every ship was placed, or None while the loop
      would still wait for input. */
  method PlaceShips(board: GameBoard, fleet: seq<Ship>, frames: seq<seq<Event>>, geo: Geometry) returns (done: Option<bool>)
    requires board.Valid() && geo.cellSize != 0
    modifies board`grid
    ensures board.Valid()
    ensures var out := Run(old(board.grid), board.size, Start, Specs(fleet), frames, geo);
      board.grid == out.0 && done == Outcome(out.1, |fleet|)
  {
    ghost var g0 := board.grid;
    var s := Start;
    var f := 0;
    while s.running && s.idx < |fleet| && f < |frames|
      invariant 0 <= f <= |frames|
      invariant board.Valid()
      invariant (board.grid, s) == Run(g0, board.size, Start, Specs(fleet), frames[..f], geo)
    {
      assert frames[..f + 1][..f] == frames[..f];
      s := ProcessFrame(board, fleet, s, frames[f], geo);
      f := f + 1;
    }
    if f < |frames| {
      RunStops(g0, board.size, Start, Specs(fleet), frames, f, geo);
    } else {
      assert frames[..f] == frames;
    }
    done := if s.running && s.idx < |fleet| then None else Some(s.idx == |fleet|);
  }

  /** Cells that carry a ship are intact ship cells (state 1); this holds
      throughout placement. */
  ghost predicate ShipCellsIntact(g: seq<seq<Cell>>) {
    forall r, c :: InGrid(g, r, c) && g[r][c].ship.Some? ==> g[r][c].state == 1
  }

  /** Some cell carries a ship of this name. */
  ghost predicate Shows(g: seq<seq<Cell>>, name: string) {
    exists r, c :: InGrid(g, r, c) && g[r][c].ship == Some(name)
  }

  /** A guarded placement never overwrites a cell that already carries a
      ship, and the cells it writes are intact ship cells. */
  lemma StepKeepsShips(g: seq<seq<Cell>>, n: int, s: Placing, ship: (string, nat), e: Event, geo: Geometry)
    requires IsSquare(g, n) && geo.cellSize != 0
    ensures var out := StepEvent(g, n, s, ship, e, geo);
      (forall r, c :: InGrid(g, r, c) && g[r][c].ship.Some? ==> out.0[r][c] == g[r][c])
      && (ShipCellsIntact(g) ==> ShipCellsIntact(out.0))
  {
    var out := StepEvent(g, n, s, ship, e, geo);
    if out.1.idx == s.idx + 1 {
      forall r, c | InGrid(g, r, c) && g[r][c].ship.Some?
        ensures out.0[r][c] == g[r][c]
      {
        NotOnFreeCells(g, n, ship.1, out.1.row, out.1.col, out.1.o, r, c);
      }
    }
  }

  /** A cell that carries a ship is none of the cells a fitting ship would
      take. */
  lemma NotOnFreeCells(g: seq<seq<Cell>>, n: int, size: nat, row: int, col: int, o: Orientation, r: int, c: int)
    requires IsSquare(g, n) && Fits(g, n, size, row, col, o)
    requires InGrid(g, r, c) && g[r][c].ship.Some?
    ensures (r, c) !in ShipCells(row, col, o, size)
  {
    var cells := ShipCells(row, col, o, size);
    forall i | 0 <= i < size
      ensures cells[i] != (r, c)
    {
      assert cells[i] == ShipCell(row, col, o, i);
    }
  }

  /** Where a ship counted as placed was laid from: row, column and
      orientation of its first cell. */
  type Anchor = (int, int, Orientation)

  /** The ship laid from `a` lies on the board, and each of its cells is an
      intact ship cell carrying its name. */
  ghost predicate Holds(g: seq<seq<Cell>>, a: Anchor, ship: (string, nat)) {
    forall i :: 0 <= i < ship.1 ==>
      InGrid(g, ShipCell(a.0, a.1, a.2, i).0, ShipCell(a.0, a.1, a.2, i).1)
      && g[ShipCell(a.0, a.1, a.2, i).0][ShipCell(a.0, a.1, a.2, i).1] == Cell(1, Some(ship.0))
  }

  /** Two ships laid from `a` and `b` share no cell. */
  ghost predicate Apart(a: Anchor, sizeA: nat, b: Anchor, sizeB: nat) {
    forall i, j :: 0 <= i < sizeA && 0 <= j < sizeB ==> ShipCell(a.0, a.1, a.2, i) != ShipCell(b.0, b.1, b.2, j)
  }

  /** Cell (r, c) is one of the cells of the ship laid from `a`. */
  ghost predicate Covers(a: Anchor, size: nat, r: int, c: int) {
    exists i :: 0 <= i < size && ShipCell(a.0, a.1, a.2, i) == (r, c)
  }

  /** Placement state that the frame loop keeps, with `anchors` the places
      the ships counted as placed (every index below idx) were laid from:
      each of those ships lies on the board with its own name on each of its
      cells, no two of them share a cell, and every cell that carries a ship
      belongs to one of them. */
  ghost predicate Placement(g: seq<seq<Cell>>, s: Placing, fleet: seq<(string, nat)>, anchors: seq<Anchor>) {
    s.idx <= |fleet| && |anchors| == s.idx
    && (forall k :: 0 <= k < s.idx ==> Holds(g, anchors[k], fleet[k]))
    && (forall k, j :: 0 <= k < j < s.idx ==> Apart(anchors[k], fleet[k].1, anchors[j], fleet[j].1))
    && (forall r, c :: InGrid(g, r, c) && g[r][c].ship.Some? ==>
          exists k :: 0 <= k < s.idx && Covers(anchors[k], fleet[k].1, r, c))
  }

  /** The anchors after an event: a confirmation that placed the ship adds
      the cursor and orientation it was placed with. */
  function Grown(anchors: seq<Anchor>, s: Placing, t: Placing): seq<Anchor> {
    if t.idx == s.idx + 1 then anchors + [(t.row, t.col, t.o)] else anchors
  }

  lemma StepKeepsPlacement(g: seq<seq<Cell>>, n: int, s: Placing, fleet: seq<(string, nat)>, anchors: seq<Anchor>,
                           e: Event, geo: Geometry)
    requires IsSquare(g, n) && geo.cellSize != 0 && s.idx < |fleet| && Placement(g, s, fleet, anchors)
    ensures var out := StepEvent(g, n, s, fleet[s.idx], e, geo);
      Placement(out.0, out.1, fleet, Grown(anchors, s, out.1))
  {
    var out := StepEvent(g, n, s, fleet[s.idx], e, geo);
    if out.1.idx == s.idx + 1 {
      PlacedKeepsPlacement(g, n, s, fleet, anchors, out.1);
    }
  }

  /** The successful-confirmation case of StepKeepsPlacement. */
  lemma PlacedKeepsPlacement(g: seq<seq<Cell>>, n: int, s: Placing, fleet: seq<(string, nat)>, anchors: seq<Anchor>, t: Placing)
    requires IsSquare(g, n) && s.idx < |fleet| && Placement(g, s, fleet, anchors)
    requires t.idx == s.idx + 1 && Fits(g, n, fleet[s.idx].1, t.row, t.col, t.o)
    ensures Placement(Placed(g, n, fleet[s.idx], t.row, t.col, t.o), t, fleet, anchors + [(t.row, t.col, t.o)])
  {
    var ship := fleet[s.idx];
    var h := Placed(g, n, ship, t.row, t.col, t.o);
    var a := anchors + [(t.row, t.col, t.o)];
    OldShipsStay(g, n, fleet, anchors, s.idx, ship, t.row, t.col, t.o);
    NewShipCovers(g, n, fleet, anchors, s.idx, ship, t.row, t.col, t.o);
    assert Holds(h, a[s.idx], fleet[s.idx]);
    forall k | 0 <= k < s.idx
      ensures Holds(h, a[k], fleet[k])
    {
      assert a[k] == anchors[k];
    }
    forall k, j | 0 <= k < j < t.idx
      ensures Apart(a[k], fleet[k].1, a[j], fleet[j].1)
    {
      assert a[k] == anchors[k];
    }
  }

  /** The ships already laid keep their cells, and share none with a ship
      that fits. */
  lemma OldShipsStay(g: seq<seq<Cell>>, n: int, fleet: seq<(string, nat)>, anchors: seq<Anchor>, m: nat,
                     ship: (string, nat), row: int, col: int, o: Orientation)
    requires IsSquare(g, n) && Fits(g, n, ship.1, row, col, o)
    requires m <= |fleet| && m <= |anchors|
    requires forall k :: 0 <= k < m ==> Holds(g, anchors[k], fleet[k])
    ensures forall k :: 0 <= k < m ==> Holds(Placed(g, n, ship, row, col, o), anchors[k], fleet[k])
    ensures forall k :: 0 <= k < m ==> Apart(anchors[k], fleet[k].1, (row, col, o), ship.1)
  {
    var h := Placed(g, n, ship, row, col, o);
    forall k, i | 0 <= k < m && 0 <= i < fleet[k].1
      ensures h[ShipCell(anchors[k].0, anchors[k].1, anchors[k].2, i).0][ShipCell(anchors[k].0, anchors[k].1, anchors[k].2, i).1]
              == Cell(1, Some(fleet[k].0))
    {
      var (r, c) := ShipCell(anchors[k].0, anchors[k].1, anchors[k].2, i);
      assert InGrid(g, r, c) && g[r][c] == Cell(1, Some(fleet[k].0));
      NotOnFreeCells(g, n, ship.1, row, col, o, r, c);
    }
    forall k, i, j | 0 <= k < m && 0 <= i < fleet[k].1 && 0 <= j < ship.1
      ensures ShipCell(anchors[k].0, anchors[k].1, anchors[k].2, i) != ShipCell(row, col, o, j)
    {
      var (r, c) := ShipCell(anchors[k].0, anchors[k].1, anchors[k].2, i);
      assert g[r][c].ship.Some?;
    }
  }

  /** After a ship that fits is written, every ship cell belongs to it or to
      one of the ships laid before. */
  lemma NewShipCovers(g: seq<seq<Cell>>, n: int, fleet: seq<(string, nat)>, anchors: seq<Anchor>, m: nat,
                      ship: (string, nat), row: int, col: int, o: Orientation)
    requires IsSquare(g, n) && Fits(g, n, ship.1, row, col, o)
    requires m < |fleet| && m == |anchors| && fleet[m] == ship
    requires forall r, c :: InGrid(g, r, c) && g[r][c].ship.Some? ==>
      exists k :: 0 <= k < m && Covers(anchors[k], fleet[k].1, r, c)
    ensures var h: seq<seq<Cell>> := Placed(g, n, ship, row, col, o); var a := anchors + [(row, col, o)];
      forall r, c :: InGrid(h, r, c) && h[r][c].ship.Some? ==> exists k :: 0 <= k < m + 1 && Covers(a[k], fleet[k].1, r, c)
  {
    var h: seq<seq<Cell>> := Placed(g, n, ship, row, col, o);
    var a := anchors + [(row, col, o)];
    var cells := ShipCells(row, col, o, ship.1);
    forall r, c | InGrid(h, r, c) && h[r][c].ship.Some?
      ensures exists k :: 0 <= k < m + 1 && Covers(a[k], fleet[k].1, r, c)
    {
      if (r, c) in cells {
        var i :| 0 <= i < ship.1 && cells[i] == (r, c);
        assert Covers(a[m], fleet[m].1, r, c);
      } else {
        assert g[r][c] == h[r][c];
        var k :| 0 <= k < m && Covers(anchors[k], fleet[k].1, r, c);
        assert Covers(a[k], fleet[k].1, r, c);
      }
    }
  }

  lemma {:induction false} FrameKeepsPlacement(g: seq<seq<Cell>>, n: int, s: Placing, fleet: seq<(string, nat)>,
                                               anchors: seq<Anchor>, events: seq<Event>, geo: Geometry)
    requires IsSquare(g, n) && geo.cellSize != 0 && Placement(g, s, fleet, anchors)
    ensures var out := Frame(g, n, s, fleet, events, geo); exists a :: Placement(out.0, out.1, fleet, a)
    decreases |events|
  {
    if events == [] {
      assert Frame(g, n, s, fleet, events, geo) == (g, s);
    } else {
      var prev := Frame(g, n, s, fleet, events[..|events| - 1], geo);
      FrameKeepsPlacement(g, n, s, fleet, anchors, events[..|events| - 1], geo);
      var a :| Placement(prev.0, prev.1, fleet, a);
      if prev.1.idx < |fleet| {
        var out := StepEvent(prev.0, n, prev.1, fleet[prev.1.idx], events[|events| - 1], geo);
        assert Frame(g, n, s, fleet, events, geo) == out;
        StepKeepsPlacement(prev.0, n, prev.1, fleet, a, events[|events| - 1], geo);
        assert Placement(out.0, out.1, fleet, Grown(a, prev.1, out.1));
      } else {
        assert Frame(g, n, s, fleet, events, geo) == prev;
        assert Placement(prev.0, prev.1, fleet, a);
      }
    }
  }

  /** With the ship re-read at each event, the frame loop keeps the
      placement invariant: at any point some anchors account for every ship
      counted as placed and for every ship cell on the board. */
  lemma {:induction false} RunKeepsPlacement(g: seq<seq<Cell>>, n: int, s: Placing, fleet: seq<(string, nat)>,
                                             anchors: seq<Anchor>, frames: seq<seq<Event>>, geo: Geometry)
    requires IsSquare(g, n) && geo.cellSize != 0 && Placement(g, s, fleet, anchors)
    ensures var out := Run(g, n, s, fleet, frames, geo); exists a :: Placement(out.0, out.1, fleet, a)
    decreases |frames|
  {
    if frames == [] {
      assert Run(g, n, s, fleet, frames, geo) == (g, s);
    } else {
      var prev := Run(g, n, s, fleet, frames[..|frames| - 1], geo);
      RunKeepsPlacement(g, n, s, fleet, anchors, frames[..|frames| - 1], geo);
      var a :| Placement(prev.0, prev.1, fleet, a);
      if prev.1.running && prev.1.idx < |fleet| {
        var out := Frame(prev.0, n, prev.1, fleet, frames[|frames| - 1], geo);
        assert Run(g, n, s, fleet, frames, geo) == out;
        FrameKeepsPlacement(prev.0, n, prev.1, fleet, a, frames[|frames| - 1], geo);
        var a' :| Placement(out.0, out.1, fleet, a');
      } else {
        assert Run(g, n, s, fleet, frames, geo) == prev;
        assert var out := Run(g, n, s, fleet, frames, geo); exists a :: Placement(out.0, out.1, fleet, a);
      }
    }
  }

  /** The opening state of place_ships on an empty board satisfies the
      placement invariant with no anchors. */
  lemma StartIsPlacement(g: seq<seq<Cell>>, fleet: seq<(string, nat)>)
    requires forall r, c :: InGrid(g, r, c) ==> g[r][c] == Water
    ensures Placement(g, Start, fleet, [])
  {
  }

  /** With the ship re-read at each event, when place_ships on an empty
      board reports success, every ship of the fleet lies on the board, each
      on cells carrying its own name, no two ships share a cell, and no other
      cell carries a ship. */
  lemma PlacedFleetIsOnBoard(g: seq<seq<Cell>>, n: int, fleet: seq<(string, nat)>, frames: seq<seq<Event>>, geo: Geometry)
    requires IsSquare(g, n) && geo.cellSize != 0
    requires forall r, c :: InGrid(g, r, c) ==> g[r][c] == Water
    ensures var out := Run(g, n, Start, fleet, frames, geo);
      Outcome(out.1, |fleet|) == Some(true) ==>
        exists a: seq<Anchor> :: |a| == |fleet|
          && (forall k :: 0 <= k < |fleet| ==> Holds(out.0, a[k], fleet[k]))
          && (forall k, j :: 0 <= k < j < |fleet| ==> Apart(a[k], fleet[k].1, a[j], fleet[j].1))
          && (forall r, c :: InGrid(out.0, r, c) && out.0[r][c].ship.Some? ==>
                exists k :: 0 <= k < |fleet| && Covers(a[k], fleet[k].1, r, c))
  {
    StartIsPlacement(g, fleet);
    RunKeepsPlacement(g, n, Start, fleet, [], frames, geo);
  }

  const DemoGeometry := Geometry(0, 0, 10)
  const DemoFleet: seq<(string, nat)> := [("Submarino", 2), ("Destructor", 1)]
  const DemoFrame: seq<Event> := [KeyPress(Return), KeyPress(Down), KeyPress(Return)]
  const Sub := Cell(1, Some("Submarino"))
  const Dest := Cell(1, Some("Destructor"))
  const EmptyTwo: seq<seq<Cell>> := [[Water, Water], [Water, Water]]
  const TopRow: seq<seq<Cell>> := [[Sub, Sub], [Water, Water]]
  const SubTwice: seq<seq<Cell>> := [[Sub, Sub], [Sub, Sub]]
  const SubThenDest: seq<seq<Cell>> := [[Sub, Sub], [Dest, Water]]

  lemma DemoFirstConfirm()
    ensures StepEvent(EmptyTwo, 2, Start, DemoFleet[0], KeyPress(Return), DemoGeometry) == (TopRow, Placing(1, H, 0, 0, true))
  {
    var cells := ShipCells(0, 0, H, 2);
    assert cells == [(0, 0), (0, 1)];
    assert Fits(EmptyTwo, 2, 2, 0, 0, H);
    assert cells[..1][..0] == [] && cells[..1] == [(0, 0)];
    assert Paint(EmptyTwo, cells, Sub) == SetCell(SetCell(EmptyTwo, 0, 0, Sub), 0, 1, Sub);
    var g1 := SetCell(EmptyTwo, 0, 0, Sub);
    assert g1[0] == [Sub, Water] && g1[1] == [Water, Water];
    var g2 := SetCell(g1, 0, 1, Sub);
    assert g2[0] == [Sub, Sub] && g2[1] == [Water, Water];
    assert g2 == TopRow;
    assert Cursor(Start, 2, KeyPress(Return), DemoGeometry) == (0, 0);
    assert TryPlace(EmptyTwo, 2, DemoFleet[0], Start) == (TopRow, Placing(1, H, 0, 0, true));
  }

  lemma DemoMoveDown(ship: (string, nat))
    ensures StepEvent(TopRow, 2, Placing(1, H, 0, 0, true), ship, KeyPress(Down), DemoGeometry) == (TopRow, Placing(1, H, 1, 0, true))
  {
  }

  lemma DemoSecondConfirmAsWritten()
    ensures StepEvent(TopRow, 2, Placing(1, H, 1, 0, true), DemoFleet[0], KeyPress(Return), DemoGeometry) == (SubTwice, Placing(2, H, 1, 0, true))
  {
    var cells := ShipCells(1, 0, H, 2);
    assert cells == [(1, 0), (1, 1)];
    assert Fits(TopRow, 2, 2, 1, 0, H);
    assert cells[..1][..0] == [] && cells[..1] == [(1, 0)];
    assert Paint(TopRow, cells, Sub) == SetCell(SetCell(TopRow, 1, 0, Sub), 1, 1, Sub);
    var g1 := SetCell(TopRow, 1, 0, Sub);
    assert g1[0] == [Sub, Sub] && g1[1] == [Sub, Water];
    var g2 := SetCell(g1, 1, 1, Sub);
    assert g2[0] == [Sub, Sub] && g2[1] == [Sub, Sub];
    assert g2 == SubTwice;
    assert Cursor(Placing(1, H, 1, 0, true), 2, KeyPress(Return), DemoGeometry) == (1, 0);
    assert TryPlace(TopRow, 2, DemoFleet[0], Placing(1, H, 1, 0, true)) == (SubTwice, Placing(2, H, 1, 0, true));
  }

  lemma DemoSecondConfirm()
    ensures StepEvent(TopRow, 2, Placing(1, H, 1, 0, true), DemoFleet[1], KeyPress(Return), DemoGeometry) == (SubThenDest, Placing(2, H, 1, 0, true))
  {
    var cells := ShipCells(1, 0, H, 1);
    assert cells == [(1, 0)];
    assert Fits(TopRow, 2, 1, 1, 0, H);
    assert cells[..0] == [];
    assert Paint(TopRow, cells, Dest) == SetCell(TopRow, 1, 0, Dest);
    var g1 := SetCell(TopRow, 1, 0, Dest);
    assert g1[0] == [Sub, Sub] && g1[1] == [Dest, Water];
    assert g1 == SubThenDest;
    assert Cursor(Placing(1, H, 1, 0, true), 2, KeyPress(Return), DemoGeometry) == (1, 0);
    assert TryPlace(TopRow, 2, DemoFleet[1], Placing(1, H, 1, 0, true)) == (SubThenDest, Placing(2, H, 1, 0, true));
  }

  /** As written: two confirmations in one frame on a 2x2 board place the
      Submarino twice, count both ships as placed and report success, while
      the Destructor is nowhere on the board. */
  lemma SameFrameConfirmRepeatsShip()
    ensures var out := RunAsWritten(EmptyTwo, 2, Start, DemoFleet, [DemoFrame], DemoGeometry);
      out == (SubTwice, Placing(2, H, 1, 0, true)) && Outcome(out.1, |DemoFleet|) == Some(true) && !Shows(out.0, "Destructor")
  {
    var f := DemoFrame;
    var frames: seq<seq<Event>> := [f];
    assert frames[..0] == [];
    assert f[..0] == [] && f[..1][..0] == [] && f[..2][..1] == f[..1] && f[..3][..2] == f[..2];
    DemoFirstConfirm();
    DemoMoveDown(DemoFleet[0]);
    DemoSecondConfirmAsWritten();
    assert FrameAsWritten(EmptyTwo, 2, Start, DemoFleet[0], f[..1], DemoGeometry) == (TopRow, Placing(1, H, 0, 0, true));
    assert FrameAsWritten(EmptyTwo, 2, Start, DemoFleet[0], f[..2], DemoGeometry) == (TopRow, Placing(1, H, 1, 0, true));
    assert FrameAsWritten(EmptyTwo, 2, Start, DemoFleet[0], f, DemoGeometry) == (SubTwice, Placing(2, H, 1, 0, true));
  }

  /** With the ship re-read at each event, the same frame places the
      Submarino and then the Destructor. */
  lemma SameFrameConfirmPlacesNextShip()
    ensures var out := Run(EmptyTwo, 2, Start, DemoFleet, [DemoFrame], DemoGeometry);
      out == (SubThenDest, Placing(2, H, 1, 0, true)) && Outcome(out.1, |DemoFleet|) == Some(true)
      && Shows(out.0, "Submarino") && Shows(out.0, "Destructor")
  {
    var f := DemoFrame;
    var frames: seq<seq<Event>> := [f];
    assert frames[..0] == [];
    assert f[..0] == [] && f[..1][..0] == [] && f[..2][..1] == f[..1] && f[..3][..2] == f[..2];
    DemoFirstConfirm();
    DemoMoveDown(DemoFleet[1]);
    DemoSecondConfirm();
    assert Frame(EmptyTwo, 2, Start, DemoFleet, f[..1], DemoGeometry) == (TopRow, Placing(1, H, 0, 0, true));
    assert Frame(EmptyTwo, 2, Start, DemoFleet, f[..2], DemoGeometry) == (TopRow, Placing(1, H, 1, 0, true));
    assert Frame(EmptyTwo, 2, Start, DemoFleet, f, DemoGeometry) == (SubThenDest, Placing(2, H, 1, 0, true));
    assert InGrid(SubThenDest, 0, 0) && SubThenDest[0][0].ship == Some("Submarino");
    assert InGrid(SubThenDest, 1, 0) && SubThenDest[1][0].ship == Some("Destructor");
  }
}

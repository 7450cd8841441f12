/** Helpers of the input layer (src/modules/utils.py): board bounds, clamped
    cursor movement with the arrow keys, and the mapping from a mouse position
    in pixels to a board cell. */
module Utils {

  datatype Option<+T> = None | Some(value: T)

  /** A cell lies on a square board of side boardSize. */
  predicate IsWithinBounds(row: int, col: int, boardSize: int) {
    0 <= row < boardSize && 0 <= col < boardSize
  }

  /** The cases the source's unit tests exercise. */
  lemma WithinBoundsExamples()
    ensures IsWithinBounds(5, 5, 10)
    ensures !IsWithinBounds(-1, 5, 10)
    ensures !IsWithinBounds(5, 10, 10)
  {
  }

  function Max(a: int, b: int): int { if a < b then b else a }
  function Min(a: int, b: int): int { if a < b then a else b }

  /** The keys the game reacts to; every other key is OtherKey. */
  datatype Key = Up | Down | Left | Right | KeyV | Return | Space | Escape | OtherKey

  predicate IsArrow(key: Key) {
    key == Up || key == Down || key == Left || key == Right
  }

  /** Moves the cursor one step with an arrow key, clamped to
      [0, maxRow-1] x [0, maxCol-1]; any other key leaves it where it is. */
  function HandleKeyboardNavigation(key: Key, row: int, col: int, maxRow: int, maxCol: int): (r: (int, int))
    ensures !IsArrow(key) ==> r == (row, col)
    ensures 0 <= row < maxRow && 0 <= col < maxCol ==> 0 <= r.0 < maxRow && 0 <= r.1 < maxCol
    ensures 0 <= row < maxRow && 0 <= col < maxCol ==>
      (r.0 == row && -1 <= r.1 - col <= 1) || (r.1 == col && -1 <= r.0 - row <= 1)
  {
    match key
    case Up => (Max(0, row - 1), col)
    case Down => (Min(maxRow - 1, row + 1), col)
    case Left => (row, Max(0, col - 1))
    case Right => (row, Min(maxCol - 1, col + 1))
    case _ => (row, col)
  }

  /** Reference reading of one arrow key on a cursor that is on the board:
      step in the key's direction unless that leaves the board, in which
      case stay put (so UP at row 0 and RIGHT at maxCol-1 do nothing). */
  function Step(key: Key, row: int, col: int, maxRow: int, maxCol: int): (int, int) {
    match key
    case Up => if row > 0 then (row - 1, col) else (row, col)
    case Down => if row < maxRow - 1 then (row + 1, col) else (row, col)
    case Left => if col > 0 then (row, col - 1) else (row, col)
    case Right => if col < maxCol - 1 then (row, col + 1) else (row, col)
    case _ => (row, col)
  }

  lemma NavigationIsStep(key: Key, row: int, col: int, maxRow: int, maxCol: int)
    requires 0 <= row < maxRow && 0 <= col < maxCol
    ensures HandleKeyboardNavigation(key, row, col, maxRow, maxCol) == Step(key, row, col, maxRow, maxCol)
  {
  }

  /** Python's floor division `a // b`: the quotient rounded towards minus
      infinity, so the remainder has the sign of the divisor. Dafny's own `/`
      is Euclidean and differs from it when b < 0. */
  function FloorDiv(a: int, b: int): (q: int)
    requires b != 0
    ensures b > 0 ==> b * q <= a < b * q + b
    ensures b < 0 ==> b * q + b < a <= b * q
  {
    if b > 0 || a % b == 0 then a / b else a / b - 1
  }

  /** The pygame event kinds the mouse selection looks at. */
  datatype EventType = MouseMotion | MouseButtonDown | OtherEventType

  /** The board cell under the mouse pointer, if the event is a mouse event and
      the pointer is over the board whose top-left pixel is (startX, startY). */
  function HandleMouseSelection(eventType: EventType, mouseX: int, mouseY: int,
                                startX: int, startY: int, cellSize: int, boardSize: int): (r: Option<(int, int)>)
    requires eventType != OtherEventType ==> cellSize != 0
    ensures r.Some? ==> eventType != OtherEventType && IsWithinBounds(r.value.0, r.value.1, boardSize)
    ensures eventType == OtherEventType ==> r == None
  {
    if eventType == MouseMotion || eventType == MouseButtonDown then
      var row := FloorDiv(mouseY - startY, cellSize);
      var col := FloorDiv(mouseX - startX, cellSize);
      if IsWithinBounds(row, col, boardSize) then Some((row, col)) else None
    else
      None
  }

  /** The pixel span [start + k*size, start + (k+1)*size) of cell k. */
  predicate InSpan(p: int, start: int, size: int, k: int) {
    start + k * size <= p < start + k * size + size
  }

  lemma FloorDivUnique(a: int, b: int, k: int)
    requires b > 0
    requires b * k <= a < b * k + b
    ensures FloorDiv(a, b) == k
  {
    var q := FloorDiv(a, b);
    assert b * (k - q) == b * k - b * q;
    if q < k {
      MulAtLeast(b, k - q);
    } else if q > k {
      MulAtLeast(b, q - k);
    }
  }

  lemma MulAtLeast(b: int, d: int)
    requires b > 0 && d >= 1
    ensures b * d >= b
  {
  }

  /** With a positive cell size, the selection is exactly the on-board cell
      whose pixel square contains the pointer (both directions). */
  lemma {:induction false} MouseSelectionIsCellUnderPointer(eventType: EventType, mouseX: int, mouseY: int,
                                              startX: int, startY: int, cellSize: int, boardSize: int,
                                              row: int, col: int)
    requires cellSize > 0
    ensures HandleMouseSelection(eventType, mouseX, mouseY, startX, startY, cellSize, boardSize) == Some((row, col))
        <==> eventType != OtherEventType && IsWithinBounds(row, col, boardSize)
             && InSpan(mouseY, startY, cellSize, row) && InSpan(mouseX, startX, cellSize, col)
  {
    if eventType != OtherEventType {
      var qr := FloorDiv(mouseY - startY, cellSize);
      var qc := FloorDiv(mouseX - startX, cellSize);
      assert InSpan(mouseY, startY, cellSize, qr);
      assert InSpan(mouseX, startX, cellSize, qc);
      if InSpan(mouseY, startY, cellSize, row) && InSpan(mouseX, startX, cellSize, col) {
        FloorDivUnique(mouseY - startY, cellSize, row);
        FloorDivUnique(mouseX - startX, cellSize, col);
      }
    }
  }
}

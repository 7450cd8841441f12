# The Seven Seas Showdown: battle rules in Dafny

This project models the battle rules of *The Seven Seas Showdown*, a
Battleship-style pygame game (Python). Two combatants each own a square
board of cells. A cell holds a state (0 water, 1 intact ship, 2 missed
shot, 3 hit ship) and the name of the ship placed on it.

The model covers:

- **Combatants** (`Player`, `player.dfy`). Ship placement checks bounds and
  collisions against the combatant's list of occupied cells. An incoming
  shot is a cell state machine: water becomes a miss, ship becomes a hit and
  costs one life point, and anything else reports `already_attacked`.
  Three abilities are gated on stamina or radar uses: a 2x2 square, a
  3-cell line and a 3x3 radar scan, each cut at the board's edges.
- **Attack resolution** (`AttacksLogic`, `attackslogic.dfy`). It covers
  what the human player's handlers do once the selection screen has
  returned `(row, col, orientation, confirm)`. It works out the target
  cells: one cell, a whole row or column, or the bounds-filtered 2x2 block.
  Cells the attacker has already recorded on their attack board are
  skipped. Each shot is recorded (0 unknown, 1 water, 2 hit), and the
  handler returns the next turn phase.
- **Ship placement** (`GameLogic`, `gamelogic.dfy`). This is the fit test
  and the grid write on a board object. It also covers the placement loop:
  keyboard navigation, mouse selection, orientation toggling and
  confirmation, frame by frame, with the ship index advancing only after a
  successful fit test.
- **The fate dice** (`Dice`, `dice.dfy`). The seven-row table maps a roll
  of 1..100 onto an effect and a message, and the effect is applied to a
  combatant.
- **Helpers**:
  - the fleet catalogue and `Ship.place` (`Warships`);
  - grid creation and the single-cell write (`Board`);
  - bounds, clamped cursor movement and pixel-to-cell mapping with
    Python's floor division (`Utils`);
  - rectangle hit-testing of menu buttons (`Buttons`).

Code that mutates objects is modelled as classes with `modifies` clauses:
the combatant, its board object and `Ship`. Each such method is proved
equal to a function on values (`Strike`, `Barrage`, `Sweep`, `StepEvent`,
`Run`, `Apply`, ...). The properties the game relies on are then proved
about those functions as lemmas.

Where the code and its design disagree, the model follows the code, with
these exceptions:

- `Player.__init__` sums `ship.size * ship.quantity`, but a `Ship` has no
  `quantity`. The model uses the sum of ship sizes (26), which is what the
  repository's test expects.
- `Player.place_ship` calls `ship.place` without the board size. The model
  passes the combatant's board size.
- `attack`, `special_attack_square`, `special_attack_line` and `use_radar`
  (src/modules/player.py:55-112) take an `opponent_board` and call its
  `receive_attack`, `board_size` and `grid`. No one class of the shown code
  has all three: `receive_attack` is a `Player` method, and `board_size`
  and `grid` belong to a board. The model passes the opponent `Player`,
  calls its `ReceiveAttack`, and reads `board_size` and `grid` from its
  board object (`opponent.board.size`, `opponent.board.grid`).
- `Player.__init__` never creates `turn_skipped` or `temp_shield`. Only the
  dice's `setattr` ever sets them (src/modules/dice.py:81-87). The model's
  constructor starts both as `false`, so that every combatant has them.
- Orientations are the datatype `H | V`, standing for the "H" and "V"
  strings of the placement and attack code. `special_attack_line` instead
  tests `orientation == "horizontal"` (src/modules/player.py:80-91), with
  "horizontal" as its default. The model reads "horizontal" as `H` and any
  other string as `V`, and has no default argument, so callers always pass
  an orientation. In the source, a caller passing "H" would get a vertical
  line; no shown code calls `special_attack_line`.
- `GameLogic.PlaceShips` implements the corrected placement loop, which
  re-reads the ship at each event (`GameLogic.Run`). The loop as written
  reads the ship once per frame (`GameLogic.RunAsWritten`); the difference
  is the first row under "## Findings".
- Two more discrepancies are recorded under "## Findings".

## Model

| member | source | states |
|---|---|---|
| Board.WithinBoundsIsInGrid | src/modules/utils.py:3-7 | on a square grid of side n, `is_within_bounds` holds of exactly the cells the grid can be indexed at |
| Utils.WithinBoundsExamples | tests/test_utils.py:6-11 | (5,5) is on a 10-board; (-1,5) and (5,10) are not |
| Utils.HandleKeyboardNavigation | src/modules/utils.py:9-23 | non-arrow keys leave the cursor; an on-board cursor stays on the board and moves at most one step along one axis |
| Utils.NavigationIsStep | src/modules/utils.py:14-21 | on the board, navigation equals "step unless that leaves the board", so UP at row 0 and RIGHT at the last column do nothing |
| Utils.FloorDiv | src/modules/utils.py:32-33 | Python's `//`: the quotient is rounded towards minus infinity, for either sign of the divisor |
| Utils.HandleMouseSelection | src/modules/utils.py:25-36 | only mouse events select; a selected cell is always on the board |
| Utils.MouseSelectionIsCellUnderPointer | src/modules/utils.py:30-36 | with a positive cell size, the result is (row, col) iff the event is a mouse event, the cell is on the board, and the pointer lies in that cell's pixel square |
| Buttons.EdgesAreInclusive | src/modules/buttons.py:29-40 | `IsMouseOverButton`: all four edges of a button belong to it; one pixel past the right or bottom edge does not |
| Buttons.HandleButtonInteraction | src/modules/buttons.py:43-54 | returns the smallest valid index whose rectangle holds the point; None iff no rectangle holds it (so None for no buttons) |
| Board.GameBoard.constructor | tests/test_board.py:10-16 | a new board of side `size` has `size` rows of `size` cells, each water (state 0) with no ship |
| Board.CreateBoard | src/modules/board.py:3-10 | `size` rows of `size` entries, every entry 0 |
| Board.SetCell | src/modules/board.py:6-9 | writing one cell changes that cell only, in its row and in every other row |
| Board.PaintAt | src/modules/game_logic.py:182-186 | after writing a value to a list of cells, exactly the listed cells hold it and every other cell is unchanged |
| Warships.ShipCellsAreDistinct | src/modules/warships.py:16-18 | a ship's cells are pairwise distinct |
| Warships.Ship.constructor | src/modules/warships.py:2-8 | a new ship has its name and size and no positions |
| Warships.Ship.Place | src/modules/warships.py:10-22 | succeeds iff every cell is on the board, and then positions are exactly the `size` cells along the orientation; on failure (the ValueError) the cells before the first off-board one are left in positions |
| Warships.FleetCatalogue | src/modules/warships.py:24-39 | the catalogue yields 11 ships in order: 1 Portaaviones(6), 1 Acorazado(4), 2 Crucero(3), 3 Submarino(2), 4 Destructor(1); 26 cells in all |
| Warships.CatalogueTotal | src/modules/warships.py:28-34 | the catalogue's size-times-quantity sum is 26 |
| Warships.TotalSizeIsCatalogueCells | src/modules/player.py:12 | the fleet's total size equals the catalogue's size-times-quantity sum, the intended initial life |
| Warships.CreateFleet | src/modules/warships.py:24-39 | one fresh, unplaced Ship per catalogue copy, in catalogue order; no two entries are the same object |
| Player.StrikeEffect | src/modules/player.py:114-127 | `Strike`, receive_attack on values: a shot costs one life point exactly when it hits; the target becomes Struck and no other cell changes |
| Player.StrikeTwiceIsNoOp | src/modules/player.py:120-127 | a second shot at the same cell reports already_attacked and changes neither grid nor life |
| Player.BarrageGrid | src/modules/player.py:74-77 | `Barrage`, a salvo on values: after shots at distinct cells, exactly those cells are struck |
| Player.BarrageShots | src/modules/player.py:74-77 | each shot reports its cell's state before the salvo; life drops by the ship cells among the targets |
| Player.SquareCellsShape | src/modules/player.py:74-75 | the square targets are exactly [row, min(row+2,N)) x [col, min(col+2,N)), in row-major order, distinct, at most 4 |
| Player.LineCellsShape | src/modules/player.py:90-92 | the line targets are exactly the on-board cells among the first k cells going right (H) or down (V) |
| Player.LineCellsSorted | src/modules/player.py:90-92 | the line targets come in laying order and are distinct |
| Player.LineTargetAt | src/modules/player.py:90-92 | an on-board cell is a line target iff it is one of the 3 cells from (row, col) in the line's direction |
| Player.SquareBarrageEffect | src/modules/player.py:73-78 | on a square board, exactly the block's cells are struck; life drops by the ship cells hit; at most 4 results, each its cell's prior result |
| Player.LineBarrageEffect | src/modules/player.py:89-95 | on a square board, exactly the on-board cells of the 3-cell line are struck; at most 3 results, each its cell's prior result |
| Player.PlacedStayApart | src/modules/player.py:38-42 | appending the cells of a ship that fits keeps all placed cells on the board and pairwise distinct |
| Player.FleetLifeIsTotalSize | src/modules/player.py:12 | the life a fleet gives is the total size of its ships |
| Player.FireNext | src/modules/player.py:76-77 | one shot of a salvo extends the salvo's value by that cell |
| Player.SquareVolley | src/modules/player.py:73-78 | the nested loops fire at exactly SquareCells in order; grid, life and results equal Barrage of them |
| Player.RowVolley | src/modules/player.py:75-77 | the inner loop fires at the row's columns c0 .. c1-1 in order |
| Player.LineVolley | src/modules/player.py:89-95 | the loop fires at exactly LineTargets in order; grid, life and results equal Barrage of them |
| Player.LineLoop | src/modules/player.py:90-94 | the first k iterations of the line loop fire at the on-board cells among the first k |
| Player.LineStep | src/modules/player.py:91-94 | one iteration fires only when the cell's row and column are below N |
| Player.Player.constructor | src/modules/player.py:5-16 | the default fleet, life 26 (one per ship cell), stamina 5, 2 shields, 1 radar use, nothing placed, an all-unknown attack board |
| Player.Player.CanPlaceShip | src/modules/player.py:18-31 | true iff every one of the `size` cells is within [0, N) and none is in placedShips |
| Player.Player.PlaceShip | src/modules/player.py:33-42 | when it does not fit: False, nothing changed. When it fits: positions are the ship's cells, appended to placedShips and written as state 1 with the ship's name. The placed cells stay distinct and on the board |
| Player.Player.Occupy | src/modules/player.py:39-41 | appends each cell to placedShips and writes it, in order |
| Player.Player.ReceiveAttack | src/modules/player.py:114-127 | state 1 → 3, life −1, Hit; state 0 → 2, Miss; any other state: AlreadyAttacked, nothing changed |
| Player.Player.Attack | src/modules/player.py:55-62 | the opponent receives the shot; stamina +1 exactly on a hit |
| Player.Player.SpecialAttackSquare | src/modules/player.py:64-78 | below 2 stamina: None with nothing changed; otherwise stamina −2 and the results are the Barrage of the clipped 2x2 block |
| Player.Player.SpecialAttackLine | src/modules/player.py:80-95 | below 3 stamina: None with nothing changed; otherwise stamina −3 and the results are the Barrage of the on-board cells of the 3-cell line |
| Player.Player.UseRadar | src/modules/player.py:97-112 | without radar uses: None, nothing changed. Otherwise one use is spent whatever is found. A result is the first intact ship cell, in row-major order, of the clipped 3x3 window; None means the window holds none |
| Player.Player.UseRadarAsWritten | src/modules/player.py:106-112 | the radar as written, with Python's `==` between a cell record and 1 (`PyEquals`, never true by `RecordIsNeverInt`): a use is spent and nothing is ever reported |
| Player.RadarDiscrepancy | src/modules/player.py:108 | on a 2x2 board whose only ship cell is (0,0), the written radar reports None and the corrected one reports (0,0) |
| AttacksLogic.Recorded | src/modules/attacks_logic.py:273-287 | on values: Hit records 2, Miss records 1, any other result leaves the entry; no other entry changes |
| AttacksLogic.UpdateAttackBoard | src/modules/attacks_logic.py:273-287 | the attacker's board becomes Recorded of the result |
| AttacksLogic.LineOfShape | src/modules/attacks_logic.py:94-100 | the line attack's targets are exactly the N cells of the selected row (H) or column (V), each once |
| AttacksLogic.SquareOfIsSquareCells | src/modules/attacks_logic.py:142-153 | the bounds-filtered 2x2 candidates are the same cells, in the same order, as the combatant's square ability fires at |
| AttacksLogic.SquareOfShape | src/modules/attacks_logic.py:142-153 | the square attack's targets are exactly the on-board cells of the 2x2 block from the target, distinct, at most 4 |
| AttacksLogic.SweepAt | src/modules/attacks_logic.py:104-109 | `Sweep`, the line and square handlers' loop on values: a cell is fired at iff it is a target with attack-board state 0; it is then struck and recorded by its prior state; all else unchanged |
| AttacksLogic.SweepTotals | src/modules/attacks_logic.py:103-109 | life drops by the fresh ship cells among the targets; any_hit iff there is one |
| AttacksLogic.FreshShipsPositive | src/modules/attacks_logic.py:105-109 | the fresh-ship count is positive iff some unrecorded target holds an intact ship |
| AttacksLogic.UnconfirmedChangesNothing | src/modules/attacks_logic.py:25-33 | an unconfirmed selection, or an unknown attack kind, returns player_turn with nothing changed |
| AttacksLogic.NormalOutcomeEffect | src/modules/attacks_logic.py:48-75 | `NormalOutcome`, handle_normal_attack on values: a recorded cell gives player_turn with nothing changed. Otherwise the cell is struck and recorded: a ship gives player_turn_attack and −1 life, water gives bot_turn. No other cell changes |
| AttacksLogic.VolleyOutcomeEffect | src/modules/attacks_logic.py:102-123 | exactly the unrecorded targets are struck and recorded; life drops by the ships among them; player_turn_attack iff one held an intact ship, else bot_turn |
| AttacksLogic.ResolveKeepsConsistent | src/modules/attacks_logic.py:14-33 | `Resolve`, handle_attack_action on values: every attack kind keeps the attack board consistent with the opponent's grid (recorded hit = hit cell, recorded water = missed cell) |
| AttacksLogic.VolleyKeepsConsistent | src/modules/attacks_logic.py:103-109 | the sweep over distinct targets keeps that consistency |
| AttacksLogic.SweepCells | src/modules/attacks_logic.py:103-109 | the loop on the objects equals Sweep: bot grid, bot life, attack board and any_hit |
| AttacksLogic.HandleNormalAttack | src/modules/attacks_logic.py:36-75 | the handler's effect and phase equal NormalOutcome |
| AttacksLogic.HandleLineAttack | src/modules/attacks_logic.py:78-123 | builds the row or column cell by cell, then its effect and phase equal LineOutcome |
| AttacksLogic.HandleSquareAttack | src/modules/attacks_logic.py:126-176 | the handler's effect and phase equal SquareOutcome |
| AttacksLogic.HandleAttackAction | src/modules/attacks_logic.py:14-33 | dispatch: the effect and phase equal Resolve of the kind |
| GameLogic.CanPlaceShip | src/modules/game_logic.py:167-176 | true iff every one of the `size` cells is on the board and carries no ship |
| GameLogic.PlaceShip | src/modules/game_logic.py:178-186 | exactly the ship's cells become state 1 with the ship's name; all other cells unchanged |
| GameLogic.Toggle | src/modules/game_logic.py:44-45 | the toggle always changes the orientation |
| GameLogic.ToggleTwice | src/modules/game_logic.py:61-62 | two toggles restore the orientation |
| GameLogic.TryPlace | src/modules/game_logic.py:46-49 | when the ship fits at the cursor, exactly its cells become intact cells carrying its name, every other cell stays, and the index goes up by one; when it does not fit, neither grid nor loop state changes |
| GameLogic.StepEvent | src/modules/game_logic.py:39-62 | one event: ESCAPE stops the loop; the cursor moves; V or right-click toggles; the index advances by one iff it is a confirmation and the ship fits; otherwise the grid is unchanged |
| GameLogic.Confirm | src/modules/game_logic.py:47-49 | the fit test then the write, on the board object, equal TryPlace |
| GameLogic.HandleEvent | src/modules/game_logic.py:39-62 | one event on the board object equals StepEvent |
| GameLogic.Frame | src/modules/game_logic.py:34-62 | one frame with the ship re-read at each event: the index never decreases or passes the fleet's length |
| GameLogic.Run | src/modules/game_logic.py:15-62 | the frame loop: the index never decreases or passes the fleet's length |
| GameLogic.RunStops | src/modules/game_logic.py:15 | frames after the loop has stopped change nothing |
| GameLogic.ProcessFrame | src/modules/game_logic.py:34-62 | one frame on the board object equals Frame |
| GameLogic.PlaceShips | src/modules/game_logic.py:6-64 | the corrected loop, with the ship re-read at each event: the grid equals Run's; the result is whether the index reached the fleet's length (None while input is still awaited) |
| GameLogic.StepKeepsShips | src/modules/game_logic.py:46-49 | a guarded placement never writes over a ship cell and keeps every ship cell intact |
| GameLogic.StepKeepsPlacement | src/modules/game_logic.py:46-60 | one event keeps the placement invariant: there is one anchor (row, column, orientation) per ship counted as placed, each such ship lies on the board with its name on each of its cells, no two share a cell, and every ship cell belongs to one of them; a successful confirmation adds the cursor as the new ship's anchor |
| GameLogic.FrameKeepsPlacement | src/modules/game_logic.py:34-62 | one frame keeps the placement invariant for some list of anchors |
| GameLogic.RunKeepsPlacement | src/modules/game_logic.py:15-64 | the frame loop keeps the placement invariant for some list of anchors |
| GameLogic.StartIsPlacement | src/modules/game_logic.py:10-13 | the opening state on an empty board satisfies the invariant with no anchors |
| GameLogic.PlacedFleetIsOnBoard | src/modules/game_logic.py:6-64 | when the corrected loop on an empty board reports success, each ship of the fleet, counted by index so that ships of the same name count separately, lies on the board on cells carrying its name; no two ships share a cell; no other cell carries a ship |
| GameLogic.FrameAsWritten | src/modules/game_logic.py:19-60 | one frame as written, with the ship read once per frame, keeps the grid square |
| GameLogic.RunAsWritten | src/modules/game_logic.py:15-60 | the loop as written keeps the grid square |
| GameLogic.SameFrameConfirmRepeatsShip | src/modules/game_logic.py:19-60 | as written, two confirms in one frame place the Submarino twice and report success with no Destructor on the board |
| GameLogic.SameFrameConfirmPlacesNextShip | src/modules/game_logic.py:34-60 | with the ship re-read, the same frame places the Submarino and then the Destructor |
| Dice.FirstMatch | src/modules/dice.py:90-92 | the index of the first row whose range holds the roll; None iff none does |
| Dice.GetDiceEvent | src/modules/dice.py:76-94 | the scan returns the first matching row's effect and message, else the unknown event |
| Dice.FirstMatchIs | src/modules/dice.py:90-92 | a matching row with no earlier match is the first match |
| Dice.RangesPartition | src/modules/dice.py:80-88 | the seven ranges follow each other without gap or overlap and cover exactly 1..100 |
| Dice.EventTable | src/modules/dice.py:80-94 | `EventFor`, the table lookup: each roll range gives its effect and exact message; outside 1..100, "Evento desconocido." |
| Dice.Apply | src/modules/dice.py:81-87 | an effect changes at most one attribute: skip turn, stamina +k, life −1 but never below 0, nothing, or temp shield |
| Dice.ProcessDiceRoll | src/modules/dice.py:67-74 | applies the selected row's effect to the combatant and returns its message |
| Dice.UnknownRollChangesNothing | src/modules/dice.py:90-94 | a roll outside 1..100 changes nothing and gives the unknown-event message |

## Left out

- Rendering and selection screens are not part of this model:
  - all `draw_*`, `show_board`, `display_message` and `ui` calls;
  - `select_attack_cell` and `select_attack_line`;
  - `dice_turn` and `_render_dice_turn`;
  - `ui.py`, `settings.py` and `main.py`.

  The selection's result `(row, col, orientation, confirm)` and the dice
  roll are parameters.
- The QUIT event ends the process, so it is not modelled. Events other
  than keys, mouse motion and mouse buttons are `Ignored`.
- Randomness is left out: `place_fleet_randomly` (rejection sampling) and
  `random.randint` for the dice.
- `scale_color` (floating point) and the colour field of attack-board
  cells are left out. The attack board keeps only its `state` entry. Its
  creation is not in the shown code, so the combatant starts with an
  all-zero grid of its own board's size.
- The `Board` class is not part of this model. `GameBoard` is the minimal
  container its callers use: a fixed `size` and a `grid` of cells. The
  board's pixel origin and cell size appear as the `Geometry` parameter.
- Printed messages (`print`) are left out. The dice message is returned.
- `shields` is initialised to 2 but never used by the shown code, so it is
  only a field.
- Player.Player.SpecialAttackSquare: `row` and `col` are `nat`. A negative
  coordinate would index from the end of a Python list, and that is not
  modelled.
- Player.Player.SpecialAttackLine: as for the square, `row` and `col` are
  `nat`.
- Player.Player.ReceiveAttack: requires the cell to be on the board. The
  source would raise IndexError, or wrap round for negative indices.
- Player.Player.Attack: requires the cell to be on the board, as for
  ReceiveAttack.
- GameLogic.PlaceShip: requires every cell on the board. The source indexes
  without a check and is only ever called after `can_place_ship`.
- Utils.HandleMouseSelection: requires a non-zero cell size for mouse
  events. The source would raise ZeroDivisionError.
- GameLogic.StepEvent: a mouse event carries its pointer position. The
  source reads `pygame.mouse.get_pos()` while handling the event.
- AttacksLogic.HandleAttackAction: requires a confirmed selection to be on
  the board (`Fair`). The selection screens that produce it are not part of
  this model; they move a cursor that is kept on the board.
- AttacksLogic.HandleNormalAttack, AttacksLogic.HandleLineAttack and
  AttacksLogic.HandleSquareAttack: the same requirement as
  HandleAttackAction. So do the lemmas about their outcomes.
- GameLogic.PlaceShips: the frames are a finite parameter. While the loop
  still waits for input there is no result (`None`).

## Findings

| source | as written | input that shows it | evidently intended | confidence | as-written member | corrected member |
|---|---|---|---|---|---|---|
| src/modules/game_logic.py:19-60 | the ship is read once per frame, and every event of the frame places that same ship | a 2x2 board, fleet [Submarino(2), Destructor(1)], one frame with events RETURN, DOWN, RETURN | each confirmation places the ship at the current index | medium (needs two confirmations within one frame); not executed | GameLogic.SameFrameConfirmRepeatsShip | GameLogic.SameFrameConfirmPlacesNextShip |
| src/modules/player.py:108 | `opponent_board.grid[r][c] == 1` compares the whole cell record with 1, so no cell ever matches and the radar never reports a ship | radar at (0,0) on a 2x2 board whose only ship cell is (0,0) | compare the cell's state with 1 | high; not executed | Player.Player.UseRadarAsWritten | Player.Player.UseRadar |

More detail on each row:

- **Ship read once per frame.** As written, the whole frame runs through
  `GameLogic.FrameAsWritten` and `GameLogic.RunAsWritten`. With the input
  above, the Submarino is placed twice, the index reaches 2, and success
  is reported with no Destructor on the board. The corrected loop is
  `GameLogic.Frame` and `GameLogic.Run`. `GameLogic.PlacedFleetIsOnBoard`
  proves that when the corrected loop reports success, every ship of the
  fleet is on the board, on cells of its own.
- **Radar compares the whole cell.** `Player.RadarDiscrepancy` shows the
  input above: the as-written radar reports None, the corrected radar
  reports (0,0).

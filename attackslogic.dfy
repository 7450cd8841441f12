/** Resolution of the human player's attacks (src/modules/attacks_logic.py):
    the choice of target cells, the attack-board record, which cells are
    fired at, and the turn phase each attack leads to. The selection screens
    are not modelled; their result, (row, col, orientation, confirm), is a
    parameter. */
module AttacksLogic {
  import opened Utils
  import opened Board
  import opened Warships
  import opened Player

  /** The turn phase an attack hands back to the game loop. */
  datatype Phase = PlayerTurn | PlayerTurnAttack | BotTurn

  datatype AttackKind = NormalAttack | LineAttack | SquareAttack | UnknownAttack

  /** What a selection screen returns. */
  datatype Selection = Selection(row: int, col: int, o: Orientation, confirm: bool)

  /** An attack-board entry after a result: 2 for a hit, 1 for a miss, and
      unchanged for anything else. */
  function Mark(v: int, res: AttackResult): int {
    if res == Hit then 2 else if res == Miss then 1 else v
  }

  /** update_attack_board on values. */
  function Recorded(ab: seq<seq<int>>, r: int, c: int, res: AttackResult): (out: seq<seq<int>>)
    requires InGrid(ab, r, c)
    ensures SameShape(out, ab)
    ensures out[r][c] == Mark(ab[r][c], res)
    ensures forall i, j :: InGrid(ab, i, j) && (i != r || j != c) ==> out[i][j] == ab[i][j]
  {
    if res == AlreadyAttacked then ab else SetCell(ab, r, c, Mark(ab[r][c], res))
  }

  /** update_attack_board: records a hit or a miss in the attacker's board. */
  method UpdateAttackBoard(player: Player, row: int, col: int, result: AttackResult)
    requires InGrid(player.attackBoard, row, col)
    modifies player`attackBoard
    ensures player.attackBoard == Recorded(old(player.attackBoard), row, col, result)
  {
    if result == Hit {
      player.attackBoard := SetCell(player.attackBoard, row, col, 2);
    } else if result == Miss {
      player.attackBoard := SetCell(player.attackBoard, row, col, 1);
    }
  }

  /** The line attack's targets: the whole row (H) or the whole column (V)
      of the selected cell, in index order. */
  function LineOf(row: int, col: int, o: Orientation, n: nat): seq<(int, int)> {
    seq(n, k => if o == H then (row, k) else (k, col))
  }

  /** The square attack's candidates: the selected cell, its right, lower
      and lower-right neighbours. */
  function SquareCandidates(row: int, col: int): seq<(int, int)> {
    [(row, col), (row, col + 1), (row + 1, col), (row + 1, col + 1)]
  }

  /** The cells of the list that are on an n x n board, in order. */
  function OnBoard(cells: seq<(int, int)>, n: int): seq<(int, int)>
    decreases |cells|
  {
    if cells == [] then []
    else
      var p := cells[|cells| - 1];
      OnBoard(cells[..|cells| - 1], n) + (if IsWithinBounds(p.0, p.1, n) then [p] else [])
  }

  function SquareOf(row: int, col: int, n: int): seq<(int, int)> {
    OnBoard(SquareCandidates(row, col), n)
  }

  /** The line targets are exactly the n cells of the selected row or
      column, each once. */
  lemma LineOfShape(row: int, col: int, o: Orientation, n: nat)
    ensures |LineOf(row, col, o, n)| == n
    ensures forall p :: p in LineOf(row, col, o, n) <==>
      (o == H && p.0 == row && 0 <= p.1 < n) || (o == V && p.1 == col && 0 <= p.0 < n)
    ensures NoDuplicates(LineOf(row, col, o, n))
  {
    var cells := LineOf(row, col, o, n);
    forall p: (int, int) | (o == H && p.0 == row && 0 <= p.1 < n) || (o == V && p.1 == col && 0 <= p.0 < n)
      ensures p in cells
    {
      var k := if o == H then p.1 else p.0;
      assert cells[k] == p;
    }
  }

  /** On the board, the filtered 2x2 candidates are the same cells, in the
      same order, as the block the combatant's own square ability fires at. */
  lemma SquareOfIsSquareCells(row: nat, col: nat, n: nat)
    requires row < n && col < n
    ensures SquareOf(row, col, n) == SquareCells(row, col, n)
  {
    var cand := SquareCandidates(row, col);
    assert cand[..0] == [] && cand[..1][..0] == [] && cand[..2][..1] == cand[..1] && cand[..3][..2] == cand[..2];
    assert cand[..4] == cand && cand[..3] == cand[..4][..3];
    var right := if col + 1 < n then [(row, col + 1)] else [];
    var below := if row + 1 < n then [(row + 1, col)] + (if col + 1 < n then [(row + 1, col + 1)] else []) else [];
    assert OnBoard(cand[..1], n) == [(row, col)];
    assert OnBoard(cand[..2], n) == [(row, col)] + right;
    var down := if row + 1 < n then [(row + 1, col)] else [];
    var diag := if row + 1 < n && col + 1 < n then [(row + 1, col + 1)] else [];
    assert OnBoard(cand[..3], n) == [(row, col)] + right + down;
    assert OnBoard(cand[..4], n) == OnBoard(cand[..3], n) + diag;
    assert down + diag == below;
    assert SquareOf(row, col, n) == [(row, col)] + right + below;
    var c1 := Min(col + 2, n);
    assert RowCells(row, col, c1) == [(row, col)] + right by {
      assert RowCells(row, col, col) == [];
      if col + 1 < n {
        assert RowCells(row, col, col + 1) == [(row, col)];
      }
    }
    assert Block(row, row + 1, col, c1) == RowCells(row, col, c1) by {
      assert Block(row, row, col, c1) == [];
    }
    if row + 1 < n {
      assert RowCells(row + 1, col, c1) == below by {
        assert RowCells(row + 1, col, col) == [];
        if col + 1 < n {
          assert RowCells(row + 1, col, col + 1) == [(row + 1, col)];
        }
      }
      assert SquareCells(row, col, n) == Block(row, row + 1, col, c1) + RowCells(row + 1, col, c1);
    }
  }

  /** The square targets are exactly the on-board cells of the 2x2 block,
      each once, at most four. */
  lemma SquareOfShape(row: nat, col: nat, n: nat)
    requires row < n && col < n
    ensures forall p :: p in SquareOf(row, col, n) <==>
      row <= p.0 <= row + 1 && col <= p.1 <= col + 1 && IsWithinBounds(p.0, p.1, n)
    ensures NoDuplicates(SquareOf(row, col, n)) && |SquareOf(row, col, n)| <= 4
  {
    SquareOfIsSquareCells(row, col, n);
    SquareCellsShape(row, col, n);
  }

  /** The attack loop of the line and square handlers on values: cells the
      attacker has recorded are skipped; every other one is fired at and its
      result recorded. The flag says whether some shot hit. */
  function Sweep(g: seq<seq<Cell>>, life: int, ab: seq<seq<int>>, cells: seq<(int, int)>)
    : (out: (seq<seq<Cell>>, int, seq<seq<int>>, bool))
    requires AllInGrid(g, cells) && AllInGrid(ab, cells)
    ensures SameShape(out.0, g) && SameShape(out.2, ab)
    decreases |cells|
  {
    if cells == [] then (g, life, ab, false)
    else
      var p := cells[|cells| - 1];
      var prev := Sweep(g, life, ab, cells[..|cells| - 1]);
      assert InGrid(g, p.0, p.1) && |prev.0[p.0]| == |g[p.0]|;
      assert InGrid(ab, p.0, p.1) && |prev.2[p.0]| == |ab[p.0]|;
      if prev.2[p.0][p.1] == 0 then
        var s := Strike(prev.0, prev.1, p.0, p.1);
        (s.0, s.1, Recorded(prev.2, p.0, p.1, s.2), prev.3 || s.2 == Hit)
      else prev
  }

  /** Target cells the attacker has not recorded that hold an intact ship. */
  function FreshShips(g: seq<seq<Cell>>, ab: seq<seq<int>>, cells: seq<(int, int)>): nat
    requires AllInGrid(g, cells) && AllInGrid(ab, cells)
    decreases |cells|
  {
    if cells == [] then 0
    else
      var p := cells[|cells| - 1];
      FreshShips(g, ab, cells[..|cells| - 1]) + (if ab[p.0][p.1] == 0 && g[p.0][p.1].state == 1 then 1 else 0)
  }

  lemma LastNotInInit(cells: seq<(int, int)>)
    requires cells != [] && NoDuplicates(cells)
    ensures cells[|cells| - 1] !in cells[..|cells| - 1]
    ensures NoDuplicates(cells[..|cells| - 1])
  {
    var init := cells[..|cells| - 1];
    forall k | 0 <= k < |init| ensures init[k] != cells[|cells| - 1] {
      assert init[k] == cells[k];
    }
  }

  /** After the attack loop over distinct cells, a cell has been fired at
      exactly when it is a target the attacker had not recorded; it is then
      struck, and its record says hit or miss by what it held before. Every
      other cell, on both boards, is as before. */
  lemma {:induction false} SweepAt(g: seq<seq<Cell>>, life: int, ab: seq<seq<int>>, cells: seq<(int, int)>, r: int, c: int)
    requires AllInGrid(g, cells) && AllInGrid(ab, cells) && NoDuplicates(cells)
    requires InGrid(g, r, c) && InGrid(ab, r, c)
    ensures var out := Sweep(g, life, ab, cells);
      var fired := (r, c) in cells && ab[r][c] == 0;
      out.0[r][c] == (if fired then Struck(g[r][c]) else g[r][c])
      && out.2[r][c] == (if fired then Mark(0, ResultOf(g[r][c])) else ab[r][c])
    decreases |cells|
  {
    if cells != [] {
      var init := cells[..|cells| - 1];
      var p := cells[|cells| - 1];
      assert cells == init + [p];
      LastNotInInit(cells);
      SweepAt(g, life, ab, init, r, c);
      SweepAt(g, life, ab, init, p.0, p.1);
    }
  }

  /** Life drops by the fresh ship cells among the targets, and some shot
      hits exactly when there is one. */
  lemma {:induction false} SweepTotals(g: seq<seq<Cell>>, life: int, ab: seq<seq<int>>, cells: seq<(int, int)>)
    requires AllInGrid(g, cells) && AllInGrid(ab, cells) && NoDuplicates(cells)
    ensures Sweep(g, life, ab, cells).1 == life - FreshShips(g, ab, cells)
    ensures Sweep(g, life, ab, cells).3 <==> FreshShips(g, ab, cells) > 0
    decreases |cells|
  {
    if cells != [] {
      var init := cells[..|cells| - 1];
      var p := cells[|cells| - 1];
      LastNotInInit(cells);
      SweepTotals(g, life, ab, init);
      SweepAt(g, life, ab, init, p.0, p.1);
    }
  }

  lemma {:induction false} FreshShipsPositive(g: seq<seq<Cell>>, ab: seq<seq<int>>, cells: seq<(int, int)>)
    requires AllInGrid(g, cells) && AllInGrid(ab, cells)
    ensures FreshShips(g, ab, cells) > 0 <==>
      exists k :: 0 <= k < |cells| && ab[cells[k].0][cells[k].1] == 0 && g[cells[k].0][cells[k].1].state == 1
    decreases |cells|
  {
    if cells != [] {
      var init := cells[..|cells| - 1];
      FreshShipsPositive(g, ab, init);
      if exists k :: 0 <= k < |cells| && ab[cells[k].0][cells[k].1] == 0 && g[cells[k].0][cells[k].1].state == 1 {
        var k :| 0 <= k < |cells| && ab[cells[k].0][cells[k].1] == 0 && g[cells[k].0][cells[k].1].state == 1;
        if k < |init| {
          assert init[k] == cells[k];
        }
      }
      if exists k :: 0 <= k < |init| && ab[init[k].0][init[k].1] == 0 && g[init[k].0][init[k].1].state == 1 {
        var k :| 0 <= k < |init| && ab[init[k].0][init[k].1] == 0 && g[init[k].0][init[k].1].state == 1;
        assert cells[k] == init[k];
      }
    }
  }

  /** Grids, life, attack board and phase after an attack. */
  type Resolution = (seq<seq<Cell>>, int, seq<seq<int>>, Phase)

  /** The phase after a normal shot: another attack after a hit, the bot's
      turn after a miss, back to choosing after a cell already shot. */
  function NormalPhase(res: AttackResult): Phase {
    match res
    case Hit => PlayerTurnAttack
    case Miss => BotTurn
    case AlreadyAttacked => PlayerTurn
  }

  predicate Fair(g: seq<seq<Cell>>, ab: seq<seq<int>>, sel: Selection, n: nat) {
    IsSquare(g, n) && IsSquare(ab, n) && (sel.confirm ==> IsWithinBounds(sel.row, sel.col, n))
  }

  /** handle_normal_attack after the selection. */
  function NormalOutcome(g: seq<seq<Cell>>, life: int, ab: seq<seq<int>>, sel: Selection, n: nat): Resolution
    requires Fair(g, ab, sel, n)
  {
    if !sel.confirm || ab[sel.row][sel.col] != 0 then (g, life, ab, PlayerTurn)
    else
      var s := Strike(g, life, sel.row, sel.col);
      (s.0, s.1, Recorded(ab, sel.row, sel.col, s.2), NormalPhase(s.2))
  }

  /** The end of handle_line_attack and handle_square_attack: another attack
      after any hit, otherwise the bot's turn. */
  function VolleyOutcome(g: seq<seq<Cell>>, life: int, ab: seq<seq<int>>, cells: seq<(int, int)>): Resolution
    requires AllInGrid(g, cells) && AllInGrid(ab, cells)
  {
    var out := Sweep(g, life, ab, cells);
    (out.0, out.1, out.2, if out.3 then PlayerTurnAttack else BotTurn)
  }

  lemma LineInGrid(g: seq<seq<Cell>>, ab: seq<seq<int>>, sel: Selection, n: nat)
    requires Fair(g, ab, sel, n) && sel.confirm
    ensures AllInGrid(g, LineOf(sel.row, sel.col, sel.o, n)) && AllInGrid(ab, LineOf(sel.row, sel.col, sel.o, n))
  {
  }

  function LineOutcome(g: seq<seq<Cell>>, life: int, ab: seq<seq<int>>, sel: Selection, n: nat): Resolution
    requires Fair(g, ab, sel, n)
  {
    if !sel.confirm then (g, life, ab, PlayerTurn)
    else
      LineInGrid(g, ab, sel, n);
      VolleyOutcome(g, life, ab, LineOf(sel.row, sel.col, sel.o, n))
  }

  lemma SquareInGrid(g: seq<seq<Cell>>, ab: seq<seq<int>>, sel: Selection, n: nat)
    requires Fair(g, ab, sel, n) && sel.confirm
    ensures AllInGrid(g, SquareOf(sel.row, sel.col, n)) && AllInGrid(ab, SquareOf(sel.row, sel.col, n))
  {
    var cells := SquareOf(sel.row, sel.col, n);
    SquareOfShape(sel.row, sel.col, n);
    forall k | 0 <= k < |cells| ensures InGrid(g, cells[k].0, cells[k].1) && InGrid(ab, cells[k].0, cells[k].1) {
      assert cells[k] in cells;
    }
  }

  function SquareOutcome(g: seq<seq<Cell>>, life: int, ab: seq<seq<int>>, sel: Selection, n: nat): Resolution
    requires Fair(g, ab, sel, n)
  {
    if !sel.confirm then (g, life, ab, PlayerTurn)
    else
      SquareInGrid(g, ab, sel, n);
      VolleyOutcome(g, life, ab, SquareOf(sel.row, sel.col, n))
  }

  /** handle_attack_action: the handler of the named kind; an unknown kind
      changes nothing and hands the turn back to the player. */
  function Resolve(kind: AttackKind, g: seq<seq<Cell>>, life: int, ab: seq<seq<int>>, sel: Selection, n: nat): Resolution
    requires Fair(g, ab, sel, n)
  {
    match kind
    case NormalAttack => NormalOutcome(g, life, ab, sel, n)
    case LineAttack => LineOutcome(g, life, ab, sel, n)
    case SquareAttack => SquareOutcome(g, life, ab, sel, n)
    case UnknownAttack => (g, life, ab, PlayerTurn)
  }

  /** Without a confirmed selection, or with an unknown kind, nothing changes
      and the player chooses again. */
  lemma UnconfirmedChangesNothing(kind: AttackKind, g: seq<seq<Cell>>, life: int, ab: seq<seq<int>>, sel: Selection, n: nat)
    requires Fair(g, ab, sel, n) && (!sel.confirm || kind == UnknownAttack)
    ensures Resolve(kind, g, life, ab, sel, n) == (g, life, ab, PlayerTurn)
  {
  }

  /** A normal attack fires only at a cell the attacker has not recorded. It
      then continues the attack on a ship, passes the turn on water, and
      otherwise (a cell shot by other means) hands the choice back; a
      recorded cell changes nothing. */
  lemma NormalOutcomeEffect(g: seq<seq<Cell>>, life: int, ab: seq<seq<int>>, sel: Selection, n: nat)
    requires Fair(g, ab, sel, n) && sel.confirm
    ensures var out := NormalOutcome(g, life, ab, sel, n); var (r, c) := (sel.row, sel.col);
      (ab[r][c] != 0 ==> out == (g, life, ab, PlayerTurn))
      && (ab[r][c] == 0 ==>
        out.0[r][c] == Struck(g[r][c]) && out.2[r][c] == Mark(0, ResultOf(g[r][c]))
        && (out.3 == PlayerTurnAttack <==> g[r][c].state == 1)
        && (out.3 == BotTurn <==> g[r][c].state == 0)
        && (out.1 == if g[r][c].state == 1 then life - 1 else life))
      && forall i, j :: InGrid(g, i, j) && (i != r || j != c) ==> out.0[i][j] == g[i][j] && out.2[i][j] == ab[i][j]
  {
  }

  /** The whole effect of a confirmed line or square attack over distinct
      targets: exactly the unrecorded targets are struck and recorded, life
      drops by the ship cells among them, and the attack goes on exactly when
      one of them held an intact ship. */
  lemma VolleyOutcomeEffect(g: seq<seq<Cell>>, life: int, ab: seq<seq<int>>, cells: seq<(int, int)>)
    requires AllInGrid(g, cells) && AllInGrid(ab, cells) && NoDuplicates(cells)
    ensures var out := VolleyOutcome(g, life, ab, cells);
      (forall r, c :: InGrid(g, r, c) && InGrid(ab, r, c) ==>
        var fired := (r, c) in cells && ab[r][c] == 0;
        out.0[r][c] == (if fired then Struck(g[r][c]) else g[r][c])
        && out.2[r][c] == (if fired then Mark(0, ResultOf(g[r][c])) else ab[r][c]))
      && out.1 == life - FreshShips(g, ab, cells)
      && (out.3 == PlayerTurnAttack <==>
           exists k :: 0 <= k < |cells| && ab[cells[k].0][cells[k].1] == 0 && g[cells[k].0][cells[k].1].state == 1)
      && (out.3 == PlayerTurnAttack || out.3 == BotTurn)
  {
    forall r, c | InGrid(g, r, c) && InGrid(ab, r, c)
      ensures var out := Sweep(g, life, ab, cells); var fired := (r, c) in cells && ab[r][c] == 0;
        out.0[r][c] == (if fired then Struck(g[r][c]) else g[r][c])
        && out.2[r][c] == (if fired then Mark(0, ResultOf(g[r][c])) else ab[r][c])
    {
      SweepAt(g, life, ab, cells, r, c);
    }
    SweepTotals(g, life, ab, cells);
    FreshShipsPositive(g, ab, cells);
  }

  /** The attack board agrees with the opponent's grid: a recorded hit is a
      hit ship cell, a recorded miss is missed water. */
  ghost predicate Consistent(g: seq<seq<Cell>>, ab: seq<seq<int>>) {
    SameShape(g, ab)
    && forall r, c :: InGrid(ab, r, c) ==>
      (ab[r][c] == 2 ==> g[r][c].state == 3) && (ab[r][c] == 1 ==> g[r][c].state == 2)
  }

  /** Every way of resolving an attack keeps the attack board consistent
      with the opponent's grid. */
  lemma ResolveKeepsConsistent(kind: AttackKind, g: seq<seq<Cell>>, life: int, ab: seq<seq<int>>, sel: Selection, n: nat)
    requires Fair(g, ab, sel, n) && Consistent(g, ab)
    ensures var out := Resolve(kind, g, life, ab, sel, n); Consistent(out.0, out.2)
  {
    if sel.confirm && kind == LineAttack {
      LineOfShape(sel.row, sel.col, sel.o, n);
      LineInGrid(g, ab, sel, n);
      VolleyKeepsConsistent(g, life, ab, LineOf(sel.row, sel.col, sel.o, n));
    } else if sel.confirm && kind == SquareAttack {
      SquareOfShape(sel.row, sel.col, n);
      SquareInGrid(g, ab, sel, n);
      VolleyKeepsConsistent(g, life, ab, SquareOf(sel.row, sel.col, n));
    }
  }

  lemma VolleyKeepsConsistent(g: seq<seq<Cell>>, life: int, ab: seq<seq<int>>, cells: seq<(int, int)>)
    requires AllInGrid(g, cells) && AllInGrid(ab, cells) && NoDuplicates(cells) && Consistent(g, ab)
    ensures var out := Sweep(g, life, ab, cells); Consistent(out.0, out.2)
  {
    var out := Sweep(g, life, ab, cells);
    forall r, c | InGrid(out.2, r, c)
      ensures (out.2[r][c] == 2 ==> out.0[r][c].state == 3) && (out.2[r][c] == 1 ==> out.0[r][c].state == 2)
    {
      SweepAt(g, life, ab, cells, r, c);
    }
  }

  /** The attack loop on the objects: the bot receives each shot and the
      player records it. */
  method SweepCells(player: Player, bot: Player, cells: seq<(int, int)>) returns (anyHit: bool)
    requires bot.board.Valid() && IsSquare(player.attackBoard, bot.board.size)
    requires forall k :: 0 <= k < |cells| ==> IsWithinBounds(cells[k].0, cells[k].1, bot.board.size)
    modifies player`attackBoard, bot`life, bot.board`grid
    ensures bot.board.Valid() && IsSquare(player.attackBoard, bot.board.size)
    ensures AllInGrid(old(bot.board.grid), cells) && AllInGrid(old(player.attackBoard), cells)
    ensures (bot.board.grid, bot.life, player.attackBoard, anyHit)
         == Sweep(old(bot.board.grid), old(bot.life), old(player.attackBoard), cells)
  {
    ghost var g0, l0, ab0 := bot.board.grid, bot.life, player.attackBoard;
    anyHit := false;
    for i := 0 to |cells|
      invariant bot.board.Valid() && IsSquare(player.attackBoard, bot.board.size)
      invariant (bot.board.grid, bot.life, player.attackBoard, anyHit) == Sweep(g0, l0, ab0, cells[..i])
    {
      var (row, col) := cells[i];
      assert cells[..i + 1][..i] == cells[..i];
      if player.attackBoard[row][col] == 0 {
        var result := bot.ReceiveAttack(row, col);
        UpdateAttackBoard(player, row, col, result);
        if result == Hit {
          anyHit := true;
        }
      }
    }
    assert cells[..|cells|] == cells;
  }

  /** handle_normal_attack after the selection. */
  method HandleNormalAttack(player: Player, bot: Player, sel: Selection) returns (phase: Phase)
    requires Fair(bot.board.grid, player.attackBoard, sel, bot.board.size) && bot.board.Valid()
    modifies player`attackBoard, bot`life, bot.board`grid
    ensures bot.board.Valid()
    ensures (bot.board.grid, bot.life, player.attackBoard, phase)
         == NormalOutcome(old(bot.board.grid), old(bot.life), old(player.attackBoard), sel, bot.board.size)
  {
    if !sel.confirm {
      return PlayerTurn;
    }
    if player.attackBoard[sel.row][sel.col] != 0 {
      return PlayerTurn;
    }
    var result := bot.ReceiveAttack(sel.row, sel.col);
    UpdateAttackBoard(player, sel.row, sel.col, result);
    if result == Hit {
      return PlayerTurnAttack;
    } else if result == Miss {
      return BotTurn;
    } else {
      return PlayerTurn;
    }
  }

  /** handle_line_attack after the selection: the row or column is listed
      cell by cell, then swept. */
  method HandleLineAttack(player: Player, bot: Player, sel: Selection) returns (phase: Phase)
    requires Fair(bot.board.grid, player.attackBoard, sel, bot.board.size) && bot.board.Valid()
    modifies player`attackBoard, bot`life, bot.board`grid
    ensures bot.board.Valid()
    ensures (bot.board.grid, bot.life, player.attackBoard, phase)
         == LineOutcome(old(bot.board.grid), old(bot.life), old(player.attackBoard), sel, bot.board.size)
  {
    if !sel.confirm {
      return PlayerTurn;
    }
    var n := bot.board.size;
    var cells: seq<(int, int)> := [];
    for k := 0 to n
      invariant cells == LineOf(sel.row, sel.col, sel.o, n)[..k]
    {
      if sel.o == H {
        cells := cells + [(sel.row, k)];
      } else {
        cells := cells + [(k, sel.col)];
      }
    }
    assert cells == LineOf(sel.row, sel.col, sel.o, n);
    var anyHit := SweepCells(player, bot, cells);
    phase := if anyHit then PlayerTurnAttack else BotTurn;
  }

  /** handle_square_attack after the selection. */
  method HandleSquareAttack(player: Player, bot: Player, sel: Selection) returns (phase: Phase)
    requires Fair(bot.board.grid, player.attackBoard, sel, bot.board.size) && bot.board.Valid()
    modifies player`attackBoard, bot`life, bot.board`grid
    ensures bot.board.Valid()
    ensures (bot.board.grid, bot.life, player.attackBoard, phase)
         == SquareOutcome(old(bot.board.grid), old(bot.life), old(player.attackBoard), sel, bot.board.size)
  {
    if !sel.confirm {
      return PlayerTurn;
    }
    var cells := SquareOf(sel.row, sel.col, bot.board.size);
    SquareInGrid(bot.board.grid, player.attackBoard, sel, bot.board.size);
    var anyHit := SweepCells(player, bot, cells);
    phase := if anyHit then PlayerTurnAttack else BotTurn;
  }

  /** handle_attack_action: dispatch on the attack kind. */
  method HandleAttackAction(player: Player, bot: Player, kind: AttackKind, sel: Selection) returns (phase: Phase)
    requires Fair(bot.board.grid, player.attackBoard, sel, bot.board.size) && bot.board.Valid()
    modifies player`attackBoard, bot`life, bot.board`grid
    ensures bot.board.Valid()
    ensures (bot.board.grid, bot.life, player.attackBoard, phase)
         == Resolve(kind, old(bot.board.grid), old(bot.life), old(player.attackBoard), sel, bot.board.size)
  {
    match kind {
      case NormalAttack => phase := HandleNormalAttack(player, bot, sel);
      case LineAttack => phase := HandleLineAttack(player, bot, sel);
      case SquareAttack => phase := HandleSquareAttack(player, bot, sel);
      case UnknownAttack => phase := PlayerTurn;
    }
  }
}

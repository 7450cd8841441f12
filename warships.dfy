/** Ships and the fleet catalogue (src/modules/warships.py), with the cell
    formula every placement routine of the game shares. */
module Warships {
  import opened Utils

  /** "H" lays a ship along its row (columns grow), "V" along its column. */
  datatype Orientation = H | V

  /** The i-th cell of a ship laid from (row, col). */
  function ShipCell(row: int, col: int, o: Orientation, i: int): (int, int) {
    (row + (if o == V then i else 0), col + (if o == H then i else 0))
  }

  /** The `size` cells of a ship laid from (row, col), in laying order. */
  function ShipCells(row: int, col: int, o: Orientation, size: nat): seq<(int, int)> {
    seq(size, i => ShipCell(row, col, o, i))
  }

  predicate NoDuplicates<T(==)>(s: seq<T>) {
    forall i, j :: 0 <= i < j < |s| ==> s[i] != s[j]
  }

  /** A ship never covers a cell twice, and every cell is on its line. */
  lemma ShipCellsAreDistinct(row: int, col: int, o: Orientation, size: nat)
    ensures NoDuplicates(ShipCells(row, col, o, size))
  {
  }

  predicate AllWithinBounds(row: int, col: int, o: Orientation, size: nat, boardSize: int) {
    forall i :: 0 <= i < size ==> IsWithinBounds(ShipCell(row, col, o, i).0, ShipCell(row, col, o, i).1, boardSize)
  }

  class Ship {
    const name: string
    const size: nat
    var positions: seq<(int, int)>

    /** A new ship is not on any board yet. */
    constructor (name: string, size: nat)
      ensures this.name == name && this.size == size
      ensures positions == []
    {
      this.name := name;
      this.size := size;
      positions := [];
    }

    /** Records the ship's cells from (row, col). On the first cell off the
        board the source raises ValueError; here that is `placed == false`,
        with the cells appended before it left in `positions`, as the source
        leaves them. */
    method Place(row: int, col: int, o: Orientation, boardSize: int) returns (placed: bool)
      modifies this`positions
      ensures placed <==> AllWithinBounds(row, col, o, size, boardSize)
      ensures placed ==> positions == ShipCells(row, col, o, size)
      ensures !placed ==>
        |positions| < size && positions == ShipCells(row, col, o, size)[..|positions|]
        && (forall j :: 0 <= j < |positions| ==> IsWithinBounds(ShipCell(row, col, o, j).0, ShipCell(row, col, o, j).1, boardSize))
        && !IsWithinBounds(ShipCell(row, col, o, |positions|).0, ShipCell(row, col, o, |positions|).1, boardSize)
    {
      positions := [];
      var i := 0;
      while i < size
        invariant 0 <= i <= size
        invariant positions == ShipCells(row, col, o, size)[..i]
        invariant forall j :: 0 <= j < i ==> IsWithinBounds(ShipCell(row, col, o, j).0, ShipCell(row, col, o, j).1, boardSize)
      {
        var r := row + (if o == V then i else 0);
        var c := col + (if o == H then i else 0);
        if 0 <= r < boardSize && 0 <= c < boardSize {
          positions := positions + [(r, c)];
        } else {
          assert (r, c) == ShipCell(row, col, o, i);
          return false;
        }
        i := i + 1;
      }
      return true;
    }
  }

  /** The catalogue: name, size and number of copies, in fleet order. */
  const ShipDefinitions: seq<(string, nat, nat)> := [
    ("Portaaviones", 6, 1),
    ("Acorazado", 4, 1),
    ("Crucero", 3, 2),
    ("Submarino", 2, 3),
    ("Destructor", 1, 4)
  ]

  /** `quantity` copies of one ship type. */
  function Copies(name: string, size: nat, quantity: nat): seq<(string, nat)>
    decreases quantity
  {
    if quantity == 0 then [] else Copies(name, size, quantity - 1) + [(name, size)]
  }

  /** The (name, size) of every ship a catalogue yields, in order. */
  function Expand(defs: seq<(string, nat, nat)>): seq<(string, nat)>
    decreases |defs|
  {
    if defs == [] then []
    else
      var d := defs[|defs| - 1];
      Expand(defs[..|defs| - 1]) + Copies(d.0, d.1, d.2)
  }

  function TotalSize(ships: seq<(string, nat)>): nat
    decreases |ships|
  {
    if ships == [] then 0 else TotalSize(ships[..|ships| - 1]) + ships[|ships| - 1].1
  }

  /** The fleet the default catalogue yields: 11 ships, largest first, with
      26 cells in all. */
  lemma FleetCatalogue()
    ensures Expand(ShipDefinitions) == [
      ("Portaaviones", 6), ("Acorazado", 4),
      ("Crucero", 3), ("Crucero", 3),
      ("Submarino", 2), ("Submarino", 2), ("Submarino", 2),
      ("Destructor", 1), ("Destructor", 1), ("Destructor", 1), ("Destructor", 1)]
    ensures |Expand(ShipDefinitions)| == 11
    ensures TotalSize(Expand(ShipDefinitions)) == 26
  {
    var defs := ShipDefinitions;
    ExpandStep(defs, 1);
    ExpandStep(defs, 2);
    ExpandStep(defs, 3);
    ExpandStep(defs, 4);
    ExpandStep(defs, 5);
    assert defs[..0] == [] && defs[..5] == defs;
    assert Copies("Crucero", 3, 2) == [("Crucero", 3), ("Crucero", 3)];
    assert Copies("Submarino", 2, 3) == [("Submarino", 2), ("Submarino", 2), ("Submarino", 2)];
    assert Copies("Destructor", 1, 4) == [("Destructor", 1), ("Destructor", 1), ("Destructor", 1), ("Destructor", 1)];
    TotalSizeIsCatalogueCells(defs);
    CatalogueTotal();
  }

  lemma ExpandStep(defs: seq<(string, nat, nat)>, k: nat)
    requires 0 < k <= |defs|
    ensures Expand(defs[..k]) == Expand(defs[..k - 1]) + Copies(defs[k - 1].0, defs[k - 1].1, defs[k - 1].2)
  {
    assert defs[..k][..k - 1] == defs[..k - 1];
  }

  lemma CatalogueStep(defs: seq<(string, nat, nat)>, k: nat)
    requires 0 < k <= |defs|
    ensures CatalogueCells(defs[..k]) == CatalogueCells(defs[..k - 1]) + defs[k - 1].1 * defs[k - 1].2
  {
    assert defs[..k][..k - 1] == defs[..k - 1];
  }

  /** The default catalogue asks for 26 cells. */
  lemma CatalogueTotal()
    ensures CatalogueCells(ShipDefinitions) == 26
  {
    var defs := ShipDefinitions;
    CatalogueStep(defs, 1);
    CatalogueStep(defs, 2);
    CatalogueStep(defs, 3);
    CatalogueStep(defs, 4);
    CatalogueStep(defs, 5);
    assert defs[..0] == [] && defs[..5] == defs;
  }

  /** Cells a catalogue asks for: the sum of size times quantity. */
  function CatalogueCells(defs: seq<(string, nat, nat)>): nat
    decreases |defs|
  {
    if defs == [] then 0
    else
      var d := defs[|defs| - 1];
      CatalogueCells(defs[..|defs| - 1]) + d.1 * d.2
  }

  lemma {:induction false} TotalSizeConcat(a: seq<(string, nat)>, b: seq<(string, nat)>)
    ensures TotalSize(a + b) == TotalSize(a) + TotalSize(b)
    decreases |b|
  {
    if b != [] {
      var b' := b[..|b| - 1];
      assert (a + b)[..|a + b| - 1] == a + b';
      TotalSizeConcat(a, b');
    } else {
      assert a + b == a;
    }
  }

  lemma {:induction false} TotalSizeCopies(name: string, size: nat, quantity: nat)
    ensures TotalSize(Copies(name, size, quantity)) == size * quantity
    decreases quantity
  {
    if quantity > 0 {
      var c := Copies(name, size, quantity - 1);
      TotalSizeCopies(name, size, quantity - 1);
      assert (c + [(name, size)])[..|c|] == c;
      assert size * quantity == size * (quantity - 1) + size;
    }
  }

  /** The fleet has as many cells as the catalogue's size-times-quantity
      sum, the figure a combatant's initial life is meant to be. */
  lemma {:induction false} TotalSizeIsCatalogueCells(defs: seq<(string, nat, nat)>)
    ensures TotalSize(Expand(defs)) == CatalogueCells(defs)
    decreases |defs|
  {
    if defs != [] {
      var d := defs[|defs| - 1];
      TotalSizeIsCatalogueCells(defs[..|defs| - 1]);
      TotalSizeConcat(Expand(defs[..|defs| - 1]), Copies(d.0, d.1, d.2));
      TotalSizeCopies(d.0, d.1, d.2);
    }
  }

  /** The fleet as ship objects: one fresh, unplaced Ship per catalogue
      entry copy, in catalogue order. */
  method CreateFleet() returns (fleet: seq<Ship>)
    ensures |fleet| == |Expand(ShipDefinitions)|
    ensures forall k :: 0 <= k < |fleet| ==>
      (fleet[k].name, fleet[k].size) == Expand(ShipDefinitions)[k] && fleet[k].positions == [] && fresh(fleet[k])
    ensures forall i, j :: 0 <= i < j < |fleet| ==> fleet[i] != fleet[j]
  {
    fleet := [];
    var d := 0;
    while d < |ShipDefinitions|
      invariant 0 <= d <= |ShipDefinitions|
      invariant |fleet| == |Expand(ShipDefinitions[..d])|
      invariant forall k :: 0 <= k < |fleet| ==>
        (fleet[k].name, fleet[k].size) == Expand(ShipDefinitions[..d])[k] && fleet[k].positions == [] && fresh(fleet[k])
      invariant forall i, j :: 0 <= i < j < |fleet| ==> fleet[i] != fleet[j]
    {
      var (name, size, quantity) := ShipDefinitions[d];
      ghost var before := fleet;
      var q := 0;
      while q < quantity
        invariant 0 <= q <= quantity
        invariant |fleet| == |before| + q
        invariant forall k :: 0 <= k < |before| ==> fleet[k] == before[k]
        invariant forall k :: 0 <= k < |fleet| ==> fleet[k].positions == [] && fresh(fleet[k])
        invariant forall k :: |before| <= k < |fleet| ==> (fleet[k].name, fleet[k].size) == (name, size)
        invariant forall i, j :: 0 <= i < j < |fleet| ==> fleet[i] != fleet[j]
      {
        var ship := new Ship(name, size);
        fleet := fleet + [ship];
        q := q + 1;
      }
      CopiesAt(name, size, quantity);
      assert ShipDefinitions[..d + 1][..d] == ShipDefinitions[..d];
      d := d + 1;
    }
    assert ShipDefinitions[..d] == ShipDefinitions;
  }

  lemma {:induction false} CopiesAt(name: string, size: nat, quantity: nat)
    ensures |Copies(name, size, quantity)| == quantity
    ensures forall k :: 0 <= k < quantity ==> Copies(name, size, quantity)[k] == (name, size)
    decreases quantity
  {
    if quantity > 0 {
      CopiesAt(name, size, quantity - 1);
    }
  }
}

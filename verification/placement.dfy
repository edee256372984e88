/** Putting a fleet on an empty board: the rules of the Board constructor. */
module Placement {
  import opened Wrappers
  import opened Errors
  import opened Geometry
  import opened Grids

  const NotFit := "Ship doesn't fit the board"
  const Occupied := "Cell is already occupied"

  /** Writes ship `i` into cells `m..` of `cells`, failing at the first cell that is off
      the board or not free. */
  function PlaceCells(g: seq<Cell>, cells: seq<Coord>, i: nat, m: nat): (r: Result<seq<Cell>, Error>)
    requires |g| == CellCount && m <= |cells|
    ensures r.Ok? ==> |r.value| == CellCount
    decreases |cells| - m
  {
    if m == |cells| then Ok(g)
    else if !InGrid(cells[m]) then Err(GameError(NotFit))
    else if g[Index(cells[m])] != Available then Err(GameError(Occupied))
    else PlaceCells(g[Index(cells[m]) := Slot(i)], cells, i, m + 1)
  }

  /** Places ships `n..` of the fleet in order, each ship's cells marked with its index. */
  function PlaceFleet(g: seq<Cell>, ships: seq<Ship>, n: nat): (r: Result<seq<Cell>, Error>)
    requires |g| == CellCount && n <= |ships|
    ensures r.Ok? ==> |r.value| == CellCount
    decreases |ships| - n
  {
    if n == |ships| then Ok(g)
    else
      PlaceCellsSpec(g, ShipCells(ships[n]), n, 0);
      match PlaceCells(g, ShipCells(ships[n]), n, 0)
      case Err(e) => Err(e)
      case Ok(h) => PlaceFleet(h, ships, n + 1)
  }

  /** The constructor's placement of a whole fleet on a fresh board. */
  function Layout(ships: seq<Ship>): Result<seq<Cell>, Error>
  {
    PlaceFleet(EmptyGrid(), ships, 0)
  }

  predicate Free(g: seq<Cell>, c: Coord)
    requires |g| == CellCount
  {
    InGrid(c) && g[Index(c)] == Available
  }

  /** `h` is `g` with the given cells set to ship `i`. */
  ghost predicate Marked(g: seq<Cell>, h: seq<Cell>, cells: seq<Coord>, i: nat)
    requires |g| == CellCount
  {
    |h| == CellCount
    && forall c :: InGrid(c) ==> h[Index(c)] == if c in cells then Slot(i) else g[Index(c)]
  }

  /** Cell `k` is the first of `cells[m..]` that is not free, and `e` is the error for it. */
  ghost predicate FirstBad(g: seq<Cell>, cells: seq<Coord>, m: nat, e: Error)
    requires |g| == CellCount
  {
    exists k :: m <= k < |cells| && !Free(g, cells[k])
      && (forall j :: m <= j < k ==> Free(g, cells[j]))
      && e == GameError(if InGrid(cells[k]) then Occupied else NotFit)
  }

  /** Placing one ship succeeds exactly when every one of its remaining cells is free; it
      marks those cells and nothing else, and otherwise names the first bad cell. */
  lemma {:induction false} PlaceCellsSpec(g: seq<Cell>, cells: seq<Coord>, i: nat, m: nat)
    requires |g| == CellCount && m <= |cells|
    requires forall a, b :: 0 <= a < b < |cells| ==> cells[a] != cells[b]
    ensures var r := PlaceCells(g, cells, i, m);
      && ((forall k :: m <= k < |cells| ==> Free(g, cells[k])) <==> r.Ok?)
      && (r.Ok? ==> Marked(g, r.value, cells[m..], i))
      && (r.Err? ==> FirstBad(g, cells, m, r.error))
    decreases |cells| - m
  {
    if m < |cells| && Free(g, cells[m]) {
      var h := g[Index(cells[m]) := Slot(i)];
      forall k | m < k < |cells| ensures Free(h, cells[k]) <==> Free(g, cells[k]) {
        if InGrid(cells[k]) && Index(cells[k]) == Index(cells[m]) {
          IndexInjective(cells[k], cells[m]);
        }
      }
      PlaceCellsSpec(h, cells, i, m + 1);
      var r := PlaceCells(h, cells, i, m + 1);
      if r.Ok? {
        forall c | InGrid(c)
          ensures r.value[Index(c)] == if c in cells[m..] then Slot(i) else g[Index(c)]
        {
          assert c in cells[m..] <==> c == cells[m] || c in cells[m + 1..] by {
            assert cells[m..] == [cells[m]] + cells[m + 1..];
          }
          if c != cells[m] {
            if Index(c) == Index(cells[m]) { IndexInjective(c, cells[m]); }
          }
        }
      } else {
        var k :| m + 1 <= k < |cells| && !Free(h, cells[k])
          && (forall j :: m + 1 <= j < k ==> Free(h, cells[j]))
          && r.error == GameError(if InGrid(cells[k]) then Occupied else NotFit);
        assert !Free(g, cells[k]);
        assert forall j :: m <= j < k ==> Free(g, cells[j]);
      }
    }
  }

  predicate AllFit(ships: seq<Ship>)
  {
    forall j :: 0 <= j < |ships| ==> Fits(ships[j])
  }

  /** No cell belongs to two ships of the fleet. */
  predicate Disjoint(ships: seq<Ship>)
  {
    forall a, b, c :: 0 <= a < b < |ships| && c in ShipCells(ships[a]) ==> c !in ShipCells(ships[b])
  }

  /** Some ship among the first `n` covers `c`. */
  predicate Covered(ships: seq<Ship>, n: int, c: Coord)
  {
    exists j :: 0 <= j < n && j < |ships| && c in ShipCells(ships[j])
  }

  /** `g` is a board holding exactly the fleet: each ship's cells hold its index, every
      other cell is free. */
  ghost predicate Holds(g: seq<Cell>, ships: seq<Ship>)
  {
    |g| == CellCount
    && (forall j, c :: 0 <= j < |ships| && c in ShipCells(ships[j]) ==> InGrid(c) && g[Index(c)] == Slot(j))
    && (forall c :: InGrid(c) && !Covered(ships, |ships|, c) ==> g[Index(c)] == Available)
  }

  /** `g` is the board holding exactly the first `n` ships of the fleet, which fit and do
      not overlap. */
  ghost predicate Represents(g: seq<Cell>, ships: seq<Ship>, n: nat)
  {
    n <= |ships| && |g| == CellCount
    && (forall j :: 0 <= j < n ==> Fits(ships[j]))
    && (forall a, b, c :: 0 <= a < b < n && c in ShipCells(ships[a]) ==> c !in ShipCells(ships[b]))
    && (forall j, c :: 0 <= j < n && c in ShipCells(ships[j]) ==> g[Index(c)] == Slot(j))
    && (forall c :: InGrid(c) && !Covered(ships, n, c) ==> g[Index(c)] == Available)
  }

  /** A ship whose cells are all free extends a board holding the ships before it. */
  lemma PlaceStep(g: seq<Cell>, h: seq<Cell>, ships: seq<Ship>, n: nat)
    requires Represents(g, ships, n) && n < |ships|
    requires forall k :: 0 <= k < |ShipCells(ships[n])| ==> Free(g, ShipCells(ships[n])[k])
    requires Marked(g, h, ShipCells(ships[n]), n)
    ensures Represents(h, ships, n + 1)
  {
    var cells := ShipCells(ships[n]);
    forall c | InGrid(c) && !Covered(ships, n + 1, c) ensures h[Index(c)] == Available {
      assert !Covered(ships, n, c);
    }
  }

  /** A ship with a bad cell shows the fleet does not fit or overlaps. */
  lemma PlaceStepBad(g: seq<Cell>, ships: seq<Ship>, n: nat, e: Error)
    requires Represents(g, ships, n) && n < |ships|
    requires FirstBad(g, ShipCells(ships[n]), 0, e)
    ensures !(AllFit(ships) && Disjoint(ships))
    ensures Disjoint(ships) ==> e == GameError(NotFit)
    ensures AllFit(ships) ==> e == GameError(Occupied)
  {
    var cells := ShipCells(ships[n]);
    var k :| 0 <= k < |cells| && !Free(g, cells[k])
      && (forall j :: 0 <= j < k ==> Free(g, cells[j]))
      && e == GameError(if InGrid(cells[k]) then Occupied else NotFit);
    var c := cells[k];
    assert c in ShipCells(ships[n]);
    if InGrid(c) {
      assert Covered(ships, n, c);
      var j :| 0 <= j < n && c in ShipCells(ships[j]);
      assert !Disjoint(ships);
    } else {
      assert !Fits(ships[n]);
      assert !AllFit(ships);
    }
  }

  lemma {:induction false} PlaceFleetSpec(g: seq<Cell>, ships: seq<Ship>, n: nat)
    requires Represents(g, ships, n)
    ensures var r := PlaceFleet(g, ships, n);
      && (r.Ok? <==> AllFit(ships) && Disjoint(ships))
      && (r.Ok? ==> Represents(r.value, ships, |ships|))
      && (r.Err? && Disjoint(ships) ==> r.error == GameError(NotFit))
      && (r.Err? && AllFit(ships) ==> r.error == GameError(Occupied))
    decreases |ships| - n
  {
    if n < |ships| {
      var cells := ShipCells(ships[n]);
      PlaceCellsSpec(g, cells, n, 0);
      assert cells[0..] == cells;
      var r := PlaceCells(g, cells, n, 0);
      if r.Ok? {
        PlaceStep(g, r.value, ships, n);
        PlaceFleetSpec(r.value, ships, n + 1);
      } else {
        PlaceStepBad(g, ships, n, r.error);
      }
    }
  }

  /** The constructor's placement succeeds exactly for a fleet whose ships all fit the
      board and never share a cell; then each ship's cells hold its index and every other
      cell is free. A failure names the first bad cell met: off the board, or taken. */
  lemma LayoutSpec(ships: seq<Ship>)
    ensures var r := Layout(ships);
      && (r.Ok? <==> AllFit(ships) && Disjoint(ships))
      && (r.Ok? ==> Holds(r.value, ships))
      && (r.Err? && Disjoint(ships) ==> r.error == GameError(NotFit))
      && (r.Err? && AllFit(ships) ==> r.error == GameError(Occupied))
  {
    PlaceFleetSpec(EmptyGrid(), ships, 0);
  }

  /** Placement fails only with one of the two constructor errors. */
  lemma {:induction false} PlaceFleetErrors(g: seq<Cell>, ships: seq<Ship>, n: nat)
    requires |g| == CellCount && n <= |ships|
    ensures var r := PlaceFleet(g, ships, n);
      r.Err? ==> r.error == GameError(NotFit) || r.error == GameError(Occupied)
    decreases |ships| - n
  {
    if n < |ships| {
      var cells := ShipCells(ships[n]);
      PlaceCellsSpec(g, cells, n, 0);
      var r := PlaceCells(g, cells, n, 0);
      if r.Ok? {
        PlaceFleetErrors(r.value, ships, n + 1);
      }
    }
  }

  /** A board holding a fleet names only ships of that fleet. */
  lemma HoldsWellFormed(g: seq<Cell>, ships: seq<Ship>)
    requires Holds(g, ships)
    ensures WellFormed(g, |ships|)
  {
    forall k | 0 <= k < |g| && g[k].Slot? ensures g[k].i < |ships| {
      var c := CoordOf(k);
      if Covered(ships, |ships|, c) {
        var j :| 0 <= j < |ships| && c in ShipCells(ships[j]);
      }
    }
  }
}

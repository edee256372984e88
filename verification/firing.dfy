/** What one shot does to a board: the rules of Board.atack. */
module Firing {
  import opened Wrappers
  import opened Errors
  import opened Geometry
  import opened Grids
  import opened Placement

  datatype AttackResult = Miss | Killed | Shot | Repeat

  /** The board after a shot, and the shot's result. */
  datatype Fired = Fired(grid: seq<Cell>, result: AttackResult)

  const OutOfBoard := "Out of the board"

  /** Resolves every on-board point of `pts`. */
  function ClearRing(g: seq<Cell>, pts: seq<Coord>): (r: seq<Cell>)
    requires |g| == CellCount
    ensures |r| == CellCount
    ensures forall c :: InGrid(c) ==> r[Index(c)] == if c in pts then NotAvailable else g[Index(c)]
    ensures Resolves(g, r)
    decreases |pts|
  {
    if pts == [] then g
    else
      var h := if InGrid(pts[0]) then g[Index(pts[0]) := NotAvailable] else g;
      var r := ClearRing(h, pts[1..]);
      forall c | InGrid(c) ensures r[Index(c)] == if c in pts then NotAvailable else g[Index(c)] {
        assert c in pts <==> c == pts[0] || c in pts[1..] by {
          assert pts == [pts[0]] + pts[1..];
        }
        if InGrid(pts[0]) && c != pts[0] && Index(c) == Index(pts[0]) {
          IndexInjective(c, pts[0]);
        }
      }
      r
  }

  /** Some on-board cell of the ship still holds the ship's index. */
  predicate Afloat(g: seq<Cell>, cells: seq<Coord>, i: nat)
    requires |g| == CellCount
  {
    exists a :: a in cells && InGrid(a) && g[Index(a)] == Slot(i)
  }

  /** Every cell keeps its state or becomes resolved. */
  predicate Resolves(g: seq<Cell>, h: seq<Cell>)
  {
    |g| == |h| && forall k :: 0 <= k < |g| ==> h[k] == g[k] || h[k] == NotAvailable
  }

  /** A shot at `c` on a board holding fleet `ships`. */
  function Fire(g: seq<Cell>, ships: seq<Ship>, c: Coord): (r: Result<Fired, Error>)
    requires WellFormed(g, |ships|)
    ensures r.Err? <==> !InGrid(c)
    ensures r.Err? ==> r.error == GameError(OutOfBoard)
    ensures r.Ok? ==> WellFormed(r.value.grid, |ships|) && Resolves(g, r.value.grid)
  {
    if !InGrid(c) then Err(GameError(OutOfBoard))
    else
      var k := Index(c);
      match g[k]
      case NotAvailable => Ok(Fired(g, Repeat))
      case Available => Ok(Fired(g[k := NotAvailable], Miss))
      case Slot(i) =>
        var g1 := g[k := NotAvailable];
        if Afloat(g1, ShipCells(ships[i]), i) then Ok(Fired(g1, Shot))
        else Ok(Fired(ClearRing(g1, PointsAround(ships[i])), Killed))
  }

  /** Another cell of ship `i` than `c` still holds the ship's index. */
  predicate OtherCellAfloat(g: seq<Cell>, ships: seq<Ship>, i: nat, c: Coord)
    requires |g| == CellCount && i < |ships|
  {
    exists a :: a in ShipCells(ships[i]) && a != c && InGrid(a) && g[Index(a)] == Slot(i)
  }

  /** The classification of a shot on the board: a resolved cell repeats and changes
      nothing; otherwise the cell is resolved, the result is a miss for an empty cell, a
      hit while another cell of that ship is still afloat, and a kill otherwise; and the
      number of unresolved cells drops. */
  lemma FireOutcome(g: seq<Cell>, ships: seq<Ship>, c: Coord)
    requires WellFormed(g, |ships|) && InGrid(c)
    ensures var f := Fire(g, ships, c).value; var k := Index(c);
      && (f.result == Repeat <==> g[k] == NotAvailable)
      && (f.result == Repeat ==> f.grid == g)
      && (f.result != Repeat ==> f.grid[k] == NotAvailable && Unresolved(f.grid) < Unresolved(g))
      && (f.result == Miss <==> g[k] == Available)
      && (f.result == Shot <==> g[k].Slot? && OtherCellAfloat(g, ships, g[k].i, c))
      && (f.result == Killed <==> g[k].Slot? && !OtherCellAfloat(g, ships, g[k].i, c))
  {
    var k := Index(c);
    var f := Fire(g, ships, c).value;
    if g[k].Slot? {
      var i := g[k].i;
      var g1 := g[k := NotAvailable];
      forall a | InGrid(a) && a != c ensures g1[Index(a)] == g[Index(a)] {
        if Index(a) == k { IndexInjective(a, c); }
      }
      assert Afloat(g1, ShipCells(ships[i]), i) <==> OtherCellAfloat(g, ships, i, c);
      if f.result == Killed {
        assert c in PointsAround(ships[i]) ==> f.grid[k] == NotAvailable;
      }
    }
    if f.result != Repeat {
      UnresolvedDecreases(g, f.grid, k);
    }
  }

  /** Firing twice at the same cell: the second shot repeats and changes nothing. */
  lemma FireTwiceRepeats(g: seq<Cell>, ships: seq<Ship>, c: Coord)
    requires WellFormed(g, |ships|) && InGrid(c)
    ensures var f := Fire(g, ships, c).value;
      Fire(f.grid, ships, c) == Ok(Fired(f.grid, Repeat))
  {
    FireOutcome(g, ships, c);
  }

  /** A kill resolves the ring around the sunk ship, so every later shot at a ring cell
      repeats instead of missing. */
  lemma KillClearsRing(g: seq<Cell>, ships: seq<Ship>, c: Coord, p: Coord)
    requires WellFormed(g, |ships|) && InGrid(c) && g[Index(c)].Slot?
    requires Fire(g, ships, c).value.result == Killed
    requires p in PointsAround(ships[g[Index(c)].i]) && InGrid(p)
    ensures var f := Fire(g, ships, c).value;
      f.grid[Index(p)] == NotAvailable && Fire(f.grid, ships, p) == Ok(Fired(f.grid, Repeat))
  {
  }

  /** Two one-cell ships side by side, as a client may supply them. */
  function NeighbourFleet(): seq<Ship>
  {
    [Ship("small", Coord(0, 0), false, 1, 0), Ship("small", Coord(1, 0), false, 1, 1)]
  }

  /** The board the constructor builds for the two touching ships: only their two cells
      hold ships. */
  lemma NeighbourLayout()
    ensures Layout(NeighbourFleet()).Ok?
    ensures var g := Layout(NeighbourFleet()).value;
      && WellFormed(g, 2)
      && g[Index(Coord(0, 0))] == Slot(0) && g[Index(Coord(1, 0))] == Slot(1)
      && forall k :: 0 <= k < CellCount && k != Index(Coord(0, 0)) && k != Index(Coord(1, 0)) ==> g[k] == Available
  {
    var ships := NeighbourFleet();
    assert ShipCells(ships[0]) == [Coord(0, 0)];
    assert ShipCells(ships[1]) == [Coord(1, 0)];
    LayoutSpec(ships);
    var g := Layout(ships).value;
    forall k | 0 <= k < CellCount && k != Index(Coord(0, 0)) && k != Index(Coord(1, 0))
      ensures g[k] == Available
    {
      var c := CoordOf(k);
      assert !Covered(ships, 2, c);
    }
  }

  /** Supplied fleets are not checked for adjacency: sinking the first of two touching
      ships also resolves the second one's only cell, which was never fired at. The board
      then holds no ship, and a shot at the second ship repeats. */
  lemma KillOverwritesNeighbour()
    ensures Layout(NeighbourFleet()).Ok?
    ensures var g := Layout(NeighbourFleet()).value;
      && WellFormed(g, 2) && g[Index(Coord(1, 0))] == Slot(1)
      && var f := Fire(g, NeighbourFleet(), Coord(0, 0)).value;
        && f.result == Killed
        && f.grid[Index(Coord(1, 0))] == NotAvailable
        && !HasAvailableShips(f.grid)
        && Fire(f.grid, NeighbourFleet(), Coord(1, 0)).value.result == Repeat
  {
    NeighbourLayout();
    var ships := NeighbourFleet();
    var a, b := Coord(0, 0), Coord(1, 0);
    var g := Layout(ships).value;
    assert ShipCells(ships[0]) == [a];
    PointsAroundIsRing(ships[0]);
    assert Near(a, b);
    assert b in PointsAround(ships[0]);
    var f := Fire(g, ships, a).value;
    assert !Afloat(g[Index(a) := NotAvailable], [a], 0);
    assert f.result == Killed;
    assert f.grid[Index(b)] == NotAvailable;
    forall k | 0 <= k < CellCount ensures !f.grid[k].Slot? {
      if k != Index(a) && k != Index(b) {
        assert g[k] == Available;
      }
    }
  }
}

/** The Board: a 10x10 grid owned by one player, its fleet and the last ship sunk on it. */
module Boards {
  import opened Wrappers
  import opened Errors
  import opened Geometry
  import opened Grids
  import opened Placement
  import opened Firing
  import opened Fleets

  const NoPoints := "No available points"

  /** The fleet as the board stores it: each ship's `index` is its place in the list. */
  function Indexed(ships: seq<Ship>): (r: seq<Ship>)
    ensures |r| == |ships|
    ensures forall i :: 0 <= i < |r| ==> r[i].index == i && ShipCells(r[i]) == ShipCells(ships[i])
  {
    seq(|ships|, i requires 0 <= i < |ships| => ships[i].(index := i))
  }

  /** The ship standing on the target cell, if any. */
  function TargetShip(g: seq<Cell>, ships: seq<Ship>, c: Coord): Option<Ship>
    requires WellFormed(g, |ships|)
  {
    if InGrid(c) && g[Index(c)].Slot? then Some(ships[g[Index(c)].i]) else None
  }

  class Board {
    const ships: seq<Ship>
    const grid: array<Cell>
    var lastKilled: Option<Ship>

    ghost predicate Valid()
      reads this, grid
    {
      grid.Length == CellCount && WellFormed(grid[..], |ships|)
      && forall i :: 0 <= i < |ships| ==> ships[i].index == i
    }

    constructor(ships: seq<Ship>, grid: array<Cell>)
      requires grid.Length == CellCount && WellFormed(grid[..], |ships|)
      requires forall i :: 0 <= i < |ships| ==> ships[i].index == i
      ensures Valid() && this.ships == ships && this.grid == grid && lastKilled == None
    {
      this.ships := ships;
      this.grid := grid;
      lastKilled := None;
    }

    /** hasAvailableShips: some cell still holds part of a ship. */
    function HasAvailableShips(): (r: bool)
      reads this, grid
      ensures r <==> exists k :: 0 <= k < grid.Length && grid[k].Slot?
    {
      Grids.HasAvailableShips(grid[..])
    }

    /** getAvailableCoordinates: the cells not yet resolved, in board order. */
    function AvailableCoordinates(): (r: seq<Coord>)
      requires Valid()
      reads this, grid
      ensures forall c :: c in r <==> InGrid(c) && grid[Index(c)] != NotAvailable
    {
      Grids.AvailableCoordinates(grid[..])
    }

    /** atack: resolves a shot as the firing rules say and records a sunk ship. */
    method Attack(c: Coord) returns (r: Result<AttackResult, Error>)
      requires Valid()
      modifies this, grid
      ensures Valid()
      ensures var f := Fire(old(grid[..]), ships, c);
        && (f.Err? ==> r == Err(f.error) && grid[..] == old(grid[..]) && lastKilled == old(lastKilled))
        && (f.Ok? ==> r == Ok(f.value.result) && grid[..] == f.value.grid)
        && (f.Ok? && f.value.result == Killed ==> lastKilled == TargetShip(old(grid[..]), ships, c))
        && (f.Ok? && f.value.result != Killed ==> lastKilled == old(lastKilled))
    {
      if !InGrid(c) {
        return Err(GameError(OutOfBoard));
      }
      var k := Index(c);
      if grid[k] == NotAvailable {
        return Ok(Repeat);
      }
      var cell := grid[k];
      grid[k] := NotAvailable;
      assert grid[..] == old(grid[..])[k := NotAvailable];
      if !cell.Slot? {
        return Ok(Miss);
      }
      var ship := ships[cell.i];
      var afloat := ShipAfloat(ship);
      if afloat {
        return Ok(Shot);
      }
      ClearCells(PointsAround(ship));
      lastKilled := Some(ship);
      r := Ok(Killed);
    }

    /** The search for a cell of the ship that still holds the ship's index. */
    method ShipAfloat(ship: Ship) returns (afloat: bool)
      requires Valid() && 0 <= ship.index
      ensures afloat == Afloat(grid[..], ShipCells(ship), ship.index)
    {
      var cells := ShipCells(ship);
      for j := 0 to |cells|
        invariant forall t :: 0 <= t < j ==> !(InGrid(cells[t]) && grid[Index(cells[t])] == Slot(ship.index))
      {
        var a := cells[j];
        if InGrid(a) && grid[Index(a)] == Slot(ship.index) {
          return true;
        }
      }
      afloat := false;
    }

    /** Resolves every on-board point of `ring`. */
    method ClearCells(ring: seq<Coord>)
      requires grid.Length == CellCount
      modifies grid
      ensures grid[..] == ClearRing(old(grid[..]), ring)
    {
      for j := 0 to |ring|
        invariant ClearRing(grid[..], ring[j..]) == ClearRing(old(grid[..]), ring)
      {
        assert ring[j..] == [ring[j]] + ring[j + 1..];
        var p := ring[j];
        if InGrid(p) {
          grid[Index(p)] := NotAvailable;
        }
      }
    }
  }

  /** Writes the fleet onto the grid in order, as the constructor does, stopping at the
      first cell that is off the board or taken. */
  method PlaceOn(grid: array<Cell>, ships: seq<Ship>) returns (r: Outcome<Error>)
    requires grid.Length == CellCount
    modifies grid
    ensures var spec := PlaceFleet(old(grid[..]), ships, 0);
      && (spec.Ok? ==> r.Pass? && grid[..] == spec.value)
      && (spec.Err? ==> r == Fail(spec.error))
  {
    ghost var spec := PlaceFleet(grid[..], ships, 0);
    for n := 0 to |ships|
      invariant PlaceFleet(grid[..], ships, n) == spec
    {
      var cells := ShipCells(ships[n]);
      for m := 0 to |cells|
        invariant Continue(PlaceCells(grid[..], cells, n, m), ships, n + 1) == spec
      {
        var c := cells[m];
        if !InGrid(c) {
          return Fail(GameError(NotFit));
        }
        if grid[Index(c)] != Available {
          return Fail(GameError(Occupied));
        }
        grid[Index(c)] := Slot(n);
      }
    }
    r := Pass;
  }

  /** What remains of the placement once ship `n - 1` has been tried. */
  function Continue(r: Result<seq<Cell>, Error>, ships: seq<Ship>, n: nat): Result<seq<Cell>, Error>
    requires r.Ok? ==> |r.value| == CellCount
    requires n <= |ships|
  {
    match r
    case Err(e) => Err(e)
    case Ok(h) => PlaceFleet(h, ships, n)
  }

  /** getRandomCoordinate: any origin from which a ship of length `len` fits inside
      `coords`; nothing exactly when there is no such origin. */
  method RandomCoordinate(coords: seq<Coord>, len: int, direction: bool) returns (r: Option<Coord>)
    ensures r.None? <==> forall c :: c in coords ==> !RunIn(coords, c, len, direction)
    ensures r.Some? ==> r.value in coords && RunIn(coords, r.value, len, direction)
  {
    var candidates := Candidates(coords, len, direction);
    if candidates == [] {
      r := None;
    } else {
      assert candidates[0] in candidates;
      var i :| 0 <= i < |candidates|;
      r := Some(candidates[i]);
    }
  }

  /** A ship whose run lies inside the eligible cells keeps the fleet well spread, and
      dropping its cells and ring keeps every eligible cell clear of every ship. */
  lemma PlaceKeepsSpread(result: seq<Ship>, coords: seq<Coord>, ship: Ship)
    requires WellSpread(result)
    requires forall c :: c in coords ==> InGrid(c)
    requires forall s, c :: s in result && c in coords ==> Apart(s, c)
    requires ship.length >= 1 && RunIn(coords, ship.position, ship.length, ship.direction)
    ensures WellSpread(result + [ship])
    ensures var rest := Remove(coords, ShipCells(ship), PointsAround(ship));
      forall s, c :: s in result + [ship] && c in rest ==> Apart(s, c)
  {
    var cells := ShipCells(ship);
    assert forall a :: a in cells ==> a in coords;
    assert Fits(ship);
    var all := result + [ship];
    forall i, j | 0 <= i < j < |all| ensures Separated(all[i], all[j]) {
      if j == |result| {
        assert all[i] in result;
      }
    }
    PointsAroundIsRing(ship);
    var rest := Remove(coords, cells, PointsAround(ship));
    forall s, c | s in all && c in rest ensures Apart(s, c) {
    }
  }

  /** Whether a fleet has the configured kinds and lengths, in order. */
  predicate FollowsPlan(ships: seq<Ship>, plan: seq<ShipClass>)
  {
    |ships| <= |plan|
    && forall k :: 0 <= k < |ships| ==> ships[k].kind == plan[k].kind && ships[k].length == plan[k].length
  }

  /** One step of generateShips: a random orientation, then a random origin whose whole
      run is eligible, trying the other orientation when the first has none. */
  method RandomShip(coords: seq<Coord>, conf: ShipClass) returns (r: Option<Ship>)
    ensures r.Some? ==> && r.value.kind == conf.kind && r.value.length == conf.length
                        && RunIn(coords, r.value.position, conf.length, r.value.direction)
    ensures r.None? ==> forall c, d :: c in coords ==> !RunIn(coords, c, conf.length, d)
  {
    var direction: bool :| true;
    var coord := RandomCoordinate(coords, conf.length, direction);
    if coord.None? {
      direction := !direction;
      coord := RandomCoordinate(coords, conf.length, direction);
    }
    if coord.None? {
      return None;
    }
    r := Some(Ship(conf.kind, coord.value, direction, conf.length, 0));
  }

  /** Everything the generator keeps true: the ships so far are well spread and follow
      the plan, and every eligible cell is on the board and clear of every ship. */
  ghost predicate Generating(result: seq<Ship>, coords: seq<Coord>, plan: seq<ShipClass>)
  {
    && FollowsPlan(result, plan)
    && WellSpread(result)
    && (forall c :: c in coords ==> InGrid(c))
    && (forall s, c :: s in result && c in coords ==> Apart(s, c))
  }

  /** A longer plan that starts with the same entries keeps the generator's invariant. */
  lemma GeneratingLonger(result: seq<Ship>, coords: seq<Coord>, plan: seq<ShipClass>, more: seq<ShipClass>)
    requires Generating(result, coords, plan) && plan <= more
    ensures Generating(result, coords, more)
  {
    assert |plan| <= |more|;
    forall k | 0 <= k < |result| ensures plan[k] == more[k] {
    }
  }

  /** Placing the next ship of the plan where its whole run is eligible keeps the
      generator's invariant, with its cells and ring no longer eligible. */
  lemma PlaceNext(result: seq<Ship>, coords: seq<Coord>, plan: seq<ShipClass>, ship: Ship)
    requires Generating(result, coords, plan) && |result| < |plan|
    requires ship.kind == plan[|result|].kind && ship.length == plan[|result|].length
    requires ship.length >= 1 && RunIn(coords, ship.position, ship.length, ship.direction)
    ensures Generating(result + [ship], Remove(coords, ShipCells(ship), PointsAround(ship)), plan)
  {
    PlaceKeepsSpread(result, coords, ship);
    var rest := Remove(coords, ShipCells(ship), PointsAround(ship));
    assert forall c :: c in rest ==> c in coords;
  }

  /** generateShips: places the configured fleet greedily at random; each ship goes where
      its whole run is still eligible, and its cells and ring stop being eligible. */
  method GenerateShips(g: seq<Cell>) returns (r: Result<seq<Ship>, Error>)
    requires |g| == CellCount
    ensures r.Err? ==> r.error == GameError(NoPoints)
    ensures r.Ok? ==>
      && WellSpread(r.value)
      && FollowsPlan(r.value, Plan(FleetConfig))
      && |r.value| == |Plan(FleetConfig)|
  {
    var result: seq<Ship> := [];
    var coords := Grids.AvailableCoordinates(g);
    for t := 0 to |FleetConfig|
      invariant |result| == |Plan(FleetConfig[..t])|
      invariant Generating(result, coords, Plan(FleetConfig[..t]))
    {
      var conf := FleetConfig[t];
      assert conf.length >= 1;
      ghost var done := Plan(FleetConfig[..t]);
      ghost var plan := Plan(FleetConfig[..t + 1]);
      PlanNext(FleetConfig, t);
      GeneratingLonger(result, coords, done, plan);
      var count := conf.count;
      while count > 0
        invariant 0 <= count <= conf.count
        invariant |result| == |done| + (conf.count - count)
        invariant Generating(result, coords, plan)
      {
        var ship := RandomShip(coords, conf);
        if ship.None? {
          return Err(GameError(NoPoints));
        }
        assert plan[|result|] == conf;
        PlaceNext(result, coords, plan, ship.value);
        coords := Remove(coords, ShipCells(ship.value), PointsAround(ship.value));
        result := result + [ship.value];
        count := count - 1;
      }
    }
    assert FleetConfig[..|FleetConfig|] == FleetConfig;
    r := Ok(result);
  }

  /** The Board constructor: places the supplied fleet, or a generated one when none is
      supplied, on a fresh grid. */
  method NewBoard(fleet: Option<seq<Ship>>) returns (r: Result<Board, Error>)
    ensures r.Ok? ==> fresh(r.value) && fresh(r.value.grid) && r.value.Valid() && r.value.lastKilled == None
    ensures r.Ok? ==> Holds(r.value.grid[..], r.value.ships)
    ensures fleet.Some? ==> (r.Ok? <==> Layout(fleet.value).Ok?)
    ensures fleet.Some? && r.Err? ==> r.error == Layout(fleet.value).error
    ensures fleet.Some? && r.Ok? ==>
      r.value.ships == Indexed(fleet.value) && r.value.grid[..] == Layout(fleet.value).value
    ensures fleet.None? && r.Err? ==> r.error == GameError(NoPoints)
    ensures fleet.None? && r.Ok? ==>
      && |r.value.ships| == |Plan(FleetConfig)|
      && FollowsPlan(r.value.ships, Plan(FleetConfig))
      && WellSpread(r.value.ships)
  {
    var grid := new Cell[CellCount](_ => Available);
    assert grid[..] == EmptyGrid();
    var ships: seq<Ship>;
    if fleet.Some? {
      ships := fleet.value;
    } else {
      var generated := GenerateShips(grid[..]);
      if generated.Err? {
        return Err(generated.error);
      }
      ships := generated.value;
      SpreadIsDisjoint(ships);
    }
    LayoutSpec(ships);
    var placed := PlaceOn(grid, ships);
    if placed.Fail? {
      return Err(placed.error);
    }
    HoldsWellFormed(grid[..], ships);
    var stored := Indexed(ships);
    assert Holds(grid[..], stored) by {
      forall c | InGrid(c) && !Covered(stored, |stored|, c) ensures grid[Index(c)] == Available {
        assert !Covered(ships, |ships|, c);
      }
    }
    var b := new Board(stored, grid);
    r := Ok(b);
  }
}

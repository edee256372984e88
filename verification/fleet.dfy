/** The standard fleet and the eligibility rules behind its random placement. */
module Fleets {
  import opened Geometry
  import opened Placement

  /** One entry of the fleet configuration: a kind of ship, its length and how many. */
  datatype ShipClass = ShipClass(kind: string, length: int, count: nat)

  /** The configuration, in the order its entries are listed (and so placed). */
  const FleetConfig: seq<ShipClass> :=
    [ShipClass("huge", 4, 1), ShipClass("large", 3, 2), ShipClass("medium", 2, 3), ShipClass("small", 1, 4)]

  /** One entry per ship to place, in placement order. */
  function Plan(config: seq<ShipClass>): (r: seq<ShipClass>)
  {
    if config == [] then []
    else Plan(config[..|config| - 1]) + seq(config[|config| - 1].count, _ => config[|config| - 1])
  }

  /** The plan of one more configuration entry adds that entry's ships at the end. */
  lemma PlanNext(config: seq<ShipClass>, t: nat)
    requires t < |config|
    ensures Plan(config[..t + 1]) == Plan(config[..t]) + seq(config[t].count, _ => config[t])
  {
    assert config[..t + 1][..t] == config[..t];
  }

  /** The fleet is one ship of length 4, two of 3, three of 2 and four of 1, longest first. */
  lemma FleetPlan()
    ensures |Plan(FleetConfig)| == 10
    ensures forall k :: 0 <= k < 10 ==>
      && Plan(FleetConfig)[k].length == [4, 3, 3, 2, 2, 2, 1, 1, 1, 1][k]
      && Plan(FleetConfig)[k].kind ==
           ["huge", "large", "large", "medium", "medium", "medium", "small", "small", "small", "small"][k]
  {
    var c := FleetConfig;
    var h, l, m, s := c[0], c[1], c[2], c[3];
    assert c[..1][..0] == [];
    assert Plan(c[..1]) == [h];
    assert c[..2][..1] == c[..1];
    assert Plan(c[..2]) == [h, l, l];
    assert c[..3][..2] == c[..2];
    assert Plan(c[..3]) == [h, l, l, m, m, m];
    assert c[..3] == c[..|c| - 1];
    assert Plan(c) == [h, l, l, m, m, m, s, s, s, s];
  }

  /** A ship of length `len` starting at `c` runs through cells of `coords` only. */
  predicate RunIn(coords: seq<Coord>, c: Coord, len: int, direction: bool)
  {
    forall t :: 0 <= t < len ==> Step(c, direction, t) in coords
  }

  /** The elements of `rest` from which a run fits in `coords`, in order. */
  function Runs(coords: seq<Coord>, rest: seq<Coord>, len: int, direction: bool): (r: seq<Coord>)
    ensures forall c :: c in r <==> c in rest && RunIn(coords, c, len, direction)
  {
    if rest == [] then []
    else
      (if RunIn(coords, rest[0], len, direction) then [rest[0]] else [])
      + Runs(coords, rest[1..], len, direction)
  }

  /** The origins in `coords` from which a ship of length `len` fits inside `coords`. */
  function Candidates(coords: seq<Coord>, len: int, direction: bool): (r: seq<Coord>)
    ensures forall c :: c in r <==> c in coords && RunIn(coords, c, len, direction)
  {
    Runs(coords, coords, len, direction)
  }

  /** `coords` without the cells of `a` and of `b`, in order. */
  function Remove(coords: seq<Coord>, a: seq<Coord>, b: seq<Coord>): (r: seq<Coord>)
    ensures forall c :: c in r <==> c in coords && c !in a && c !in b
  {
    if coords == [] then []
    else
      (if coords[0] !in a && coords[0] !in b then [coords[0]] else [])
      + Remove(coords[1..], a, b)
  }

  /** No cell of one ship is on or next to a cell of the other. */
  predicate Separated(s: Ship, t: Ship)
  {
    forall a, b :: a in ShipCells(s) && b in ShipCells(t) ==> !Near(a, b)
  }

  /** `c` is neither on the ship nor next to it. */
  predicate Apart(s: Ship, c: Coord)
  {
    forall a :: a in ShipCells(s) ==> !Near(a, c)
  }

  /** Every ship fits the board and no two ships touch, diagonals included. */
  predicate WellSpread(ships: seq<Ship>)
  {
    AllFit(ships) && forall i, j :: 0 <= i < j < |ships| ==> Separated(ships[i], ships[j])
  }

  /** A well spread fleet never shares a cell, so the constructor accepts it. */
  lemma SpreadIsDisjoint(ships: seq<Ship>)
    requires WellSpread(ships)
    ensures Disjoint(ships)
  {
    forall a, b, c | 0 <= a < b < |ships| && c in ShipCells(ships[a]) ensures c !in ShipCells(ships[b]) {
      assert Near(c, c);
    }
  }
}

/** The board's cells and the queries over them. */
module Grids {
  import opened Geometry

  /** A board cell: never fired at and empty, resolved (fired at, or cleared around a
      sunk ship), or holding part of the ship with the given fleet index. */
  datatype Cell = Available | NotAvailable | Slot(i: nat)

  const CellCount: int := Size * Size

  /** The board is stored row by row: the cell for (x, y) sits at x * Size + y. */
  function Index(c: Coord): (k: int)
    requires InGrid(c)
    ensures 0 <= k < CellCount
  {
    c.x * Size + c.y
  }

  function CoordOf(k: int): (c: Coord)
    requires 0 <= k < CellCount
    ensures InGrid(c) && Index(c) == k
  {
    Coord(k / Size, k % Size)
  }

  lemma IndexInjective(a: Coord, b: Coord)
    requires InGrid(a) && InGrid(b) && Index(a) == Index(b)
    ensures a == b
  {
  }

  /** Every ship cell names a ship of a fleet of `n`. */
  predicate WellFormed(g: seq<Cell>, n: int)
  {
    |g| == CellCount && forall k :: 0 <= k < |g| && g[k].Slot? ==> g[k].i < n
  }

  function EmptyGrid(): (g: seq<Cell>)
    ensures |g| == CellCount && forall k :: 0 <= k < CellCount ==> g[k] == Available
  {
    seq(CellCount, _ => Available)
  }

  /** The cells not yet resolved, scanned from `k` on, in board order (x, then y). */
  function AvailableFrom(g: seq<Cell>, k: int): (r: seq<Coord>)
    requires |g| == CellCount && 0 <= k <= CellCount
    ensures forall c :: c in r <==> InGrid(c) && k <= Index(c) && g[Index(c)] != NotAvailable
    ensures forall i, j :: 0 <= i < j < |r| ==> k <= Index(r[i]) < Index(r[j])
    decreases CellCount - k
  {
    if k == CellCount then []
    else
      var rest := AvailableFrom(g, k + 1);
      var here := CoordOf(k);
      forall c | InGrid(c) && Index(c) == k ensures c == here {
        IndexInjective(c, here);
      }
      if g[k] != NotAvailable then [here] + rest else rest
  }

  /** getAvailableCoordinates: every cell that is not resolved, each once, in board order. */
  function AvailableCoordinates(g: seq<Cell>): (r: seq<Coord>)
    requires |g| == CellCount
    ensures forall c :: c in r <==> InGrid(c) && g[Index(c)] != NotAvailable
    ensures forall i, j :: 0 <= i < j < |r| ==> Index(r[i]) < Index(r[j])
  {
    AvailableFrom(g, 0)
  }

  /** Whether some cell from `k` on still holds part of a ship. */
  function AnyShipFrom(g: seq<Cell>, k: nat): (r: bool)
    requires k <= |g|
    ensures r <==> exists j :: k <= j < |g| && g[j].Slot?
    decreases |g| - k
  {
    if k == |g| then false else g[k].Slot? || AnyShipFrom(g, k + 1)
  }

  /** hasAvailableShips: some cell still holds part of a ship. */
  function HasAvailableShips(g: seq<Cell>): (r: bool)
    ensures r <==> exists j :: 0 <= j < |g| && g[j].Slot?
  {
    AnyShipFrom(g, 0)
  }

  /** The number of cells not yet resolved. */
  function Unresolved(g: seq<Cell>): nat
  {
    if g == [] then 0 else (if g[0] != NotAvailable then 1 else 0) + Unresolved(g[1..])
  }

  /** Resolving cells never raises the count of unresolved cells. */
  lemma {:induction false} UnresolvedMonotone(g: seq<Cell>, h: seq<Cell>)
    requires |g| == |h|
    requires forall k :: 0 <= k < |g| ==> h[k] == g[k] || h[k] == NotAvailable
    ensures Unresolved(h) <= Unresolved(g)
  {
    if g != [] {
      assert h[0] == g[0] || h[0] == NotAvailable;
      UnresolvedMonotone(g[1..], h[1..]);
    }
  }

  /** Resolving at least one unresolved cell lowers the count. */
  lemma {:induction false} UnresolvedDecreases(g: seq<Cell>, h: seq<Cell>, k: int)
    requires |g| == |h| && 0 <= k < |g|
    requires forall j :: 0 <= j < |g| ==> h[j] == g[j] || h[j] == NotAvailable
    requires g[k] != NotAvailable && h[k] == NotAvailable
    ensures Unresolved(h) < Unresolved(g)
  {
    if k == 0 {
      UnresolvedMonotone(g[1..], h[1..]);
    } else {
      assert h[0] == g[0] || h[0] == NotAvailable;
      UnresolvedDecreases(g[1..], h[1..], k - 1);
    }
  }
}

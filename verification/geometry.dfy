/** Ship geometry on the 10x10 board: the cells a ship covers and the ring of cells around it. */
module Geometry {
  /** The board is `Size` by `Size`. */
  const Size: int := 10

  datatype Coord = Coord(x: int, y: int)

  predicate InGrid(c: Coord)
  {
    0 <= c.x < Size && 0 <= c.y < Size
  }

  /** A ship as the client describes it. `direction` true means the ship runs along y
      (vertical), false along x. `index` is the ship's place in its board's fleet. */
  datatype Ship = Ship(kind: string, position: Coord, direction: bool, length: int, index: int)

  /** The cell `i` steps from `c` along the given direction. */
  function Step(c: Coord, direction: bool, i: int): Coord
  {
    if direction then Coord(c.x, c.y + i) else Coord(c.x + i, c.y)
  }

  /** The cells a ship covers: `length` cells starting at its position. */
  function ShipCells(s: Ship): (r: seq<Coord>)
    ensures |r| == if s.length > 0 then s.length else 0
    ensures |r| > 0 ==> r[0] == s.position
    ensures forall i :: 0 < i < |r| ==> r[i] == Step(r[i - 1], s.direction, 1)
    ensures forall i, j :: 0 <= i < j < |r| ==> r[i] != r[j]
  {
    seq(if s.length > 0 then s.length else 0, i => Step(s.position, s.direction, i))
  }

  /** Membership in a ship, stated coordinate-wise. */
  lemma OnShip(s: Ship, c: Coord)
    ensures c in ShipCells(s) <==>
      if s.direction then c.x == s.position.x && s.position.y <= c.y < s.position.y + s.length
      else c.y == s.position.y && s.position.x <= c.x < s.position.x + s.length
  {
    var cells := ShipCells(s);
    if s.direction && c.x == s.position.x && s.position.y <= c.y < s.position.y + s.length {
      assert cells[c.y - s.position.y] == c;
    } else if !s.direction && c.y == s.position.y && s.position.x <= c.x < s.position.x + s.length {
      assert cells[c.x - s.position.x] == c;
    }
  }

  predicate Fits(s: Ship)
  {
    forall c :: c in ShipCells(s) ==> InGrid(c)
  }

  /** Two cells are neighbours or equal: they differ by at most one in each coordinate. */
  predicate Near(a: Coord, b: Coord)
  {
    -1 <= a.x - b.x <= 1 && -1 <= a.y - b.y <= 1
  }

  /** `c` is on the ship or next to it, diagonals included. */
  predicate Touches(s: Ship, c: Coord)
  {
    exists a :: a in ShipCells(s) && Near(a, c)
  }

  /** Far ends of the ship's bounding box, one cell past the ship on each side. */
  function ToX(s: Ship): int
  {
    if s.direction then s.position.x + 1 else s.position.x + s.length
  }

  function ToY(s: Ship): int
  {
    if s.direction then s.position.y + s.length else s.position.y + 1
  }

  function Max(a: int, b: int): int { if a < b then b else a }
  function Min(a: int, b: int): int { if a < b then a else b }

  /** The first loop of the ring: columns `x` from `lo` to `hi`, each giving the cell on
      row `yA` when that row exists and the cell on row `yB` when that row exists. */
  function Edges(lo: int, hi: int, yA: int, yB: int): (r: seq<Coord>)
    ensures forall c :: c in r <==>
      lo <= c.x <= hi && ((c.y == yA && yA >= 0) || (c.y == yB && yB < Size))
    decreases hi - lo
  {
    if lo > hi then []
    else
      (if yA >= 0 then [Coord(lo, yA)] else []) + (if yB < Size then [Coord(lo, yB)] else [])
      + Edges(lo + 1, hi, yA, yB)
  }

  /** The second loop of the ring: rows `y` from `lo` to `hi` that exist on the board, each
      giving the cell on column `xA` when it exists and the cell on column `xB` when it exists. */
  function Sides(lo: int, hi: int, xA: int, xB: int): (r: seq<Coord>)
    ensures forall c :: c in r <==>
      lo <= c.y <= hi && 0 <= c.y < Size && ((c.x == xA && xA >= 0) || (c.x == xB && xB < Size))
    decreases hi - lo
  {
    if lo > hi then []
    else if lo < 0 || lo >= Size then Sides(lo + 1, hi, xA, xB)
    else
      (if xA >= 0 then [Coord(xA, lo)] else []) + (if xB < Size then [Coord(xB, lo)] else [])
      + Sides(lo + 1, hi, xA, xB)
  }

  /** The cells around a ship, clipped to the board. */
  function PointsAround(s: Ship): seq<Coord>
  {
    var fromX := s.position.x - 1;
    var fromY := s.position.y - 1;
    Edges(Max(0, fromX), Min(Size - 1, ToX(s)), fromY, ToY(s))
      + Sides(fromY + 1, ToY(s) - 1, fromX, ToX(s))
  }

  /** For a real ship, touching it is the same as lying in its bounding box. */
  lemma TouchesIsBox(s: Ship, c: Coord)
    requires s.length >= 1
    ensures Touches(s, c) <==>
      s.position.x - 1 <= c.x <= ToX(s) && s.position.y - 1 <= c.y <= ToY(s)
  {
    var p := s.position;
    if p.x - 1 <= c.x <= ToX(s) && p.y - 1 <= c.y <= ToY(s) {
      var a;
      if s.direction {
        a := Coord(p.x, Max(p.y, Min(c.y, p.y + s.length - 1)));
      } else {
        a := Coord(Max(p.x, Min(c.x, p.x + s.length - 1)), p.y);
      }
      OnShip(s, a);
      assert a in ShipCells(s) && Near(a, c);
    }
    if Touches(s, c) {
      var a :| a in ShipCells(s) && Near(a, c);
      OnShip(s, a);
    }
  }

  /** The ring is exactly the board cells that touch the ship without being on it. */
  lemma PointsAroundIsRing(s: Ship)
    requires s.length >= 1 && Fits(s)
    ensures forall c :: c in PointsAround(s) <==> InGrid(c) && Touches(s, c) && c !in ShipCells(s)
  {
    assert s.position in ShipCells(s);
    var last := ShipCells(s)[s.length - 1];
    assert last in ShipCells(s);
    assert last == Step(s.position, s.direction, s.length - 1);
    forall c
      ensures c in PointsAround(s) <==> InGrid(c) && Touches(s, c) && c !in ShipCells(s)
    {
      TouchesIsBox(s, c);
      OnShip(s, c);
    }
  }
}

/** The occupancy grid and the walkability test the movement step uses. */
module GridMap {
  import opened Vectors

  /** An integer grid cell (`ipos` in the renderer). */
  datatype Cell = Cell(x: int, y: int)

  /** A square grid stored row by row: the cell (x, y) is `data[x + y * size]`;
      0 is empty floor, any other value is a wall of that material. */
  datatype Map = Map(data: seq<int>, size: nat) {

    /** The shape every lookup relies on. The constructor does not enforce it:
        a generated map can come back with the wrong number of cells. */
    predicate WellFormed()
    {
      |data| == size * size
    }

    predicate InBounds(c: Cell)
    {
      0 <= c.x < size && 0 <= c.y < size
    }

    /** The material of an in-bounds cell. */
    function At(c: Cell): int
      requires WellFormed() && InBounds(c)
    {
      IndexInRange(c.x, c.y, size);
      data[c.x + c.y * size]
    }
  }

  /** Row-major indexing stays inside a square of side `n`. */
  lemma IndexInRange(x: int, y: int, n: nat)
    requires 0 <= x < n && 0 <= y < n
    ensures 0 <= x + y * n < n * n
  {
    assert y * n <= (n - 1) * n;
  }

  /** Python's `int()` on a float: truncation toward zero. */
  function Trunc(r: real): (n: int)
    ensures 0.0 <= r ==> 0 <= n && n as real <= r < n as real + 1.0
    ensures r < 0.0 ==> n <= 0 && n as real - 1.0 < r <= n as real
  {
    if r >= 0.0 then r.Floor else -((-r).Floor)
  }

  /** For a nonempty range, a truncated coordinate lies in [0, n) exactly
      when the coordinate lies in (-1, n). */
  lemma TruncInRange(r: real, n: nat)
    ensures 0 <= Trunc(r) < n <==> 0 < n && -1.0 < r < n as real
  {
    if -1.0 < r < 0.0 {
      assert Trunc(r) == 0;
    }
  }

  /** The cell a world position falls in, by truncating each coordinate. */
  function CellOf(p: Vec): Cell
  {
    Cell(Trunc(p.x), Trunc(p.y))
  }

  /** A position may be occupied when its truncated cell is inside the grid and empty. */
  function IsValidPosition(p: Vec, m: Map): (ok: bool)
    requires m.WellFormed()
    ensures ok ==> 0 < m.size && -1.0 < p.x < m.size as real && -1.0 < p.y < m.size as real
    ensures ok <==> m.InBounds(CellOf(p)) && m.At(CellOf(p)) == 0
  {
    TruncInRange(p.x, m.size);
    TruncInRange(p.y, m.size);
    var c := CellOf(p);
    if c.x < 0 || c.x >= m.size || c.y < 0 || c.y >= m.size then false
    else m.At(c) == 0
  }

  /** Inside the open square (-1, size)² every position has an in-bounds cell,
      and the position is walkable exactly when that cell is empty. */
  lemma ValidPositionInside(p: Vec, m: Map)
    requires m.WellFormed() && 0 < m.size
    requires -1.0 < p.x < m.size as real && -1.0 < p.y < m.size as real
    ensures m.InBounds(CellOf(p))
    ensures IsValidPosition(p, m) <==> m.At(CellOf(p)) == 0
  {
    TruncInRange(p.x, m.size);
    TruncInRange(p.y, m.size);
  }

  /** Truncation, not flooring: a coordinate just below zero still lands in
      column or row 0, so such a position is walkable when that cell is empty. */
  lemma SlightlyNegativeIsCellZero(p: Vec, m: Map)
    requires m.WellFormed()
    requires -1.0 < p.x < 0.0 && 0.0 <= p.y < m.size as real
    ensures CellOf(p).x == 0 && p.x.Floor == -1
    ensures IsValidPosition(p, m) <==> m.At(Cell(0, CellOf(p).y)) == 0
  {
  }
}

/** Turning a column's perpendicular wall distance into what is drawn: the wall
    height in rows, the band of rows the wall covers, and the three rectangles
    (floor colour, wall colour, ceiling colour) that fill the column. */
module Projection {
  import opened Results
  import opened Vectors
  import opened GridMap
  import Screen

  /** Added to `dperp` before dividing, so that a wall at distance 0 gives a
      finite height (1e-20). */
  const Guard: real := 0.00000000000000000001

  /** The middle row of the screen, `SCREEN_HEIGHT / 2`. */
  const Middle: real := Screen.Height as real / 2.0

  /** The last row of the screen, `SCREEN_HEIGHT - 1`. */
  const LastRow: real := Screen.Height as real - 1.0

  lemma ScaleBounds(lo: real, q: real, hi: real, den: real)
    requires den > 0.0 && lo <= q < hi
    ensures lo * den <= q * den < hi * den
  {
  }

  /** The wall height in rows: the screen height divided by the guarded
      distance, truncated toward zero. None where the guarded distance is zero
      and Python raises ZeroDivisionError. For a positive denominator the height
      is the largest whole number of rows whose product with the distance stays
      within the screen. */
  function WallHeight(dperp: real): (r: Option<int>)
    ensures r.None? <==> dperp + Guard == 0.0
    ensures r.Some? && dperp + Guard > 0.0 ==>
              0 <= r.value
              && r.value as real * (dperp + Guard) <= Screen.Height as real
              && Screen.Height as real < (r.value + 1) as real * (dperp + Guard)
    // a negative denominator gives a quotient truncated up toward zero
    ensures r.Some? && dperp + Guard < 0.0 ==>
              r.value <= 0
              && r.value as real * (dperp + Guard) <= Screen.Height as real
              && Screen.Height as real < (r.value - 1) as real * (dperp + Guard)
  {
    var den := dperp + Guard;
    if den == 0.0 then None
    else
      var q := Screen.Height as real / den;
      var h := Trunc(q);
      assert den > 0.0 ==> h as real * den <= q * den < (h + 1) as real * den by {
        if den > 0.0 {
          ScaleBounds(h as real, q, (h + 1) as real, den);
        }
      }
      Some(h)
  }

  lemma MulMonotone(a: real, b: real, c: real)
    requires a <= b && c >= 0.0
    ensures a * c <= b * c
  {
  }

  lemma MulCancelLess(a: real, b: real, c: real)
    requires a * c < b * c && c > 0.0
    ensures a < b
  {
    if a >= b {
      MulMonotone(b, a, c);
    }
  }

  lemma HeightOrder(h1: real, h2: real, e1: real, e2: real, rows: real)
    requires 0.0 < e1 <= e2 && h1 >= 0.0
    requires rows < (h1 + 1.0) * e1 && h2 * e2 <= rows
    ensures h2 < h1 + 1.0
  {
    MulMonotone(e1, e2, h1 + 1.0);
    assert (h1 + 1.0) * e1 <= (h1 + 1.0) * e2;
    MulCancelLess(h2, h1 + 1.0, e2);
  }

  /** A farther wall is never drawn taller than a nearer one. */
  lemma WallHeightMonotone(d1: real, d2: real)
    requires 0.0 <= d1 <= d2
    ensures WallHeight(d1).Some? && WallHeight(d2).Some?
    ensures WallHeight(d2).value <= WallHeight(d1).value
  {
    assert 0.0 < d1 + Guard <= d2 + Guard;
    var h1 := WallHeight(d1).value;
    var h2 := WallHeight(d2).value;
    assert (h1 + 1) as real == h1 as real + 1.0;
    HeightOrder(h1 as real, h2 as real, d1 + Guard, d2 + Guard, Screen.Height as real);
  }

  /** The rows a wall strip spans: from `y0` down to `y1`. */
  datatype Band = Band(y0: real, y1: real)

  /** The band of a wall h rows tall: half of h above and half below the middle
      row, with the top edge clipped to row 0 and the bottom edge to the last row. */
  function WallBand(h: int): (b: Band)
    ensures 0.0 <= b.y0 && b.y1 <= LastRow
    ensures h >= 0 ==> b.y0 <= Middle <= b.y1
    // a wall that fits is centred on the middle row and exactly h rows tall
    ensures 0 <= h <= Screen.Height - 2 ==> b.y1 - b.y0 == h as real && b.y0 + b.y1 == 2.0 * Middle
    // a wall too tall for the screen covers it from the top to the last row
    ensures h >= Screen.Height ==> b.y0 == 0.0 && b.y1 == LastRow
    // in general each edge lies half of h from the middle row, or at the clipped edge
    ensures h >= 0 ==> Middle - b.y0 == MinReal(h as real / 2.0, Middle)
                       && b.y1 - Middle == MinReal(h as real / 2.0, LastRow - Middle)
    // a negative height gives an inverted band, nothing clipped
    ensures h < 0 ==> b.y0 == Middle - h as real / 2.0 && b.y1 == Middle + h as real / 2.0
  {
    var half := h as real / 2.0;
    Band(MaxReal(Middle - half, 0.0), MinReal(Middle + half, LastRow))
  }

  /** A `pygame.Rect`-style box: left column, top row, width and height. */
  datatype Rect = Rect(x: int, y: real, w: int, h: real) {

    /** The rows the box covers: from its top up to, not including, its bottom. */
    predicate HasRow(row: real)
    {
      y <= row < y + h
    }
  }

  /** One `pygame.draw.rect` call: the colour and the box. */
  datatype Fill = Fill(color: string, rect: Rect)

  /** Three boxes stacked down a whole column: the first starts at the top row,
      each next one starts where the one before ends, and the last ends at the
      bottom of the screen. */
  predicate Stacked(fs: seq<Fill>)
  {
    && |fs| == 3
    && fs[0].rect.y == 0.0
    && fs[1].rect.y == fs[0].rect.y + fs[0].rect.h
    && fs[2].rect.y == fs[1].rect.y + fs[1].rect.h
    && fs[2].rect.y + fs[2].rect.h == Screen.Height as real
  }

  /** The three draws of one column, in order: the floor colour from the top row
      to `y0`, the wall colour from `y0` to `y1`, and the ceiling colour from `y1`
      to the bottom of the screen. Each box is one column wide, and each starts
      where the one before ends. */
  function ColumnFills(col: int, b: Band, wall: string, floor: string, ceiling: string): (fs: seq<Fill>)
    ensures |fs| == 3
    ensures fs[0].color == floor && fs[1].color == wall && fs[2].color == ceiling
    ensures forall i :: 0 <= i < 3 ==> fs[i].rect.x == col && fs[i].rect.w == 1
    ensures Stacked(fs)
    ensures fs[1].rect.y == b.y0 && fs[1].rect.h == b.y1 - b.y0
  {
    [Fill(floor, Rect(col, 0.0, 1, b.y0)),
     Fill(wall, Rect(col, b.y0, 1, b.y1 - b.y0)),
     Fill(ceiling, Rect(col, b.y1, 1, Screen.Height as real - b.y1))]
  }

  /** For a wall of height h >= 0 the three boxes have no negative height, and
      every row of the screen is covered by exactly one of them. */
  lemma ColumnPartition(col: int, h: int, wall: string, floor: string, ceiling: string, row: real)
    requires h >= 0
    requires 0.0 <= row < Screen.Height as real
    ensures var fs := ColumnFills(col, WallBand(h), wall, floor, ceiling);
            && (forall i :: 0 <= i < 3 ==> fs[i].rect.h >= 0.0)
            && (exists i :: 0 <= i < 3 && fs[i].rect.HasRow(row))
            && (forall i, j :: 0 <= i < j < 3 ==> !(fs[i].rect.HasRow(row) && fs[j].rect.HasRow(row)))
  {
    var fs := ColumnFills(col, WallBand(h), wall, floor, ceiling);
    var b := WallBand(h);
    if row < b.y0 {
      assert fs[0].rect.HasRow(row);
    } else if row < b.y1 {
      assert fs[1].rect.HasRow(row);
    } else {
      assert fs[2].rect.HasRow(row);
    }
  }
}

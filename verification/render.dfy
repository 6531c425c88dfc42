/** `render`: one ray per screen column, drawn as three boxes, for a whole frame. */
module Render {
  import opened Results
  import opened Vectors
  import opened GridMap
  import opened Colors
  import opened CameraState
  import opened Raycast
  import opened Projection
  import Screen

  /** The exceptions `render` can raise: KeyError for a material the colour table
      lacks, ValueError for a wall colour whose hex fields do not parse when it is
      shaded, and ZeroDivisionError for a distance of exactly -1e-20. */
  datatype RenderError = MissingColor(key: int) | BadColor(color: string) | ZeroDivision

  /** The draws of one column from the material and side the ray hit and the
      perpendicular distance, raising at the first failing step as `render` does. */
  function DrawColumn(cm: ColorMap, col: int, val: int, side: int, dperp: real): (r: Result<seq<Fill>, RenderError>)
    ensures val !in cm.colors ==> r == Failure(MissingColor(val))
    ensures val in cm.colors && side == 1 && Shade(cm.colors[val]).None? ==> r == Failure(BadColor(cm.colors[val]))
    ensures r == Failure(ZeroDivision) <==>
              val in cm.colors && !(side == 1 && Shade(cm.colors[val]).None?) && dperp + Guard == 0.0
    ensures r.Failure? <==>
              val !in cm.colors || (side == 1 && Shade(cm.colors[val]).None?) || dperp + Guard == 0.0
    ensures r.Success? ==>
              && Stacked(r.value)
              && r.value[0].color == cm.floor && r.value[2].color == cm.ceiling
              && r.value[1].color == (if side == 1 then Shade(cm.colors[val]).value else cm.colors[val])
              && (forall i :: 0 <= i < 3 ==> r.value[i].rect.x == col && r.value[i].rect.w == 1)
              && r.value[1].rect.y == WallBand(WallHeight(dperp).value).y0
              && r.value[1].rect.y + r.value[1].rect.h == WallBand(WallHeight(dperp).value).y1
  {
    if val !in cm.colors then Failure(MissingColor(val))
    else
      match WallColor(cm.Get(val), side)
      case None => Failure(BadColor(cm.Get(val)))
      case Some(color) =>
        match WallHeight(dperp)
        case None => Failure(ZeroDivision)
        case Some(h) => Success(ColumnFills(col, WallBand(h), color, cm.floor, cm.ceiling))
  }

  /** One column's draws: a floor-coloured box, a wall box, a ceiling-coloured box,
      one column wide at `col` and stacked down the whole screen. */
  predicate DrawsColumn(fs: seq<Fill>, col: int, cm: ColorMap)
  {
    && Stacked(fs)
    && fs[0].color == cm.floor && fs[2].color == cm.ceiling
    && (forall i :: 0 <= i < 3 ==> fs[i].rect.x == col && fs[i].rect.w == 1)
  }

  /** Every material a ray can report (0 for leaving the grid, or any map value)
      has a colour, and every colour in the table is `#` and six hex digits. */
  predicate Complete(m: Map, cm: ColorMap)
  {
    && 0 in cm.colors
    && (forall i :: 0 <= i < |m.data| ==> m.data[i] in cm.colors)
    && (forall k :: k in cm.colors ==> IsHexColor(cm.colors[k]))
  }

  /** The body of `render`'s loop for column `col`: the column's ray is cast from
      the camera, and its hit and `dperp` are what the column is drawn from. */
  method RenderColumn(cam: Camera, m: Map, cm: ColorMap, col: int)
    returns (r: Result<seq<Fill>, RenderError>, hit: Hit, dperp: real, path: seq<Cell>)
    requires m.WellFormed()
    ensures CastsTo(m, cam.pos, RayDir(cam.dir, cam.plane, col), hit, dperp, path)
    ensures r == DrawColumn(cm, col, hit.val, hit.side, dperp)
    ensures r.Success? ==> DrawsColumn(r.value, col, cm)
    // the wall box is drawn in a table colour or that colour shaded
    ensures r.Success? ==>
              exists k :: k in cm.colors &&
                (r.value[1].color == cm.colors[k] || Shade(cm.colors[k]) == Some(r.value[1].color))
    // a missing colour is for 0 (nothing hit) or a material in the map
    ensures r.Failure? && r.error.MissingColor? ==>
              r.error.key !in cm.colors && (r.error.key == 0 || r.error.key in m.data)
    // the division can only fail when the camera stands at a negative coordinate
    ensures r.Failure? && r.error.ZeroDivision? ==> cam.pos.x < 0.0 || cam.pos.y < 0.0
    ensures Complete(m, cm) && cam.pos.x >= 0.0 && cam.pos.y >= 0.0 ==> r.Success?
  {
    hit, dperp, path := Cast(m, cam.pos, RayDir(cam.dir, cam.plane, col));
    var last := path[|path| - 1];
    assert hit.val == 0 || hit.val in m.data by {
      if m.InBounds(last) {
        IndexInRange(last.x, last.y, m.size);
      }
    }
    r := DrawColumn(cm, col, hit.val, hit.side, dperp);
    if Complete(m, cm) && cam.pos.x >= 0.0 && cam.pos.y >= 0.0 {
      if hit.side == 1 {
        ShadeOfHexColor(cm.colors[hit.val]);
      }
    }
  }

  /** Column c of the frame cast `hits[c]`, `perps[c]` and `paths[c]`, for every
      column cast so far. */
  predicate CastColumns(cam: Camera, m: Map, hits: seq<Hit>, perps: seq<real>, paths: seq<seq<Cell>>)
    requires m.WellFormed()
  {
    && |perps| == |hits| && |paths| == |hits|
    && forall c :: 0 <= c < |hits| ==>
         CastsTo(m, cam.pos, RayDir(cam.dir, cam.plane, c), hits[c], perps[c], paths[c])
  }

  lemma CastColumnsExtend(cam: Camera, m: Map, hits: seq<Hit>, perps: seq<real>, paths: seq<seq<Cell>>,
                          hit: Hit, dperp: real, path: seq<Cell>)
    requires m.WellFormed() && CastColumns(cam, m, hits, perps, paths)
    requires CastsTo(m, cam.pos, RayDir(cam.dir, cam.plane, |hits|), hit, dperp, path)
    ensures CastColumns(cam, m, hits + [hit], perps + [dperp], paths + [path])
  {
    var h, p, q := hits + [hit], perps + [dperp], paths + [path];
    forall c | 0 <= c < |h|
      ensures CastsTo(m, cam.pos, RayDir(cam.dir, cam.plane, c), h[c], p[c], q[c])
    {
      if c < |hits| {
        assert h[c] == hits[c] && p[c] == perps[c] && q[c] == paths[c];
      }
    }
  }

  /** `fs` is what column `col` draws for the hit and distance its ray found. */
  predicate ColumnDrawn(cm: ColorMap, col: int, fs: seq<Fill>, hit: Hit, dperp: real)
  {
    Success(fs) == DrawColumn(cm, col, hit.val, hit.side, dperp) && DrawsColumn(fs, col, cm)
  }

  /** The draws so far are, three per column, what each column's cast draws. */
  predicate DrawnColumns(cm: ColorMap, draws: seq<Fill>, hits: seq<Hit>, perps: seq<real>)
  {
    && |draws| == 3 * |hits| && |perps| == |hits|
    && forall c :: 0 <= c < |hits| ==> ColumnDrawn(cm, c, draws[3 * c..3 * c + 3], hits[c], perps[c])
  }

  lemma DrawnColumnsExtend(cm: ColorMap, draws: seq<Fill>, hits: seq<Hit>, perps: seq<real>,
                           fs: seq<Fill>, hit: Hit, dperp: real)
    requires DrawnColumns(cm, draws, hits, perps)
    requires ColumnDrawn(cm, |hits|, fs, hit, dperp)
    ensures DrawnColumns(cm, draws + fs, hits + [hit], perps + [dperp])
  {
    var d, h, p := draws + fs, hits + [hit], perps + [dperp];
    assert |fs| == 3;
    forall c | 0 <= c < |h|
      ensures ColumnDrawn(cm, c, d[3 * c..3 * c + 3], h[c], p[c])
    {
      if c < |hits| {
        assert d[3 * c..3 * c + 3] == draws[3 * c..3 * c + 3];
        assert h[c] == hits[c] && p[c] == perps[c];
      } else {
        assert d[3 * c..3 * c + 3] == fs;
      }
    }
  }

  /** The draws of a whole frame, column by column, or the error that stops it.
      `hits`, `perps` and `paths` hold what each column cast, up to and including
      the column that raised. */
  method RenderFrame(cam: Camera, m: Map, cm: ColorMap)
    returns (r: Result<seq<Fill>, RenderError>, hits: seq<Hit>, perps: seq<real>, paths: seq<seq<Cell>>)
    requires m.WellFormed()
    ensures |hits| == |perps| == |paths| <= Screen.Width
    ensures forall c :: 0 <= c < |hits| ==>
              CastsTo(m, cam.pos, RayDir(cam.dir, cam.plane, c), hits[c], perps[c], paths[c])
    // every column before the last one cast was drawn
    ensures forall c :: 0 <= c < |hits| - 1 ==> DrawColumn(cm, c, hits[c].val, hits[c].side, perps[c]).Success?
    ensures r.Success? ==> |hits| == Screen.Width && |r.value| == 3 * Screen.Width
    ensures r.Success? ==> forall col :: 0 <= col < Screen.Width ==>
              && Success(r.value[3 * col..3 * col + 3]) == DrawColumn(cm, col, hits[col].val, hits[col].side, perps[col])
              && DrawsColumn(r.value[3 * col..3 * col + 3], col, cm)
    // the frame stops at the first column whose draws raise, with that column's error
    ensures r.Failure? ==>
              && |hits| >= 1
              && DrawColumn(cm, |hits| - 1, hits[|hits| - 1].val, hits[|hits| - 1].side, perps[|hits| - 1])
                 == Failure(r.error)
    ensures Complete(m, cm) && cam.pos.x >= 0.0 && cam.pos.y >= 0.0 ==> r.Success?
  {
    var draws: seq<Fill> := [];
    hits, perps, paths := [], [], [];
    var col := 0;
    while col < Screen.Width
      invariant 0 <= col <= Screen.Width
      invariant |hits| == col
      invariant CastColumns(cam, m, hits, perps, paths)
      invariant DrawnColumns(cm, draws, hits, perps)
    {
      var fs, hit, dperp, path := RenderColumn(cam, m, cm, col);
      CastColumnsExtend(cam, m, hits, perps, paths, hit, dperp, path);
      if fs.Failure? {
        hits, perps, paths := hits + [hit], perps + [dperp], paths + [path];
        return Failure(fs.error), hits, perps, paths;
      }
      DrawnColumnsExtend(cm, draws, hits, perps, fs.value, hit, dperp);
      hits, perps, paths := hits + [hit], perps + [dperp], paths + [path];
      draws := draws + fs.value;
      col := col + 1;
    }
    return Success(draws), hits, perps, paths;
  }
}

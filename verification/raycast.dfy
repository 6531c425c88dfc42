/** The per-column ray set-up and the grid traversal (a digital differential
    analyzer, DDA) that finds the first wall a column's ray meets. */
module Raycast {
  import opened Vectors
  import opened GridMap
  import Screen

  /** Stand-in for an infinite step length when a ray is parallel to an axis (1e30). */
  const Huge: real := 1000000000000000000000000000000.0

  /** Direction components smaller than this in magnitude count as zero (1e-20). */
  const Tiny: real := 0.00000000000000000001

  function Abs(r: real): real
  {
    if r < 0.0 then -r else r
  }

  /** The column's position across the camera plane, from -1 at the left edge
      towards +1 at the right (`xcam`). */
  function CameraX(col: int): (r: real)
    ensures 0 <= col < Screen.Width ==> -1.0 <= r < 1.0
  {
    (2 * col) as real / Screen.Width as real - 1.0
  }

  /** The direction of the ray for one screen column: the facing direction plus
      the camera plane scaled by the column's camera coordinate. */
  function RayDir(dir: Vec, plane: Vec, col: int): Vec
  {
    var xcam := CameraX(col);
    Vec(dir.x + plane.x * xcam, dir.y + plane.y * xcam)
  }

  /** The first column's ray runs along dir - plane, the middle column's along dir,
      and columns mirrored about the middle are symmetric about dir. */
  lemma RayDirAcrossScreen(dir: Vec, plane: Vec, col: int)
    requires 0 < col < Screen.Width
    ensures RayDir(dir, plane, 0) == Sub(dir, plane)
    ensures RayDir(dir, plane, Screen.Width / 2) == dir
    ensures Add(RayDir(dir, plane, col), RayDir(dir, plane, Screen.Width - col)) == Scale(dir, 2.0)
  {
    var a := CameraX(col);
    var b := CameraX(Screen.Width - col);
    assert b == -a;
    assert plane.x * a + plane.x * b == 0.0 && plane.y * a + plane.y * b == 0.0;
  }

  /** Ray length between two consecutive grid lines of one axis (`delta_dist`). */
  function AxisDelta(d: real): (r: real)
    ensures r > 0.0
    ensures Abs(d) < Tiny ==> r == Huge
  {
    if Abs(d) < Tiny then Huge else Abs(1.0 / d)
  }

  /** Step sign along an axis (`step`): -1 towards smaller cells, +1 otherwise. */
  function StepSign(d: real): (s: int)
    ensures s == -1 || s == 1
  {
    if d < 0.0 then -1 else 1
  }

  /** Ray length from the start to the first grid line of one axis (`side_dist`
      before the loop), for coordinate `p` in cell `i`. */
  function FirstSide(p: real, i: int, d: real): real
  {
    AxisDelta(d) * (if d < 0.0 then p - i as real else i as real + 1.0 - p)
  }

  /** Ray length to the grid line crossed on the (k+1)-th step along an axis:
      the first side distance plus k grid spacings, accumulated one step at a time
      as the loop does. */
  function Crossing(first: real, delta: real, k: nat): real
  {
    if k == 0 then first else Crossing(first, delta, k - 1) + delta
  }

  lemma {:induction false} CrossingClosedForm(first: real, delta: real, k: nat)
    ensures Crossing(first, delta, k) == first + k as real * delta
  {
    if k > 0 {
      CrossingClosedForm(first, delta, k - 1);
      assert (k - 1) as real * delta + delta == k as real * delta;
    }
  }

  /** The cell reached from `i` after `n` steps of sign `s`. */
  function Advance(i: int, s: int, n: nat): int
  {
    if s < 0 then i - n else i + n
  }

  /** How many steps of sign `s` lead from `i` to `j`. */
  function Steps(i: int, j: int, s: int): int
  {
    if s < 0 then i - j else j - i
  }

  /** Steps of sign `s` still available from cell `i` before leaving [0, size). */
  function Remaining(i: int, s: int, size: nat): int
  {
    if s < 0 then i + 1 else size - i
  }

  /** The grid line through which a ray moving with sign `s` enters cell `i`. */
  function EntryFace(i: int, s: int): int
  {
    if s < 0 then i + 1 else i
  }

  /** One DDA step: a move of one cell along exactly one axis, in that axis's direction. */
  predicate IsStep(a: Cell, b: Cell, sx: int, sy: int)
  {
    (b.x == a.x + sx && b.y == a.y) || (b.x == a.x && b.y == a.y + sy)
  }

  /** The cell a traversal occupied before its i-th step. */
  function Before(path: seq<Cell>, start: Cell, i: nat): Cell
    requires i < |path|
  {
    if i == 0 then start else path[i - 1]
  }

  /** A step length times the direction component it came from is the step sign. */
  lemma AxisDeltaTimesDirection(d: real)
    requires Tiny <= Abs(d)
    ensures AxisDelta(d) * d == if d < 0.0 then -1.0 else 1.0
  {
    if d < 0.0 {
      assert AxisDelta(d) == -(1.0 / d);
    } else {
      assert AxisDelta(d) == 1.0 / d;
    }
  }

  lemma FactorOut(delta: real, d: real, w: real, k: real)
    ensures (delta * w + k * delta) * d == (delta * d) * (w + k)
  {
  }

  /** The ray parameter of every crossing is where the ray meets that grid line:
      the (k+1)-th crossing along an axis lies on the entry face of the cell
      k+1 steps from the start. This is what makes `dperp` a distance. */
  lemma CrossingOnGridLine(p: real, d: real, k: nat)
    requires Tiny <= Abs(d)
    ensures p + Crossing(FirstSide(p, Trunc(p), d), AxisDelta(d), k) * d
            == EntryFace(Advance(Trunc(p), StepSign(d), k + 1), StepSign(d)) as real
  {
    var i := Trunc(p);
    var delta := AxisDelta(d);
    var w := if d < 0.0 then p - i as real else i as real + 1.0 - p;
    assert FirstSide(p, i, d) == delta * w;
    CrossingClosedForm(FirstSide(p, i, d), delta, k);
    AxisDeltaTimesDirection(d);
    FactorOut(delta, d, w, k as real);
  }

  /** Crossing distances are never negative when the start coordinate is not negative. */
  lemma CrossingNonnegative(p: real, d: real, k: nat)
    requires p >= 0.0
    ensures Crossing(FirstSide(p, Trunc(p), d), AxisDelta(d), k) >= 0.0
  {
    var delta := AxisDelta(d);
    CrossingClosedForm(FirstSide(p, Trunc(p), d), delta, k);
    assert k as real * delta >= 0.0;
    assert FirstSide(p, Trunc(p), d) >= 0.0;
  }

  /** A start just left of the grid truncates into column 0, so the first
      x crossing of a ray heading left lies behind the camera. */
  lemma NegativeStartCrossesBehind(p: real, d: real)
    requires -1.0 < p < 0.0 && d < 0.0
    ensures FirstSide(p, Trunc(p), d) < 0.0
  {
  }

  /** The step from `a` to `b` is taken along x exactly when the next x grid line
      is nearer than the next y grid line (y on a tie): the crossing distances
      are those counted by the steps already taken on each axis since the start. */
  predicate NearerAxis(ray: Ray, a: Cell, b: Cell)
  {
    var nx := Steps(ray.start.x, a.x, ray.step.x);
    var ny := Steps(ray.start.y, a.y, ray.step.y);
    && nx >= 0 && ny >= 0
    && (b.x != a.x <==> Crossing(ray.first.x, ray.delta.x, nx) < Crossing(ray.first.y, ray.delta.y, ny))
  }

  /** One iteration of the DDA from cell `a` to cell `b`. */
  predicate StepOf(ray: Ray, a: Cell, b: Cell)
  {
    IsStep(a, b, ray.step.x, ray.step.y) && NearerAxis(ray, a, b)
  }

  /** From a given cell there is only one iteration the DDA can take. */
  lemma StepDetermined(ray: Ray, a: Cell, b1: Cell, b2: Cell)
    requires ray.Valid() && StepOf(ray, a, b1) && StepOf(ray, a, b2)
    ensures b1 == b2
  {
  }

  /** The cells a traversal along `ray` has stepped into so far: each one DDA
      iteration on from the one before, none of them the start, and every one
      but the newest inside the grid and empty. */
  predicate Walk(m: Map, ray: Ray, path: seq<Cell>)
    requires m.WellFormed()
  {
    && (forall i {:trigger Before(path, ray.start, i)} :: 0 <= i < |path| ==>
          StepOf(ray, Before(path, ray.start, i), path[i]))
    && (forall i :: 0 <= i < |path| ==> path[i] != ray.start)
    && (forall i :: 0 <= i < |path| - 1 ==> m.InBounds(path[i]) && m.At(path[i]) == 0)
  }

  /** A walk whose newest cell is in bounds and empty extends by one more iteration. */
  lemma WalkExtend(m: Map, ray: Ray, path: seq<Cell>, c: Cell)
    requires m.WellFormed() && Walk(m, ray, path)
    requires |path| > 0 ==> m.InBounds(path[|path| - 1]) && m.At(path[|path| - 1]) == 0
    requires StepOf(ray, if |path| == 0 then ray.start else path[|path| - 1], c)
    requires c != ray.start
    ensures Walk(m, ray, path + [c])
    ensures Before(path + [c], ray.start, |path|) == if |path| == 0 then ray.start else path[|path| - 1]
  {
    var next := path + [c];
    forall i | 0 <= i < |path|
      ensures Before(next, ray.start, i) == Before(path, ray.start, i)
    {
    }
  }

  /** Two walks along the same ray agree on every cell both have reached. */
  lemma {:induction false} WalksAgree(m: Map, ray: Ray, p1: seq<Cell>, p2: seq<Cell>, n: nat)
    requires m.WellFormed() && ray.Valid() && Walk(m, ray, p1) && Walk(m, ray, p2)
    requires n <= |p1| && n <= |p2|
    ensures forall i :: 0 <= i < n ==> p1[i] == p2[i]
    decreases n
  {
    if n > 0 {
      WalksAgree(m, ray, p1, p2, n - 1);
      var a := Before(p1, ray.start, n - 1);
      assert a == Before(p2, ray.start, n - 1) by {
        if n > 1 {
          assert p1[n - 2] == p2[n - 2];
        }
      }
      StepDetermined(ray, a, p1[n - 1], p2[n - 1]);
    }
  }

  /** What the loop of `render` starts from for one ray: the starting cell
      (`ipos`), the step signs (`step`), the distances to the first grid line of
      each axis (`side_dist` before the loop) and between grid lines (`delta_dist`). */
  datatype Ray = Ray(start: Cell, step: Cell, first: Vec, delta: Vec) {

    predicate Valid()
    {
      (step.x == -1 || step.x == 1) && (step.y == -1 || step.y == 1)
    }
  }

  /** The set-up of one ray from `pos` along `dir`, before the DDA loop. */
  function Setup(pos: Vec, dir: Vec): (r: Ray)
    ensures r.Valid()
    ensures r.start == CellOf(pos)
    ensures r.delta.x > 0.0 && r.delta.y > 0.0
    ensures pos.x >= 0.0 ==> r.first.x >= 0.0
    ensures pos.y >= 0.0 ==> r.first.y >= 0.0
  {
    var start := CellOf(pos);
    assert pos.x >= 0.0 ==> FirstSide(pos.x, start.x, dir.x) >= 0.0 by {
      if pos.x >= 0.0 { CrossingNonnegative(pos.x, dir.x, 0); }
    }
    assert pos.y >= 0.0 ==> FirstSide(pos.y, start.y, dir.y) >= 0.0 by {
      if pos.y >= 0.0 { CrossingNonnegative(pos.y, dir.y, 0); }
    }
    Ray(start,
        Cell(StepSign(dir.x), StepSign(dir.y)),
        Vec(FirstSide(pos.x, start.x, dir.x), FirstSide(pos.y, start.y, dir.y)),
        Vec(AxisDelta(dir.x), AxisDelta(dir.y)))
  }

  /** The loop state of the traversal: the current cell, both side distances and
      the axis of the last step (0 for x, 1 for y). */
  datatype Probe = Probe(cell: Cell, sideDist: Vec, side: int)

  /** One iteration of the loop: step along the axis whose next grid line is
      nearer (y on a tie), adding that axis's step length to its side distance. */
  function Next(ray: Ray, p: Probe): (q: Probe)
    ensures q.side == 0 || q.side == 1
    ensures q.side == 0 ==> p.sideDist.x < p.sideDist.y && q.cell == p.cell.(x := p.cell.x + ray.step.x)
    ensures q.side == 1 ==> p.sideDist.y <= p.sideDist.x && q.cell == p.cell.(y := p.cell.y + ray.step.y)
  {
    if p.sideDist.x < p.sideDist.y then
      Probe(p.cell.(x := p.cell.x + ray.step.x), p.sideDist.(x := p.sideDist.x + ray.delta.x), 0)
    else
      Probe(p.cell.(y := p.cell.y + ray.step.y), p.sideDist.(y := p.sideDist.y + ray.delta.y), 1)
  }

  /** Steps still available from a cell before the ray leaves the grid on either axis. */
  function Room(ray: Ray, c: Cell, size: nat): int
  {
    Remaining(c.x, ray.step.x, size) + Remaining(c.y, ray.step.y, size)
  }

  /** What holds of the traversal after `path` has been walked to probe `p`:
      the cell is the start advanced by the steps taken on each axis, each side
      distance is the crossing count of its axis, the side names the axis of the
      last step, and from an in-grid start each step uses up one unit of room. */
  predicate Progress(m: Map, ray: Ray, path: seq<Cell>, p: Probe)
    requires m.WellFormed()
  {
    var nx := Steps(ray.start.x, p.cell.x, ray.step.x);
    var ny := Steps(ray.start.y, p.cell.y, ray.step.y);
    && nx >= 0 && ny >= 0 && |path| == nx + ny
    && p.sideDist == Vec(Crossing(ray.first.x, ray.delta.x, nx), Crossing(ray.first.y, ray.delta.y, ny))
    && (p.side == 0 || p.side == 1)
    && (|path| > 0 ==> path[|path| - 1] == p.cell)
    && (|path| > 0 ==> (p.side == 0 <==> p.cell.x != Before(path, ray.start, |path| - 1).x))
    && (|path| > 0 && p.side == 0 ==> nx >= 1)
    && (|path| > 0 && p.side == 1 ==> ny >= 1)
    && Walk(m, ray, path)
    && (m.InBounds(ray.start) ==> |path| + Room(ray, p.cell, m.size) == Room(ray, ray.start, m.size))
  }

  lemma ProgressStart(m: Map, ray: Ray)
    requires m.WellFormed() && ray.Valid()
    ensures Progress(m, ray, [], Probe(ray.start, ray.first, 0))
  {
  }

  /** From an in-bounds empty cell (or the start) one more iteration keeps the
      progress facts and uses up one unit of room. */
  lemma ProgressNext(m: Map, ray: Ray, path: seq<Cell>, p: Probe)
    requires m.WellFormed() && ray.Valid() && Progress(m, ray, path, p)
    requires |path| > 0 ==> m.InBounds(p.cell) && m.At(p.cell) == 0
    ensures Progress(m, ray, path + [Next(ray, p).cell], Next(ray, p))
    ensures Room(ray, Next(ray, p).cell, m.size) + 1 == Room(ray, p.cell, m.size)
  {
    var q := Next(ray, p);
    var nx := Steps(ray.start.x, p.cell.x, ray.step.x);
    var ny := Steps(ray.start.y, p.cell.y, ray.step.y);
    assert |path| == 0 ==> p.cell == ray.start;
    assert q.cell != ray.start;
    assert NearerAxis(ray, p.cell, q.cell);
    WalkExtend(m, ray, path, q.cell);
    if q.side == 0 {
      assert Steps(ray.start.x, q.cell.x, ray.step.x) == nx + 1;
      assert q.sideDist.x == Crossing(ray.first.x, ray.delta.x, nx + 1);
    } else {
      assert Steps(ray.start.y, q.cell.y, ray.step.y) == ny + 1;
      assert q.sideDist.y == Crossing(ray.first.y, ray.delta.y, ny + 1);
    }
  }

  /** What a finished traversal along `ray` reports: `path` lists the cells
      stepped into, in order, each one step along the axis whose next grid line is
      nearer (y on a tie), in that axis's direction, never the start; every cell
      but the last is in bounds and empty; the last is
      the wall `val` hit, or the first cell off the grid with `val` 0; from an in-grid
      start there are fewer than 2 * size steps; `side` is the axis of the last
      step; and each side distance is the crossing count of its axis, the x count
      being at least one after an x step and the y count after a y step. */
  predicate Traversed(m: Map, ray: Ray, path: seq<Cell>, val: int, side: int, sideDist: Vec)
    requires m.WellFormed()
  {
    && |path| >= 1
    && Walk(m, ray, path)
    && (m.InBounds(path[|path| - 1]) ==> val == m.At(path[|path| - 1]) && val != 0)
    && (!m.InBounds(path[|path| - 1]) ==> val == 0)
    && (m.InBounds(ray.start) ==> |path| < 2 * m.size)
    && (side == 0 || side == 1)
    && (side == 0 <==> path[|path| - 1].x != Before(path, ray.start, |path| - 1).x)
    && var nx := Steps(ray.start.x, path[|path| - 1].x, ray.step.x);
       var ny := Steps(ray.start.y, path[|path| - 1].y, ray.step.y);
       && nx >= 0 && ny >= 0
       && (side == 0 ==> nx >= 1)
       && (side == 1 ==> ny >= 1)
       && sideDist == Vec(Crossing(ray.first.x, ray.delta.x, nx), Crossing(ray.first.y, ray.delta.y, ny))
  }

  /** A progress that stops at a wall, or on leaving the grid, is a finished traversal. */
  lemma ProgressDone(m: Map, ray: Ray, path: seq<Cell>, p: Probe, val: int)
    requires m.WellFormed() && ray.Valid() && Progress(m, ray, path, p) && |path| >= 1
    requires m.InBounds(p.cell) ==> val == m.At(p.cell) && val != 0
    requires !m.InBounds(p.cell) ==> val == 0
    ensures Traversed(m, ray, path, val, p.side, p.sideDist)
  {
    if m.InBounds(ray.start) {
      var before := Before(path, ray.start, |path| - 1);
      assert m.InBounds(before);
      assert IsStep(before, p.cell, ray.step.x, ray.step.y);
      assert Room(ray, p.cell, m.size) >= 1;
    }
  }

  /** A finished traversal is determined by the map and the ray: the walk cannot
      go on past a wall or the grid's edge, and cannot stop before one. */
  lemma {:induction false} TraversedUnique(m: Map, ray: Ray,
                                           p1: seq<Cell>, v1: int, s1: int, d1: Vec,
                                           p2: seq<Cell>, v2: int, s2: int, d2: Vec)
    requires m.WellFormed() && ray.Valid()
    requires Traversed(m, ray, p1, v1, s1, d1) && Traversed(m, ray, p2, v2, s2, d2)
    ensures p1 == p2 && v1 == v2 && s1 == s2 && d1 == d2
  {
    if |p1| < |p2| {
      WalksAgree(m, ray, p1, p2, |p1|);
      assert false;
    } else if |p2| < |p1| {
      WalksAgree(m, ray, p2, p1, |p2|);
      assert false;
    }
    WalksAgree(m, ray, p1, p2, |p1|);
    assert p1 == p2;
  }

  /** The DDA loop of `render` for one ray: the hit (its material and side),
      the cells stepped into, in order, and the final side distances. */
  method Traverse(m: Map, ray: Ray) returns (hit: Hit, path: seq<Cell>, sideDist: Vec)
    requires m.WellFormed() && ray.Valid()
    ensures Traversed(m, ray, path, hit.val, hit.side, sideDist)
  {
    var probe := Probe(ray.start, ray.first, 0);
    hit := Hit(0, 0, Vec(0.0, 0.0));
    path := [];
    ProgressStart(m, ray);
    while hit.val == 0
      invariant Progress(m, ray, path, probe)
      invariant hit.side == probe.side
      invariant |path| == 0 ==> hit.val == 0
      invariant |path| > 0 ==> m.InBounds(probe.cell) && hit.val == m.At(probe.cell)
      decreases if |path| == 0 then 2 * m.size + 1 else Room(ray, probe.cell, m.size)
    {
      ProgressNext(m, ray, path, probe);
      probe := Next(ray, probe);
      path := path + [probe.cell];
      hit := hit.(side := probe.side);
      if m.InBounds(probe.cell) {
        hit := hit.(val := m.At(probe.cell));
      } else {
        break;
      }
    }
    ProgressDone(m, ray, path, probe, hit.val);
    sideDist := probe.sideDist;
  }

  /** The ray from coordinate `p` along direction component `d`, at parameter `t`,
      lies on the grid line through which it enters cell `j`. */
  predicate MeetsEntryFace(p: real, d: real, t: real, j: int)
  {
    p + t * d == EntryFace(j, StepSign(d)) as real
  }

  /** The ray parameter `dperp` on one axis: a side distance `side` that counts
      n >= 1 crossings, less one step, meets the entry face of the cell n steps away. */
  lemma PerpOnEntryFace(p: real, d: real, j: int, side: real, t: real)
    requires Tiny <= Abs(d)
    requires var n := Steps(Trunc(p), j, StepSign(d));
             n >= 1 && side == Crossing(FirstSide(p, Trunc(p), d), AxisDelta(d), n)
    requires t == side - AxisDelta(d)
    ensures MeetsEntryFace(p, d, t, j)
  {
    var n := Steps(Trunc(p), j, StepSign(d));
    CrossingOnGridLine(p, d, n - 1);
    assert j == Advance(Trunc(p), StepSign(d), n);
  }

  /** Without negative start coordinates, `dperp` is not negative. */
  lemma PerpNonnegative(p: real, d: real, j: int, side: real, t: real)
    requires p >= 0.0
    requires var n := Steps(Trunc(p), j, StepSign(d));
             n >= 1 && side == Crossing(FirstSide(p, Trunc(p), d), AxisDelta(d), n)
    requires t == side - AxisDelta(d)
    ensures t >= 0.0
  {
    CrossingNonnegative(p, d, Steps(Trunc(p), j, StepSign(d)) - 1);
  }

  /** What one column's cast reports from `pos` along `dir`: the traversal of the
      ray set up there, whose final side distances are `hit.pos` less `pos`, and
      `dperp` taken on the axis of the last step as that axis's side distance less
      one step. */
  predicate CastsTo(m: Map, pos: Vec, dir: Vec, hit: Hit, dperp: real, path: seq<Cell>)
    requires m.WellFormed()
  {
    var ray := Setup(pos, dir);
    var sideDist := Sub(hit.pos, pos);
    && Traversed(m, ray, path, hit.val, hit.side, sideDist)
    && dperp == if hit.side == 0 then sideDist.x - ray.delta.x else sideDist.y - ray.delta.y
  }

  /** One column's ray: the traversal, then the perpendicular distance `dperp`
      taken on the axis of the last step as that axis's side distance less one step. */
  method Cast(m: Map, pos: Vec, dir: Vec) returns (hit: Hit, dperp: real, path: seq<Cell>)
    requires m.WellFormed()
    ensures CastsTo(m, pos, dir, hit, dperp, path)
    ensures |path| >= 1
    ensures forall i :: 0 <= i < |path| - 1 ==> m.InBounds(path[i]) && m.At(path[i]) == 0
    ensures m.InBounds(path[|path| - 1]) ==> hit.val == m.At(path[|path| - 1]) && hit.val != 0
    ensures !m.InBounds(path[|path| - 1]) ==> hit.val == 0
    ensures m.InBounds(CellOf(pos)) ==> |path| < 2 * m.size
    ensures hit.side == 0 || hit.side == 1
    ensures hit.side == 0 <==> path[|path| - 1].x != Before(path, CellOf(pos), |path| - 1).x
    // dperp is the ray parameter at which the ray crosses into the final cell
    ensures hit.side == 0 && Tiny <= Abs(dir.x) ==>
              MeetsEntryFace(pos.x, dir.x, dperp, path[|path| - 1].x)
    ensures hit.side == 1 && Tiny <= Abs(dir.y) ==>
              MeetsEntryFace(pos.y, dir.y, dperp, path[|path| - 1].y)
    ensures pos.x >= 0.0 && pos.y >= 0.0 ==> dperp >= 0.0
  {
    var ray := Setup(pos, dir);
    var sideDist;
    hit, path, sideDist := Traverse(m, ray);
    var last := path[|path| - 1];
    hit := hit.(pos := Vec(pos.x + sideDist.x, pos.y + sideDist.y));
    assert Sub(hit.pos, pos) == sideDist;
    if hit.side == 0 {
      dperp := sideDist.x - ray.delta.x;
      assert ray.delta.x == AxisDelta(dir.x);
      if Tiny <= Abs(dir.x) {
        PerpOnEntryFace(pos.x, dir.x, last.x, sideDist.x, dperp);
      }
      if pos.x >= 0.0 {
        PerpNonnegative(pos.x, dir.x, last.x, sideDist.x, dperp);
      }
    } else {
      dperp := sideDist.y - ray.delta.y;
      assert ray.delta.y == AxisDelta(dir.y);
      if Tiny <= Abs(dir.y) {
        PerpOnEntryFace(pos.y, dir.y, last.y, sideDist.y, dperp);
      }
      if pos.y >= 0.0 {
        PerpNonnegative(pos.y, dir.y, last.y, sideDist.y, dperp);
      }
    }
  }
}

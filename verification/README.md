# wolfpy ray-caster core in Dafny

This project models the sequential core of a small Wolfenstein-style ray-casting engine written in Python with pygame. The model covers:

- the square occupancy grid and its walkability test `is_valid_position`;
- the camera state with its rotation `State.rotate`;
- the per-frame movement step `handle_keys`;
- the `Vector2D` algebra and the `Hit` record;
- `render`: for each of the 800 screen columns it casts one ray through the grid with a digital differential analyzer (DDA), darkens the wall colour when the ray hit a y grid line, and draws three boxes for floor, wall and ceiling.

Python floats are modelled as Dafny `real`. The sentinels `1e30` and `1e-20` keep their values as real constants. `int()` on a float is truncation toward zero (`GridMap.Trunc`). Integer cells and map values are `int`. Colours are strings.

Modules, one per file:

- `Results`: `Option` and `Result`.
- `Vectors`: `Vector2D` as `Vec`, the `Hit` record, and the two forms of `__mul__`.
- `GridMap`: `Map`, truncation and `is_valid_position`.
- `Colors`: hex-channel parsing and formatting, the shading step, and `ColorMap`.
- `CameraState`: the camera and `rotate`, with the angle given as its cosine and sine (`Turn`).
- `Movement`: `handle_keys`, as a pure function of a record of four held keys.
- `Screen`: the 800 × 600 frame size.
- `Raycast`:
  - the ray set-up;
  - the DDA loop (`Traverse`);
  - the perpendicular distance `dperp` (`Cast`).
- `Projection`: the wall height, the clamped band `y0`/`y1`, and the three boxes of a column.
- `Render`:
  - one column: the colour lookup, shading, projection and the error paths;
  - a whole frame.

The source raises three exceptions, and the model returns each as a `Failure`:

- `KeyError`: a material missing from the colour table;
- `ValueError`: a colour whose hex fields do not parse when it is shaded;
- `ZeroDivisionError`: `dperp + 1e-20 == 0`.

They are checked in the order the source evaluates them. The pygame draw calls become a list of `Fill` values (colour and box), in the order they are made.

`int()` truncates toward zero, so a coordinate in (-1, 0) falls in cell 0 (`GridMap.SlightlyNegativeIsCellZero`).

## Model

| member | source | states |
|---|---|---|
| Vectors.Add | src/vector.py:9-10 | Subtracting either operand from the sum gives back the other one. |
| Vectors.Sub | src/vector.py:12-13 | The difference plus the subtrahend is the minuend, component by component. |
| Vectors.AddSubCancel | src/vector.py:9-13 | `(a + b) - b == a` and `(a - b) + b == a` for all vectors. |
| Vectors.Mul | src/vector.py:15-19 | `a * b` with a vector `b` is the number `a.dot(b)`; with a scalar `k` it is `a` scaled by `k`. |
| Vectors.Dot | src/vector.py:21-22 | The dot product of a vector with itself is never negative. |
| Vectors.DotSymmetric | src/vector.py:15-22 | `dot` is symmetric, and so is `__mul__` between two vectors. |
| Vectors.Scale | src/vector.py:18-19 | A scaled vector is parallel to the original (cross product 0), and its dot product with it is `k` times the squared length. |
| Vectors.Sign | src/vector.py:32-33 | The cross product of a vector with itself is 0. |
| Vectors.SignAntisymmetric | src/vector.py:32-33 | `a.sign(b) == -b.sign(a)` and `a.sign(a) == 0`. |
| Vectors.Min | src/vector.py:35-36 | Each component is at most both inputs' components and equals one of them. |
| Vectors.Max | src/vector.py:38-39 | Each component is at least both inputs' components and equals one of them. |
| Vectors.MinMaxSymmetric | src/vector.py:35-39 | `min` and `max` are symmetric in their arguments, and `min` is componentwise at most `max`. |
| GridMap.IndexInRange | src/engine.py:184 | For an in-bounds cell of a size × size grid, the row-major index `x + y*size` lies inside the data. |
| GridMap.Trunc | src/engine.py:181 | `int()` on a float: for a non-negative input, the largest integer not above it; for a negative input, the smallest integer not below it. |
| GridMap.TruncInRange | src/engine.py:181-182 | A truncated coordinate lies in `[0, n)` exactly when `n > 0` and the coordinate lies in the open interval `(-1, n)`. |
| GridMap.IsValidPosition | src/engine.py:180-184 | True exactly when the truncated cell is in bounds and holds 0. When true, the position lies in the open square `(-1, size)²`. |
| GridMap.ValidPositionInside | src/engine.py:180-184 | Inside `(-1, size)²` every position's cell is in bounds, and the position is valid exactly when that cell is empty. |
| GridMap.SlightlyNegativeIsCellZero | src/engine.py:181-184 | A coordinate in (-1, 0) lands in column 0 although its floor is -1, and the position's validity is decided by the cell in column 0. |
| Colors.ParseHex | src/engine.py:158-160 | `int(s, 16)` succeeds exactly on non-empty strings of hex digits, with a value below 16^len. |
| Colors.DigitsInOrder | src/engine.py:158-161 | A digit's value is its position in `0123456789abcdef` (or `0123456789ABCDEF` for an uppercase letter), and the lowercase digit written for a value is the one at that position. |
| Colors.LowerDigitValue | src/engine.py:161 | The lowercase digit written for a value reads back as that value. |
| Colors.DigitRoundTrip | src/engine.py:158-161 | A lowercase digit is the digit written for its own value. |
| Colors.HexValueLeading | src/engine.py:158-160 | A hex numeral is read most significant digit first: its value is the leading digit times 16^(len-1) plus the value of the remaining digits. |
| Colors.TwoDigitValue | src/engine.py:158-160 | A two-digit field parses to sixteen times its first digit plus its second. |
| Colors.Hex2 | src/engine.py:161 | `f"{n:02x}"` for `n < 256` is two lowercase hex digits that parse back to `n`, the first digit counting sixteen times its value: `n` is sixteen times the first digit's value plus the second's. |
| Colors.FormatAfterParse | src/engine.py:158-161 | Formatting a parsed two-digit lowercase field gives back the same field. |
| Colors.Slice | src/engine.py:158-160 | Python slicing clamps past-the-end bounds: the ordinary subsequence when the string is long enough, otherwise the part of the string from `min(lo, len)` to its end, which is empty when `lo` is at or past the end. |
| Colors.Channel | src/engine.py:158-160 | A channel that parses from a two-character field is below 256. |
| Colors.Encode | src/engine.py:161 | The encoded colour is `#` and six lowercase hex digits, and each field parses back to its channel. |
| Colors.Decode | src/engine.py:158-160 | Decoding succeeds exactly when all three fields parse, and its channels are the parsed values. |
| Colors.DecodeEncode | src/engine.py:158-161 | Decoding an encoded colour gives back the three channels. |
| Colors.EncodeDecode | src/engine.py:158-161 | Encoding a decoded lowercase colour gives back the same string. |
| Colors.Shade | src/engine.py:156-161 | Shading succeeds exactly when all three fields parse. The result is `#` plus six lowercase hex digits, each channel of which parses to the input channel shifted right by one, so is at most 0x7f. |
| Colors.ShadeOfHexColor | src/engine.py:156-161 | A well-formed `#rrggbb` colour always shades, each channel to half the value of its two digits (sixteen times the first plus the second), rounded down. |
| Colors.ColorMap.Get | src/engine.py:110-111 | A present key's colour is one of the table's colours. |
| Colors.WallColor | src/engine.py:156-161 | An x-side hit keeps the base colour unchanged. A y-side hit of a well-formed colour gives a lowercase hex colour. |
| CameraState.Rotate | src/engine.py:93-101 | Position and bobbing are untouched. Direction and plane each turn through the angle of `t`: the dot and cross products of each new vector with the old one are c and s times the old squared length. |
| CameraState.RotatePreserves | src/engine.py:93-101 | For a true rotation (c² + s² = 1), `dot(dir, plane)`, `sign(dir, plane)` and both squared lengths are kept. |
| CameraState.RotateVecAngle | src/engine.py:94-97 | The rotated vector's dot and cross products with the original are c and s times its squared length. |
| CameraState.RotateReverse | src/engine.py:93-101 | Turning by an angle and then by its opposite restores the camera exactly. |
| CameraState.RotateCompose | src/engine.py:93-101 | Two successive turns equal one turn by the sum of the angles. |
| Movement.TryMove | src/engine.py:195-198 | The candidate is taken exactly when it is a valid position; otherwise the position stays. |
| Movement.Translate | src/engine.py:192-207 | `dir` and `plane` never change, and the new position is the old one or a valid one. Up moves to `pos + dir*0.1` if that is valid; down then moves back from wherever up left the camera if that is valid, and a rejected backward step leaves that position. Bobbing grows by 0.15 exactly when at least one of the two steps was taken, even when the steps cancel out. A position change implies bobbing. No up or down key leaves the camera unchanged. |
| Movement.ForwardStep | src/engine.py:194-207 | Up alone moves to `pos + dir*0.1` and bobs once when that is valid; otherwise nothing changes. |
| Movement.BackwardStep | src/engine.py:200-207 | Down alone moves to `pos - dir*0.1` and bobs once when that is valid; otherwise nothing changes. |
| Movement.ForwardThenBack | src/engine.py:194-207 | Up and down from a valid position with a valid square ahead: the backward step starts from the advanced position, so the camera returns home, bobbing once, not twice. |
| Movement.BlockedForwardThenBack | src/engine.py:194-204 | With the square ahead blocked, up plus down is the same as down alone. |
| Movement.Steer | src/engine.py:209-213 | Turning never moves the camera or its bobbing. Left alone rotates by the turn and right alone by its opposite. No turn keys change nothing, and left plus right cancel for a true rotation. A true rotation keeps the frame invariants. |
| Movement.HandleKeys | src/engine.py:187-213 | The full step: position and bobbing are those of the translation, direction and plane those of the turn. So the position is valid or unchanged, bobbing is unchanged or +0.15, the view is untouched without turn keys, the position untouched without move keys, and the frame invariants are kept. |
| Movement.TurnAndMoveIndependent | src/engine.py:187-213 | The view after a step does not depend on the grid, and the position does not depend on the turn keys. |
| Raycast.CameraX | src/engine.py:116 | Every column's camera coordinate lies in [-1, 1). |
| Raycast.RayDirAcrossScreen | src/engine.py:116-117 | Column 0 looks along `dir - plane` and the middle column along `dir`. Mirrored columns add up to twice `dir`. |
| Raycast.AxisDelta | src/engine.py:122-125 | The step length between grid lines is positive, and it is 1e30 for a near-zero direction component. |
| Raycast.StepSign | src/engine.py:134 | The step along an axis is -1 or +1. |
| Raycast.Setup | src/engine.py:118-134 | The start cell is the truncated position and both steps are ±1. Both step lengths are positive. The first side distances are non-negative for non-negative coordinates. |
| Raycast.CrossingClosedForm | src/engine.py:139-146 | After k further steps on an axis, its side distance is the first side distance plus k step lengths. |
| Raycast.CrossingOnGridLine | src/engine.py:128-146 | The (k+1)-th side distance of an axis is the ray parameter at which the ray meets the entry face of the cell k+1 steps from the start. |
| Raycast.NegativeStartCrossesBehind | src/engine.py:119-130 | From a coordinate in (-1, 0) heading left, the first side distance is negative. |
| Raycast.Next | src/engine.py:140-147 | One iteration steps along x exactly when the x side distance is smaller (y on a tie), changing only that coordinate, by that axis's step, and recording the side. |
| Raycast.StepDetermined | src/engine.py:139-147 | From any cell, one iteration of the loop can lead to only one next cell: the step is along the axis whose next grid line is nearer, y on a tie. |
| Raycast.WalkExtend | src/engine.py:139-150 | The walked cells stay a chain of single nearer-axis steps that never revisits the start, through in-bounds empty cells, when one more such step is taken from an empty in-bounds cell. |
| Raycast.WalksAgree | src/engine.py:139-150 | Two walks along the same ray agree on every cell both have reached. |
| Raycast.ProgressStart | src/engine.py:128-137 | Before the loop: no steps taken, the side distances are the first ones. |
| Raycast.ProgressNext | src/engine.py:139-150 | Each iteration keeps the loop invariant: the cell is the start advanced by the steps on each axis, the side distances count those steps, and the side names the last step's axis. It uses up exactly one unit of the room left before the grid's edge, which bounds the loop. |
| Raycast.ProgressDone | src/engine.py:139-152 | When the loop stops at a wall or leaves the grid, the reported path, hit and side distances form a finished traversal. |
| Raycast.TraversedUnique | src/engine.py:137-152 | A finished traversal is determined by the map and the ray: its path, hit value, side and side distances are the only ones possible. |
| Raycast.Traverse | src/engine.py:137-152 | The DDA loop always terminates. Each iteration changes exactly one cell coordinate, by that axis's fixed step of ±1, along the axis whose next grid line is nearer (y on a tie), as counted by the steps taken on each axis. The start cell is never read, and only in-bounds cells are read. It ends on a wall (non-zero value) or on the first cell off the grid (value 0). From an in-grid start it takes fewer than 2·size steps. `side` is 0 exactly when the last step was along x. |
| Raycast.PerpOnEntryFace | src/engine.py:165-169 | A side distance that counts n ≥ 1 crossings, less one step length, puts the ray on the entry face of the final cell. |
| Raycast.PerpNonnegative | src/engine.py:165-169 | From a non-negative coordinate that distance is non-negative. |
| Raycast.Cast | src/engine.py:118-169 | The hit, path and `dperp` are those of the one finished traversal of the ray set up from `pos` along `dir`: nearer-axis steps that never revisit the start, through in-bounds empty cells, ending on a wall or the first cell off the grid. `hit.pos` is `pos` plus the final side distances. `dperp` is the side distance of the side's axis less one step length, and the ray at parameter `dperp` lies on the grid line through which it entered the final cell. `dperp` is non-negative for a position with non-negative coordinates. |
| Projection.WallHeight | src/engine.py:171 | `ZeroDivisionError` exactly when `dperp + 1e-20 == 0`. Otherwise, for a positive denominator, `h` is the largest whole number with `h * (dperp + 1e-20) <= 600`. For a negative denominator, `h <= 0` is the quotient truncated up toward zero: the smallest whole number with `h * (dperp + 1e-20) <= 600`. |
| Projection.WallHeightMonotone | src/engine.py:171 | A farther wall is never taller than a nearer one. |
| Projection.WallBand | src/engine.py:172-173 | `0 <= y0` and `y1 <= 599`. For `h >= 0`, `y0 <= 300 <= y1`. A wall of height up to 598 is exactly `h` rows and centred on row 300. A wall of 600 rows or more spans from row 0 to row 599. For any `h >= 0`, each edge lies `h/2` from row 300 unless clipped to row 0 or row 599, so `h = 599` gives `y0 = 0.5` and `y1 = 599`. A negative `h` gives the inverted band `y0 = 300 - h/2`, `y1 = 300 + h/2`. |
| Projection.ColumnFills | src/engine.py:175-177 | Three draws in the order floor, wall, ceiling, each one column wide at `x`. They stack from row 0 to row 600, with the wall box from `y0` to `y1`. |
| Projection.ColumnPartition | src/engine.py:171-177 | For `h >= 0`, no box has negative height, and every screen row lies in exactly one of the three boxes. |
| Render.DrawColumn | src/engine.py:154-177 | KeyError for a missing material, then ValueError for an unparseable shaded colour, then ZeroDivisionError, which is raised exactly when both colour steps succeed and `dperp + 1e-20 == 0`. It fails exactly in those cases. On success: floor and ceiling colours, the wall in the base or shaded colour, stacked boxes, and the wall box at the projected band. |
| Render.RenderColumn | src/engine.py:115-177 | The column's ray is `dir + plane*xcam` cast from the camera position, and the column's draws, or its error, are exactly what that cast's hit value, side and `dperp` draw. A successful column is three stacked boxes at that column, the wall box in a table colour or its shade. A missing key is 0 or a map material. Division can fail only from a negative coordinate. With a complete colour table of well-formed colours and a non-negative position, it always succeeds. |
| Render.RenderFrame | src/engine.py:114-177 | Every column cast is that column's ray from the camera. A successful frame is 800 columns, and column `x` is the three stacked draws at `x` for its own cast. A failed frame stops at the first column whose draws raise, with that column's error, after every earlier column drew. With a complete well-formed colour table and a non-negative position, the frame always succeeds. |

## Left out

- pygame: the surface, the draw calls themselves, the event loop, the clock and the display. Draw calls are returned as `Fill` values instead.
- `HeldItem`, `main_loop`, and the sinusoidal bobbing display offset (`math.sin` of the accumulator), which are display only. `State.draw_pixel` and `State.vertical_line` are not used by the core.
- `PerlinMap`: it calls an external noise library.
- `LLMMap`: it calls a network service. Such a map can come back with `len(data) != size*size`. The model makes `Map.WellFormed()` (`|data| == size*size`) a precondition rather than relying on the constructor.
- Negative map sizes: `Map.size` is a `nat`.
- `math.cos` and `math.sin`: a turn is passed as its cosine and sine (`Turn`). Rotation facts need `c² + s² = 1`. The left key turns by `Turn(c, s)` and the right key by `Turn(c, -s)`.
- `Vector2D.length` and `normalize` (square root, in-place mutation). The squared length stands in where a length is needed.
- IEEE-754 rounding and overflow: floats are exact reals.
- Python's `int(s, 16)` also accepts surrounding whitespace, a sign, a `0x` prefix and underscores, and non-ASCII decimal digits such as fullwidth or Arabic-Indic digits. Only plain ASCII hex-digit strings parse in the model; those other forms are treated as ValueError.
- Colors.ParseHex: its own contract states when it succeeds and bounds the value. The digit order is stated by `Colors.HexValueLeading` and `Colors.TwoDigitValue`, which hold for every input it parses.
- Colors.DigitValue: its own contract only bounds the value below 16. The digit order is stated by `Colors.DigitsInOrder`.
- CameraState.Rotate: the facts kept by a true rotation are stated by `CameraState.RotatePreserves` for every camera and turn, not by `Rotate` itself.
- Colors.ColorMap.Get: needs the key to be present. The KeyError for a missing key is modelled in `Render.DrawColumn` as `MissingColor`.
- Raycast.Cast: the promise that `dperp >= 0` holds only for positions with non-negative coordinates. A position whose coordinate is in (-1, 0) is accepted by `is_valid_position` (truncation puts it in cell 0). From there a ray heading towards smaller cells has a negative first side distance (`Raycast.NegativeStartCrossesBehind`), so `dperp` can be negative.
- Raycast.Cast: the entry-face fact is stated only for direction components of magnitude at least 1e-20. Below that the step length is the 1e30 sentinel, not a true inverse.
- Raycast.Traverse: from a start outside the grid, no bound on the number of steps is stated. Termination holds for every start.
- Render.RenderFrame: when a column raises, the model returns the error and the casts up to that column, but not the boxes the source had already drawn for earlier columns, which stay on its surface.

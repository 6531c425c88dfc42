/** `handle_keys` as a pure step: held keys move the camera forward or back
    (rejecting moves into walls or off the grid) and turn it left or right. */
module Movement {
  import opened Vectors
  import opened GridMap
  import opened CameraState

  /** The arrow keys sampled once per frame: up, down, left, right. */
  datatype Keys = Keys(up: bool, down: bool, left: bool, right: bool)

  /** World units moved per frame while up or down is held. */
  const MoveSpeed: real := 0.1

  /** Bobbing accumulator increment for a frame in which the camera moved. */
  const BobbingSpeed: real := 0.15

  /** One attempted step: the candidate is taken when it is a valid position,
      otherwise the position stays. The flag says whether the step was taken. */
  function TryMove(pos: Vec, candidate: Vec, m: Map): (r: (Vec, bool))
    requires m.WellFormed()
    ensures r.1 ==> r.0 == candidate && IsValidPosition(r.0, m)
    ensures !r.1 ==> r.0 == pos && !IsValidPosition(candidate, m)
  {
    if IsValidPosition(candidate, m) then (candidate, true) else (pos, false)
  }

  /** The translation half of a frame: forward first, then backward from the
      possibly updated position, then one bobbing increment if either step was taken. */
  function Translate(cam: Camera, m: Map, keys: Keys): (r: Camera)
    requires m.WellFormed()
    ensures r.dir == cam.dir && r.plane == cam.plane
    ensures r.pos == cam.pos || IsValidPosition(r.pos, m)
    ensures r.bob == cam.bob || r.bob == cam.bob + BobbingSpeed
    ensures r.pos != cam.pos ==> r.bob == cam.bob + BobbingSpeed
    ensures !keys.up && !keys.down ==> r == cam
    // p1 is where the forward step leaves the camera; the backward step starts there
    ensures var step := Scale(cam.dir, MoveSpeed);
            var ahead := keys.up && IsValidPosition(Add(cam.pos, step), m);
            var p1 := if ahead then Add(cam.pos, step) else cam.pos;
            var behind := keys.down && IsValidPosition(Sub(p1, step), m);
            && (r.bob == cam.bob + BobbingSpeed <==> ahead || behind)
            && (behind ==> r.pos == Sub(p1, step))
            && (!behind ==> r.pos == p1)
  {
    var step := Scale(cam.dir, MoveSpeed);
    var fwd := if keys.up then TryMove(cam.pos, Add(cam.pos, step), m) else (cam.pos, false);
    var back := if keys.down then TryMove(fwd.0, Sub(fwd.0, step), m) else (fwd.0, false);
    var moved := fwd.1 || back.1;
    Camera(back.0, cam.dir, cam.plane, if moved then cam.bob + BobbingSpeed else cam.bob)
  }

  /** Up alone: the camera advances by `dir * 0.1` and bobs once when the target
      is valid, and nothing changes at all when it is not. */
  lemma ForwardStep(cam: Camera, m: Map)
    requires m.WellFormed()
    ensures var r := Translate(cam, m, Keys(true, false, false, false));
            var target := Add(cam.pos, Scale(cam.dir, MoveSpeed));
            if IsValidPosition(target, m) then r == cam.(pos := target, bob := cam.bob + BobbingSpeed)
            else r == cam
  {
  }

  /** Down alone: the mirror of `ForwardStep`. */
  lemma BackwardStep(cam: Camera, m: Map)
    requires m.WellFormed()
    ensures var r := Translate(cam, m, Keys(false, true, false, false));
            var target := Sub(cam.pos, Scale(cam.dir, MoveSpeed));
            if IsValidPosition(target, m) then r == cam.(pos := target, bob := cam.bob + BobbingSpeed)
            else r == cam
  {
  }

  /** Up and down together from a valid position with a valid square ahead: the
      backward step starts from the advanced position, so the camera ends where it
      began, and the bobbing advances once, not twice. */
  lemma ForwardThenBack(cam: Camera, m: Map)
    requires m.WellFormed()
    requires IsValidPosition(cam.pos, m)
    requires IsValidPosition(Add(cam.pos, Scale(cam.dir, MoveSpeed)), m)
    ensures Translate(cam, m, Keys(true, true, false, false)) == cam.(bob := cam.bob + BobbingSpeed)
  {
    AddSubCancel(cam.pos, Scale(cam.dir, MoveSpeed));
  }

  /** Up and down together with the square ahead blocked: only the backward step applies. */
  lemma BlockedForwardThenBack(cam: Camera, m: Map)
    requires m.WellFormed()
    requires !IsValidPosition(Add(cam.pos, Scale(cam.dir, MoveSpeed)), m)
    ensures Translate(cam, m, Keys(true, true, false, false))
            == Translate(cam, m, Keys(false, true, false, false))
  {
  }

  /** The turning half of a frame: left turns by the angle, right by its opposite.
      Turning is never checked against the grid. */
  function Steer(cam: Camera, keys: Keys, t: Turn): (r: Camera)
    ensures r.pos == cam.pos && r.bob == cam.bob
    ensures !keys.left && !keys.right ==> r == cam
    ensures keys.left && !keys.right ==> r == Rotate(cam, t)
    ensures !keys.left && keys.right ==> r == Rotate(cam, t.Reverse())
    ensures t.IsRotation() && keys.left && keys.right ==> r == cam
    ensures t.IsRotation() ==>
              Dot(r.dir, r.plane) == Dot(cam.dir, cam.plane)
              && Sign(r.dir, r.plane) == Sign(cam.dir, cam.plane)
              && LengthSquared(r.dir) == LengthSquared(cam.dir)
              && LengthSquared(r.plane) == LengthSquared(cam.plane)
  {
    var turned := if keys.left then Rotate(cam, t) else cam;
    var r := if keys.right then Rotate(turned, t.Reverse()) else turned;
    SteerPreserves(cam, keys, t, turned, r);
    r
  }

  /** Each key applies one rotation; left and right together cancel. */
  lemma SteerPreserves(cam: Camera, keys: Keys, t: Turn, turned: Camera, r: Camera)
    requires turned == if keys.left then Rotate(cam, t) else cam
    requires r == if keys.right then Rotate(turned, t.Reverse()) else turned
    ensures t.IsRotation() && keys.left && keys.right ==> r == cam
    ensures t.IsRotation() ==>
              Dot(r.dir, r.plane) == Dot(cam.dir, cam.plane)
              && Sign(r.dir, r.plane) == Sign(cam.dir, cam.plane)
              && LengthSquared(r.dir) == LengthSquared(cam.dir)
              && LengthSquared(r.plane) == LengthSquared(cam.plane)
  {
    if t.IsRotation() {
      if keys.left && keys.right {
        RotateReverse(cam, t);
      } else if keys.left {
        RotatePreserves(cam, t);
      } else if keys.right {
        ReverseIsRotation(t);
        RotatePreserves(cam, t.Reverse());
      }
    }
  }

  lemma ReverseIsRotation(t: Turn)
    requires t.IsRotation()
    ensures t.Reverse().IsRotation()
  {
    assert (-t.s) * (-t.s) == t.s * t.s;
  }

  /** `handle_keys`: translate, then turn. `t` holds the cosine and sine of the
      0.1 radian turn the left key makes; the right key turns by its opposite. */
  function HandleKeys(cam: Camera, m: Map, keys: Keys, t: Turn): (r: Camera)
    requires m.WellFormed()
    // the move is decided on the grid and the turn on the keys alone
    ensures r.pos == Translate(cam, m, keys).pos && r.bob == Translate(cam, m, keys).bob
    ensures r.dir == Steer(cam, keys, t).dir && r.plane == Steer(cam, keys, t).plane
    ensures r.pos == cam.pos || IsValidPosition(r.pos, m)
    ensures r.bob == cam.bob || r.bob == cam.bob + BobbingSpeed
    ensures !keys.left && !keys.right ==> r.dir == cam.dir && r.plane == cam.plane
    ensures !keys.up && !keys.down ==> r.pos == cam.pos && r.bob == cam.bob
    ensures t.IsRotation() ==>
              Dot(r.dir, r.plane) == Dot(cam.dir, cam.plane)
              && Sign(r.dir, r.plane) == Sign(cam.dir, cam.plane)
              && LengthSquared(r.dir) == LengthSquared(cam.dir)
              && LengthSquared(r.plane) == LengthSquared(cam.plane)
  {
    Steer(Translate(cam, m, keys), keys, t)
  }

  /** Turning does not depend on the grid, and moving does not depend on the turn keys. */
  lemma TurnAndMoveIndependent(cam: Camera, m1: Map, m2: Map, keys: Keys, t: Turn)
    requires m1.WellFormed() && m2.WellFormed()
    ensures HandleKeys(cam, m1, keys, t).dir == HandleKeys(cam, m2, keys, t).dir
    ensures HandleKeys(cam, m1, keys, t).plane == HandleKeys(cam, m2, keys, t).plane
    ensures HandleKeys(cam, m1, keys, t).pos
            == HandleKeys(cam, m1, keys.(left := false, right := false), t).pos
  {
  }
}

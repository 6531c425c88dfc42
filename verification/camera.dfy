/** The camera state the renderer draws from and the rotation of its view. */
module CameraState {
  import opened Vectors

  /** Position, facing direction, camera plane (its length sets the field of
      view) and the accumulator driving the held item's bobbing. */
  datatype Camera = Camera(pos: Vec, dir: Vec, plane: Vec, bob: real)

  /** A rotation given by the cosine and sine of its angle. */
  datatype Turn = Turn(c: real, s: real) {

    /** The identity cos² + sin² = 1 that every real angle satisfies. */
    predicate IsRotation()
    {
      c * c + s * s == 1.0
    }

    /** The opposite angle: cosine is even and sine is odd. */
    function Reverse(): Turn
    {
      Turn(c, -s)
    }
  }

  /** The matrix [c, -s; s, c] applied to a vector. */
  function RotateVec(v: Vec, t: Turn): Vec
  {
    Vec(v.x * t.c - v.y * t.s, v.x * t.s + v.y * t.c)
  }

  /** The rotated vector makes the turn's angle with the original: their dot and
      cross products are c and s times the squared length. */
  lemma RotateVecAngle(v: Vec, t: Turn)
    ensures Dot(v, RotateVec(v, t)) == t.c * LengthSquared(v)
    ensures Sign(v, RotateVec(v, t)) == t.s * LengthSquared(v)
  {
    var x, y, c, s := v.x, v.y, t.c, t.s;
    assert x * (x * c - y * s) + y * (x * s + y * c) == c * (x * x + y * y);
    assert x * (x * s + y * c) - y * (x * c - y * s) == s * (x * x + y * y);
  }

  /** `w` is `v` turned through the angle whose cosine and sine are those of `t`:
      their dot and cross products are c and s times the squared length of `v`. */
  predicate TurnedBy(v: Vec, w: Vec, t: Turn)
  {
    && Dot(v, w) == t.c * LengthSquared(v)
    && Sign(v, w) == t.s * LengthSquared(v)
  }

  /** A rotation scales dot and cross products by c² + s², so a true rotation keeps both. */
  lemma RotateVecProducts(v: Vec, w: Vec, t: Turn)
    ensures Dot(RotateVec(v, t), RotateVec(w, t)) == (t.c * t.c + t.s * t.s) * Dot(v, w)
    ensures Sign(RotateVec(v, t), RotateVec(w, t)) == (t.c * t.c + t.s * t.s) * Sign(v, w)
  {
    DotExpansion(t.c, t.s, v.x, v.y, w.x, w.y);
    CrossExpansion(t.c, t.s, v.x, v.y, w.x, w.y);
  }

  lemma DotExpansion(c: real, s: real, a: real, b: real, p: real, q: real)
    ensures (a * c - b * s) * (p * c - q * s) + (a * s + b * c) * (p * s + q * c)
            == (c * c + s * s) * (a * p + b * q)
  {
    assert (a * c - b * s) * (p * c - q * s) == a * c * p * c - a * c * q * s - b * s * p * c + b * s * q * s;
    assert (a * s + b * c) * (p * s + q * c) == a * s * p * s + a * s * q * c + b * c * p * s + b * c * q * c;
    assert (c * c + s * s) * (a * p + b * q) == c * c * a * p + c * c * b * q + s * s * a * p + s * s * b * q;
  }

  lemma CrossExpansion(c: real, s: real, a: real, b: real, p: real, q: real)
    ensures (a * c - b * s) * (p * s + q * c) - (a * s + b * c) * (p * c - q * s)
            == (c * c + s * s) * (a * q - b * p)
  {
    assert (a * c - b * s) * (p * s + q * c) == a * c * p * s + a * c * q * c - b * s * p * s - b * s * q * c;
    assert (a * s + b * c) * (p * c - q * s) == a * s * p * c - a * s * q * s + b * c * p * c - b * c * q * s;
    assert (c * c + s * s) * (a * q - b * p) == c * c * a * q - c * c * b * p + s * s * a * q - s * s * b * p;
  }

  /** `State.rotate`: one matrix applied to both the direction and the camera plane;
      position and bobbing are untouched. */
  function Rotate(cam: Camera, t: Turn): (r: Camera)
    ensures r.pos == cam.pos && r.bob == cam.bob
    // direction and plane each turn through the angle of t
    ensures TurnedBy(cam.dir, r.dir, t) && TurnedBy(cam.plane, r.plane, t)
  {
    RotateVecAngle(cam.dir, t);
    RotateVecAngle(cam.plane, t);
    Camera(cam.pos, RotateVec(cam.dir, t), RotateVec(cam.plane, t), cam.bob)
  }

  /** A true rotation keeps the angle between direction and plane and both
      their lengths, so the field of view does not change as the camera turns. */
  lemma RotatePreserves(cam: Camera, t: Turn)
    requires t.IsRotation()
    ensures var r := Rotate(cam, t);
            && Dot(r.dir, r.plane) == Dot(cam.dir, cam.plane)
            && Sign(r.dir, r.plane) == Sign(cam.dir, cam.plane)
            && LengthSquared(r.dir) == LengthSquared(cam.dir)
            && LengthSquared(r.plane) == LengthSquared(cam.plane)
  {
    RotateVecKeeps(cam.dir, cam.plane, t);
    RotateVecKeeps(cam.dir, cam.dir, t);
    RotateVecKeeps(cam.plane, cam.plane, t);
  }

  lemma RotateVecKeeps(v: Vec, w: Vec, t: Turn)
    requires t.IsRotation()
    ensures Dot(RotateVec(v, t), RotateVec(w, t)) == Dot(v, w)
    ensures Sign(RotateVec(v, t), RotateVec(w, t)) == Sign(v, w)
  {
    RotateVecProducts(v, w, t);
    var k := t.c * t.c + t.s * t.s;
    assert k == 1.0;
    assert k * Dot(v, w) == Dot(v, w) && k * Sign(v, w) == Sign(v, w);
  }

  /** Turning by an angle and then by its opposite restores the view exactly. */
  lemma RotateReverse(cam: Camera, t: Turn)
    requires t.IsRotation()
    ensures Rotate(Rotate(cam, t), t.Reverse()) == cam
  {
    var r := Rotate(Rotate(cam, t), t.Reverse());
    RotateVecReverse(cam.dir, t);
    RotateVecReverse(cam.plane, t);
  }

  lemma RotateVecReverse(v: Vec, t: Turn)
    requires t.IsRotation()
    ensures RotateVec(RotateVec(v, t), t.Reverse()) == v
  {
    var c, s, x, y := t.c, t.s, v.x, v.y;
    var u := RotateVec(v, t);
    var r := RotateVec(u, t.Reverse());
    assert r.x == (x * c - y * s) * c - (x * s + y * c) * (-s);
    assert (x * c - y * s) * c - (x * s + y * c) * (-s) == (c * c + s * s) * x;
    assert r.y == (x * c - y * s) * (-s) + (x * s + y * c) * c;
    assert (x * c - y * s) * (-s) + (x * s + y * c) * c == (c * c + s * s) * y;
  }

  /** The turn by the sum of two angles (the angle-addition formulas). */
  function Compose(t1: Turn, t2: Turn): (t: Turn)
    ensures t1.IsRotation() && t2.IsRotation() ==> t.IsRotation()
  {
    var t := Turn(t1.c * t2.c - t1.s * t2.s, t1.s * t2.c + t1.c * t2.s);
    DotExpansion(t2.c, t2.s, t1.c, t1.s, t1.c, t1.s);
    assert t.c == t1.c * t2.c - t1.s * t2.s && t.s == t1.c * t2.s + t1.s * t2.c;
    t
  }

  /** Repeated turns accumulate their angles: two rotations are one rotation by the sum. */
  lemma RotateCompose(cam: Camera, t1: Turn, t2: Turn)
    ensures Rotate(Rotate(cam, t1), t2) == Rotate(cam, Compose(t1, t2))
  {
    RotateVecCompose(cam.dir, t1, t2);
    RotateVecCompose(cam.plane, t1, t2);
  }

  lemma RotateVecCompose(v: Vec, t1: Turn, t2: Turn)
    ensures RotateVec(RotateVec(v, t1), t2) == RotateVec(v, Compose(t1, t2))
  {
    var x, y := v.x, v.y;
    var c1, s1, c2, s2 := t1.c, t1.s, t2.c, t2.s;
    var w := RotateVec(RotateVec(v, t1), t2);
    var t := Compose(t1, t2);
    assert w.x == (x * c1 - y * s1) * c2 - (x * s1 + y * c1) * s2;
    assert (x * c1 - y * s1) * c2 == x * c1 * c2 - y * s1 * c2;
    assert (x * s1 + y * c1) * s2 == x * s1 * s2 + y * c1 * s2;
    assert x * (c1 * c2 - s1 * s2) == x * c1 * c2 - x * s1 * s2;
    assert y * (s1 * c2 + c1 * s2) == y * s1 * c2 + y * c1 * s2;
    assert w.y == (x * c1 - y * s1) * s2 + (x * s1 + y * c1) * c2;
    assert (x * c1 - y * s1) * s2 == x * c1 * s2 - y * s1 * s2;
    assert (x * s1 + y * c1) * c2 == x * s1 * c2 + y * c1 * c2;
    assert x * (s1 * c2 + c1 * s2) == x * s1 * c2 + x * c1 * s2;
    assert y * (c1 * c2 - s1 * s2) == y * c1 * c2 - y * s1 * s2;
  }
}

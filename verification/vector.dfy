/** The renderer's 2D vector value type and its ray-hit record.
    Floating-point components are modelled as exact reals. */
module Vectors {

  datatype Vec = Vec(x: real, y: real)

  /** A ray hit: the material id met, the axis of the last grid crossing
      (0 = an x grid line, 1 = a y grid line) and a world position. */
  datatype Hit = Hit(val: int, side: int, pos: Vec)

  /** The right-hand operand of `*`: a vector (dot product) or a scalar (scaling). */
  datatype Operand = ByVector(v: Vec) | ByScalar(k: real)

  /** What `*` returns: a number for a vector operand, a vector for a scalar one. */
  datatype Product = Number(n: real) | Scaled(v: Vec)

  function Add(a: Vec, b: Vec): (r: Vec)
    ensures Sub(r, b) == a && Sub(r, a) == b
  {
    Vec(a.x + b.x, a.y + b.y)
  }

  function Sub(a: Vec, b: Vec): (r: Vec)
    ensures r.x + b.x == a.x && r.y + b.y == a.y
  {
    Vec(a.x - b.x, a.y - b.y)
  }

  function Dot(a: Vec, b: Vec): (r: real)
    ensures a == b ==> r >= 0.0
  {
    SquareNonnegative(a.x);
    SquareNonnegative(a.y);
    a.x * b.x + a.y * b.y
  }

  /** Scaling by a scalar, the scalar branch of `*`. The result is parallel to `a`. */
  function Scale(a: Vec, k: real): (r: Vec)
    ensures Sign(a, r) == 0.0
    ensures Dot(a, r) == k * Dot(a, a)
  {
    Vec(a.x * k, a.y * k)
  }

  /** Python's overloaded `*`: a dot product against a vector, a scaling by a number. */
  function Mul(a: Vec, other: Operand): (r: Product)
    ensures other.ByVector? ==> r == Number(Dot(a, other.v))
    ensures other.ByScalar? ==> r == Scaled(Scale(a, other.k))
  {
    match other
    case ByVector(v) =>
      assert a.x * v.x + a.y * v.y == Dot(a, v);
      Number(a.x * v.x + a.y * v.y)
    case ByScalar(k) =>
      assert Vec(a.x * k, a.y * k) == Scale(a, k);
      Scaled(Vec(a.x * k, a.y * k))
  }

  /** The 2D cross product (signed parallelogram area). */
  function Sign(a: Vec, b: Vec): (r: real)
    ensures a == b ==> r == 0.0
  {
    a.x * b.y - a.y * b.x
  }

  function LengthSquared(a: Vec): (r: real)
    ensures r >= 0.0
    ensures r == Dot(a, a)
  {
    SquareNonnegative(a.x);
    SquareNonnegative(a.y);
    a.x * a.x + a.y * a.y
  }

  lemma SquareNonnegative(k: real)
    ensures k * k >= 0.0
  {
    if k < 0.0 {
      assert k * k == (-k) * (-k);
    }
  }

  /** Python's builtin `min` on two numbers: the first unless the second is smaller. */
  function MinReal(p: real, q: real): real
  {
    if q < p then q else p
  }

  /** Python's builtin `max` on two numbers: the first unless the second is larger. */
  function MaxReal(p: real, q: real): real
  {
    if q > p then q else p
  }

  /** Componentwise minimum: the greatest vector below both arguments. */
  function Min(a: Vec, b: Vec): (r: Vec)
    ensures r.x <= a.x && r.x <= b.x && (r.x == a.x || r.x == b.x)
    ensures r.y <= a.y && r.y <= b.y && (r.y == a.y || r.y == b.y)
  {
    Vec(MinReal(a.x, b.x), MinReal(a.y, b.y))
  }

  /** Componentwise maximum: the least vector above both arguments. */
  function Max(a: Vec, b: Vec): (r: Vec)
    ensures r.x >= a.x && r.x >= b.x && (r.x == a.x || r.x == b.x)
    ensures r.y >= a.y && r.y >= b.y && (r.y == a.y || r.y == b.y)
  {
    Vec(MaxReal(a.x, b.x), MaxReal(a.y, b.y))
  }

  lemma AddSubCancel(a: Vec, b: Vec)
    ensures Sub(Add(a, b), b) == a
    ensures Add(Sub(a, b), b) == a
  {
  }

  lemma DotSymmetric(a: Vec, b: Vec)
    ensures Dot(a, b) == Dot(b, a)
    ensures Mul(a, ByVector(b)) == Mul(b, ByVector(a))
  {
  }

  lemma SignAntisymmetric(a: Vec, b: Vec)
    ensures Sign(a, b) == -Sign(b, a)
    ensures Sign(a, a) == 0.0
  {
  }

  lemma MinMaxSymmetric(a: Vec, b: Vec)
    ensures Min(a, b) == Min(b, a)
    ensures Max(a, b) == Max(b, a)
    ensures Min(a, b).x <= Max(a, b).x && Min(a, b).y <= Max(a, b).y
  {
  }
}

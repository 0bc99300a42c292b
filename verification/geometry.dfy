/** Points in 3-space over the reals, and the numeric primitives the mesh code
    takes from its geometry library.

    `Scalar`/`double` become `real`. The library's `norm`, `normalize`, `acos`
    and `M_PI` are transcendental and stay uninterpreted: they are fields of a
    `Primitives` record that every operation receives. So is the value of an
    IEEE quotient by zero (an infinity or NaN), which no real number is. */
module Geometry {

  datatype Vec3 = Vec3(x: real, y: real, z: real)

  const Zero: Vec3 := Vec3(0.0, 0.0, 0.0)

  function Add(a: Vec3, b: Vec3): Vec3 { Vec3(a.x + b.x, a.y + b.y, a.z + b.z) }

  function Sub(a: Vec3, b: Vec3): Vec3 { Vec3(a.x - b.x, a.y - b.y, a.z - b.z) }

  /** `p * s`, a point scaled by a scalar. */
  function Scale(a: Vec3, s: real): Vec3 { Vec3(a.x * s, a.y * s, a.z * s) }

  function Dot(a: Vec3, b: Vec3): real { a.x * b.x + a.y * b.y + a.z * b.z }

  function Cross(a: Vec3, b: Vec3): Vec3 {
    Vec3(a.y * b.z - a.z * b.y, a.z * b.x - a.x * b.z, a.x * b.y - a.y * b.x)
  }

  /** The library functions the model does not interpret. */
  datatype Primitives = Primitives(
    norm: Vec3 -> real,       // Euclidean length
    normalize: Vec3 -> Vec3,  // direction of a vector
    acos: real -> real,       // arc cosine
    pi: real,                 // M_PI
    divByZero: real -> real   // the floating-point result of x / 0
  )

  /** A Euclidean length is never negative. */
  ghost predicate NormNonNegative(prim: Primitives) {
    forall v :: prim.norm(v) >= 0.0
  }

  /** Floating-point division `a / b`; a zero divisor gives the library's
      non-real result, left uninterpreted. */
  function Div(prim: Primitives, a: real, b: real): real {
    if b == 0.0 then prim.divByZero(a) else a / b
  }

  /** `p /= s` on a point: each coordinate divided by `s`. */
  function DivVec(prim: Primitives, a: Vec3, s: real): Vec3 {
    Vec3(Div(prim, a.x, s), Div(prim, a.y, s), Div(prim, a.z, s))
  }

  /** `max(lb, min(ub, c))` with lb = -1 and ub = 1. */
  function Clamp(c: real): (r: real)
    ensures -1.0 <= r <= 1.0
    ensures -1.0 <= c <= 1.0 ==> r == c
  {
    if 1.0 < c then 1.0 else if c < -1.0 then -1.0 else c
  }

  /** Every point moved by the same offset t. */
  function Translate(pos: seq<Vec3>, t: Vec3): (r: seq<Vec3>)
    ensures |r| == |pos|
  {
    seq(|pos|, i requires 0 <= i < |pos| => Add(pos[i], t))
  }

  /** A difference of two points does not see a common offset. */
  lemma SubTranslated(a: Vec3, b: Vec3, t: Vec3)
    ensures Sub(Add(a, t), Add(b, t)) == Sub(a, b)
  {
  }
}

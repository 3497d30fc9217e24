/** Unity's vector arithmetic over reals, the Option wrapper used for C#'s
    nullable results, and the transcendental functions (square root, sine,
    cosine) that the model treats as given but unknown. */
module Vectors {

  datatype Option<T> = None | Some(value: T)

  /** UnityEngine.Vector2 and Vector3 with real components. */
  datatype Vec2 = Vec2(x: real, y: real)
  datatype Vec3 = Vec3(x: real, y: real, z: real)

  const Zero2: Vec2 := Vec2(0.0, 0.0)
  const Zero3: Vec3 := Vec3(0.0, 0.0, 0.0)
  /** Vector3.right, Vector3.up and Vector3.forward. */
  const Right3: Vec3 := Vec3(1.0, 0.0, 0.0)
  const Up3: Vec3 := Vec3(0.0, 1.0, 0.0)
  const Forward3: Vec3 := Vec3(0.0, 0.0, 1.0)

  /** Mathf.PI (a float close to pi). */
  const Pi: real := 3.1415927
  /** int.MaxValue of C#. */
  const IntMaxValue: int := 0x7fff_ffff

  function Add2(a: Vec2, b: Vec2): Vec2 { Vec2(a.x + b.x, a.y + b.y) }
  function Sub2(a: Vec2, b: Vec2): Vec2 { Vec2(a.x - b.x, a.y - b.y) }
  function Scale2(a: Vec2, k: real): Vec2 { Vec2(a.x * k, a.y * k) }
  function Dot2(a: Vec2, b: Vec2): real { a.x * b.x + a.y * b.y }
  function SqrMagnitude2(a: Vec2): real { a.x * a.x + a.y * a.y }
  /** Squared Euclidean distance; Vector2.Distance is its square root. */
  function DistSq2(a: Vec2, b: Vec2): real { SqrMagnitude2(Sub2(a, b)) }

  function Add3(a: Vec3, b: Vec3): Vec3 { Vec3(a.x + b.x, a.y + b.y, a.z + b.z) }
  function Sub3(a: Vec3, b: Vec3): Vec3 { Vec3(a.x - b.x, a.y - b.y, a.z - b.z) }
  function Scale3(a: Vec3, k: real): Vec3 { Vec3(a.x * k, a.y * k, a.z * k) }
  function Neg3(a: Vec3): Vec3 { Vec3(-a.x, -a.y, -a.z) }
  function Dot3(a: Vec3, b: Vec3): real { a.x * b.x + a.y * b.y + a.z * b.z }
  function Cross3(a: Vec3, b: Vec3): Vec3 {
    Vec3(a.y * b.z - a.z * b.y, a.z * b.x - a.x * b.z, a.x * b.y - a.y * b.x)
  }
  function SqrMagnitude3(a: Vec3): real { Dot3(a, a) }
  function DistSq3(a: Vec3, b: Vec3): real { SqrMagnitude3(Sub3(a, b)) }

  /** The implicit Vector3 -> Vector2 conversion keeps x and y. */
  function XY(v: Vec3): Vec2 { Vec2(v.x, v.y) }
  /** new Vector3(p.x, p.y, z). */
  function Lift(p: Vec2, z: real): Vec3 { Vec3(p.x, p.y, z) }

  function Min(a: real, b: real): real { if a <= b then a else b }
  function Max(a: real, b: real): real { if a >= b then a else b }
  function MaxInt(a: int, b: int): int { if a >= b then a else b }
  function MinInt(a: int, b: int): int { if a <= b then a else b }

  /** Mathf.Clamp01. */
  function Clamp01(t: real): (r: real)
    ensures 0.0 <= r <= 1.0
    ensures 0.0 <= t <= 1.0 ==> r == t
  {
    if t < 0.0 then 0.0 else if t > 1.0 then 1.0 else t
  }

  /** Vector3.Lerp, which clamps its parameter to [0, 1]. */
  function Lerp3(a: Vec3, b: Vec3, t: real): Vec3 {
    Add3(a, Scale3(Sub3(b, a), Clamp01(t)))
  }

  /** The functions the source takes from Mathf (Sqrt, Sin, Cos) and from
      Vector3.normalized (a division by the square-root magnitude, or the
      zero vector below magnitude 1e-5). Nothing is assumed about them. */
  datatype MathOracle = MathOracle(sqrt: real -> real, sin: real -> real, cos: real -> real,
                                   normalize: Vec3 -> Vec3)

  function Distance3(m: MathOracle, a: Vec3, b: Vec3): real { m.sqrt(DistSq3(a, b)) }

  /** Vector3.normalized. */
  function Normalized3(m: MathOracle, v: Vec3): Vec3 { m.normalize(v) }

  /** Sum of the distances between consecutive points of a polyline. */
  function PolylineLength(m: MathOracle, path: seq<Vec3>): real
    decreases |path|
  {
    if |path| < 2 then 0.0
    else PolylineLength(m, path[..|path| - 1]) + Distance3(m, path[|path| - 2], path[|path| - 1])
  }

  /** A square root that never returns a negative number (true of Mathf.Sqrt). */
  ghost predicate NonNegativeSqrt(m: MathOracle) {
    forall x :: 0.0 <= x ==> 0.0 <= m.sqrt(x)
  }

  lemma {:induction false} PolylineLengthNonNegative(m: MathOracle, path: seq<Vec3>)
    requires NonNegativeSqrt(m)
    ensures 0.0 <= PolylineLength(m, path)
    decreases |path|
  {
    if |path| >= 2 {
      PolylineLengthNonNegative(m, path[..|path| - 1]);
      var a, b := path[|path| - 2], path[|path| - 1];
      assert 0.0 <= DistSq3(a, b);
    }
  }

  /** A nonzero real divided by itself is one. */
  lemma DivSelf(x: real)
    requires x != 0.0
    ensures x / x == 1.0
  {
  }
}

/** Homogeneous transform math used when points enter the buffer: the column-major
    4x4 matrix layout of android.opengl.Matrix, its matrix-vector product
    (Matrix.multiplyMV), and the transform of a whole frame of packed XYZ triples
    with w = 1. Floats are modelled as reals. */
module VertexMath {

  /** A 4x4 matrix in 16 floats, column-major: row i, column j sits at index j*4 + i. */
  type Mat4 = m: seq<real> | |m| == 16 witness seq(16, _ => 0.0)

  /** A homogeneous 4-vector. */
  type Vec4 = v: seq<real> | |v| == 4 witness [0.0, 0.0, 0.0, 0.0]

  /** A point in 3-D space. */
  type Vec3 = p: seq<real> | |p| == 3 witness [0.0, 0.0, 0.0]

  const Identity: Mat4 := [1.0, 0.0, 0.0, 0.0,
                           0.0, 1.0, 0.0, 0.0,
                           0.0, 0.0, 1.0, 0.0,
                           0.0, 0.0, 0.0, 1.0]

  /** Row i of m times v: the sum over j of m[j*4 + i] * v[j]. */
  function RowDot(m: Mat4, v: Vec4, i: nat): real
    requires i < 4
  {
    m[i] * v[0] + m[4 + i] * v[1] + m[8 + i] * v[2] + m[12 + i] * v[3]
  }

  /** Matrix.multiplyMV: the product m * v. */
  function MultiplyMV(m: Mat4, v: Vec4): Vec4
  {
    [RowDot(m, v, 0), RowDot(m, v, 1), RowDot(m, v, 2), RowDot(m, v, 3)]
  }

  /** For an affine matrix (bottom row 0, 0, 0, 1) the product of a point with
      w = 1 has w = 1 again, so keeping only x, y and z loses nothing. */
  lemma AffineKeepsW(m: Mat4, x: real, y: real, z: real)
    requires m[3] == 0.0 && m[7] == 0.0 && m[11] == 0.0 && m[15] == 1.0
    ensures MultiplyMV(m, [x, y, z, 1.0])[3] == 1.0
  {
  }

  /** The point p taken as a homogeneous vector with w = 1, multiplied by m,
      and w dropped again. */
  function ApplyTransform(m: Mat4, p: Vec3): Vec3
  {
    MultiplyMV(m, [p[0], p[1], p[2], 1.0])[..3]
  }

  /** Point i of a packed XYZ float stream. */
  function PointAt(xyz: seq<real>, i: nat): Vec3
    requires 3 * i + 3 <= |xyz|
  {
    xyz[3 * i .. 3 * i + 3]
  }

  /** Reading point i as x, y, z and appending w = 1, as the frame loop does,
      gives the homogeneous form of PointAt(xyz, i). */
  lemma ApplyPointAt(m: Mat4, xyz: seq<real>, i: nat)
    requires 3 * i + 3 <= |xyz|
    ensures MultiplyMV(m, [xyz[3 * i], xyz[3 * i + 1], xyz[3 * i + 2], 1.0])[..3] == ApplyTransform(m, PointAt(xyz, i))
  {
    var p := PointAt(xyz, i);
    assert [xyz[3 * i], xyz[3 * i + 1], xyz[3 * i + 2], 1.0] == [p[0], p[1], p[2], 1.0];
  }

  /** The first n points of xyz, each transformed by m, packed again as 3n floats. */
  function TransformFrame(m: Mat4, xyz: seq<real>, n: nat): (r: seq<real>)
    requires 3 * n <= |xyz|
    ensures |r| == 3 * n
  {
    if n == 0 then [] else TransformFrame(m, xyz, n - 1) + ApplyTransform(m, PointAt(xyz, n - 1))
  }

  /** Float 3i + c of a transformed frame is component c of m * (x_i, y_i, z_i, 1). */
  lemma {:induction false} TransformFrameAt(m: Mat4, xyz: seq<real>, n: nat, i: nat, c: nat)
    requires 3 * n <= |xyz| && i < n && c < 3
    ensures TransformFrame(m, xyz, n)[3 * i + c]
         == MultiplyMV(m, [xyz[3 * i], xyz[3 * i + 1], xyz[3 * i + 2], 1.0])[c]
  {
    if i < n - 1 {
      TransformFrameAt(m, xyz, n - 1, i, c);
    }
  }

  /** The identity matrix leaves every point where it is. */
  lemma ApplyIdentity(p: Vec3)
    ensures ApplyTransform(Identity, p) == p
  {
  }

  /** Transforming a frame by the identity reproduces its first n points. */
  lemma {:induction false} TransformFrameIdentity(xyz: seq<real>, n: nat)
    requires 3 * n <= |xyz|
    ensures TransformFrame(Identity, xyz, n) == xyz[..3 * n]
  {
    if n > 0 {
      TransformFrameIdentity(xyz, n - 1);
      ApplyIdentity(PointAt(xyz, n - 1));
      assert xyz[..3 * n] == xyz[..3 * (n - 1)] + PointAt(xyz, n - 1);
    }
  }
}

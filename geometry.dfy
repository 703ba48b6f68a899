/**
  Vectors, quaternions and 4x4 matrices with the definitions the model's
  library uses: a matrix is stored row-major (a1 a2 a3 a4 b1 ... d4), which
  is also the order in which its sixteen floats are copied out.
  Floating point is modelled by the reals.
 */
module Geometry {

  datatype Vec3 = Vec3(x: real, y: real, z: real)

  datatype Quat = Quat(w: real, x: real, y: real, z: real)

  /** The three coordinate axes, used to state per-axis properties once. */
  datatype Axis = X | Y | Z

  function Coord(v: Vec3, a: Axis): real
  {
    match a
    case X => v.x
    case Y => v.y
    case Z => v.z
  }

  function Add(u: Vec3, v: Vec3): Vec3 { Vec3(u.x + v.x, u.y + v.y, u.z + v.z) }

  function Sub(u: Vec3, v: Vec3): Vec3 { Vec3(u.x - v.x, u.y - v.y, u.z - v.z) }

  function Scale(f: real, v: Vec3): Vec3 { Vec3(f * v.x, f * v.y, f * v.z) }

  /** A 4x4 matrix: sixteen reals, row-major. */
  type Matrix = m: seq<real> | |m| == 16
    witness [1.0, 0.0, 0.0, 0.0,
             0.0, 1.0, 0.0, 0.0,
             0.0, 0.0, 1.0, 0.0,
             0.0, 0.0, 0.0, 1.0]

  /** Entry in row r, column c. */
  function At(m: Matrix, r: nat, c: nat): real
    requires r < 4 && c < 4
  {
    m[4 * r + c]
  }

  /** The value a default-constructed matrix holds. */
  function Identity(): Matrix
  {
    [1.0, 0.0, 0.0, 0.0,
     0.0, 1.0, 0.0, 0.0,
     0.0, 0.0, 1.0, 0.0,
     0.0, 0.0, 0.0, 1.0]
  }

  /** Entry (i, j) of a product: row i of a against column j of b. */
  function Dot(a: Matrix, b: Matrix, i: nat, j: nat): real
    requires i < 4 && j < 4
  {
    At(a, i, 0) * At(b, 0, j) + At(a, i, 1) * At(b, 1, j) + At(a, i, 2) * At(b, 2, j) + At(a, i, 3) * At(b, 3, j)
  }

  /** The matrix product a * b. */
  function Mul(a: Matrix, b: Matrix): Matrix
  {
    seq(16, k requires 0 <= k < 16 => Dot(a, b, k / 4, k % 4))
  }

  function Transpose(m: Matrix): Matrix
  {
    seq(16, k requires 0 <= k < 16 => At(m, k % 4, k / 4))
  }

  /** Position 4 * i + j of the row-major storage is row i, column j. */
  lemma RowMajor(i: nat, j: nat)
    requires i < 4 && j < 4
    ensures (4 * i + j) / 4 == i && (4 * i + j) % 4 == j
  {
  }

  /** Entry (i, j) of a * b is the sum over k of a(i, k) * b(k, j). */
  lemma MulEntries(a: Matrix, b: Matrix)
    ensures forall i, j | 0 <= i < 4 && 0 <= j < 4 :: At(Mul(a, b), i, j) == Dot(a, b, i, j)
  {
    forall i, j | 0 <= i < 4 && 0 <= j < 4 ensures At(Mul(a, b), i, j) == Dot(a, b, i, j) {
      RowMajor(i, j);
    }
  }

  /** Entry (i, j) of the transpose is entry (j, i). */
  lemma TransposeEntries(m: Matrix)
    ensures forall i, j | 0 <= i < 4 && 0 <= j < 4 :: At(Transpose(m), i, j) == At(m, j, i)
  {
    forall i, j | 0 <= i < 4 && 0 <= j < 4 ensures At(Transpose(m), i, j) == At(m, j, i) {
      RowMajor(i, j);
    }
  }

  /** Translation by v: the identity with v in the last column. */
  function Translation(v: Vec3): Matrix
  {
    [1.0, 0.0, 0.0, v.x,
     0.0, 1.0, 0.0, v.y,
     0.0, 0.0, 1.0, v.z,
     0.0, 0.0, 0.0, 1.0]
  }

  /** Scaling by v along the axes. */
  function Scaling(v: Vec3): Matrix
  {
    [v.x, 0.0, 0.0, 0.0,
     0.0, v.y, 0.0, 0.0,
     0.0, 0.0, v.z, 0.0,
     0.0, 0.0, 0.0, 1.0]
  }

  /** The rotation matrix of a quaternion, embedded in a 4x4 matrix. */
  function RotationMatrix(q: Quat): Matrix
  {
    [1.0 - 2.0 * (q.y * q.y + q.z * q.z), 2.0 * (q.x * q.y - q.z * q.w), 2.0 * (q.x * q.z + q.y * q.w), 0.0,
     2.0 * (q.x * q.y + q.z * q.w), 1.0 - 2.0 * (q.x * q.x + q.z * q.z), 2.0 * (q.y * q.z - q.x * q.w), 0.0,
     2.0 * (q.x * q.z - q.y * q.w), 2.0 * (q.y * q.z + q.x * q.w), 1.0 - 2.0 * (q.x * q.x + q.y * q.y), 0.0,
     0.0, 0.0, 0.0, 1.0]
  }

  /** A point transformed by a matrix, translation included, no projection. */
  function TransformPoint(m: Matrix, v: Vec3): Vec3
  {
    Vec3(m[0] * v.x + m[1] * v.y + m[2] * v.z + m[3],
         m[4] * v.x + m[5] * v.y + m[6] * v.z + m[7],
         m[8] * v.x + m[9] * v.y + m[10] * v.z + m[11])
  }

  lemma {:induction false} TransposeInvolutive(m: Matrix)
    ensures Transpose(Transpose(m)) == m
  {
    var t := Transpose(Transpose(m));
    forall k | 0 <= k < 16 ensures t[k] == m[k] {
      var i, j := k / 4, k % 4;
      RowMajor(j, i);
      assert t[k] == Transpose(m)[4 * j + i];
      assert Transpose(m)[4 * j + i] == m[4 * i + j];
    }
  }

  /** Concatenation regroups freely. */
  lemma AppendAssoc<T>(a: seq<T>, b: seq<T>, c: seq<T>)
    ensures (a + b) + c == a + (b + c)
  {
  }
}

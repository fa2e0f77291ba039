// The structural part of the vector/matrix header shared by both rotating-cube
// programs: sign-bit operations on `f32`, vector constructors and conversions,
// and the identity, translation and scale matrices. `f32` is its raw bits; the
// floating-point arithmetic (`mat4f_multiply`, `mat4f_look_at`,
// `mat4f_perspective`) is kept uninterpreted as the `Matrix` term algebra.
module GibgoMath {
  import opened GibgoTypes

  const F32_ZERO: F32 := F32(0x0000_0000)
  const F32_ONE: F32 := F32(0x3F80_0000)
  const F32_NEG_ONE: F32 := F32(0xBF80_0000)

  /** Bits 0..30 of an `f32`: everything except the sign. */
  const MAGNITUDE_MASK: bv32 := 0x7FFF_FFFF

  predicate SignBit(a: F32) {
    a.bits & F32_SIGN_MASK != 0
  }

  /** `f32_neg`: `sign = !sign` on the bit-field view. */
  function Neg(a: F32): (r: F32)
    ensures SignBit(r) == !SignBit(a)
    ensures r.bits & MAGNITUDE_MASK == a.bits & MAGNITUDE_MASK
  {
    F32((a.bits & MAGNITUDE_MASK) | (if SignBit(a) then 0 else F32_SIGN_MASK))
  }

  /** `f32_abs`: `sign = 0` on the bit-field view. */
  function Abs(a: F32): (r: F32)
    ensures !SignBit(r)
    ensures r.bits & MAGNITUDE_MASK == a.bits & MAGNITUDE_MASK
  {
    F32(a.bits & MAGNITUDE_MASK)
  }

  /** `f32_eq`: equality of the raw bit patterns (not IEEE equality). */
  predicate Eq(a: F32, b: F32) {
    a.bits == b.bits
  }

  lemma NegInvolution(a: F32)
    ensures Neg(Neg(a)) == a
  {
  }

  lemma AbsIdempotent(a: F32)
    ensures Abs(Abs(a)) == Abs(a)
    ensures Abs(Neg(a)) == Abs(a)
  {
  }

  /**
   * Because `Eq` compares bits, the two zeros differ and a NaN equals itself,
   * unlike IEEE 754 comparison.
   */
  lemma EqIsBitEquality()
    ensures !Eq(F32_ZERO, Neg(F32_ZERO))
    ensures Eq(F32(0x7FC0_0000), F32(0x7FC0_0000))
    ensures forall a, b :: Eq(a, b) <==> a == b
  {
  }

  // ---------------------------------------------------------------------------
  // Vectors
  // ---------------------------------------------------------------------------

  datatype Vec2f = Vec2f(x: F32, y: F32)
  /** A Vec3f occupies 16 bytes: x, y, z and an explicit padding word. */
  datatype Vec3f = Vec3f(x: F32, y: F32, z: F32, padding: F32)
  datatype Vec4f = Vec4f(x: F32, y: F32, z: F32, w: F32)

  /** `vec3f_create`: the padding is always `F32_ZERO`. */
  function Vec3fCreate(x: F32, y: F32, z: F32): (r: Vec3f)
    ensures r.x == x && r.y == y && r.z == z
    ensures r.padding == F32_ZERO
  {
    Vec3f(x, y, z, F32_ZERO)
  }

  function Vec3fToVec4f(v: Vec3f, w: F32): (r: Vec4f)
    ensures r.x == v.x && r.y == v.y && r.z == v.z && r.w == w
  {
    Vec4f(v.x, v.y, v.z, w)
  }

  function Vec2fToVec3f(v: Vec2f, z: F32): (r: Vec3f)
    ensures r.x == v.x && r.y == v.y && r.z == z && r.padding == F32_ZERO
  {
    Vec3fCreate(v.x, v.y, z)
  }

  function Vec4fToVec3f(v: Vec4f): (r: Vec3f)
    ensures r.x == v.x && r.y == v.y && r.z == v.z && r.padding == F32_ZERO
  {
    Vec3fCreate(v.x, v.y, v.z)
  }

  function Vec3fToVec2f(v: Vec3f): (r: Vec2f)
    ensures r.x == v.x && r.y == v.y
  {
    Vec2f(v.x, v.y)
  }

  /**
   * Widening a Vec3f to a Vec4f and narrowing it back keeps x, y, z and
   * normalises the padding to zero; narrowing to a Vec2f and widening back
   * keeps x and y.
   */
  lemma ConversionRoundTrips(v: Vec3f, w: F32, u: Vec2f, z: F32)
    ensures Vec4fToVec3f(Vec3fToVec4f(v, w)) == Vec3fCreate(v.x, v.y, v.z)
    ensures v.padding == F32_ZERO ==> Vec4fToVec3f(Vec3fToVec4f(v, w)) == v
    ensures Vec3fToVec2f(Vec2fToVec3f(u, z)) == u
  {
  }

  // ---------------------------------------------------------------------------
  // 4x4 matrices, column-major
  // ---------------------------------------------------------------------------

  datatype Mat4f = Mat4f(c0: Vec4f, c1: Vec4f, c2: Vec4f, c3: Vec4f)

  function Vec4fAt(v: Vec4f, row: nat): F32
    requires row < 4
  {
    match row
    case 0 => v.x
    case 1 => v.y
    case 2 => v.z
    case _ => v.w
  }

  function Column(m: Mat4f, col: nat): Vec4f
    requires col < 4
  {
    match col
    case 0 => m.c0
    case 1 => m.c1
    case 2 => m.c2
    case _ => m.c3
  }

  /** Component `row` of column `col`. */
  function At(m: Mat4f, col: nat, row: nat): F32
    requires col < 4 && row < 4
  {
    Vec4fAt(Column(m, col), row)
  }

  function Identity(): (r: Mat4f)
    ensures forall col, row :: 0 <= col < 4 && 0 <= row < 4 ==>
      At(r, col, row) == if col == row then F32_ONE else F32_ZERO
  {
    Mat4f(Vec4f(F32_ONE, F32_ZERO, F32_ZERO, F32_ZERO),
          Vec4f(F32_ZERO, F32_ONE, F32_ZERO, F32_ZERO),
          Vec4f(F32_ZERO, F32_ZERO, F32_ONE, F32_ZERO),
          Vec4f(F32_ZERO, F32_ZERO, F32_ZERO, F32_ONE))
  }

  /** `mat4f_translate(x, y, z)`: the identity with x, y, z in column 3. */
  function Translate(x: F32, y: F32, z: F32): (r: Mat4f)
    ensures forall col, row :: 0 <= col < 4 && 0 <= row < 4 ==>
      At(r, col, row) ==
        if col == 3 && row < 3 then [x, y, z][row] else At(Identity(), col, row)
  {
    var id := Identity();
    id.(c3 := id.c3.(x := x, y := y, z := z))
  }

  /** The Vec3f-argument translation of the second program: the same matrix. */
  function TranslateVec(t: Vec3f): (r: Mat4f)
    ensures r == Translate(t.x, t.y, t.z)
    ensures forall col, row :: 0 <= col < 4 && 0 <= row < 4 ==>
      At(r, col, row) ==
        if col == 3 && row < 3 then [t.x, t.y, t.z][row] else At(Identity(), col, row)
  {
    var id := Identity();
    id.(c3 := id.c3.(x := t.x, y := t.y, z := t.z))
  }

  /** `mat4f_scale(x, y, z)`: the identity with x, y, z on the first three diagonal entries. */
  function Scale(x: F32, y: F32, z: F32): (r: Mat4f)
    ensures forall col, row :: 0 <= col < 4 && 0 <= row < 4 ==>
      At(r, col, row) ==
        if col == row && row < 3 then [x, y, z][row] else At(Identity(), col, row)
  {
    var id := Identity();
    id.(c0 := id.c0.(x := x), c1 := id.c1.(y := y), c2 := id.c2.(z := z))
  }

  /**
   * A matrix as the programs compute it: a known component-wise value, or the
   * result of one of the floating-point routines, which the model does not
   * evaluate. Two results are equal when they come from the same routine
   * applied to equal arguments.
   */
  datatype Matrix =
    | Known(value: Mat4f)
    | LookAt(eye: Vec3f, target: Vec3f, up: Vec3f)
    | Perspective(fov: F32, aspect: F32, near: F32, far: F32)
    | Multiply(a: Matrix, b: Matrix)
}

// The cube mesh of the software-rendered rotating cube: eight coloured corner
// vertices, 36 indices forming 12 counter-clockwise triangles (two per face),
// and the expansion of the indexed mesh into a flat triangle list.
module CubeGeometry {
  import opened MachineWords
  import opened GibgoTypes
  import opened GibgoMath

  const CUBE_VERTEX_COUNT: nat := 8
  const CUBE_TRIANGLE_COUNT: nat := 12
  const CUBE_INDEX_COUNT: nat := CUBE_TRIANGLE_COUNT * 3

  /** `GibgoVertex`: a position and an RGB colour, each a padded Vec3f (32 bytes in all). */
  datatype Vertex = Vertex(position: Vec3f, color: Vec3f)

  const VERTEX_SIZE: nat := 32

  // The three coordinate values that occur in the table.
  const P: F32 := F32_ONE
  const N: F32 := F32_NEG_ONE
  const Z: F32 := F32_ZERO

  /** A table entry: the omitted padding member of each initialiser is zero. */
  function V(px: F32, py: F32, pz: F32, r: F32, g: F32, b: F32): Vertex {
    Vertex(Vec3f(px, py, pz, Z), Vec3f(r, g, b, Z))
  }

  const CUBE_VERTICES: seq<Vertex> := [
    V(N, N, P, P, Z, Z), V(P, N, P, Z, P, Z), V(P, P, P, Z, Z, P), V(N, P, P, P, P, Z),
    V(N, N, N, P, Z, P), V(P, N, N, Z, P, P), V(P, P, N, P, P, P), V(N, P, N, Z, Z, Z)
  ]

  /** A position in the vertex table. */
  type VertexIndex = i: u32 | i < 8

  const CUBE_INDICES: seq<VertexIndex> := [
    0, 1, 2, 0, 2, 3,   // front,  z = +1
    5, 4, 7, 5, 7, 6,   // back,   z = -1
    4, 0, 3, 4, 3, 7,   // left,   x = -1
    1, 5, 6, 1, 6, 2,   // right,  x = +1
    4, 5, 1, 4, 1, 0,   // bottom, y = -1
    3, 2, 6, 3, 6, 7    // top,    y = +1
  ]

  /** The integer value of a coordinate that is exactly +1.0 or -1.0 (0 otherwise). */
  function Unit(f: F32): int {
    if f == F32_ONE then 1 else if f == F32_NEG_ONE then -1 else 0
  }

  datatype IntVec = IntVec(x: int, y: int, z: int)

  function Corner(v: Vertex): IntVec {
    IntVec(Unit(v.position.x), Unit(v.position.y), Unit(v.position.z))
  }

  predicate IsUnitCorner(v: Vertex) {
    (v.position.x == F32_ONE || v.position.x == F32_NEG_ONE) &&
    (v.position.y == F32_ONE || v.position.y == F32_NEG_ONE) &&
    (v.position.z == F32_ONE || v.position.z == F32_NEG_ONE)
  }

  function Coordinate(p: IntVec, axis: nat): int
    requires axis < 3
  {
    if axis == 0 then p.x else if axis == 1 then p.y else p.z
  }

  /** `get_cube_vertices`: the eight distinct corners of the cube [-1, 1]^3. */
  function GetCubeVertices(): (r: seq<Vertex>)
    ensures |r| == CUBE_VERTEX_COUNT
    ensures forall i :: 0 <= i < |r| ==> IsUnitCorner(r[i]) && r[i].position.padding == F32_ZERO
    ensures forall i, j :: 0 <= i < j < |r| ==> Corner(r[i]) != Corner(r[j])
  {
    CUBE_VERTICES
  }

  /** `get_cube_indices`: 36 = 12 * 3 indices, each naming one of the eight vertices. */
  function GetCubeIndices(): (r: seq<u32>)
    ensures |r| == CUBE_INDEX_COUNT == 36
    ensures forall i :: 0 <= i < |r| ==> r[i] < CUBE_VERTEX_COUNT
  {
    CUBE_INDICES
  }

  /** The integer coordinates of the eight table vertices, in table order. */
  const CORNERS: seq<IntVec> := [
    IntVec(-1, -1, 1), IntVec(1, -1, 1), IntVec(1, 1, 1), IntVec(-1, 1, 1),
    IntVec(-1, -1, -1), IntVec(1, -1, -1), IntVec(1, 1, -1), IntVec(-1, 1, -1)
  ]

  /** `CORNERS` is the vertex table read as integers. */
  lemma CornerTable()
    ensures forall i :: 0 <= i < CUBE_VERTEX_COUNT ==> Corner(CUBE_VERTICES[i]) == CORNERS[i]
  {
  }

  /** Corner `k` (0..2) of triangle `t`, as integers. */
  function TriangleCorner(t: nat, k: nat): (r: IntVec)
    requires t < CUBE_TRIANGLE_COUNT && k < 3
    ensures r == Corner(CUBE_VERTICES[CUBE_INDICES[3 * t + k]])
  {
    CornerTable();
    CORNERS[CUBE_INDICES[3 * t + k]]
  }

  function Sub(a: IntVec, b: IntVec): IntVec {
    IntVec(a.x - b.x, a.y - b.y, a.z - b.z)
  }

  function Cross(a: IntVec, b: IntVec): IntVec {
    IntVec(a.y * b.z - a.z * b.y, a.z * b.x - a.x * b.z, a.x * b.y - a.y * b.x)
  }

  function Dot(a: IntVec, b: IntVec): int {
    a.x * b.x + a.y * b.y + a.z * b.z
  }

  /**
   * Positive when triangle (v0, v1, v2) turns counter-clockwise seen from the
   * side its first corner points to, i.e. from outside a cube centred at the
   * origin: the normal (v1 - v0) x (v2 - v0) points away from the centre.
   */
  function NormalSide(v0: IntVec, v1: IntVec, v2: IntVec): int {
    Dot(Cross(Sub(v1, v0), Sub(v2, v0)), v0)
  }

  /** ((v1 - v0) x (v2 - v0)) . v0 is the scalar triple product v0 . (v1 x v2). */
  lemma NormalSideIsTripleProduct(v0: IntVec, v1: IntVec, v2: IntVec)
    ensures NormalSide(v0, v1, v2) == Dot(v0, Cross(v1, v2))
  {
  }

  predicate IsUnitVec(a: IntVec) {
    (a.x == 1 || a.x == -1) && (a.y == 1 || a.y == -1) && (a.z == 1 || a.z == -1)
  }

  // Multiplication by a coordinate in {-1, 0, 1}, written without a product so
  // that the winding of the concrete table is decided by linear arithmetic.
  function SignMul(s: int, v: int): int {
    if s < 0 then -v else if s == 0 then 0 else v
  }

  lemma SignMulIsProduct(s: int, v: int)
    requires -1 <= s <= 1
    ensures SignMul(s, v) == s * v
  {
  }

  function SignCross(a: IntVec, b: IntVec): IntVec {
    IntVec(SignMul(a.y, b.z) - SignMul(a.z, b.y),
           SignMul(a.z, b.x) - SignMul(a.x, b.z),
           SignMul(a.x, b.y) - SignMul(a.y, b.x))
  }

  function SignDot(a: IntVec, b: IntVec): int {
    SignMul(a.x, b.x) + SignMul(a.y, b.y) + SignMul(a.z, b.z)
  }

  lemma SignCrossIsCross(a: IntVec, b: IntVec)
    requires IsUnitVec(a) && IsUnitVec(b)
    ensures Cross(a, b) == SignCross(a, b)
  {
    SignMulIsProduct(a.y, b.z); SignMulIsProduct(a.z, b.y);
    SignMulIsProduct(a.z, b.x); SignMulIsProduct(a.x, b.z);
    SignMulIsProduct(a.x, b.y); SignMulIsProduct(a.y, b.x);
  }

  lemma SignDotIsDot(a: IntVec, u: IntVec)
    requires IsUnitVec(a)
    ensures Dot(a, u) == SignDot(a, u)
  {
    SignMulIsProduct(a.x, u.x); SignMulIsProduct(a.y, u.y); SignMulIsProduct(a.z, u.z);
  }

  /** The triple product a . (b x c) for cube corners, without multiplication. */
  function Orientation(a: IntVec, b: IntVec, c: IntVec): int {
    SignDot(a, SignCross(b, c))
  }

  /** For corners of the cube [-1, 1]^3, `Orientation` is `NormalSide`. */
  lemma OrientationIsNormalSide(a: IntVec, b: IntVec, c: IntVec)
    requires IsUnitVec(a) && IsUnitVec(b) && IsUnitVec(c)
    ensures Orientation(a, b, c) == NormalSide(a, b, c)
  {
    NormalSideIsTripleProduct(a, b, c);
    SignCrossIsCross(b, c);
    SignDotIsDot(a, Cross(b, c));
  }

  /** The plane of face `f` (0 front, 1 back, 2 left, 3 right, 4 bottom, 5 top): the axis it is orthogonal to. */
  function FaceAxis(f: nat): (r: nat)
    requires f < 6
    ensures r < 3
  {
    [2, 2, 0, 0, 1, 1][f]
  }

  /** The coordinate of face `f`'s plane on its axis. */
  function FaceSide(f: nat): int
    requires f < 6
  {
    [1, -1, -1, 1, -1, 1][f]
  }

  /** Triangle `t` turns counter-clockwise seen from outside the cube. */
  predicate WindsCounterClockwise(t: nat)
    requires t < CUBE_TRIANGLE_COUNT
  {
    Orientation(TriangleCorner(t, 0), TriangleCorner(t, 1), TriangleCorner(t, 2)) > 0
  }

  /**
   * The six indices from 6f are two triangles (a, b, c) and (a, c, d) sharing
   * the diagonal a-c, over four distinct corners that all lie in face `f`'s plane.
   */
  predicate IsQuadFace(f: nat)
    requires f < 6
  {
    var i := 6 * f;
    var a, b, c, d := CUBE_INDICES[i], CUBE_INDICES[i + 1], CUBE_INDICES[i + 2], CUBE_INDICES[i + 5];
    CUBE_INDICES[i + 3] == a && CUBE_INDICES[i + 4] == c &&
    a != b && a != c && a != d && b != c && b != d && c != d &&
    InFacePlane(f, a) && InFacePlane(f, b) && InFacePlane(f, c) && InFacePlane(f, d)
  }

  predicate InFacePlane(f: nat, v: nat)
    requires f < 6 && v < CUBE_VERTEX_COUNT
  {
    Coordinate(CORNERS[v], FaceAxis(f)) == FaceSide(f)
  }

  /** Face `f` checked from its four corner numbers. */
  lemma QuadFromCorners(f: nat, a: VertexIndex, b: VertexIndex, c: VertexIndex, d: VertexIndex)
    requires f < 6
    requires var i := 6 * f;
      CUBE_INDICES[i] == a && CUBE_INDICES[i + 1] == b && CUBE_INDICES[i + 2] == c &&
      CUBE_INDICES[i + 3] == a && CUBE_INDICES[i + 4] == c && CUBE_INDICES[i + 5] == d
    requires a != b && a != c && a != d && b != c && b != d && c != d
    requires InFacePlane(f, a) && InFacePlane(f, b) && InFacePlane(f, c) && InFacePlane(f, d)
    ensures IsQuadFace(f)
  {
  }

  /** Triangle `t` checked from its three corner numbers. */
  lemma TriangleFromCorners(t: nat, a: VertexIndex, b: VertexIndex, c: VertexIndex)
    requires t < CUBE_TRIANGLE_COUNT
    requires CUBE_INDICES[3 * t] == a && CUBE_INDICES[3 * t + 1] == b && CUBE_INDICES[3 * t + 2] == c
    requires Orientation(CORNERS[a], CORNERS[b], CORNERS[c]) > 0
    ensures WindsCounterClockwise(t)
  {
    assert TriangleCorner(t, 0) == CORNERS[a];
    assert TriangleCorner(t, 1) == CORNERS[b];
    assert TriangleCorner(t, 2) == CORNERS[c];
  }

  /** Faces 0..5 (front, back, left, right, bottom, top) are each a quad of four distinct corners in their plane. */
  lemma {:induction false} FaceStructure(f: nat)
    requires f < 6
    ensures IsQuadFace(f)
  {
    if f == 0 {
      QuadFromCorners(f, 0, 1, 2, 3);
    } else if f == 1 {
      QuadFromCorners(f, 5, 4, 7, 6);
    } else if f == 2 {
      QuadFromCorners(f, 4, 0, 3, 7);
    } else if f == 3 {
      QuadFromCorners(f, 1, 5, 6, 2);
    } else if f == 4 {
      QuadFromCorners(f, 4, 5, 1, 0);
    } else {
      QuadFromCorners(f, 3, 2, 6, 7);
    }
  }

  /** The four triangles of the front and back faces. */
  lemma {:induction false} WindingFrontBack(t: nat)
    requires t < 4
    ensures WindsCounterClockwise(t)
  {
    if t == 0 {
      TriangleFromCorners(t, 0, 1, 2);
    } else if t == 1 {
      TriangleFromCorners(t, 0, 2, 3);
    } else if t == 2 {
      TriangleFromCorners(t, 5, 4, 7);
    } else {
      TriangleFromCorners(t, 5, 7, 6);
    }
  }

  /** The four triangles of the left and right faces. */
  lemma {:induction false} WindingLeftRight(t: nat)
    requires 4 <= t < 8
    ensures WindsCounterClockwise(t)
  {
    if t == 4 {
      TriangleFromCorners(t, 4, 0, 3);
    } else if t == 5 {
      TriangleFromCorners(t, 4, 3, 7);
    } else if t == 6 {
      TriangleFromCorners(t, 1, 5, 6);
    } else {
      TriangleFromCorners(t, 1, 6, 2);
    }
  }

  /** The four triangles of the bottom and top faces. */
  lemma {:induction false} WindingBottomTop(t: nat)
    requires 8 <= t < CUBE_TRIANGLE_COUNT
    ensures WindsCounterClockwise(t)
  {
    if t == 8 {
      TriangleFromCorners(t, 4, 5, 1);
    } else if t == 9 {
      TriangleFromCorners(t, 4, 1, 0);
    } else if t == 10 {
      TriangleFromCorners(t, 3, 2, 6);
    } else {
      TriangleFromCorners(t, 3, 6, 7);
    }
  }

  /** Every one of the 12 triangles winds counter-clockwise seen from outside the cube. */
  lemma {:induction false} CounterClockwiseWinding(t: nat)
    requires t < CUBE_TRIANGLE_COUNT
    ensures WindsCounterClockwise(t)
  {
    if t < 4 {
      WindingFrontBack(t);
    } else if t < 8 {
      WindingLeftRight(t);
    } else {
      WindingBottomTop(t);
    }
  }

  /** Every corner of the table is a corner of [-1, 1]^3. */
  lemma CornersAreUnit()
    ensures forall i :: 0 <= i < |CORNERS| ==> IsUnitVec(CORNERS[i])
  {
  }

  /** The winding in geometric terms: each triangle's normal points out of the cube. */
  lemma OutwardNormals(t: nat)
    requires t < CUBE_TRIANGLE_COUNT
    ensures NormalSide(TriangleCorner(t, 0), TriangleCorner(t, 1), TriangleCorner(t, 2)) > 0
  {
    CounterClockwiseWinding(t);
    CornersAreUnit();
    OrientationIsNormalSide(TriangleCorner(t, 0), TriangleCorner(t, 1), TriangleCorner(t, 2));
  }

  /**
   * `cube_generate_triangle_list`: with both outputs present, writes the count 36
   * and `out_vertices[i] = cube_vertices[cube_indices[i]]` for i < 36, touching
   * nothing beyond; with either output absent, writes nothing. The caller must
   * provide room for 36 vertices.
   */
  method GenerateTriangleList(outVertices: array?<Vertex>, outVertexCount: array?<u32>)
    requires outVertices != null ==> outVertices.Length >= CUBE_INDEX_COUNT
    requires outVertexCount != null ==> outVertexCount.Length >= 1
    modifies outVertices, outVertexCount
    ensures outVertices == null || outVertexCount == null ==>
      (outVertices != null ==> outVertices[..] == old(outVertices[..])) &&
      (outVertexCount != null ==> outVertexCount[..] == old(outVertexCount[..]))
    ensures outVertices != null && outVertexCount != null ==>
      outVertexCount[0] == CUBE_INDEX_COUNT &&
      outVertexCount[1..] == old(outVertexCount[1..]) &&
      (forall i :: 0 <= i < CUBE_INDEX_COUNT ==>
        outVertices[i] == GetCubeVertices()[GetCubeIndices()[i]]) &&
      outVertices[CUBE_INDEX_COUNT..] == old(outVertices[CUBE_INDEX_COUNT..])
  {
    if outVertices == null || outVertexCount == null {
      return;
    }
    outVertexCount[0] := CUBE_INDEX_COUNT;
    var indices := GetCubeIndices();
    var table := GetCubeVertices();
    var i := 0;
    while i < CUBE_INDEX_COUNT
      invariant 0 <= i <= CUBE_INDEX_COUNT
      invariant forall k :: 0 <= k < i ==> outVertices[k] == table[indices[k]]
      invariant outVertices[CUBE_INDEX_COUNT..] == old(outVertices[CUBE_INDEX_COUNT..])
      invariant outVertexCount[0] == CUBE_INDEX_COUNT
      invariant outVertexCount[1..] == old(outVertexCount[1..])
    {
      outVertices[i] := table[indices[i]];
      i := i + 1;
    }
  }
}

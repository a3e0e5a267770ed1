/** `TriangleMesh`: index triangles, the `Data`/`Arrays` records that hold
    the vertex, normal, triangle and colour arrays, and the small geometric
    helpers used on a triangle's vertices.

    A C++ array pointer becomes an `Option` of a sequence: `None` is the null
    pointer.  Counts are kept as separate fields, as in `Arrays`, because the
    source does not tie them to the arrays. */
module TriangleMeshes {
  import opened Wrappers
  import opened Vectors
  import opened ExtReals
  import opened Colors
  import G = Geometry

  /** `TriangleMesh::Triangle`: the vertex indices v[0], v[1], v[2]. */
  datatype Triangle = Triangle(v0: int, v1: int, v2: int)

  /** v[k] of a triangle, k in 0..2. */
  function Index(t: Triangle, k: int): int
    requires 0 <= k < 3
  {
    if k == 0 then t.v0 else if k == 1 then t.v1 else t.v2
  }

  /** `setVertices(a, b, c)`: v[0] = a, v[1] = b, v[2] = c. */
  function SetVertices(a: int, b: int, c: int): (t: Triangle)
    ensures Index(t, 0) == a && Index(t, 1) == b && Index(t, 2) == c
  {
    Triangle(a, b, c)
  }

  /** Every index of t is a valid position in an array of n elements. */
  predicate IndicesBelow(t: Triangle, n: int) {
    0 <= t.v0 < n && 0 <= t.v1 < n && 0 <= t.v2 < n
  }

  /** The three indices of t are pairwise different. */
  predicate Proper(t: Triangle) {
    t.v0 != t.v1 && t.v1 != t.v2 && t.v0 != t.v2
  }

  /** `TriangleMesh::Arrays` (with the pointers of `Data`): four arrays, each
      possibly null, and four counts. */
  datatype Arrays = Arrays(
    vertices: Option<seq<Vec3>>,
    normals: Option<seq<Vec3>>,
    triangles: Option<seq<Triangle>>,
    colors: Option<seq<Color>>,
    numberOfVertices: int,
    numberOfNormals: int,
    numberOfTriangles: int,
    numberOfColors: int)

  /** The `Arrays()` constructor: every count 0, every array null. */
  function NewArrays(): (a: Arrays)
    ensures a.numberOfVertices == 0 && a.numberOfNormals == 0 && a.numberOfTriangles == 0 && a.numberOfColors == 0
    ensures a.vertices == None && a.normals == None && a.triangles == None && a.colors == None
  {
    Arrays(None, None, None, None, 0, 0, 0, 0)
  }

  /** Each non-null array has exactly as many elements as its count says,
      and each null array has count 0. */
  predicate Consistent(a: Arrays) {
    (if a.vertices.Some? then |a.vertices.value| == a.numberOfVertices else a.numberOfVertices == 0)
    && (if a.normals.Some? then |a.normals.value| == a.numberOfNormals else a.numberOfNormals == 0)
    && (if a.triangles.Some? then |a.triangles.value| == a.numberOfTriangles else a.numberOfTriangles == 0)
    && (if a.colors.Some? then |a.colors.value| == a.numberOfColors else a.numberOfColors == 0)
  }

  /** Every triangle of a consistent record indexes existing vertices. */
  predicate WellIndexed(a: Arrays) {
    Consistent(a)
    && (a.triangles.Some? ==> forall k :: 0 <= k < |a.triangles.value| ==> IndicesBelow(a.triangles.value[k], a.numberOfVertices))
  }

  /** The fresh `Arrays()` record is consistent and indexes nothing. */
  lemma NewArraysConsistent()
    ensures WellIndexed(NewArrays())
  {
  }

  /** `Triangle::interpolate(p, v0, v1, v2)`: v0*p.x + v1*p.y + v2*p.z. */
  function Interpolate(p: Vec3, a: Vec3, b: Vec3, c: Vec3): Vec3 {
    Add3(Add3(Scale3(a, p.x), Scale3(b, p.y)), Scale3(c, p.z))
  }

  /** At the barycentric corners (1,0,0), (0,1,0), (0,0,1) interpolation
      returns the corresponding value. */
  lemma InterpolateCorners(a: Vec3, b: Vec3, c: Vec3)
    ensures Interpolate(Vec3(1.0, 0.0, 0.0), a, b, c) == a
    ensures Interpolate(Vec3(0.0, 1.0, 0.0), a, b, c) == b
    ensures Interpolate(Vec3(0.0, 0.0, 1.0), a, b, c) == c
  {
    ScaleByUnit(a);
    ScaleByUnit(b);
    ScaleByUnit(c);
  }

  /** Scaling by 1 keeps a vector; scaling by 0 gives the null vector. */
  lemma ScaleByUnit(a: Vec3)
    ensures Scale3(a, 1.0) == a && Scale3(a, 0.0) == Null3
    ensures Add3(a, Null3) == a && Add3(Null3, a) == a
  {
  }

  /** One coordinate of `triangleCenter`: (x0 + x1 + x2) / 3 is the equally
      weighted interpolation. */
  lemma ThirdOfSum(x0: real, x1: real, x2: real)
    ensures (x0 + x1 + x2) * (1.0 / 3.0) == x0 * (1.0 / 3.0) + x1 * (1.0 / 3.0) + x2 * (1.0 / 3.0)
  {
  }

  /** `triangleCenter(v0, v1, v2)`: (v0 + v1 + v2) * (1/3). */
  function TriangleCenter(a: Vec3, b: Vec3, c: Vec3): (r: Vec3)
    ensures r == Interpolate(Vec3(1.0 / 3.0, 1.0 / 3.0, 1.0 / 3.0), a, b, c)
  {
    ThirdOfSum(a.x, b.x, c.x);
    ThirdOfSum(a.y, b.y, c.y);
    ThirdOfSum(a.z, b.z, c.z);
    Scale3(Add3(Add3(a, b), c), 1.0 / 3.0)
  }

  /** The centre of a triangle whose three vertices coincide is that point. */
  lemma CenterOfPoint(a: Vec3)
    ensures TriangleCenter(a, a, a) == a
  {
  }

  /** `triangleNormal(v0, v1, v2)`: the versor of (v1 - v0) x (v2 - v0).
      `versor` divides by a square root, so it is a parameter. */
  function TriangleNormal(a: Vec3, b: Vec3, c: Vec3, versor: Vec3 -> Vec3): Vec3 {
    versor(FaceDirection(a, b, c))
  }

  /** The un-normalised face direction (v1 - v0) x (v2 - v0). */
  function FaceDirection(a: Vec3, b: Vec3, c: Vec3): Vec3 {
    Cross(Sub3(b, a), Sub3(c, a))
  }

  /** The cross product is orthogonal to both of its arguments. */
  lemma CrossOrthogonal(u: Vec3, w: Vec3)
    ensures Dot3(Cross(u, w), u) == 0.0
    ensures Dot3(Cross(u, w), w) == 0.0
  {
  }

  /** The face direction is orthogonal to both edges leaving v0. */
  lemma FaceDirectionOrthogonal(a: Vec3, b: Vec3, c: Vec3)
    ensures Dot3(FaceDirection(a, b, c), Sub3(b, a)) == 0.0
    ensures Dot3(FaceDirection(a, b, c), Sub3(c, a)) == 0.0
  {
    CrossOrthogonal(Sub3(b, a), Sub3(c, a));
  }

  /** The indices of t are valid in the array that `normalAt` reads: the
      normals when present, else the vertices. */
  predicate CanShade(d: Arrays, t: Triangle) {
    if d.normals.Some? then IndicesBelow(t, |d.normals.value|)
    else d.vertices.Some? && IndicesBelow(t, |d.vertices.value|)
  }

  /** `Data::normalAt(t, p)`: with no normals array, the flat normal of t's
      three vertices; otherwise the three vertex normals interpolated with
      weights p, not renormalised. */
  function NormalAt(d: Arrays, t: Triangle, p: Vec3, versor: Vec3 -> Vec3): (r: Vec3)
    requires CanShade(d, t)
    ensures d.normals.None? ==>
      r == versor(FaceDirection(d.vertices.value[t.v0], d.vertices.value[t.v1], d.vertices.value[t.v2]))
    ensures d.normals.Some? ==>
      r == Interpolate(p, d.normals.value[t.v0], d.normals.value[t.v1], d.normals.value[t.v2])
  {
    if d.normals.None? then
      var vs := d.vertices.value;
      TriangleNormal(vs[t.v0], vs[t.v1], vs[t.v2], versor)
    else
      var ns := d.normals.value;
      Interpolate(p, ns[t.v0], ns[t.v1], ns[t.v2])
  }

  /** With vertex normals, `normalAt` at the barycentric corners of t
      returns the normal of the corresponding vertex. */
  lemma NormalAtCorners(d: Arrays, t: Triangle, versor: Vec3 -> Vec3)
    requires CanShade(d, t) && d.normals.Some?
    ensures NormalAt(d, t, Vec3(1.0, 0.0, 0.0), versor) == d.normals.value[t.v0]
    ensures NormalAt(d, t, Vec3(0.0, 1.0, 0.0), versor) == d.normals.value[t.v1]
    ensures NormalAt(d, t, Vec3(0.0, 0.0, 1.0), versor) == d.normals.value[t.v2]
  {
    var ns := d.normals.value;
    InterpolateCorners(ns[t.v0], ns[t.v1], ns[t.v2]);
  }

  /** `normalAt` does not renormalise: halfway between vertex normals
      (1,0,0) and (0,1,0) it returns (0.5, 0.5, 0), whose squared length is
      0.5, not 1. */
  lemma NormalAtNotRenormalised(d: Arrays, t: Triangle, versor: Vec3 -> Vec3)
    requires CanShade(d, t) && d.normals.Some?
    requires d.normals.value[t.v0] == Vec3(1.0, 0.0, 0.0) && d.normals.value[t.v1] == Vec3(0.0, 1.0, 0.0)
    ensures NormalAt(d, t, Vec3(0.5, 0.5, 0.0), versor) == Vec3(0.5, 0.5, 0.0)
    ensures Dot3(NormalAt(d, t, Vec3(0.5, 0.5, 0.0), versor), NormalAt(d, t, Vec3(0.5, 0.5, 0.0), versor)) == 0.5
  {
    var ns := d.normals.value;
    Halfway(ns[t.v0], ns[t.v1], ns[t.v2]);
  }

  /** Interpolation with weights (1/2, 1/2, 0) is the midpoint of the first
      two values. */
  lemma Halfway(a: Vec3, b: Vec3, c: Vec3)
    ensures Interpolate(Vec3(0.5, 0.5, 0.0), a, b, c) == Vec3((a.x + b.x) * 0.5, (a.y + b.y) * 0.5, (a.z + b.z) * 0.5)
  {
  }

  /** A `TriangleMesh` owns one `Arrays` record. */
  datatype TriangleMesh = TriangleMesh(data: Arrays)

  /** The constructor `TriangleMesh(aData)` holds exactly the given record. */
  function NewMesh(a: Arrays): TriangleMesh {
    TriangleMesh(a)
  }

  /** `getData()`. */
  function GetData(m: TriangleMesh): Arrays {
    m.data
  }

  /** What goes in through the constructor comes back from `getData`. */
  lemma GetDataNewMesh(a: Arrays)
    ensures GetData(NewMesh(a)) == a
  {
  }

  /** `setColors(colors, n)`: replaces the colour array and its count. */
  function SetColors(m: TriangleMesh, colors: Option<seq<Color>>, n: int): (r: TriangleMesh)
    ensures GetData(r).colors == colors && GetData(r).numberOfColors == n
    ensures GetData(r).vertices == GetData(m).vertices && GetData(r).numberOfVertices == GetData(m).numberOfVertices
    ensures GetData(r).normals == GetData(m).normals && GetData(r).numberOfNormals == GetData(m).numberOfNormals
    ensures GetData(r).triangles == GetData(m).triangles && GetData(r).numberOfTriangles == GetData(m).numberOfTriangles
  {
    TriangleMesh(m.data.(colors := colors, numberOfColors := n))
  }

  /** Setting the colours twice keeps only the second set. */
  lemma SetColorsTwice(m: TriangleMesh, c1: Option<seq<Color>>, n1: int, c2: Option<seq<Color>>, n2: int)
    ensures SetColors(SetColors(m, c1, n1), c2, n2) == SetColors(m, c2, n2)
  {
  }

  /** The vertices as extended points. */
  function LiftAll(vs: seq<Vec3>): (r: seq<Vec3E>)
    ensures |r| == |vs| && forall k :: 0 <= k < |vs| ==> r[k] == Lift(vs[k])
  {
    seq(|vs|, k requires 0 <= k < |vs| => Lift(vs[k]))
  }

  /** `TriangleMesh::boundingBox()`: the empty box inflated by every vertex.
      (TriangleMesh.cpp is not part of this model; this is the box the
      `Bounds3` operations give for the vertex array.) */
  function MeshBounds(m: TriangleMesh): (b: G.Bounds3)
    ensures forall k :: 0 <= k < |m.data.vertices.GetOr([])| ==> G.Contains(b, Lift(m.data.vertices.GetOr([])[k]))
  {
    var pts := LiftAll(m.data.vertices.GetOr([]));
    G.InflateAllCovers(G.Empty(), pts, Vec3E(NaN, NaN, NaN));
    forall k | 0 <= k < |pts|
      ensures G.Contains(G.InflateAll(G.Empty(), pts), pts[k])
    {
      G.CoversIsContains(G.InflateAll(G.Empty(), pts), pts[k]);
    }
    G.InflateAll(G.Empty(), pts)
  }

  /** The mesh box lies within every box that contains all vertices, and a
      mesh with no vertex array has the empty box. */
  lemma MeshBoundsSmallest(m: TriangleMesh, c: G.Bounds3)
    requires forall k :: 0 <= k < |m.data.vertices.GetOr([])| ==> G.Contains(c, Lift(m.data.vertices.GetOr([])[k]))
    ensures G.Within(MeshBounds(m), c)
    ensures m.data.vertices.None? ==> MeshBounds(m) == G.Empty()
  {
    var pts := LiftAll(m.data.vertices.GetOr([]));
    forall k | 0 <= k < |pts|
      ensures G.Covers(c, pts[k])
    {
      G.CoversIsContains(c, pts[k]);
    }
    G.InflateAllSmallest(pts, c);
  }
}

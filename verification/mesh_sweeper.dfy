/** `MeshSweeper`: the cylinder, box and sphere meshes.

    The valuable part is the integer index topology: how many vertices and
    triangles are allocated, which triangle lands in which slot, and whether
    every index stays inside the vertex array.  Vertex positions are kept
    where they are plain matrix images (the cylinder and the box); the
    circle, the arc and the sphere's rotation come from code outside this
    model and enter as parameters. */
module MeshSweepers {
  import opened Wrappers
  import opened Vectors
  import opened TriangleMeshes
  import M = Matrix4x4

  // ---------------------------------------------------------------------
  // Cylinder topology

  /** `nv = np * 2`. */
  function CylinderVertexCount(np: int): int {
    np * 2
  }

  /** `nb = np - 2`, the triangles of one cap. */
  function CapCount(np: int): int {
    np - 2
  }

  /** `nt = nv + 2 * nb`. */
  function CylinderTriangleCount(np: int): int {
    CylinderVertexCount(np) + 2 * CapCount(np)
  }

  /** Side slot k (0 <= k < 2np): for i = k / 2, slot 2i is
      (i, i + np, (i + 1) % np) and slot 2i + 1 is
      (i + np, (i + 1) % np + np, (i + 1) % np). */
  function SideSlot(np: int, k: int): Triangle
    requires np >= 1 && 0 <= k < 2 * np
  {
    var i := k / 2;
    var next := (i + 1) % np;
    if k % 2 == 0 then Triangle(i, i + np, next) else Triangle(i + np, next + np, next)
  }

  /** The first vertex of cap triangle i: the running v0 after i steps of
      `v2 = ((v1 = (v0 = v2) + 1) + 1) % np`, in closed form. */
  function CapStart(np: int, i: int): int
    requires np >= 1
  {
    (2 * i) % np
  }

  /** Cap triangle i of the first cap: (v0, v0 + 1, (v0 + 2) % np).  Note
      that v0 + 1 is not reduced modulo np. */
  function CapFirst(np: int, i: int): Triangle
    requires np >= 1
  {
    var v0 := CapStart(np, i);
    Triangle(v0, v0 + 1, (v0 + 2) % np)
  }

  /** Cap triangle i of the second cap, written nb slots later:
      (v0 + np, v2 + np, v1 + np), the first cap's order reversed. */
  function CapSecond(np: int, i: int): Triangle
    requires np >= 1
  {
    var v0 := CapStart(np, i);
    Triangle(v0 + np, (v0 + 2) % np + np, v0 + 1 + np)
  }

  /** What slot k of the cylinder's triangle array holds. */
  function CylinderSlot(np: int, k: int): Triangle
    requires np >= 2 && 0 <= k < CylinderTriangleCount(np)
  {
    if k < 2 * np then SideSlot(np, k)
    else if k < 2 * np + CapCount(np) then CapFirst(np, k - 2 * np)
    else CapSecond(np, k - 2 * np - CapCount(np))
  }

  /** The cylinder's triangle array, slot by slot. */
  function CylinderTopology(np: int): (r: seq<Triangle>)
    requires np >= 2
    ensures |r| == CylinderTriangleCount(np)
    ensures forall k :: 0 <= k < |r| ==> r[k] == CylinderSlot(np, k)
  {
    seq(CylinderTriangleCount(np), k requires 0 <= k < CylinderTriangleCount(np) => CylinderSlot(np, k))
  }

  /** Slots 2i and 2i + 1 hold the two side triangles of edge i. */
  lemma SidePair(np: int, i: int)
    requires np >= 2 && 0 <= i < np
    ensures CylinderSlot(np, 2 * i) == Triangle(i, i + np, (i + 1) % np)
    ensures CylinderSlot(np, 2 * i + 1) == Triangle(i + np, (i + 1) % np + np, (i + 1) % np)
  {
    assert (2 * i) / 2 == i && (2 * i) % 2 == 0;
    assert (2 * i + 1) / 2 == i && (2 * i + 1) % 2 == 1;
  }

  /** Multiplying by a factor of at least one does not shrink a positive n. */
  lemma MulAtLeast(d: int, n: int)
    requires d >= 1 && n > 0
    ensures d * n >= n
  {
  }

  lemma MulSub(a: int, b: int, n: int)
    ensures a * n - b * n == (a - b) * n
  {
  }

  /** Quotient and remainder are unique: x = q * n + r with 0 <= r < n
      fixes x / n and x % n. */
  lemma ModUnique(x: int, n: int, q: int, r: int)
    requires n > 0 && x == q * n + r && 0 <= r < n
    ensures x % n == r && x / n == q
  {
    var q', r' := x / n, x % n;
    assert x == q' * n + r';
    MulSub(q', q, n);
    MulSub(q, q', n);
    if q' > q {
      MulAtLeast(q' - q, n);
    } else if q' < q {
      MulAtLeast(q - q', n);
    }
  }

  /** Two steps further round the polygon, modulo np. */
  lemma ModStep(a: int, np: int)
    requires np >= 1
    ensures ((a % np) + 2) % np == (a + 2) % np
  {
    var q, r := a / np, a % np;
    var s := (r + 2) % np;
    ModUnique(r + 2, np, (r + 2) / np, s);
    ModUnique(a + 2, np, q + (r + 2) / np, s);
  }

  /** The side loop of `makeCylinder`: two slots per polygon edge, written
      in order from slot 0; the cap slots stay unwritten. */
  method FillSides(np: int) returns (slots: seq<Option<Triangle>>)
    requires np >= 2
    ensures |slots| == CylinderTriangleCount(np)
    ensures forall k :: 0 <= k < 2 * np ==> slots[k] == Some(CylinderSlot(np, k))
    ensures forall k :: 2 * np <= k < |slots| ==> slots[k] == None
  {
    var nt := CylinderTriangleCount(np);
    slots := seq(nt, _ => None);
    var i := 0;
    while i < np
      invariant 0 <= i <= np && |slots| == nt
      invariant forall k :: 0 <= k < 2 * i ==> slots[k] == Some(CylinderSlot(np, k))
      invariant forall k :: 2 * i <= k < nt ==> slots[k] == None
    {
      var j := i + np;
      var k := (i + 1) % np;
      SidePair(np, i);
      slots := slots[2 * i := Some(SetVertices(i, j, k))][2 * i + 1 := Some(SetVertices(j, k + np, k))];
      i := i + 1;
    }
  }

  /** The cap loop of `makeCylinder`: slot 2np + i gets (v0, v1, v2) and,
      nb slots later, (v0 + np, v2 + np, v1 + np), with the running indices
      advanced by `v2 = ((v1 = (v0 = v2) + 1) + 1) % np`.  The side slots are
      left alone. */
  method FillCaps(np: int, sides: seq<Option<Triangle>>) returns (slots: seq<Option<Triangle>>)
    requires np >= 2 && |sides| == CylinderTriangleCount(np)
    ensures |slots| == |sides|
    ensures forall k :: 0 <= k < 2 * np ==> slots[k] == sides[k]
    ensures forall k :: 2 * np <= k < |slots| ==> slots[k] == Some(CylinderSlot(np, k))
  {
    var nt := CylinderTriangleCount(np);
    var nb := CapCount(np);
    slots := sides;
    var v0, v1, v2 := 0, 1, 2;
    var t := 2 * np;
    var i := 0;
    while i < nb
      invariant 0 <= i <= nb && t == 2 * np + i && |slots| == nt
      invariant v0 == CapStart(np, i) && v1 == v0 + 1 && (np > 2 ==> v2 == (v0 + 2) % np)
      invariant forall k :: 0 <= k < 2 * np ==> slots[k] == sides[k]
      invariant forall k :: 2 * np <= k < 2 * np + i ==> slots[k] == Some(CylinderSlot(np, k))
      invariant forall k :: 2 * np + nb <= k < 2 * np + nb + i ==> slots[k] == Some(CylinderSlot(np, k))
    {
      CapSlots(np, i);
      slots := slots[t := Some(SetVertices(v0, v1, v2))][t + nb := Some(SetVertices(v0 + np, v2 + np, v1 + np))];
      t := t + 1;
      ModStep(2 * i, np);
      v0 := v2;
      v1 := v0 + 1;
      v2 := (v1 + 1) % np;
      i := i + 1;
    }
  }

  /** Cap step i writes the slots 2np + i and 2np + nb + i. */
  lemma CapSlots(np: int, i: int)
    requires np >= 2 && 0 <= i < CapCount(np)
    ensures CylinderSlot(np, 2 * np + i) == CapFirst(np, i)
    ensures CylinderSlot(np, 2 * np + CapCount(np) + i) == CapSecond(np, i)
  {
  }

  /** The triangle loops of `makeCylinder`: every one of the nt slots is
      written, and each holds what `CylinderSlot` says. */
  method FillCylinderTriangles(np: int) returns (tris: seq<Triangle>)
    requires np >= 2
    ensures tris == CylinderTopology(np)
  {
    var sides := FillSides(np);
    var slots := FillCaps(np, sides);
    var nt := CylinderTriangleCount(np);
    tris := seq(nt, k requires 0 <= k < nt => slots[k].value);
  }

  /** With np even, the cap start (2i) % np is even, so it is never np - 1. */
  lemma EvenCapStart(np: int, i: int)
    requires np >= 2 && np % 2 == 0
    ensures CapStart(np, i) % 2 == 0
    ensures CapStart(np, i) != np - 1
  {
    var q := (2 * i) / np;
    var h := np / 2;
    assert 2 * i == q * np + CapStart(np, i);
    assert q * np == 2 * (q * h);
    assert CapStart(np, i) == 2 * (i - q * h);
  }

  /** Every index the cylinder emits is below nv = 2np exactly when np is
      even or np is 3.  For odd np >= 5 the second cap indexes past the
      vertex array. */
  lemma CylinderIndexRange(np: int)
    requires np >= 2
    ensures (forall k :: 0 <= k < CylinderTriangleCount(np) ==> IndicesBelow(CylinderSlot(np, k), CylinderVertexCount(np)))
        <==> (np % 2 == 0 || np == 3)
  {
    var nt := CylinderTriangleCount(np);
    var nb := CapCount(np);
    if np % 2 == 0 || np == 3 {
      forall k | 0 <= k < nt
        ensures IndicesBelow(CylinderSlot(np, k), CylinderVertexCount(np))
      {
        if k >= 2 * np {
          var i := if k < 2 * np + nb then k - 2 * np else k - 2 * np - nb;
          if np % 2 == 0 {
            EvenCapStart(np, i);
          } else {
            assert i == 0;
          }
        }
      }
    } else {
      OddCylinderOverflow(np);
    }
  }

  /** For odd np >= 5, second-cap triangle (np - 1) / 2 starts at
      v0 = np - 1, so v1 = np and the emitted index v1 + np equals nv. */
  lemma OddCylinderOverflow(np: int)
    requires np >= 5 && np % 2 == 1
    ensures var i := (np - 1) / 2;
            0 <= i < CapCount(np)
            && CylinderSlot(np, 2 * np + CapCount(np) + i) == Triangle(2 * np - 1, np + 1, CylinderVertexCount(np))
            && !IndicesBelow(CylinderSlot(np, 2 * np + CapCount(np) + i), CylinderVertexCount(np))
  {
    var i := (np - 1) / 2;
    assert 2 * i == np - 1;
    ModUnique(np - 1, np, 0, np - 1);
    ModUnique(np + 1, np, 1, 1);
  }

  /** For a square (np = 4) the caps are exactly (0,1,2), (2,3,0) and their
      mirrors (4,6,5), (6,4,7). */
  lemma SquareCaps()
    ensures CylinderSlot(4, 8) == Triangle(0, 1, 2) && CylinderSlot(4, 9) == Triangle(2, 3, 0)
    ensures CylinderSlot(4, 10) == Triangle(4, 6, 5) && CylinderSlot(4, 11) == Triangle(6, 4, 7)
  {
  }

  /** For even np >= 6 the running indices come back to the start: cap
      triangle np / 2 is (0, 1, 2) again, so the first cap repeats a
      triangle instead of covering the polygon. */
  lemma EvenCapRepeats(np: int)
    requires np >= 6 && np % 2 == 0
    ensures 2 * np + np / 2 < 2 * np + CapCount(np)
    ensures CylinderSlot(np, 2 * np + np / 2) == Triangle(0, 1, 2)
    ensures CylinderSlot(np, 2 * np) == Triangle(0, 1, 2)
  {
    assert 2 * (np / 2) == np;
    ModUnique(np, np, 1, 0);
    ModUnique(0, np, 0, 0);
    ModUnique(2, np, 0, 2);
    assert CapFirst(np, np / 2) == Triangle(0, 1, 2);
    assert CapFirst(np, 0) == Triangle(0, 1, 2);
  }

  // ---------------------------------------------------------------------
  // Cylinder mesh

  /** The cylinder vertices: `vertices[i + np]` is the image of polygon
      point i and `vertices[i]` the image of that point moved by path. */
  function CylinderVertices(circle: seq<Vec3>, path: Vec3, m: M.Mat4): (r: seq<Vec3>)
    ensures |r| == CylinderVertexCount(|circle|)
  {
    var np := |circle|;
    seq(2 * np, k requires 0 <= k < 2 * np =>
      if k < np then M.Transform3x4(m, Add3(circle[k], path)) else M.Transform3x4(m, circle[k - np]))
  }

  /** Moving a point by path and taking the difference gives path back. */
  lemma AddThenSub(p: Vec3, path: Vec3)
    ensures Sub3(Add3(p, path), p) == path
  {
  }

  /** The first ring is the second swept by the path: vertex i minus vertex
      i + np is the path mapped by the linear part of m. */
  lemma CylinderRingsOffset(circle: seq<Vec3>, path: Vec3, m: M.Mat4, i: int)
    requires 0 <= i < |circle|
    ensures var vs := CylinderVertices(circle, path, m);
            Sub3(vs[i], vs[i + |circle|]) == M.TransformVector(m, path)
  {
    M.TransformVectorOfDifference(m, Add3(circle[i], path), circle[i]);
    AddThenSub(circle[i], path);
  }

  /** `TriangleMesh::computeNormals()`, which `makeCylinder` calls on the
      finished mesh: the normal array it derives from the vertex and
      triangle arrays.  Its code is not part of this model. */
  type NormalsOf = (seq<Vec3>, seq<Triangle>) -> seq<Vec3>

  /** `makeCylinder(circle, path, m)`: the vertex and triangle arrays, the
      normals `computeNormals` derives from them, and no colours. */
  function MakeCylinder(circle: seq<Vec3>, path: Vec3, normalsOf: NormalsOf, m: M.Mat4 := M.Identity()): (r: TriangleMesh)
    requires |circle| >= 2
    ensures Consistent(GetData(r))
    ensures GetData(r).normals == Some(normalsOf(CylinderVertices(circle, path, m), CylinderTopology(|circle|)))
    ensures GetData(r).numberOfVertices == 2 * |circle|
    ensures GetData(r).numberOfTriangles == 2 * |circle| + 2 * (|circle| - 2)
    ensures WellIndexed(GetData(r)) <==> |circle| % 2 == 0 || |circle| == 3
  {
    var np := |circle|;
    CylinderIndexRange(np);
    var vs := CylinderVertices(circle, path, m);
    var ts := CylinderTopology(np);
    var ns := normalsOf(vs, ts);
    NewMesh(Arrays(Some(vs), Some(ns), Some(ts), None,
                   CylinderVertexCount(np), |ns|, CylinderTriangleCount(np), 0))
  }

  /** `makeCylinder(center, radius, normal, height, segments = 16)`: the
      circle (from `makeCircle`, outside this model) swept along
      normal * -height. */
  function MakeCylinderAt(circle: seq<Vec3>, normal: Vec3, height: real, normalsOf: NormalsOf): (r: TriangleMesh)
    requires |circle| >= 2
    ensures r == MakeCylinder(circle, Scale3(normal, -height), normalsOf, M.Identity())
    ensures GetData(r).numberOfVertices == 2 * |circle|
    ensures WellIndexed(GetData(r)) <==> |circle| % 2 == 0 || |circle| == 3
  {
    MakeCylinder(circle, Scale3(normal, -height), normalsOf)
  }

  /** The default number of circle segments of `makeCylinder`. */
  const DefaultSegments: int := 16

  /** A 16-gon cylinder (the default) has 32 vertices and 60 triangles, all
      indices in range. */
  lemma DefaultCylinderCounts(circle: seq<Vec3>, normal: Vec3, height: real, normalsOf: NormalsOf)
    requires |circle| == DefaultSegments
    ensures GetData(MakeCylinderAt(circle, normal, height, normalsOf)).numberOfVertices == 32
    ensures GetData(MakeCylinderAt(circle, normal, height, normalsOf)).numberOfTriangles == 60
    ensures WellIndexed(GetData(MakeCylinderAt(circle, normal, height, normalsOf)))
  {
  }

  // ---------------------------------------------------------------------
  // Boxes

  /** The closed polygon c - u - v - n, c + u - v - n, c + u + v - n,
      c - u + v - n around a face centre. */
  function FaceCorners(c: Vec3, u: Vec3, v: Vec3, n: Vec3): (r: seq<Vec3>)
    ensures |r| == 4
  {
    [Sub3(Sub3(Sub3(c, u), v), n),
     Sub3(Sub3(Add3(c, u), v), n),
     Sub3(Add3(Add3(c, u), v), n),
     Sub3(Add3(Sub3(c, u), v), n)]
  }

  /** The face polygon of the first `makeBox`: N = versor(normal),
      U = versor(up x normal), V = N x U, scaled by half the size along z, x
      and y, and the corners taken around the centre moved back by N. */
  function BoxFace(center: Vec3, normal: Vec3, up: Vec3, size: Vec3, versor: Vec3 -> Vec3): (r: seq<Vec3>)
    ensures |r| == 4
  {
    var n := versor(normal);
    var u := versor(Cross(up, normal));
    var v := Cross(n, u);
    FaceCorners(center, Scale3(u, size.x * 0.5), Scale3(v, size.y * 0.5), Scale3(n, size.z * 0.5))
  }

  /** The sweep path of the first `makeBox`: 2 * N with N scaled by half
      of size.z. */
  function BoxPath(normal: Vec3, size: Vec3, versor: Vec3 -> Vec3): Vec3 {
    Scale3(Scale3(versor(normal), size.z * 0.5), 2.0)
  }

  /** `makeBox(center, normal, up, size, m = identity)`: the face polygon
      swept along the doubled half-normal. */
  function MakeBox(center: Vec3, normal: Vec3, up: Vec3, size: Vec3, versor: Vec3 -> Vec3, normalsOf: NormalsOf, m: M.Mat4 := M.Identity()): (r: TriangleMesh)
    ensures Consistent(GetData(r)) && WellIndexed(GetData(r))
    ensures GetData(r).numberOfVertices == 8 && GetData(r).numberOfTriangles == 12
  {
    MakeCylinder(BoxFace(center, normal, up, size, versor), BoxPath(normal, size, versor), normalsOf, m)
  }

  /** `makeBox(center, orientation, scale)`: the canonical box (centre at
      the origin, normal Z, up Y, unit size) placed by
      TRS(center, rotation, scale).  `rotation` is the matrix of
      `quat::eulerAngles(orientation)`, computed outside this model. */
  function MakeBoxPlaced(center: Vec3, rotation: M.Mat3, scale: Vec3, versor: Vec3 -> Vec3, normalsOf: NormalsOf): (r: TriangleMesh)
    ensures r == MakeBox(Null3, Vec3(0.0, 0.0, 1.0), Vec3(0.0, 1.0, 0.0), Vec3(1.0, 1.0, 1.0), versor, normalsOf, M.TRS(center, rotation, scale))
    ensures WellIndexed(GetData(r)) && GetData(r).numberOfVertices == 8 && GetData(r).numberOfTriangles == 12
  {
    MakeBox(Null3, Vec3(0.0, 0.0, 1.0), Vec3(0.0, 1.0, 0.0), Vec3(1.0, 1.0, 1.0), versor, normalsOf, M.TRS(center, rotation, scale))
  }

  /** A versor that, like the real one, keeps the unit vectors Z and X. */
  predicate KeepsAxes(versor: Vec3 -> Vec3) {
    versor(Vec3(0.0, 0.0, 1.0)) == Vec3(0.0, 0.0, 1.0) && versor(Vec3(1.0, 0.0, 0.0)) == Vec3(1.0, 0.0, 0.0)
  }

  /** The square of half-side h at height z, counter-clockwise from
      (-h, -h). */
  function SquareAt(h: real, z: real): seq<Vec3> {
    [Vec3(-h, -h, z), Vec3(h, -h, z), Vec3(h, h, z), Vec3(-h, h, z)]
  }

  /** The eight corners (+-h, +-h, +-h) of the cube of half-side h in the
      order the canonical box lists them: the face z = h first. */
  function CubeCorners(h: real): seq<Vec3> {
    SquareAt(h, h) + SquareAt(h, -h)
  }

  /** Around the origin with axis-aligned half-extents h, the face polygon
      is the square of half-side h at height -h. */
  lemma AxisFaceCorners(h: real)
    ensures FaceCorners(Null3, Vec3(h, 0.0, 0.0), Vec3(0.0, h, 0.0), Vec3(0.0, 0.0, h)) == SquareAt(h, -h)
  {
  }

  /** Moving a square by dz along z gives the square at the new height. */
  lemma SquareShift(h: real, z: real, dz: real, k: int)
    requires 0 <= k < 4
    ensures Add3(SquareAt(h, z)[k], Vec3(0.0, 0.0, dz)) == SquareAt(h, z + dz)[k]
  {
  }

  /** Scaling a unit axis vector by h gives h on that axis. */
  lemma ScaleUnitAxes(h: real)
    ensures Scale3(Vec3(1.0, 0.0, 0.0), h) == Vec3(h, 0.0, 0.0)
    ensures Scale3(Vec3(0.0, 1.0, 0.0), h) == Vec3(0.0, h, 0.0)
    ensures Scale3(Vec3(0.0, 0.0, 1.0), h) == Vec3(0.0, 0.0, h)
  {
  }

  /** Doubling a vector along z. */
  lemma DoubleZ(h: real)
    ensures Scale3(Vec3(0.0, 0.0, h), 2.0) == Vec3(0.0, 0.0, h * 2.0)
  {
  }

  /** The face spanned by the half-extents h along X, Y, Z is the square
      of half-side h at height -h. */
  lemma AxisSquare(h: real)
    ensures FaceCorners(Null3, Scale3(Vec3(1.0, 0.0, 0.0), h), Scale3(Vec3(0.0, 1.0, 0.0), h), Scale3(Vec3(0.0, 0.0, 1.0), h)) == SquareAt(h, -h)
  {
    ScaleUnitAxes(h);
    AxisFaceCorners(h);
  }

  /** Twice half of s along Z is the step s along Z. */
  lemma StepAlongZ(s: real)
    ensures Scale3(Scale3(Vec3(0.0, 0.0, 1.0), s * 0.5), 2.0) == Vec3(0.0, 0.0, s)
  {
    ScaleUnitAxes(s * 0.5);
    DoubleZ(s * 0.5);
  }

  /** Y x Z = X and Z x X = Y. */
  lemma CrossYZ()
    ensures Cross(Vec3(0.0, 1.0, 0.0), Vec3(0.0, 0.0, 1.0)) == Vec3(1.0, 0.0, 0.0)
  {
  }

  lemma CrossZX()
    ensures Cross(Vec3(0.0, 0.0, 1.0), Vec3(1.0, 0.0, 0.0)) == Vec3(0.0, 1.0, 0.0)
  {
  }

  /** The canonical face for any orthonormal triple given as variables:
      with up x normal = x, normal x x = up, and a versor that keeps normal
      and x, the face is spanned by the three half-sides. */
  lemma FaceFromAxes(x: Vec3, y: Vec3, z: Vec3, s: real, versor: Vec3 -> Vec3)
    requires Cross(y, z) == x && Cross(z, x) == y && versor(z) == z && versor(x) == x
    ensures BoxFace(Null3, z, y, Vec3(s, s, s), versor) == FaceCorners(Null3, Scale3(x, s * 0.5), Scale3(y, s * 0.5), Scale3(z, s * 0.5))
    ensures BoxPath(z, Vec3(s, s, s), versor) == Scale3(Scale3(z, s * 0.5), 2.0)
  {
  }

  /** The canonical face (origin, normal Z, up Y) of a box with three equal
      sides s is the square of half-side s/2 at height -s/2. */
  lemma CanonicalFace(s: real, versor: Vec3 -> Vec3)
    requires KeepsAxes(versor)
    ensures BoxFace(Null3, Vec3(0.0, 0.0, 1.0), Vec3(0.0, 1.0, 0.0), Vec3(s, s, s), versor) == SquareAt(s * 0.5, -(s * 0.5))
  {
    CanonicalAxes(s, versor);
    AxisSquare(s * 0.5);
  }

  /** The canonical face is spanned by the half-sides along X, Y and Z. */
  lemma CanonicalAxes(s: real, versor: Vec3 -> Vec3)
    requires KeepsAxes(versor)
    ensures BoxFace(Null3, Vec3(0.0, 0.0, 1.0), Vec3(0.0, 1.0, 0.0), Vec3(s, s, s), versor)
         == FaceCorners(Null3, Scale3(Vec3(1.0, 0.0, 0.0), s * 0.5), Scale3(Vec3(0.0, 1.0, 0.0), s * 0.5), Scale3(Vec3(0.0, 0.0, 1.0), s * 0.5))
  {
    CrossYZ();
    CrossZX();
    FaceFromAxes(Vec3(1.0, 0.0, 0.0), Vec3(0.0, 1.0, 0.0), Vec3(0.0, 0.0, 1.0), s, versor);
  }

  /** The canonical box's sweep path is the step s along Z. */
  lemma CanonicalPath(s: real, versor: Vec3 -> Vec3)
    requires KeepsAxes(versor)
    ensures BoxPath(Vec3(0.0, 0.0, 1.0), Vec3(s, s, s), versor) == Vec3(0.0, 0.0, s)
  {
    CrossYZ();
    CrossZX();
    FaceFromAxes(Vec3(1.0, 0.0, 0.0), Vec3(0.0, 1.0, 0.0), Vec3(0.0, 0.0, 1.0), s, versor);
    StepAlongZ(s);
  }

  /** The vertices of a swept polygon are the ring moved along the path
      followed by the ring itself, both mapped by m. */
  lemma SweptVertices(circle: seq<Vec3>, path: Vec3, normalsOf: NormalsOf, m: M.Mat4)
    requires |circle| >= 2
    ensures GetData(MakeCylinder(circle, path, normalsOf, m)).vertices == Some(CylinderVertices(circle, path, m))
  {
  }

  /** A box's vertices are those of its face swept along its path. */
  lemma BoxVertices(center: Vec3, normal: Vec3, up: Vec3, size: Vec3, versor: Vec3 -> Vec3, normalsOf: NormalsOf, m: M.Mat4, face: seq<Vec3>, path: Vec3)
    requires BoxFace(center, normal, up, size, versor) == face && BoxPath(normal, size, versor) == path
    ensures GetData(MakeBox(center, normal, up, size, versor, normalsOf, m)).vertices == Some(CylinderVertices(face, path, m))
  {
  }

  /** Sweeping the square at height z by dz along Z gives the square at
      z + dz followed by the square at z. */
  lemma SweptSquare(h: real, z: real, dz: real, m: M.Mat4)
    ensures CylinderVertices(SquareAt(h, z), Vec3(0.0, 0.0, dz), m)
         == seq(8, k requires 0 <= k < 8 => M.Transform3x4(m, (SquareAt(h, z + dz) + SquareAt(h, z))[k]))
  {
    var vs := CylinderVertices(SquareAt(h, z), Vec3(0.0, 0.0, dz), m);
    forall k | 0 <= k < 8
      ensures vs[k] == M.Transform3x4(m, (SquareAt(h, z + dz) + SquareAt(h, z))[k])
    {
      if k < 4 {
        SquareShift(h, z, dz, k);
      }
    }
  }

  /** The canonical box (centre at the origin, normal Z, up Y) with three
      equal sides s sweeps into the cube of half-side s/2 around the
      origin, top face first, mapped by m; with `BoxVertices` these are the
      vertices of that `makeBox`. */
  lemma CubeSweep(s: real, versor: Vec3 -> Vec3, m: M.Mat4)
    requires KeepsAxes(versor)
    ensures CylinderVertices(BoxFace(Null3, Vec3(0.0, 0.0, 1.0), Vec3(0.0, 1.0, 0.0), Vec3(s, s, s), versor),
                             BoxPath(Vec3(0.0, 0.0, 1.0), Vec3(s, s, s), versor), m)
         == seq(8, k requires 0 <= k < 8 => M.Transform3x4(m, CubeCorners(s * 0.5)[k]))
  {
    var h := s * 0.5;
    CanonicalFace(s, versor);
    CanonicalPath(s, versor);
    SweptSquare(h, -h, s, m);
    assert -h + s == h;
  }

  /** `makeCube(center, normal, up, size)`: `makeBox` with three equal
      sides and the identity placement. */
  function MakeCube(center: Vec3, normal: Vec3, up: Vec3, size: real, versor: Vec3 -> Vec3, normalsOf: NormalsOf): (r: TriangleMesh)
    ensures r == MakeBox(center, normal, up, Vec3(size, size, size), versor, normalsOf, M.Identity())
    ensures WellIndexed(GetData(r)) && GetData(r).numberOfVertices == 8 && GetData(r).numberOfTriangles == 12
  {
    MakeBox(center, normal, up, Vec3(size, size, size), versor, normalsOf)
  }

  /** `makeCube(center, orientation, scale)`: the placed box with three
      equal scale factors. */
  function MakeCubePlaced(center: Vec3, rotation: M.Mat3, scale: real, versor: Vec3 -> Vec3, normalsOf: NormalsOf): (r: TriangleMesh)
    ensures r == MakeBoxPlaced(center, rotation, Vec3(scale, scale, scale), versor, normalsOf)
    ensures WellIndexed(GetData(r)) && GetData(r).numberOfVertices == 8 && GetData(r).numberOfTriangles == 12
  {
    MakeBoxPlaced(center, rotation, Vec3(scale, scale, scale), versor, normalsOf)
  }

  /** `makeCube()`: the cube of size 1 at the origin with zero orientation;
      `rotation` is the matrix of `quat::eulerAngles(0)`. */
  function MakeUnitCube(rotation: M.Mat3, versor: Vec3 -> Vec3, normalsOf: NormalsOf): (r: TriangleMesh)
    ensures r == MakeCubePlaced(Null3, rotation, 1.0, versor, normalsOf)
    ensures r == MakeBox(Null3, Vec3(0.0, 0.0, 1.0), Vec3(0.0, 1.0, 0.0), Vec3(1.0, 1.0, 1.0), versor, normalsOf, M.TRS(Null3, rotation, Vec3(1.0, 1.0, 1.0)))
  {
    MakeCubePlaced(Null3, rotation, 1.0, versor, normalsOf)
  }
}

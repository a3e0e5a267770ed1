/** `TriangleMeshShape`: a primitive around a triangle mesh, with the
    mesh's local bounding box cached at construction.  The world box is
    that cache, copied and then transformed by the current matrix. */
module TriangleMeshShapes {
  import opened Wrappers
  import G = Geometry
  import M = Matrix4x4
  import opened TriangleMeshes
  import opened Models
  import opened Vectors

  /** The primitive part, the mesh pointer (None is null) and the cached
      local box. */
  datatype Shape = Shape(prim: Primitive, mesh: Option<TriangleMesh>, bounds: G.Bounds3)

  /** `TriangleMeshShape(aMesh)`: a fresh primitive holding the mesh; the
      cache is the mesh's box, or stays the default empty box when the mesh
      is null. */
  function NewShape(mesh: Option<TriangleMesh>): (s: Shape)
    ensures s.prim == NewPrimitive() && s.mesh == mesh
    ensures mesh.Some? ==> s.bounds == MeshBounds(mesh.value)
    ensures mesh.None? ==> G.IsEmpty(s.bounds)
  {
    Shape(NewPrimitive(), mesh, if mesh.Some? then MeshBounds(mesh.value) else G.Default())
  }

  /** The cache of a new shape holds every vertex of its mesh and lies
      within any box that does. */
  lemma NewShapeBoundsFit(mesh: TriangleMesh, c: G.Bounds3)
    ensures var vs := mesh.data.vertices.GetOr([]);
            forall k :: 0 <= k < |vs| ==> G.Contains(NewShape(Some(mesh)).bounds, Lift(vs[k]))
    ensures var vs := mesh.data.vertices.GetOr([]);
            (forall k :: 0 <= k < |vs| ==> G.Contains(c, Lift(vs[k]))) ==> G.Within(NewShape(Some(mesh)).bounds, c)
  {
    var vs := mesh.data.vertices.GetOr([]);
    if forall k :: 0 <= k < |vs| ==> G.Contains(c, Lift(vs[k])) {
      MeshBoundsSmallest(mesh, c);
    }
  }

  /** `setMatrix` on a shape: only the primitive's matrix changes. */
  function ShapeSetMatrix(s: Shape, m: M.Mat4): (r: Shape)
    ensures r.mesh == s.mesh && r.bounds == s.bounds
    ensures GetMatrix(r.prim) == m && GetMaterial(r.prim) == GetMaterial(s.prim)
  {
    s.(prim := SetMatrix(s.prim, m))
  }

  /** `setMaterial` on a shape: only the primitive's material changes. */
  function ShapeSetMaterial(s: Shape, mat: Option<MaterialRef>): (r: Shape)
    ensures r.mesh == s.mesh && r.bounds == s.bounds
    ensures GetMatrix(r.prim) == GetMatrix(s.prim)
  {
    s.(prim := SetMaterial(s.prim, mat))
  }

  /** `triangleMesh()`: the wrapped mesh pointer. */
  function ShapeTriangleMesh(s: Shape): Option<TriangleMesh> {
    s.mesh
  }

  /** The constructor stores the mesh it is given, and neither setter
      replaces it. */
  lemma TriangleMeshKept(mesh: Option<TriangleMesh>, m: M.Mat4, mat: Option<MaterialRef>)
    ensures ShapeTriangleMesh(NewShape(mesh)) == mesh
    ensures ShapeTriangleMesh(ShapeSetMatrix(NewShape(mesh), m)) == mesh
    ensures ShapeTriangleMesh(ShapeSetMaterial(NewShape(mesh), mat)) == mesh
  {
  }

  /** `boundingBox()`: the copy `Bounds3 b = bounds` (the copy constructor,
      with its identity transform), then `b.transform(matrix)`.  The cache
      itself is not touched. */
  function BoundingBox(s: Shape): G.Bounds3 {
    G.Transform(G.CopyBounds(s.bounds), GetMatrix(s.prim))
  }

  /** For a cache with finite ordered corners the copy is exact, so the
      world box is the smallest box holding the image of each corner of the
      cache under the matrix. */
  lemma BoundingBoxOfFinite(s: Shape, c: G.Bounds3)
    requires G.FiniteOrdered(s.bounds)
    ensures BoundingBox(s) == G.Transform(s.bounds, GetMatrix(s.prim))
    ensures forall i :: 0 <= i < 8 ==>
      G.Covers(BoundingBox(s), M.Transform3x4E(GetMatrix(s.prim), G.Corner(s.bounds.p1, s.bounds.p2, i)))
    ensures (forall i :: 0 <= i < 8 ==>
      G.Covers(c, M.Transform3x4E(GetMatrix(s.prim), G.Corner(s.bounds.p1, s.bounds.p2, i)))) ==> G.Within(BoundingBox(s), c)
  {
    G.CopyFiniteOrdered(s.bounds);
    G.TransformSmallest(s.bounds, GetMatrix(s.prim), c);
  }

  /** Under the identity matrix the world box of a finite ordered cache is
      the cache. */
  lemma BoundingBoxIdentity(s: Shape)
    requires G.FiniteOrdered(s.bounds) && GetMatrix(s.prim) == M.Identity()
    ensures BoundingBox(s) == s.bounds
  {
    G.CopyFiniteOrdered(s.bounds);
  }

  /** A shape built around a null mesh reports the empty box. */
  lemma NullMeshEmpty()
    ensures BoundingBox(NewShape(None)) == G.Empty()
  {
    G.CopySentinels();
  }

  /** The cache is written only by the constructor: changing the matrix or
      the material leaves it, and the material never moves the world box. */
  lemma CacheFixed(s: Shape, m1: M.Mat4, m2: M.Mat4, mat: Option<MaterialRef>)
    ensures ShapeSetMatrix(ShapeSetMatrix(s, m1), m2).bounds == s.bounds
    ensures ShapeSetMaterial(s, mat).bounds == s.bounds
    ensures BoundingBox(ShapeSetMaterial(s, mat)) == BoundingBox(s)
    ensures BoundingBox(ShapeSetMatrix(ShapeSetMatrix(s, m1), m2)) == BoundingBox(ShapeSetMatrix(s, m2))
  {
  }

  /** Recolouring a mesh does not change the box a shape caches for it. */
  lemma ColorsDoNotMoveBounds(mesh: TriangleMesh, colors: Option<seq<Colors.Color>>, n: int)
    ensures NewShape(Some(SetColors(mesh, colors, n))).bounds == NewShape(Some(mesh)).bounds
  {
    assert SetColors(mesh, colors, n).data.vertices == mesh.data.vertices;
  }

  /** `clone()`: a new shape around a copy of the mesh, so with the identity
      matrix and the default material whatever the original's were.  The
      mesh's own `clone()` is taken to copy its arrays. */
  function Clone(s: Shape): (r: Shape)
    requires s.mesh.Some?
    ensures r.mesh == s.mesh && r.bounds == MeshBounds(s.mesh.value)
    ensures GetMatrix(r.prim) == M.Identity() && GetMaterial(r.prim) == DefaultMaterial
  {
    NewShape(Some(TriangleMesh(s.mesh.value.data)))
  }

  /** The clone forgets the placement and the material of the original,
      and its world box is the mesh box itself when that box is finite and
      ordered. */
  lemma CloneForgetsPlacement(s: Shape, m: M.Mat4, mat: Option<MaterialRef>)
    requires s.mesh.Some?
    ensures Clone(ShapeSetMatrix(s, m)) == Clone(s)
    ensures Clone(ShapeSetMaterial(s, mat)) == Clone(s)
    ensures G.FiniteOrdered(MeshBounds(s.mesh.value)) ==> BoundingBox(Clone(s)) == MeshBounds(s.mesh.value)
  {
    if G.FiniteOrdered(MeshBounds(s.mesh.value)) {
      BoundingBoxIdentity(Clone(s));
    }
  }
}

/** `MeshSweeper::makeSphere`: a UV sphere of `mers` meridians and as many
    sections.  Vertex 0 is the first point of the arc (the pole the arc
    starts at); every section s contributes a ring of `mers` vertices, the
    arc point s + 1 followed by its successive images under the rotation
    about the axis; the last vertex is the last arc point.  The triangles
    are a fan around each pole and two triangles per quad in between.

    The arc (`makeArc`) and the rotation (`mat4::rotation`) come from code
    outside this model and enter as parameters. */
module SphereSweeps {
  import opened Wrappers
  import opened Vectors
  import opened TriangleMeshes
  import M = Matrix4x4
  import MS = MeshSweepers

  // ---------------------------------------------------------------------
  // Counts

  /** `if (mers < 6) mers = 6`. */
  function Meridians(mers: int): int {
    if mers < 6 then 6 else mers
  }

  /** `nv = sections * mers + 2` with sections = mers. */
  function SphereVertexCount(mers: int): int {
    mers * mers + 2
  }

  /** `nt = 2 * mers * sections` with sections = mers. */
  function SphereTriangleCount(mers: int): int {
    2 * mers * mers
  }

  /** The default number of meridians of `makeSphere`. */
  const DefaultMeridians: int := 16

  // ---------------------------------------------------------------------
  // Triangle topology, as the three groups the source writes in order

  /** North fan, i = t + 1: (0, i, i % mers + 1). */
  function NorthSlot(mers: int, t: int): Triangle
    requires mers >= 1
  {
    Triangle(0, t + 1, (t + 1) % mers + 1)
  }

  function North(mers: int): (r: seq<Triangle>)
    requires mers >= 1
    ensures |r| == mers
  {
    seq(mers, t requires 0 <= t < mers => NorthSlot(mers, t))
  }

  /** Slot q of band s: with b = (s - 1) * mers + 1, m = q / 2,
      i = b + m, k = b + (m + 1) % mers, j = i + mers, l = k + mers,
      the even slot is (i, j, k) and the odd slot (k, j, l). */
  function BandSlot(mers: int, s: int, q: int): Triangle
    requires mers >= 1
  {
    var b := (s - 1) * mers + 1;
    var m := q / 2;
    var i := b + m;
    var k := b + (m + 1) % mers;
    if q % 2 == 0 then Triangle(i, i + mers, k) else Triangle(k, i + mers, k + mers)
  }

  function Band(mers: int, s: int): (r: seq<Triangle>)
    requires mers >= 1
    ensures |r| == 2 * mers
  {
    seq(2 * mers, q requires 0 <= q < 2 * mers => BandSlot(mers, s, q))
  }

  /** Bands 1..n, in order. */
  function Bands(mers: int, n: nat): (r: seq<Triangle>)
    requires mers >= 1
  {
    if n == 0 then [] else Bands(mers, n - 1) + Band(mers, n)
  }

  /** South fan: with b = (mers - 1) * mers + 1, (b + m, nv - 1, b + (m + 1) % mers). */
  function SouthSlot(mers: int, m: int): Triangle
    requires mers >= 1
  {
    var b := (mers - 1) * mers + 1;
    Triangle(b + m, mers * mers + 1, b + (m + 1) % mers)
  }

  function South(mers: int): (r: seq<Triangle>)
    requires mers >= 1
    ensures |r| == mers
  {
    seq(mers, m requires 0 <= m < mers => SouthSlot(mers, m))
  }

  /** The whole triangle array: north fan, the mers - 1 bands, south fan. */
  function SphereTopology(mers: int): seq<Triangle>
    requires mers >= 1
  {
    North(mers) + Bands(mers, mers - 1) + South(mers)
  }

  lemma {:induction false} BandsLength(mers: int, n: nat)
    requires mers >= 1
    ensures |Bands(mers, n)| == 2 * mers * n
  {
    if n > 0 {
      BandsLength(mers, n - 1);
    }
  }

  /** The triangle array holds exactly nt = 2 * mers * mers triangles. */
  lemma SphereTopologyLength(mers: int)
    requires mers >= 1
    ensures |SphereTopology(mers)| == SphereTriangleCount(mers)
  {
    BandsLength(mers, mers - 1);
  }

  /** Band s has its slot q at position 2 * mers * (s - 1) + q of the bands. */
  lemma {:induction false} BandsAt(mers: int, n: nat, s: int, q: int)
    requires mers >= 1 && 1 <= s <= n && 0 <= q < 2 * mers
    ensures 2 * mers * (s - 1) + q < |Bands(mers, n)|
    ensures Bands(mers, n)[2 * mers * (s - 1) + q] == BandSlot(mers, s, q)
  {
    BandsLength(mers, n - 1);
    BandsLength(mers, n);
    if s < n {
      BandsAt(mers, n - 1, s, q);
    }
  }

  /** Position i of the middle part of a three-part concatenation. */
  lemma MiddleIndex<T>(a: seq<T>, b: seq<T>, c: seq<T>, i: int)
    requires 0 <= i < |b|
    ensures |a| + i < |a + b + c| && (a + b + c)[|a| + i] == b[i]
  {
  }

  /** The north fan fills the first mers slots. */
  lemma SphereNorthSlot(mers: int, t: int)
    requires mers >= 1 && 0 <= t < mers
    ensures t < |SphereTopology(mers)| && SphereTopology(mers)[t] == NorthSlot(mers, t)
  {
  }

  /** Band s starts at slot mers + 2 * mers * (s - 1). */
  lemma SphereBandSlot(mers: int, s: int, q: int)
    requires mers >= 1 && 1 <= s < mers && 0 <= q < 2 * mers
    ensures mers + 2 * mers * (s - 1) + q < |SphereTopology(mers)|
    ensures SphereTopology(mers)[mers + 2 * mers * (s - 1) + q] == BandSlot(mers, s, q)
  {
    BandsAt(mers, mers - 1, s, q);
    MulNonneg(2 * mers, s - 1);
    MiddleIndex(North(mers), Bands(mers, mers - 1), South(mers), 2 * mers * (s - 1) + q);
  }

  /** The south fan fills the last mers slots. */
  lemma SphereSouthSlot(mers: int, m: int)
    requires mers >= 1 && 0 <= m < mers
    ensures SphereTriangleCount(mers) - mers + m < |SphereTopology(mers)|
    ensures SphereTopology(mers)[SphereTriangleCount(mers) - mers + m] == SouthSlot(mers, m)
  {
    SphereTopologyLength(mers);
    var n, b, z := North(mers), Bands(mers, mers - 1), South(mers);
    BandsLength(mers, mers - 1);
    assert SphereTopology(mers) == n + b + z;
    assert |n + b| == SphereTriangleCount(mers) - mers;
    assert (n + b + z)[|n + b| + m] == z[m];
  }

  // ---------------------------------------------------------------------
  // Index range

  lemma MulNonneg(a: int, b: int)
    requires a >= 0 && b >= 0
    ensures a * b >= 0
  {
  }

  lemma MulSucc(a: int, b: int)
    ensures (a + 1) * b == a * b + b
  {
  }

  /** The successor of m around a ring of mers vertices. */
  lemma NextOnRing(mers: int, m: int)
    requires mers >= 2 && 0 <= m < mers
    ensures (m + 1) % mers == (if m + 1 < mers then m + 1 else 0)
  {
    if m + 1 < mers {
      MS.ModUnique(m + 1, mers, 0, m + 1);
    } else {
      MS.ModUnique(m + 1, mers, 1, 0);
    }
  }

  /** The two triangles of the quad at ring offset b, column m, stated
      with b as a plain number. */
  lemma QuadInRange(mers: int, b: int, m: int, nv: int)
    requires mers >= 2 && b >= 1 && b + 2 * mers <= nv - 1 && 0 <= m < mers
    ensures var k := b + (m + 1) % mers;
            IndicesBelow(Triangle(b + m, b + m + mers, k), nv) && Proper(Triangle(b + m, b + m + mers, k))
            && IndicesBelow(Triangle(k, b + m + mers, k + mers), nv) && Proper(Triangle(k, b + m + mers, k + mers))
  {
    NextOnRing(mers, m);
  }

  /** Band s ends at s * mers + mers <= mers * mers. */
  lemma BandOffsets(mers: int, s: int)
    requires mers >= 1 && 1 <= s < mers
    ensures (s - 1) * mers >= 0
    ensures (s - 1) * mers + 1 + 2 * mers <= SphereVertexCount(mers) - 1
  {
    MulNonneg(s - 1, mers);
    MulNonneg(mers - 1 - s, mers);
    MS.MulSub(mers, s + 1, mers);
    MulSucc(s, mers);
    MulSucc(s - 1, mers);
  }

  lemma BandSlotInRange(mers: int, s: int, q: int)
    requires mers >= 2 && 1 <= s < mers && 0 <= q < 2 * mers
    ensures IndicesBelow(BandSlot(mers, s, q), SphereVertexCount(mers)) && Proper(BandSlot(mers, s, q))
  {
    BandOffsets(mers, s);
    QuadInRange(mers, (s - 1) * mers + 1, q / 2, SphereVertexCount(mers));
  }

  lemma SouthSlotInRange(mers: int, m: int)
    requires mers >= 2 && 0 <= m < mers
    ensures IndicesBelow(SouthSlot(mers, m), SphereVertexCount(mers)) && Proper(SouthSlot(mers, m))
  {
    MS.MulSub(mers, 1, mers);
    MulNonneg(mers - 1, mers);
    NextOnRing(mers, m);
  }

  lemma {:induction false} BandsInRange(mers: int, n: nat)
    requires mers >= 2 && n < mers
    ensures forall t :: t in Bands(mers, n) ==> IndicesBelow(t, SphereVertexCount(mers)) && Proper(t)
  {
    if n > 0 {
      BandsInRange(mers, n - 1);
      forall q | 0 <= q < 2 * mers
        ensures IndicesBelow(Band(mers, n)[q], SphereVertexCount(mers)) && Proper(Band(mers, n)[q])
      {
        BandSlotInRange(mers, n, q);
      }
    }
  }

  /** Every triangle of the sphere has three different vertices, all of
      them below nv = mers * mers + 2. */
  lemma SphereTopologyInRange(mers: int)
    requires mers >= 2
    ensures forall t :: t in SphereTopology(mers) ==> IndicesBelow(t, SphereVertexCount(mers)) && Proper(t)
  {
    BandsInRange(mers, mers - 1);
    forall m | 0 <= m < mers
      ensures IndicesBelow(South(mers)[m], SphereVertexCount(mers)) && Proper(South(mers)[m])
    {
      SouthSlotInRange(mers, m);
    }
    forall t | 0 <= t < mers
      ensures IndicesBelow(North(mers)[t], SphereVertexCount(mers)) && Proper(North(mers)[t])
    {
      assert (t + 1) % mers != t + 1 || t + 1 < mers;
    }
  }

  /** The north fan loop: for i = 1..mers, (0, i, i % mers + 1). */
  method FillNorth(mers: int) returns (tris: seq<Triangle>)
    requires mers >= 1
    ensures tris == North(mers)
  {
    tris := [];
    var i := 1;
    while i <= mers
      invariant 1 <= i <= mers + 1
      invariant tris == North(mers)[..i - 1]
    {
      var j := i % mers + 1;
      tris := tris + [SetVertices(0, i, j)];
      i := i + 1;
    }
    assert North(mers)[..mers] == North(mers);
  }

  /** The quad loop of band s: two triangles per column, in column order. */
  method FillBand(mers: int, s: int) returns (tris: seq<Triangle>)
    requires mers >= 1
    ensures tris == Band(mers, s)
  {
    tris := [];
    var m := 0;
    var b := (s - 1) * mers + 1;
    while m < mers
      invariant 0 <= m <= mers
      invariant tris == Band(mers, s)[..2 * m]
    {
      var i := b + m;
      m := m + 1;
      var k := b + m % mers;
      var j := i + mers;
      var l := k + mers;
      assert Band(mers, s)[..2 * m] == Band(mers, s)[..2 * m - 2] + [Triangle(i, j, k), Triangle(k, j, l)];
      tris := tris + [SetVertices(i, j, k), SetVertices(k, j, l)];
    }
    assert Band(mers, s)[..2 * mers] == Band(mers, s);
  }

  /** The south fan loop, around the last vertex nv - 1. */
  method FillSouth(mers: int) returns (tris: seq<Triangle>)
    requires mers >= 1
    ensures tris == South(mers)
  {
    tris := [];
    var m := 0;
    var b := (mers - 1) * mers + 1;
    var j := SphereVertexCount(mers) - 1;
    while m < mers
      invariant 0 <= m <= mers
      invariant tris == South(mers)[..m]
    {
      var i := b + m;
      m := m + 1;
      var k := b + m % mers;
      tris := tris + [SetVertices(i, j, k)];
    }
    assert South(mers)[..mers] == South(mers);
  }

  /** The three triangle loops of `makeSphere`, writing slot after slot:
      the north fan, the bands 1..mers - 1, the south fan. */
  method FillSphereTriangles(mers: int) returns (tris: seq<Triangle>)
    requires mers >= 1
    ensures tris == SphereTopology(mers)
  {
    tris := FillNorth(mers);
    var s := 1;
    while s < mers
      invariant 1 <= s <= mers
      invariant tris == North(mers) + Bands(mers, s - 1)
    {
      var band := FillBand(mers, s);
      tris := tris + band;
      s := s + 1;
    }
    var south := FillSouth(mers);
    tris := tris + south;
  }

  // ---------------------------------------------------------------------
  // Vertices and normals

  /** p rotated n times by `rot`. */
  function RotPow(rot: M.Mat4, n: nat, p: Vec3): Vec3 {
    if n == 0 then p else M.Transform3x4(rot, RotPow(rot, n - 1, p))
  }

  /** The ring of mers vertices that starts at arc point p. */
  function Ring(rot: M.Mat4, p: Vec3, mers: nat): (r: seq<Vec3>)
    ensures |r| == mers
  {
    seq(mers, m requires 0 <= m < mers => RotPow(rot, m, p))
  }

  /** The rings of sections 0..n-1, started at arc points 1..n. */
  function Rings(arc: seq<Vec3>, rot: M.Mat4, mers: nat, n: nat): seq<Vec3>
    requires n < |arc|
  {
    if n == 0 then [] else Rings(arc, rot, mers, n - 1) + Ring(rot, arc[n], mers)
  }

  /** The vertex array: first arc point, the rings, last arc point. */
  function SphereVertices(arc: seq<Vec3>, rot: M.Mat4, mers: nat): seq<Vec3>
    requires |arc| == mers + 2
  {
    [arc[0]] + Rings(arc, rot, mers, mers) + [arc[mers + 1]]
  }

  /** `(p - center) * invRadius`. */
  function RadialNormal(p: Vec3, center: Vec3, invRadius: real): Vec3 {
    Scale3(Sub3(p, center), invRadius)
  }

  lemma {:induction false} RingsAt(arc: seq<Vec3>, rot: M.Mat4, mers: nat, n: nat, s: int, m: int)
    requires n < |arc| && 0 <= s < n && 0 <= m < mers
    ensures |Rings(arc, rot, mers, n)| == n * mers && s * mers + m < n * mers
    ensures Rings(arc, rot, mers, n)[s * mers + m] == RotPow(rot, m, arc[s + 1])
  {
    RingsLength(arc, rot, mers, n);
    RingsLength(arc, rot, mers, n - 1);
    if s < n - 1 {
      RingsAt(arc, rot, mers, n - 1, s, m);
      MulNonneg(n - 2 - s, mers);
      MS.MulSub(n - 1, s + 1, mers);
      MulSucc(s, mers);
    } else {
      MulSucc(s, mers);
    }
  }

  lemma {:induction false} RingsLength(arc: seq<Vec3>, rot: M.Mat4, mers: nat, n: nat)
    requires n < |arc|
    ensures |Rings(arc, rot, mers, n)| == n * mers
  {
    if n > 0 {
      RingsLength(arc, rot, mers, n - 1);
      MulSucc(n - 1, mers);
    }
  }

  /** The vertex array holds nv vertices, from one end of the arc (vertex
      0) to the other (vertex nv - 1). */
  lemma SpherePoles(arc: seq<Vec3>, rot: M.Mat4, mers: nat)
    requires |arc| == mers + 2
    ensures |SphereVertices(arc, rot, mers)| == SphereVertexCount(mers)
    ensures SphereVertices(arc, rot, mers)[0] == arc[0]
    ensures SphereVertices(arc, rot, mers)[SphereVertexCount(mers) - 1] == arc[mers + 1]
  {
    RingsLength(arc, rot, mers, mers);
  }

  /** Vertex 1 + s * mers + m is arc point s + 1 rotated m times. */
  lemma SphereVertexAt(arc: seq<Vec3>, rot: M.Mat4, mers: nat, s: int, m: int)
    requires |arc| == mers + 2 && 0 <= s < mers && 0 <= m < mers
    ensures 1 + s * mers + m < |SphereVertices(arc, rot, mers)|
    ensures SphereVertices(arc, rot, mers)[1 + s * mers + m] == RotPow(rot, m, arc[s + 1])
  {
    RingsAt(arc, rot, mers, mers, s, m);
    MiddleIndex([arc[0]], Rings(arc, rot, mers, mers), [arc[mers + 1]], s * mers + m);
  }

  /** The inner vertex loop of `makeSphere`: starting at arc point p0, each
      vertex after the first is the previous one rotated once, and each is
      written with its normal, the radius vector scaled by `invRadius`. */
  method FillRing(center: Vec3, invRadius: real, mers: nat, p0: Vec3, rot: M.Mat4)
    returns (vs: seq<Vec3>, ns: seq<Vec3>)
    ensures vs == Ring(rot, p0, mers)
    ensures |ns| == |vs| && forall v :: 0 <= v < |vs| ==> ns[v] == RadialNormal(vs[v], center, invRadius)
  {
    vs, ns := [], [];
    var p := p0;
    var m := 0;
    while m < mers
      invariant 0 <= m <= mers
      invariant vs == Ring(rot, p0, mers)[..m]
      invariant m > 0 ==> p == RotPow(rot, m - 1, p0)
      invariant m == 0 ==> p == p0
      invariant |ns| == |vs| && forall v :: 0 <= v < |vs| ==> ns[v] == RadialNormal(vs[v], center, invRadius)
    {
      if m > 0 {
        p := M.Transform3x4(rot, p);
      }
      assert p == Ring(rot, p0, mers)[m];
      vs := vs + [p];
      ns := ns + [RadialNormal(p, center, invRadius)];
      m := m + 1;
    }
    assert Ring(rot, p0, mers)[..mers] == Ring(rot, p0, mers);
  }

  /** The vertex loops of `makeSphere`: the first arc point, one ring per
      section, the last arc point, each vertex with its normal. */
  method FillSphereVertices(center: Vec3, invRadius: real, mers: nat, arc: seq<Vec3>, rot: M.Mat4)
    returns (vs: seq<Vec3>, ns: seq<Vec3>)
    requires |arc| == mers + 2
    ensures vs == SphereVertices(arc, rot, mers)
    ensures |ns| == |vs| && forall v :: 0 <= v < |vs| ==> ns[v] == RadialNormal(vs[v], center, invRadius)
  {
    vs := [arc[0]];
    ns := [RadialNormal(arc[0], center, invRadius)];
    var s := 0;
    while s < mers
      invariant 0 <= s <= mers
      invariant vs == [arc[0]] + Rings(arc, rot, mers, s)
      invariant |ns| == |vs| && forall v :: 0 <= v < |vs| ==> ns[v] == RadialNormal(vs[v], center, invRadius)
    {
      var ring, normals := FillRing(center, invRadius, mers, arc[s + 1], rot);
      NormalsAppend(vs, ns, ring, normals, center, invRadius);
      vs := vs + ring;
      ns := ns + normals;
      s := s + 1;
    }
    NormalsAppend(vs, ns, [arc[mers + 1]], [RadialNormal(arc[mers + 1], center, invRadius)], center, invRadius);
    vs := vs + [arc[mers + 1]];
    ns := ns + [RadialNormal(arc[mers + 1], center, invRadius)];
  }

  /** Appending vertices with their normals keeps every normal radial. */
  lemma NormalsAppend(vs: seq<Vec3>, ns: seq<Vec3>, vs': seq<Vec3>, ns': seq<Vec3>, center: Vec3, invRadius: real)
    requires |ns| == |vs| && forall v :: 0 <= v < |vs| ==> ns[v] == RadialNormal(vs[v], center, invRadius)
    requires |ns'| == |vs'| && forall v :: 0 <= v < |vs'| ==> ns'[v] == RadialNormal(vs'[v], center, invRadius)
    ensures |ns + ns'| == |vs + vs'|
    ensures forall v :: 0 <= v < |vs + vs'| ==> (ns + ns')[v] == RadialNormal((vs + vs')[v], center, invRadius)
  {
  }

  // ---------------------------------------------------------------------
  // The mesh

  /** `makeSphere(center, radius, mers)`.  `invRadius` is
      `Math::inverse(radius)`, `arc` the mers + 2 points of
      `makeArc(center, radius, Z, 180, mers + 1)` and `rot` the rotation by
      360 / mers degrees about the first normal through `center`, for the
      clamped mers. */
  method MakeSphere(center: Vec3, invRadius: real, mers: int, arc: seq<Vec3>, rot: M.Mat4) returns (r: TriangleMesh)
    requires |arc| == Meridians(mers) + 2
    ensures Consistent(GetData(r)) && WellIndexed(GetData(r))
    ensures GetData(r).numberOfVertices == SphereVertexCount(Meridians(mers))
    ensures GetData(r).numberOfNormals == SphereVertexCount(Meridians(mers))
    ensures GetData(r).numberOfTriangles == SphereTriangleCount(Meridians(mers))
    ensures GetData(r).vertices == Some(SphereVertices(arc, rot, Meridians(mers)))
    ensures GetData(r).triangles == Some(SphereTopology(Meridians(mers)))
    ensures GetData(r).normals.Some? && forall v :: 0 <= v < GetData(r).numberOfVertices ==>
              GetData(r).normals.value[v] == RadialNormal(GetData(r).vertices.value[v], center, invRadius)
    ensures forall t :: t in GetData(r).triangles.value ==> Proper(t)
  {
    var n := Meridians(mers);
    var vs, ns := FillSphereVertices(center, invRadius, n, arc, rot);
    var tris := FillSphereTriangles(n);
    SpherePoles(arc, rot, n);
    SphereTopologyLength(n);
    SphereTopologyInRange(n);
    var data := Arrays(Some(vs), Some(ns), Some(tris), None,
                       SphereVertexCount(n), SphereVertexCount(n), SphereTriangleCount(n), 0);
    r := NewMesh(data);
  }

  /** The default sphere (16 meridians) has 258 vertices and 512
      triangles, all indices in range. */
  method MakeDefaultSphere(center: Vec3, invRadius: real, arc: seq<Vec3>, rot: M.Mat4) returns (r: TriangleMesh)
    requires |arc| == DefaultMeridians + 2
    ensures WellIndexed(GetData(r))
    ensures GetData(r).numberOfVertices == 258 && GetData(r).numberOfTriangles == 512
  {
    r := MakeSphere(center, invRadius, DefaultMeridians, arc, rot);
  }

  /** `makeSphere()`: the unit sphere about the origin with the default 16
      meridians; every normal is its vertex. */
  method MakeUnitSphere(arc: seq<Vec3>, rot: M.Mat4) returns (r: TriangleMesh)
    requires |arc| == DefaultMeridians + 2
    ensures WellIndexed(GetData(r))
    ensures GetData(r).numberOfVertices == 258 && GetData(r).numberOfTriangles == 512
    ensures GetData(r).numberOfNormals == 258
    ensures GetData(r).normals.Some? && forall v :: 0 <= v < GetData(r).numberOfVertices ==>
              GetData(r).normals.value[v] == GetData(r).vertices.value[v]
  {
    r := MakeSphere(Null3, 1.0, DefaultMeridians, arc, rot);
  }

  /** Fewer than six meridians are raised to six: 38 vertices, 72 triangles. */
  lemma FewMeridiansClamped(mers: int)
    requires mers < 6
    ensures SphereVertexCount(Meridians(mers)) == 38 && SphereTriangleCount(Meridians(mers)) == 72
  {
  }
}

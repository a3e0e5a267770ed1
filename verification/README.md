# tcg geometric core in Dafny

This project models the geometric core of the tcg viewer. It covers:

- `mat4` (column-major 4x4 matrices, their products, transposition, the
  failure branch of inversion, point and vector transforms and TRS
  matrices);
- `Bounds3`, axis-aligned boxes with the +/-infinity "empty" sentinel;
- `TriangleMesh`, its index triangles and its `Arrays` record;
- the `MeshSweeper` builders for cylinders, boxes, cubes and spheres;
- `Model`/`Primitive`, a placement matrix and a material that is never
  null;
- `TriangleMeshShape`, a primitive around a mesh with a cached local box;
- `Scene`, its actor and light lists and the bounding-box cache guarded by
  the `modifiedBounds` dirty flag;
- the `Material` registry with its `get`/`New` factory;
- `Flags`, a 32-bit bit mask.

Reals are exact. Box coordinates use `ExtReals.Ext`, an extended real with
`-inf`, `+inf` and `NaN` that follows IEEE addition, multiplication and
comparison. This is needed because the empty box is the pair
(+inf, -inf). Transforming that box computes `0 * inf`, and `inflate(s)`
on it computes `inf - inf`.

Modules follow the source files:

| module | file |
|---|---|
| `Wrappers`, `Vectors`, `Colors` | `Option`, `vec3`/`vec4`/`mat3`, `Color` |
| `ExtReals` | extended reals |
| `Matrix4x4` | `Math/Matrix4x4.h` |
| `Geometry` | `Geometry/Bounds3.h` |
| `TriangleMeshes` | `TriangleMesh.h` |
| `MeshSweepers` | `MeshSweeper.h`, `MeshSweeper.cpp` (cylinder, box, cube) |
| `SphereSweeps` | `MeshSweeper.cpp` (`makeSphere`) |
| `Models` | `Model.h` |
| `TriangleMeshShapes` | `TriangleMeshShape.h`, `TriangleMeshShape.cpp` |
| `Scenes` | `Scene.cpp` |
| `Materials` | `Material.cpp` |
| `BitFlags` | `Core/Flags.h` |

Each C++ pointer is an `Option`, and `None` is null. Each mutating member
function is a function from the old object to the new one. The scene's
actors and lights are identities. `World` holds their back-references
(`actor->scene`). Each actor's world box, `actor->model->boundingBox()`, is
the function parameter `box`.

## Model

| member | source | states |
|---|---|---|
| Matrix4x4.ScalarEntries | tcg/include/Math/Matrix4x4.h:142-148 | `set(s)` puts s on the diagonal and 0 elsewhere; `identity()` and `zero()` are its cases 1 and 0 |
| Matrix4x4.TransformByRows | tcg/include/Math/Matrix4x4.h:351-354 | coordinate i of `transform(v)` is row i of the column-major matrix dotted with v |
| Matrix4x4.MulEntries | tcg/include/Math/Matrix4x4.h:260-268 | entry (i, j) of `a * b` is row i of a dotted with column j of b |
| Matrix4x4.TransposedEntries | tcg/include/Math/Matrix4x4.h:286-294 | entry (i, j) of `transposed()` is entry (j, i) of the matrix |
| Matrix4x4.TransposeInvolutive | tcg/include/Math/Matrix4x4.h:286-294 | transposing twice gives the original matrix back |
| Matrix4x4.TransformAdditive | tcg/include/Math/Matrix4x4.h:351-354 | `transform` is additive: the image of p + q is the sum of the images |
| Matrix4x4.TransformHomogeneous | tcg/include/Math/Matrix4x4.h:351-354 | `transform` commutes with scaling the vector |
| Matrix4x4.MulTransform | tcg/include/Math/Matrix4x4.h:260-268 | transforming by `a * b` is transforming by b, then by a |
| Matrix4x4.MulIdentityRight | tcg/include/Math/Matrix4x4.h:260-268 | `m * identity()` is m |
| Matrix4x4.MulIdentityLeft | tcg/include/Math/Matrix4x4.h:260-268 | `identity() * m` is m |
| Matrix4x4.TransformBasis | tcg/include/Math/Matrix4x4.h:351-354 | the images of the four unit vectors are the four stored columns |
| Matrix4x4.IdentityTransform | tcg/include/Math/Matrix4x4.h:193-196 | the identity matrix fixes every 4-vector |
| Matrix4x4.Invert | tcg/include/Math/Matrix4x4.h:306-319 | `invert` succeeds exactly when the determinant is not within eps of 0; on failure the matrix is unchanged |
| Matrix4x4.DetScalar | tcg/include/Math/Matrix4x4.h:306-317 | the determinant that `invert` computes for `mat4(s)` is s^4 |
| Matrix4x4.InvertZeroFails | tcg/include/Math/Matrix4x4.h:306-319 | the zero matrix cannot be inverted and is left as it was |
| Matrix4x4.InvertIdentity | tcg/include/Math/Matrix4x4.h:306-340 | the identity inverts to itself whenever eps < 1 |
| Matrix4x4.TransformPoint | tcg/include/Math/Matrix4x4.h:360-364 | `transform(p)` is the homogeneous image of (p, 1), divided by its w unless w is within eps of 0 |
| Matrix4x4.Transform3x4 | tcg/include/Math/Matrix4x4.h:370-377 | `transform3x4(p)` is the first three coordinates of the image of (p, 1) |
| Matrix4x4.IdentityFixesPoints | tcg/include/Math/Matrix4x4.h:370-377 | `identity().transform3x4(p)` is p |
| Matrix4x4.AffineTransformsAgree | tcg/include/Math/Matrix4x4.h:360-377 | for an affine matrix (fourth row 0 0 0 1) `transform` and `transform3x4` give the same point |
| Matrix4x4.Transform3x4IgnoresFourthRow | tcg/include/Math/Matrix4x4.h:370-377 | `transform3x4` reads only the top three rows |
| Matrix4x4.Transform3x4EFinite | tcg/include/Math/Matrix4x4.h:370-377 | on finite points the extended-real `transform3x4` agrees with the real one |
| Matrix4x4.TransformVectorIsLinearPart | tcg/include/Math/Matrix4x4.h:381-384 | `transformVector(v)` is the image of (v, 0), so translation is ignored |
| Matrix4x4.TransformVectorOfDifference | tcg/include/Math/Matrix4x4.h:381-384 | the transformed difference of two points is the difference of the transformed points |
| Matrix4x4.FromRotationMaps | tcg/include/Math/Matrix4x4.h:169-175 | `mat4(r, p)` is affine and maps q to r q + p |
| Matrix4x4.TRS | tcg/include/Math/Matrix4x4.h:388-396 | the columns of `TRS(p, q, s)` are the rotation's columns scaled by s.x, s.y and s.z, with p as translation |
| Matrix4x4.ScaleColumnsApply | tcg/include/Math/Matrix4x4.h:392-394 | scaling the columns of r by s and then applying it to q is applying r to s ⊙ q |
| Matrix4x4.TRSMaps | tcg/include/Math/Matrix4x4.h:388-396 | `TRS(p, r, s)` maps q to r (s ⊙ q) + p: scale, then rotate, then translate |
| Matrix4x4.TRSIsFromRotation | tcg/include/Math/Matrix4x4.h:388-396 | TRS is `mat4(r', p)` for the column-scaled rotation r' |
| Matrix4x4.TRSNeutral | tcg/include/Math/Matrix4x4.h:388-396 | zero translation, identity rotation and unit scale give the identity |
| Matrix4x4.RotationFixesCenter | tcg/include/Math/Matrix4x4.h:419-423 | `rotation(q, p)` keeps p fixed and rotates vectors by r |
| Geometry.Default | tcg/include/Geometry/Bounds3.h:70-73 | the default box is empty and contains no finite point |
| Geometry.CoversIsContains | tcg/include/Geometry/Bounds3.h:211-220 | for NaN-free points the per-axis covering relation is `contains` |
| Geometry.Set | tcg/include/Geometry/Bounds3.h:146-156 | each axis of `set(a, b)` holds the two given coordinates, swapped when needed, so NaN-free corners give min <= max on every axis |
| Geometry.SetOrdered | tcg/include/Geometry/Bounds3.h:146-156 | already ordered corners are stored unchanged |
| Geometry.EmptyFacts | tcg/include/Geometry/Bounds3.h:139-143 | the empty box is empty, contains no finite point and has +inf area |
| Geometry.InflateEmptyByPoint | tcg/include/Geometry/Bounds3.h:159-162 | inflating the empty box by a finite point gives the degenerate box at that point, which still counts as empty |
| Geometry.InflateByEmptyBox | tcg/include/Geometry/Bounds3.h:183-187 | inflating any NaN-free box by the empty box gives the whole space (-inf, +inf) |
| Geometry.InflateScaleEmpty | tcg/include/Geometry/Bounds3.h:171-180 | `inflate(s)` of the empty box yields NaN corners, a box that is not empty and contains every point |
| Geometry.InflatePointGrows | tcg/include/Geometry/Bounds3.h:43-58 | after `inflate(p)` the box holds p and everything it held before |
| Geometry.AxisGrows | tcg/include/Geometry/Bounds3.h:43-58 | one axis of the inflation takes in the new value and keeps every value it held |
| Geometry.InflateBoxGrows | tcg/include/Geometry/Bounds3.h:183-187 | `inflate(box)` holds both corners of the argument and everything held before |
| Geometry.InflateAllNaN | tcg/include/Geometry/Bounds3.h:43-58 | NaN points never move a box, because every comparison with NaN is false |
| Geometry.InflateAllCovers | tcg/include/Geometry/Bounds3.h:159-162 | inflating by a sequence of points covers each of them and keeps what was covered |
| Geometry.InflateAllSmallest | tcg/include/Geometry/Bounds3.h:159-162 | the empty box inflated by points lies within every box covering those points |
| Geometry.InflateAllAttained | tcg/include/Geometry/Bounds3.h:43-58 | each end of the inflated empty box is a sentinel or a coordinate of one of the points |
| Geometry.TransformSmallest | tcg/include/Geometry/Bounds3.h:190-208 | the transformed box covers each mapped corner and lies within every box that does |
| Geometry.IdentityFixesCorners | tcg/include/Geometry/Bounds3.h:190-208 | the identity maps every corner of a finite box to itself |
| Geometry.CornerCoordinate | tcg/include/Geometry/Bounds3.h:190-208 | each coordinate of each corner is that axis's min or max |
| Geometry.InflateByOwnCorners | tcg/include/Geometry/Bounds3.h:190-208 | the empty box inflated by the eight corners of a finite ordered box is that box |
| Geometry.CopyFiniteOrdered | tcg/include/Geometry/Bounds3.h:80-85 | the copy constructor (identity transform) reproduces a finite ordered box |
| Geometry.CopyInfiniteBox | tcg/include/Geometry/Bounds3.h:80-85 | copying a box whose corners are all infinite gives the empty box |
| Geometry.CopySentinels | tcg/include/Geometry/Bounds3.h:80-85 | copying the empty box or the whole space gives the empty box |
| Geometry.FiniteMeasures | tcg/include/Geometry/Bounds3.h:88-118 | for finite boxes `center`, `size` and `area` are the midpoint, the extent and 2(xy + yz + zx) |
| Geometry.CenterInside | tcg/include/Geometry/Bounds3.h:88-91 | the centre of a finite ordered box lies in the box |
| Geometry.ScaleAboutMid | tcg/include/Geometry/Bounds3.h:171-180 | the scaled axis keeps its midpoint and has its length scaled by s |
| Geometry.InflateScaleFinite | tcg/include/Geometry/Bounds3.h:171-180 | `inflate(s)` does nothing when s <= 0; otherwise it keeps the centre and scales the size by s |
| TriangleMeshes.NewArraysConsistent | tcg/include/TriangleMesh.h:205-215 | the fresh record is consistent and well indexed |
| TriangleMeshes.InterpolateCorners | tcg/include/TriangleMesh.h:131-136 | interpolation at barycentric (1,0,0), (0,1,0) and (0,0,1) gives the corresponding value |
| TriangleMeshes.TriangleCenter | tcg/include/TriangleMesh.h:57-61 | `triangleCenter` is the equally weighted barycentric interpolation |
| TriangleMeshes.CenterOfPoint | tcg/include/TriangleMesh.h:57-61 | the centre of a triangle with three equal vertices is that vertex |
| TriangleMeshes.FaceDirectionOrthogonal | tcg/include/TriangleMesh.h:33-37 | the direction `triangleNormal` normalises is orthogonal to both edges from v0 |
| TriangleMeshes.NormalAtCorners | tcg/include/TriangleMesh.h:183-193 | with vertex normals, `normalAt` at a triangle corner gives that vertex's normal |
| TriangleMeshes.NormalAtNotRenormalised | tcg/include/TriangleMesh.h:183-193 | the interpolated normal is not renormalised: halfway between two orthogonal unit normals its squared length is 1/2 |
| TriangleMeshes.GetDataNewMesh | tcg/include/TriangleMesh.h:225-229 | `getData()` returns the record given to the constructor |
| TriangleMeshes.SetColors | tcg/include/TriangleMesh.h:245-250 | `setColors` replaces the colours and their count and leaves the other arrays and counts alone |
| TriangleMeshes.SetColorsTwice | tcg/include/TriangleMesh.h:245-250 | only the last `setColors` counts |
| TriangleMeshes.MeshBounds | tcg/include/TriangleMesh.h:240-243 | the mesh box contains every vertex |
| TriangleMeshes.MeshBoundsSmallest | tcg/include/TriangleMesh.h:240-243 | the mesh box lies within every box containing all vertices, and is empty without a vertex array |
| MeshSweepers.SidePair | tcg/source/MeshSweeper.cpp:61-71 | side quad i is the triangles (i, i+np, i+1 mod np) and (i+np, (i+1 mod np)+np, i+1 mod np) |
| MeshSweepers.FillSides | tcg/source/MeshSweeper.cpp:61-71 | the side loop fills the first 2np slots with the side triangles and nothing else |
| MeshSweepers.FillCaps | tcg/source/MeshSweeper.cpp:73-83 | the cap loop fills the remaining slots with the cap triangles and leaves the side slots alone |
| MeshSweepers.FillCylinderTriangles | tcg/source/MeshSweeper.cpp:61-83 | the two loops together write exactly the cylinder topology |
| MeshSweepers.EvenCapStart | tcg/source/MeshSweeper.cpp:73-83 | for an even number of points each cap fan starts at an even index, never at np - 1 |
| MeshSweepers.CylinderIndexRange | tcg/source/MeshSweeper.cpp:73-83 | every triangle index lies below 2np exactly when np is even or np is 3 |
| MeshSweepers.OddCylinderOverflow | tcg/source/MeshSweeper.cpp:73-83 | for odd np >= 5, second-cap triangle (np - 1) / 2 is (2np - 1, np + 1, 2np), and its index 2np equals the vertex count, one past the last vertex |
| MeshSweepers.SquareCaps | tcg/source/MeshSweeper.cpp:73-83 | for a square the caps are (0,1,2), (2,3,0), (4,6,5) and (6,4,7) |
| MeshSweepers.EvenCapRepeats | tcg/source/MeshSweeper.cpp:73-83 | for even np >= 6 the cap fan repeats triangle (0,1,2), so the caps do not tile the polygon |
| MeshSweepers.CylinderVertices | tcg/source/MeshSweeper.cpp:50-57 | the vertex array has 2np entries |
| MeshSweepers.CylinderRingsOffset | tcg/source/MeshSweeper.cpp:50-57 | before m is applied, the first ring is the second ring moved by the path |
| MeshSweepers.MakeCylinder | tcg/source/MeshSweeper.cpp:26-89 | the swept mesh is consistent, has 2np vertices and 2np + 2(np - 2) triangles, and is well indexed exactly when np is even or 3; its normals are those `computeNormals` derives from the final arrays |
| MeshSweepers.SweptVertices | tcg/source/MeshSweeper.cpp:50-57 | the swept mesh's vertices are the two transformed rings |
| MeshSweepers.MakeCylinderAt | tcg/source/MeshSweeper.cpp:143-156 | the public cylinder sweeps the circle along -height * normal, with the same well-indexed condition |
| MeshSweepers.DefaultCylinderCounts | tcg/include/MeshSweeper.h:80-85 | with the default 16 segments the cylinder has 32 vertices and 60 triangles and is well indexed |
| MeshSweepers.FaceCorners | tcg/source/MeshSweeper.cpp:102-114 | the box face polyline has four corners |
| MeshSweepers.MakeBox | tcg/source/MeshSweeper.cpp:91-116 | a box is a well-indexed mesh of 8 vertices and 12 triangles |
| MeshSweepers.BoxVertices | tcg/source/MeshSweeper.cpp:91-116 | a box's vertices are the face square swept along the normal scaled by the size |
| MeshSweepers.MakeBoxPlaced | tcg/source/MeshSweeper.cpp:118-141 | the oriented box is the unit box at the origin placed by the TRS matrix |
| MeshSweepers.FaceFromAxes | tcg/source/MeshSweeper.cpp:102-115 | for a right-handed frame the face corners are the half-size square and the path is the full size along z |
| MeshSweepers.CanonicalFace | tcg/source/MeshSweeper.cpp:102-114 | the face of the axis-aligned cube of side s is the square of half-side s/2 at z = -s/2 |
| MeshSweepers.CanonicalPath | tcg/source/MeshSweeper.cpp:115 | the sweep path of that cube is (0, 0, s) |
| MeshSweepers.SweptSquare | tcg/source/MeshSweeper.cpp:50-57 | sweeping a square along z gives the moved square followed by the original |
| MeshSweepers.CubeSweep | tcg/source/MeshSweeper.cpp:91-116 | the canonical cube's vertices are the eight corners (+/-s/2, +/-s/2, +/-s/2), transformed by m |
| MeshSweepers.MakeCube | tcg/include/MeshSweeper.h:46-53 | `makeCube` is the box with equal sides, so 8 vertices and 12 triangles |
| MeshSweepers.MakeCubePlaced | tcg/include/MeshSweeper.h:55-61 | the oriented cube is the oriented box with equal scales |
| MeshSweepers.MakeUnitCube | tcg/include/MeshSweeper.h:63-66 | `makeCube()` is the unit box at the origin placed by a TRS with unit scale |
| SphereSweeps.SphereTopologyLength | tcg/source/MeshSweeper.cpp:167-169 | the north fan, the bands and the south fan together hold 2 * mers^2 triangles |
| SphereSweeps.SphereNorthSlot | tcg/source/MeshSweeper.cpp:208-214 | the first mers slots are the north fan around vertex 0 |
| SphereSweeps.SphereBandSlot | tcg/source/MeshSweeper.cpp:215-226 | band s occupies the 2 * mers slots after the previous bands |
| SphereSweeps.SphereSouthSlot | tcg/source/MeshSweeper.cpp:227-234 | the last mers slots are the south fan around the last vertex |
| SphereSweeps.BandSlotInRange | tcg/source/MeshSweeper.cpp:215-226 | every band triangle indexes existing vertices and has three distinct corners |
| SphereSweeps.SouthSlotInRange | tcg/source/MeshSweeper.cpp:227-234 | every south-fan triangle indexes existing vertices and has three distinct corners |
| SphereSweeps.SphereTopologyInRange | tcg/source/MeshSweeper.cpp:206-234 | every sphere triangle indexes existing vertices and has three distinct corners |
| SphereSweeps.FillNorth | tcg/source/MeshSweeper.cpp:208-214 | the north loop writes exactly the north fan |
| SphereSweeps.FillBand | tcg/source/MeshSweeper.cpp:215-226 | one pass of the band loop writes exactly one band |
| SphereSweeps.FillSouth | tcg/source/MeshSweeper.cpp:227-234 | the south loop writes exactly the south fan |
| SphereSweeps.FillSphereTriangles | tcg/source/MeshSweeper.cpp:206-234 | the triangle loops write exactly the sphere topology |
| SphereSweeps.SpherePoles | tcg/source/MeshSweeper.cpp:175-204 | the vertex array has mers^2 + 2 entries, starting at the north pole and ending at the south pole |
| SphereSweeps.SphereVertexAt | tcg/source/MeshSweeper.cpp:175-204 | vertex 1 + s * mers + m is the s-th arc point rotated m times about the axis |
| SphereSweeps.FillRing | tcg/source/MeshSweeper.cpp:188-202 | one ring is the point rotated 0 to mers - 1 times, each with its radial normal |
| SphereSweeps.FillSphereVertices | tcg/source/MeshSweeper.cpp:175-204 | the vertex loop writes the poles and the rings, each with its radial normal |
| SphereSweeps.MakeSphere | tcg/source/MeshSweeper.cpp:158-236 | the sphere is consistent and well indexed, with mers^2 + 2 vertices and normals and 2 * mers^2 proper triangles, where mers is clamped to at least 6 |
| SphereSweeps.MakeDefaultSphere | tcg/include/MeshSweeper.h:69-72 | with the default 16 meridians the sphere has 258 vertices and 512 triangles |
| SphereSweeps.MakeUnitSphere | tcg/include/MeshSweeper.h:74-77 | `makeSphere()` is the well-indexed unit sphere about the origin with 258 vertices and 512 triangles, and each normal equals its vertex |
| SphereSweeps.FewMeridiansClamped | tcg/source/MeshSweeper.cpp:164-169 | fewer than 6 meridians give the 6-meridian sphere: 38 vertices and 72 triangles |
| Models.NewPrimitive | tcg/include/Model.h:96-101 | a new primitive has the default material and the identity matrix, which fixes every point |
| Models.CopyIgnoresMatrix | tcg/include/Model.h:103-107 | the copy constructor does not take the source's matrix, only its material |
| Models.GetAfterSet | tcg/include/Model.h:71-89 | the getters return what the setters stored, null material becomes the default, and each setter leaves the other field alone |
| Models.SettersCommute | tcg/include/Model.h:76-89 | only the last `setMatrix` counts, and the two setters commute |
| Models.SetTRSPlaces | tcg/include/Model.h:51-59 | after `setTRS` the primitive maps each point by scale, then rotation, then translation, and keeps its material |
| Models.SetTRSNeutral | tcg/include/Model.h:51-59 | a neutral `setTRS` gives back the initial placement |
| TriangleMeshShapes.NewShapeBoundsFit | tcg/include/TriangleMeshShape.h:33-38 | the cache holds every vertex and is the smallest such box |
| TriangleMeshShapes.TriangleMeshKept | tcg/source/TriangleMeshShape.cpp:33-40 | `triangleMesh()` returns the constructor's mesh, whichever setters ran |
| TriangleMeshShapes.BoundingBoxOfFinite | tcg/source/TriangleMeshShape.cpp:42-52 | for a finite cache the world box covers every transformed corner of the cache and is the smallest such box |
| TriangleMeshShapes.BoundingBoxIdentity | tcg/source/TriangleMeshShape.cpp:42-52 | under the identity matrix the world box of a finite cache is the cache |
| TriangleMeshShapes.NullMeshEmpty | tcg/source/TriangleMeshShape.cpp:42-52 | a shape around a null mesh reports the empty box |
| TriangleMeshShapes.CacheFixed | tcg/include/TriangleMeshShape.h:46 | the setters never touch the cache, and the material never moves the world box |
| TriangleMeshShapes.ColorsDoNotMoveBounds | tcg/include/TriangleMeshShape.h:33-38 | recolouring a mesh leaves the cached box of a shape built on it as it was |
| TriangleMeshShapes.Clone | tcg/source/TriangleMeshShape.cpp:24-31 | a clone wraps the same mesh data with the identity matrix and the default material |
| TriangleMeshShapes.CloneForgetsPlacement | tcg/source/TriangleMeshShape.cpp:24-31 | the clone does not depend on the original's matrix or material |
| Scenes.IndexOf | tcg/source/Scene.cpp:72-85 | the position found is the first occurrence of the element |
| Scenes.RemoveFirstCount | tcg/source/Scene.cpp:72-85 | removing from the list takes out exactly one occurrence and nothing else |
| Scenes.BoxCorners | tcg/source/Scene.cpp:145-151 | the corners of the actors' boxes, two per actor, in list order |
| Scenes.UnionAppend | tcg/source/Scene.cpp:56-70 | inflating the union by one more actor's box is the union with that actor appended |
| Scenes.UnionSmallest | tcg/source/Scene.cpp:145-151 | the union covers every actor's box corners and is the smallest such box |
| Scenes.UpdateBounds | tcg/source/Scene.cpp:145-151 | `updateBounds` computes the union of the actors' world boxes |
| Scenes.BoundingBox | tcg/source/Scene.cpp:153-162 | `boundingBox` returns the union when the flag is set, the cache otherwise, and never clears the flag |
| Scenes.FindActor | tcg/source/Scene.cpp:44-54 | `findActor` returns the first actor holding the model, and null exactly when none holds it |
| Scenes.AddActor | tcg/source/Scene.cpp:56-70 | a non-null actor is appended and linked; the cache grows by its box unless the flag is set |
| Scenes.DeleteActor | tcg/source/Scene.cpp:72-85 | an actor of this scene is removed, unlinked and sets the flag; any other argument changes nothing |
| Scenes.DeleteActors | tcg/source/Scene.cpp:115-129 | every actor is unlinked, the cache is the empty box and the flag is cleared |
| Scenes.AddLight | tcg/source/Scene.cpp:87-99 | a non-null light is appended and linked; actors and cache stay |
| Scenes.DeleteLight | tcg/source/Scene.cpp:101-113 | a light of this scene is removed and unlinked; any other argument changes nothing |
| Scenes.DeleteLights | tcg/source/Scene.cpp:131-143 | every light is unlinked and the list emptied; actors and cache stay |
| Scenes.CacheValidKept | tcg/source/Scene.cpp:56-143 | every list operation keeps the invariant that a clear flag means the cache is the union of the actors' boxes |
| Scenes.FlagStaysSet | tcg/source/Scene.cpp:72-143 | once set, the flag stays set through every operation except `deleteActors` |
| Scenes.AddThenBoundingBox | tcg/source/Scene.cpp:56-70 | adding an actor and asking for the box gives the union with that actor, whether or not the flag was set |
| Materials.SetSurfaceLastWins | tcg/source/Material.cpp:35-48 | `setSurface` overwrites the whole surface: only the last call counts |
| Materials.BlackSurface | tcg/source/Material.cpp:41-47 | a black colour or a zero finish gives black lit colours |
| Materials.Get | tcg/source/Material.cpp:86-96 | `get(name)` is the first material with that name, and null exactly when no material has it |
| Materials.GetAfterAppend | tcg/source/Material.cpp:86-96 | appending keeps every earlier lookup, and a fresh name then resolves to the new entry |
| Materials.NewNamed | tcg/source/Material.cpp:73-84 | `New(name, color)` returns the registered material unchanged, or appends a new one |
| Materials.NewNamedTwice | tcg/source/Material.cpp:73-84 | asking twice for a name gives the same material and adds at most one entry |
| Materials.NewAnonymous | tcg/source/Material.cpp:56-71 | `New(color)` always appends a material named "mat" plus the registry size |
| Materials.AnonymousNamesDistinct | tcg/source/Material.cpp:56-71 | different registry sizes give different anonymous names |
| Materials.AnonymousNameClash | tcg/source/Material.cpp:56-71 | `New(color)` does not check for a clash: it can add a second "mat1", and `get` then finds the first |
| Materials.ParseDigits | tcg/source/Material.cpp:56-71 | the decimal digits `%d` writes read back as the number |
| BitFlags.NoBitsInitially | tcg/include/Core/Flags.h:49-66 | `Flags()` and `clear()` hold no bit; `Flags(mask)` and assignment hold exactly the mask |
| BitFlags.SetThenQuery | tcg/include/Core/Flags.h:69-108 | after `set(mask)` the mask `isSet`; after `reset(mask)` it does not `test` |
| BitFlags.OutsideMaskUnchanged | tcg/include/Core/Flags.h:69-78 | `set` and `reset` leave every bit outside the mask as it was |
| BitFlags.EnableIsSetOrReset | tcg/include/Core/Flags.h:87-90 | `enable(mask, state)` sets the mask when state holds, clears it otherwise, and leaves other bits alone |
| BitFlags.SetDetermined | tcg/include/Core/Flags.h:69-72 | the only pattern holding the mask and keeping the bits outside it is `set(mask)` |
| BitFlags.ResetDetermined | tcg/include/Core/Flags.h:75-78 | the only pattern holding no mask bit and keeping the bits outside it is `reset(mask)` |
| BitFlags.IsSetUnion | tcg/include/Core/Flags.h:99-102 | if the union of two masks `isSet`, then each mask `isSet` |
| BitFlags.IsSetBoth | tcg/include/Core/Flags.h:99-102 | if each of two masks `isSet`, their union `isSet` |
| BitFlags.IsSetBits | tcg/include/Core/Flags.h:98-102 | `isSet(mask)` holds exactly when every bit of the mask is set |
| BitFlags.TestBits | tcg/include/Core/Flags.h:104-108 | `test(mask)` holds exactly when some bit of the mask is set |
| BitFlags.EmptyMask | tcg/include/Core/Flags.h:99-108 | the empty mask always `isSet` and never `test`s |
| BitFlags.SetMaskTests | tcg/include/Core/Flags.h:99-108 | a nonzero mask that `isSet` also `test`s |

## Left out

- Floating point: reals are exact. Only infinities and NaN are modelled, in the box coordinates, because the empty-box sentinel needs them. Rounding is not modelled.
- `Math::isZero(x, eps)` is modelled as -eps <= x <= eps, and `isPositive` as x > 0. The Math header is not part of this model.
- Code this model cannot see becomes a parameter:
  - `vec3::versor` (it divides by a square root);
  - the quaternion and Euler-angle conversions to `mat3` (a `Mat3` parameter);
  - `makeCircle` and `makeArc` (the point lists);
  - the `mat4::rotation` step of `makeSphere` (the matrix `rot`);
  - `Math::inverse(radius)` (the real `invRadius`);
  - the default `Finish()` coefficients.
- Assumptions about code this model cannot see:
  - `MaterialFactory::add` is taken to append to the registry;
  - `makeCircle(..., 16)` is taken to yield 16 points;
  - `Polyline::close()` is taken to add no vertex, so a box face is its four corners (`FaceCorners`);
  - in `mat4::set(r, p)` the widening of each `mat3` column to a 4-vector is taken to set w = 0, so the fourth row is 0 0 0 1 (`FromRotation`, `FromRotationMaps`).
- Matrix4x4.Invert: the success branch is computed as the adjugate scaled by 1/det, but the product with the original being the identity is not proved, because it is a degree-4 polynomial identity in 16 variables. `perspective`, `frustum`, `ortho`, `lookAt` and the Euler-angle `TRS` overload are not modelled. The last needs trigonometry.
- Geometry: `diagonalLength` and `maxSize` are not modelled, because they need a square root and a maximum over floats.
- TriangleMesh.cpp is not part of this model:
  - `TriangleMesh::boundingBox()` is taken to be the empty box inflated by every vertex;
  - the mesh's `clone()` is taken to copy the arrays;
  - `computeNormals` is not modelled.
- Ownership and memory are not modelled: reference counting (`SharedObject`, `makeUse`, `release`), `new`/`delete` of the arrays, `userData`, and `Arrays::clone`.
- MeshSweepers.MakeUnitCube: the literal corner coordinates of `makeCube()` are stated through `BoxVertices` and `CubeSweep` under an axis-preserving `versor`, not as one equation about the unit cube. The solver does not close that equation over literal vectors.
- MeshSweepers.MakeCylinder: needs at least two circle points. With one point the source allocates no triangles but its side loop still writes two.
- MeshSweepers.MakeCylinder: the normals are not modelled. They come from `computeNormals`, which is a parameter here, and nothing is promised about their values; the boxes and cubes inherit this.
- Models.CopyPrimitive: the matrix of a copied primitive is whatever `mat4`'s default constructor leaves, so it is a parameter, and the copy's matrix is not fixed.
- Scene: the `Scene.h` constructor is not part of this model. A new scene is taken to have empty lists, the empty box and a clear flag.
  - `Scene::New` naming is left out, because it formats a global counter with `sprintf`.
  - The list classes are taken as append and remove-first-occurrence.
- Scenes.BoundingBox: the world box of each actor is the function `box`, read at call time. A model moved after `addActor` while the flag is clear leaves the cache stale; the model does not track those matrices.
- Materials.NewAnonymous: `%d` is modelled on the non-negative registry size. The `char[16]` buffer is taken as large enough.
- Rendering, OpenGL, `MeshReader`, cameras, lights' colours and the GUI are outside the geometric core.

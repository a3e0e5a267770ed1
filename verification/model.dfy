/** `Model` and `Primitive`: a placement matrix and a material.  The
    material is never null: a request to store null stores the default
    material instead. */
module Models {
  import opened Wrappers
  import opened Vectors
  import opened Matrix4x4

  /** A material as a primitive holds it: the default material, or a
      material of the registry named by its position there. */
  datatype MaterialRef = DefaultMaterial | MaterialAt(index: nat)

  datatype Primitive = Primitive(matrix: Mat4, material: MaterialRef)

  /** `Primitive()`: the identity placement and the default material. */
  function NewPrimitive(): (p: Primitive)
    ensures p.material == DefaultMaterial && p.matrix == Identity()
    ensures forall q: Vec3 :: Transform3x4(p.matrix, q) == q
  {
    Primitive(Identity(), DefaultMaterial)
  }

  /** The copy constructor `Primitive(const Primitive&)` copies only the
      material; the matrix is left as `mat4`'s default constructor leaves
      it, which does not initialise the entries.  Those entries are the
      parameter `indeterminate`. */
  function CopyPrimitive(src: Primitive, indeterminate: Mat4): Primitive {
    Primitive(indeterminate, src.material)
  }

  /** The copy's matrix owes nothing to the source's: two primitives that
      differ only in their matrix copy to the same primitive. */
  lemma CopyIgnoresMatrix(src: Primitive, m: Mat4, indeterminate: Mat4)
    ensures CopyPrimitive(src.(matrix := m), indeterminate) == CopyPrimitive(src, indeterminate)
    ensures CopyPrimitive(src, indeterminate).matrix == CopyPrimitive(NewPrimitive(), indeterminate).matrix
  {
  }

  function GetMatrix(p: Primitive): Mat4 {
    p.matrix
  }

  /** `setMatrix(m)`: stores m; the material stays. */
  function SetMatrix(p: Primitive, m: Mat4): (r: Primitive)
    ensures r.material == p.material
  {
    p.(matrix := m)
  }

  function GetMaterial(p: Primitive): MaterialRef {
    p.material
  }

  /** `setMaterial(m)`: stores m, or the default material when m is null;
      the matrix stays. */
  function SetMaterial(p: Primitive, m: Option<MaterialRef>): (r: Primitive)
    ensures r.matrix == p.matrix
  {
    p.(material := m.GetOr(DefaultMaterial))
  }

  /** What `setMatrix` and `setMaterial` store is what `getMatrix` and
      `getMaterial` return, and each setter leaves the other field alone. */
  lemma GetAfterSet(p: Primitive, m: Mat4, mat: Option<MaterialRef>)
    ensures GetMatrix(SetMatrix(p, m)) == m
    ensures GetMaterial(SetMatrix(p, m)) == GetMaterial(p)
    ensures mat.None? ==> GetMaterial(SetMaterial(p, mat)) == DefaultMaterial
    ensures mat.Some? ==> GetMaterial(SetMaterial(p, mat)) == mat.value
    ensures GetMatrix(SetMaterial(p, mat)) == GetMatrix(p)
  {
  }

  /** Only the last `setMatrix` counts, and the two setters commute. */
  lemma SettersCommute(p: Primitive, m1: Mat4, m2: Mat4, mat: Option<MaterialRef>)
    ensures SetMatrix(SetMatrix(p, m1), m2) == SetMatrix(p, m2)
    ensures SetMaterial(SetMatrix(p, m1), mat) == SetMatrix(SetMaterial(p, mat), m1)
  {
  }

  /** `setTRS(p, q, s)` and `setTRS(p, angles, s)`: `setMatrix(TRS(...))`.
      Both overloads reach TRS through a rotation matrix (from the
      quaternion or from the Euler angles); that matrix is the parameter r. */
  function SetTRS(prim: Primitive, p: Vec3, r: Mat3, s: Vec3): Primitive
  {
    SetMatrix(prim, TRS(p, r, s))
  }

  /** After `setTRS` the primitive holds the TRS matrix, which maps each
      local point by scaling, then rotating, then translating; the material
      stays. */
  lemma SetTRSPlaces(prim: Primitive, p: Vec3, r: Mat3, s: Vec3, q: Vec3)
    ensures GetMatrix(SetTRS(prim, p, r, s)) == TRS(p, r, s)
    ensures Transform3x4(GetMatrix(SetTRS(prim, p, r, s)), q) == Add3(Apply3(r, Hadamard(s, q)), p)
    ensures GetMaterial(SetTRS(prim, p, r, s)) == GetMaterial(prim)
  {
    TRSMaps(p, r, s, q);
  }

  /** `setTRS` with zero translation, the identity rotation and unit scale
      puts the primitive back at its initial placement. */
  lemma SetTRSNeutral(prim: Primitive)
    ensures GetMatrix(SetTRS(prim, Null3, IdentityRotation, Vec3(1.0, 1.0, 1.0))) == GetMatrix(NewPrimitive())
  {
    TRSNeutral();
  }
}

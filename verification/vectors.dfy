/** Three- and four-component vectors over exact reals, and three-component
    vectors over extended reals (the corners of a bounding box). */
module Vectors {
  import opened ExtReals

  datatype Vec3 = Vec3(x: real, y: real, z: real)
  datatype Vec4 = Vec4(x: real, y: real, z: real, w: real)
  datatype Vec3E = Vec3E(x: Ext, y: Ext, z: Ext)

  const Null3 := Vec3(0.0, 0.0, 0.0)

  function Add3(a: Vec3, b: Vec3): Vec3 {
    Vec3(a.x + b.x, a.y + b.y, a.z + b.z)
  }

  function Sub3(a: Vec3, b: Vec3): Vec3 {
    Vec3(a.x - b.x, a.y - b.y, a.z - b.z)
  }

  function Scale3(a: Vec3, s: real): Vec3 {
    Vec3(a.x * s, a.y * s, a.z * s)
  }

  function Dot3(a: Vec3, b: Vec3): real {
    a.x * b.x + a.y * b.y + a.z * b.z
  }

  function Cross(a: Vec3, b: Vec3): Vec3 {
    Vec3(a.y * b.z - a.z * b.y, a.z * b.x - a.x * b.z, a.x * b.y - a.y * b.x)
  }

  function Add4(a: Vec4, b: Vec4): Vec4 {
    Vec4(a.x + b.x, a.y + b.y, a.z + b.z, a.w + b.w)
  }

  function Scale4(a: Vec4, s: real): Vec4 {
    Vec4(a.x * s, a.y * s, a.z * s, a.w * s)
  }

  /** `vec4(p, w)`. */
  function Extend(p: Vec3, w: real): Vec4 {
    Vec4(p.x, p.y, p.z, w)
  }

  /** `vec3(v)`: the first three components. */
  function Truncate(v: Vec4): Vec3 {
    Vec3(v.x, v.y, v.z)
  }

  /** Component i (0..3) of a four-vector, `v[i]`. */
  function At4(v: Vec4, i: int): real
    requires 0 <= i < 4
  {
    if i == 0 then v.x else if i == 1 then v.y else if i == 2 then v.z else v.w
  }

  /** Component a (0..2) of a three-vector, `p[a]`. */
  function At3(p: Vec3, a: int): real
    requires 0 <= a < 3
  {
    if a == 0 then p.x else if a == 1 then p.y else p.z
  }

  /** Component a (0..2) of an extended three-vector. */
  function AtE(p: Vec3E, a: int): Ext
    requires 0 <= a < 3
  {
    if a == 0 then p.x else if a == 1 then p.y else p.z
  }

  /** A finite point seen as an extended point. */
  function Lift(p: Vec3): (r: Vec3E)
    ensures forall a :: 0 <= a < 3 ==> AtE(r, a) == Fin(At3(p, a))
  {
    Vec3E(Fin(p.x), Fin(p.y), Fin(p.z))
  }

  predicate IsFinite(p: Vec3E) {
    p.x.Fin? && p.y.Fin? && p.z.Fin?
  }

  /** The finite point an all-finite extended point stands for. */
  function Lower(p: Vec3E): (r: Vec3)
    requires IsFinite(p)
    ensures Lift(r) == p
  {
    Vec3(p.x.r, p.y.r, p.z.r)
  }

  function AddE(a: Vec3E, b: Vec3E): Vec3E {
    Vec3E(Add(a.x, b.x), Add(a.y, b.y), Add(a.z, b.z))
  }

  function SubE(a: Vec3E, b: Vec3E): Vec3E {
    Vec3E(Sub(a.x, b.x), Sub(a.y, b.y), Sub(a.z, b.z))
  }

  /** `p * s` for a finite scalar s. */
  function ScaleE(a: Vec3E, s: real): Vec3E {
    Vec3E(Mul(a.x, Fin(s)), Mul(a.y, Fin(s)), Mul(a.z, Fin(s)))
  }
}

/** RGB colours as used by materials and per-vertex mesh colours. */
module Colors {

  datatype Color = Color(r: real, g: real, b: real)

  const Black := Color(0.0, 0.0, 0.0)

  /** `color * s`: every channel scaled by s. */
  function Scale(c: Color, s: real): (r: Color)
    ensures s == 0.0 ==> r == Black
    ensures s == 1.0 ==> r == c
  {
    Color(c.r * s, c.g * s, c.b * s)
  }
}

/** Extended reals with the IEEE 754 rules that matter for bounding boxes.

    Bounds3 stores its empty state as the corners (+inf, -inf), and its
    operations then add, multiply and compare those infinities.  Exact
    `real` arithmetic stands in for finite floats; the two infinities and
    NaN (the result of `0 * inf` and `inf + -inf`) are explicit values. */
module ExtReals {

  datatype Ext = NegInf | Fin(r: real) | PosInf | NaN

  /** -1, 0 or 1 for the sign of a non-NaN value. */
  function Sign(x: Ext): int
    requires !x.NaN?
  {
    match x
    case NegInf => -1
    case PosInf => 1
    case Fin(a) => if a > 0.0 then 1 else if a < 0.0 then -1 else 0
  }

  function Neg(x: Ext): (r: Ext)
    ensures x.Fin? <==> r.Fin?
    ensures x.NaN? <==> r.NaN?
  {
    match x
    case NegInf => PosInf
    case PosInf => NegInf
    case Fin(a) => Fin(-a)
    case NaN => NaN
  }

  /** IEEE addition: NaN is absorbing and `inf + -inf` is NaN. */
  function Add(x: Ext, y: Ext): (r: Ext)
    ensures x.Fin? && y.Fin? ==> r == Fin(x.r + y.r)
    ensures r.NaN? <==> x.NaN? || y.NaN? || (x.PosInf? && y.NegInf?) || (x.NegInf? && y.PosInf?)
  {
    if x.NaN? || y.NaN? then NaN
    else if x.Fin? && y.Fin? then Fin(x.r + y.r)
    else if (x.PosInf? && y.NegInf?) || (x.NegInf? && y.PosInf?) then NaN
    else if x.PosInf? || y.PosInf? then PosInf
    else NegInf
  }

  function Sub(x: Ext, y: Ext): Ext {
    Add(x, Neg(y))
  }

  /** IEEE multiplication: NaN is absorbing, `0 * inf` is NaN, and the sign
      of an infinite product is the product of the signs. */
  function Mul(x: Ext, y: Ext): (r: Ext)
    ensures x.Fin? && y.Fin? ==> r == Fin(x.r * y.r)
    ensures r.NaN? <==> x.NaN? || y.NaN? || (x == Fin(0.0) && !y.Fin?) || (!x.Fin? && y == Fin(0.0))
  {
    if x.NaN? || y.NaN? then NaN
    else if x.Fin? && y.Fin? then Fin(x.r * y.r)
    else
      var s := Sign(x) * Sign(y);
      if s == 0 then NaN else if s > 0 then PosInf else NegInf
  }

  /** Position of a non-NaN value on the extended line, used to order infinities. */
  function Rank(x: Ext): int
    requires !x.NaN?
  {
    match x
    case NegInf => 0
    case Fin(_) => 1
    case PosInf => 2
  }

  /** IEEE `<`: false whenever either side is NaN. */
  predicate Lt(x: Ext, y: Ext) {
    if x.NaN? || y.NaN? then false
    else if x.Fin? && y.Fin? then x.r < y.r
    else Rank(x) < Rank(y)
  }

  /** IEEE `>=`, i.e. `y <= x`: also false whenever either side is NaN. */
  predicate Ge(x: Ext, y: Ext) {
    !x.NaN? && !y.NaN? && !Lt(x, y)
  }

  /** The ordering facts the bounding-box proofs rely on. */
  lemma LtFacts(x: Ext, y: Ext, z: Ext)
    ensures !Lt(x, x)
    ensures Lt(x, y) ==> !Lt(y, x)
    ensures Lt(x, y) && Lt(y, z) ==> Lt(x, z)
    ensures !x.NaN? && !y.NaN? ==> Lt(x, y) || Lt(y, x) || x == y
    ensures !x.NaN? && !y.NaN? && !z.NaN? && !Lt(y, x) && Lt(z, x) ==> Lt(z, y)
    ensures !x.NaN? && !y.NaN? && !z.NaN? && !Lt(x, y) && !Lt(y, z) ==> !Lt(x, z)
  {
  }
}

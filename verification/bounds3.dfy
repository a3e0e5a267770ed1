/** `Bounds3`, the axis-aligned bounding box, over extended reals.

    A box is its two corners p1 (min) and p2 (max).  The empty box is the
    sentinel (+inf, +inf, +inf)-(-inf, -inf, -inf), and every operation works
    on those infinities with IEEE rules, so the sentinel's behaviour is
    modelled exactly rather than assumed away. */
module Geometry {
  import opened ExtReals
  import opened Vectors
  import M = Matrix4x4

  datatype Bounds3 = Bounds3(p1: Vec3E, p2: Vec3E)

  /** The lower end of axis a (0, 1 or 2). */
  function Lo(b: Bounds3, a: int): Ext
    requires 0 <= a < 3
  {
    AtE(b.p1, a)
  }

  /** The upper end of axis a (0, 1 or 2). */
  function Hi(b: Bounds3, a: int): Ext
    requires 0 <= a < 3
  {
    AtE(b.p2, a)
  }

  /** No coordinate of p is NaN. */
  predicate NoNaN(p: Vec3E) {
    !p.x.NaN? && !p.y.NaN? && !p.z.NaN?
  }

  /** `setEmpty()`: min at +inf and max at -inf on every axis. */
  function Empty(): Bounds3 {
    Bounds3(Vec3E(PosInf, PosInf, PosInf), Vec3E(NegInf, NegInf, NegInf))
  }

  /** The default constructor `Bounds3()` calls `setEmpty()`. */
  function Default(): (b: Bounds3)
    ensures IsEmpty(b)
    ensures forall p: Vec3 :: !Contains(b, Lift(p))
  {
    Empty()
  }

  /** The box covering all of space. */
  function Whole(): Bounds3 {
    Bounds3(Vec3E(NegInf, NegInf, NegInf), Vec3E(PosInf, PosInf, PosInf))
  }

  /** `isEmpty()`: some axis has `p1 >= p2` (IEEE, so false on NaN). */
  predicate IsEmpty(b: Bounds3) {
    Ge(b.p1.x, b.p2.x) || Ge(b.p1.y, b.p2.y) || Ge(b.p1.z, b.p2.z)
  }

  /** One axis of `contains`: v is neither below lo nor above hi. */
  predicate AxisContains(lo: Ext, hi: Ext, v: Ext) {
    !(Lt(v, lo) || Lt(hi, v))
  }

  /** `contains(p)`: on no axis is p below p1 or above p2. */
  predicate Contains(b: Bounds3, p: Vec3E) {
    AxisContains(b.p1.x, b.p2.x, p.x) && AxisContains(b.p1.y, b.p2.y, p.y) && AxisContains(b.p1.z, b.p2.z, p.z)
  }

  /** b holds every coordinate of p that is not NaN, axis by axis.  For a
      point without NaN this is `Contains`. */
  predicate Covers(b: Bounds3, p: Vec3E) {
    forall a :: 0 <= a < 3 && !AtE(p, a).NaN? ==> AxisContains(Lo(b, a), Hi(b, a), AtE(p, a))
  }

  /** For a point without NaN, covering is containment. */
  lemma CoversIsContains(b: Bounds3, p: Vec3E)
    requires NoNaN(p)
    ensures Covers(b, p) <==> Contains(b, p)
  {
    assert AtE(p, 0) == p.x && AtE(p, 1) == p.y && AtE(p, 2) == p.z;
  }

  /** r lies inside c on every axis. */
  predicate Within(r: Bounds3, c: Bounds3) {
    forall a :: 0 <= a < 3 ==> !Lt(Lo(r, a), Lo(c, a)) && !Lt(Hi(c, a), Hi(r, a))
  }

  /** `set(min, max)`: each axis swapped when max < min. */
  function Set(min: Vec3E, max: Vec3E): (b: Bounds3)
    ensures NoNaN(min) && NoNaN(max) ==> forall a :: 0 <= a < 3 ==> !Lt(Hi(b, a), Lo(b, a))
    ensures forall a :: 0 <= a < 3 ==>
      (Lo(b, a) == AtE(min, a) && Hi(b, a) == AtE(max, a)) || (Lo(b, a) == AtE(max, a) && Hi(b, a) == AtE(min, a))
  {
    Bounds3(Vec3E(if Lt(max.x, min.x) then max.x else min.x,
                  if Lt(max.y, min.y) then max.y else min.y,
                  if Lt(max.z, min.z) then max.z else min.z),
            Vec3E(if Lt(max.x, min.x) then min.x else max.x,
                  if Lt(max.y, min.y) then min.y else max.y,
                  if Lt(max.z, min.z) then min.z else max.z))
  }

  /** `set` keeps an already ordered pair of corners as given. */
  lemma SetOrdered(min: Vec3E, max: Vec3E)
    requires !Lt(max.x, min.x) && !Lt(max.y, min.y) && !Lt(max.z, min.z)
    ensures Set(min, max) == Bounds3(min, max)
  {
  }

  /** One axis of `inflateBounds3`: the new (lo, hi) after seeing v. */
  function LowerEnd(lo: Ext, v: Ext): Ext {
    if Lt(v, lo) then v else lo
  }

  function UpperEnd(hi: Ext, v: Ext): Ext {
    if Lt(hi, v) then v else hi
  }

  /** `inflate(p)`, i.e. `inflateBounds3(p1, p2, p)`. */
  function InflatePoint(b: Bounds3, p: Vec3E): Bounds3 {
    Bounds3(Vec3E(LowerEnd(b.p1.x, p.x), LowerEnd(b.p1.y, p.y), LowerEnd(b.p1.z, p.z)),
            Vec3E(UpperEnd(b.p2.x, p.x), UpperEnd(b.p2.y, p.y), UpperEnd(b.p2.z, p.z)))
  }

  /** `inflate(x, y, z)`: inflation by the finite point (x, y, z). */
  function InflateCoords(b: Bounds3, x: real, y: real, z: real := 0.0): Bounds3 {
    InflatePoint(b, Lift(Vec3(x, y, z)))
  }

  /** `inflate(Bounds3 c)`: inflation by c's min corner, then its max corner. */
  function InflateBox(b: Bounds3, c: Bounds3): Bounds3 {
    InflatePoint(InflatePoint(b, c.p1), c.p2)
  }

  /** `center()`: (p1 + p2) * 0.5. */
  function Center(b: Bounds3): Vec3E {
    ScaleE(AddE(b.p1, b.p2), 0.5)
  }

  /** `size()`: p2 - p1. */
  function Size(b: Bounds3): Vec3E {
    SubE(b.p2, b.p1)
  }

  /** `area()`: a + a with a = sx*sy + sy*sz + sz*sx of `size()`. */
  function Area(b: Bounds3): Ext {
    var s := Size(b);
    var a := Add(Add(Mul(s.x, s.y), Mul(s.y, s.z)), Mul(s.z, s.x));
    Add(a, a)
  }

  /** `inflate(s)`: for positive s, both corners scaled by s about the
      centre (`p * s + center * (1 - s)`); otherwise nothing changes. */
  function InflateScale(b: Bounds3, s: real): Bounds3 {
    if s > 0.0 then
      var c := ScaleE(Center(b), 1.0 - s);
      Bounds3(AddE(ScaleE(b.p1, s), c), AddE(ScaleE(b.p2, s), c))
    else
      b
  }

  /** Corner i (0..7) of the box with corners min and max: bit 0 of i picks
      max on x, bit 1 on y, bit 2 on z (`i & 1`, `i & 2`, `i & 4`). */
  function Corner(min: Vec3E, max: Vec3E, i: int): Vec3E
    requires 0 <= i < 8
  {
    Vec3E(if i % 2 == 1 then max.x else min.x,
          if (i / 2) % 2 == 1 then max.y else min.y,
          if (i / 4) % 2 == 1 then max.z else min.z)
  }

  /** Inflation by every point of pts, first to last. */
  function InflateAll(b: Bounds3, pts: seq<Vec3E>): Bounds3
    decreases |pts|
  {
    if |pts| == 0 then b else InflatePoint(InflateAll(b, pts[..|pts| - 1]), pts[|pts| - 1])
  }

  /** The images under `transform3x4` of the eight corners, in loop order. */
  function TransformedCorners(b: Bounds3, m: M.Mat4): (r: seq<Vec3E>)
    ensures |r| == 8
    ensures forall i :: 0 <= i < 8 ==> r[i] == M.Transform3x4E(m, Corner(b.p1, b.p2, i))
  {
    seq(8, i requires 0 <= i < 8 => M.Transform3x4E(m, Corner(b.p1, b.p2, i)))
  }

  /** `transform(m)`: starting from the empty box, inflate by the image of
      each of the eight corners. */
  function Transform(b: Bounds3, m: M.Mat4): Bounds3 {
    InflateAll(Empty(), TransformedCorners(b, m))
  }

  /** The copy constructor `Bounds3(b, m = identity)`: a copy, then
      `transform(m)`.  Plain copies (`Bounds3 c = b;`) go through it with
      the identity. */
  function CopyBounds(b: Bounds3): Bounds3 {
    Transform(b, M.Identity())
  }

  // ---------------------------------------------------------------------
  // Emptiness and the sentinel

  /** The sentinel box reports empty, holds no finite point, and has
      infinite area. */
  lemma EmptyFacts(p: Vec3)
    ensures IsEmpty(Empty())
    ensures !Contains(Empty(), Lift(p))
    ensures Area(Empty()) == PosInf
  {
  }

  /** Inflating the empty box by one finite point p gives min = max = p: the
      box contains p, yet `isEmpty()` still reports it empty. */
  lemma InflateEmptyByPoint(p: Vec3)
    ensures InflatePoint(Empty(), Lift(p)) == Bounds3(Lift(p), Lift(p))
    ensures Contains(InflatePoint(Empty(), Lift(p)), Lift(p))
    ensures IsEmpty(InflatePoint(Empty(), Lift(p)))
  {
  }

  /** Inflating by an empty box is not a no-op: its infinite corners are
      taken in, and any box without NaN becomes all of space. */
  lemma InflateByEmptyBox(b: Bounds3)
    requires NoNaN(b.p1) && NoNaN(b.p2)
    ensures InflateBox(b, Empty()) == Whole()
  {
  }

  /** `inflate(s)` on the empty box computes inf - inf: both corners become
      NaN, after which `contains` holds for every point and `isEmpty()`
      holds for none. */
  lemma InflateScaleEmpty(s: real, p: Vec3E)
    requires s > 0.0
    ensures InflateScale(Empty(), s) == Bounds3(Vec3E(NaN, NaN, NaN), Vec3E(NaN, NaN, NaN))
    ensures Contains(InflateScale(Empty(), s), p)
    ensures !IsEmpty(InflateScale(Empty(), s))
  {
  }

  // ---------------------------------------------------------------------
  // Inflation

  /** After `inflate(p)` the box contains p (when p has no NaN coordinate),
      and every point it contained before is still contained. */
  lemma InflatePointGrows(b: Bounds3, p: Vec3E, q: Vec3E)
    ensures Covers(InflatePoint(b, p), p)
    ensures NoNaN(p) ==> Contains(InflatePoint(b, p), p)
    ensures Contains(b, q) ==> Contains(InflatePoint(b, p), q)
    ensures Covers(b, q) ==> Covers(InflatePoint(b, p), q)
  {
    AxisGrows(b.p1.x, b.p2.x, p.x, q.x);
    AxisGrows(b.p1.y, b.p2.y, p.y, q.y);
    AxisGrows(b.p1.z, b.p2.z, p.z, q.z);
  }

  /** One axis of the above: the widened interval holds the new value
      (unless it is NaN) and everything the old one held. */
  lemma AxisGrows(lo: Ext, hi: Ext, v: Ext, w: Ext)
    ensures !v.NaN? ==> AxisContains(LowerEnd(lo, v), UpperEnd(hi, v), v)
    ensures AxisContains(lo, hi, w) ==> AxisContains(LowerEnd(lo, v), UpperEnd(hi, v), w)
  {
    LtFacts(v, lo, hi);
    LtFacts(w, lo, v);
    LtFacts(hi, w, v);
    LtFacts(v, w, lo);
  }

  /** `inflate(Bounds3 c)` makes the box contain both corners of c (when they
      have no NaN coordinate), and keeps what it contained. */
  lemma InflateBoxGrows(b: Bounds3, c: Bounds3, q: Vec3E)
    ensures NoNaN(c.p1) ==> Contains(InflateBox(b, c), c.p1)
    ensures NoNaN(c.p2) ==> Contains(InflateBox(b, c), c.p2)
    ensures Contains(b, q) ==> Contains(InflateBox(b, c), q)
  {
    InflatePointGrows(b, c.p1, q);
    InflatePointGrows(b, c.p1, c.p1);
    InflatePointGrows(InflatePoint(b, c.p1), c.p2, c.p1);
    InflatePointGrows(InflatePoint(b, c.p1), c.p2, q);
  }

  /** Inflating by a point whose coordinates are all NaN changes nothing. */
  lemma InflateAllNaN(b: Bounds3, pts: seq<Vec3E>)
    requires forall k :: 0 <= k < |pts| ==> pts[k] == Vec3E(NaN, NaN, NaN)
    ensures InflateAll(b, pts) == b
  {
  }

  /** Inflation by a sequence of points covers each of them and keeps what
      the box covered before. */
  lemma {:induction false} InflateAllCovers(b: Bounds3, pts: seq<Vec3E>, q: Vec3E)
    ensures forall k :: 0 <= k < |pts| ==> Covers(InflateAll(b, pts), pts[k])
    ensures Covers(b, q) ==> Covers(InflateAll(b, pts), q)
    decreases |pts|
  {
    if |pts| > 0 {
      var n := |pts| - 1;
      var prev := InflateAll(b, pts[..n]);
      InflateAllCovers(b, pts[..n], q);
      InflatePointGrows(prev, pts[n], q);
      forall k | 0 <= k < |pts|
        ensures Covers(InflateAll(b, pts), pts[k])
      {
        if k < n {
          assert pts[..n][k] == pts[k];
          InflatePointGrows(prev, pts[n], pts[k]);
        } else {
          InflatePointGrows(prev, pts[n], pts[n]);
        }
      }
    }
  }

  /** From the empty box, inflation by pts gives the smallest box covering
      them: it lies within every box c that covers each point. */
  lemma {:induction false} InflateAllSmallest(pts: seq<Vec3E>, c: Bounds3)
    requires forall k :: 0 <= k < |pts| ==> Covers(c, pts[k])
    ensures Within(InflateAll(Empty(), pts), c)
    decreases |pts|
  {
    if |pts| > 0 {
      var n := |pts| - 1;
      forall k | 0 <= k < n
        ensures Covers(c, pts[..n][k])
      {
        assert pts[..n][k] == pts[k];
      }
      InflateAllSmallest(pts[..n], c);
      var prev := InflateAll(Empty(), pts[..n]);
      forall a | 0 <= a < 3
        ensures !Lt(Lo(InflateAll(Empty(), pts), a), Lo(c, a))
        ensures !Lt(Hi(c, a), Hi(InflateAll(Empty(), pts), a))
      {
        assert Covers(c, pts[n]);
        LtFacts(AtE(pts[n], a), Lo(prev, a), Lo(c, a));
        LtFacts(Hi(c, a), Hi(prev, a), AtE(pts[n], a));
      }
    }
  }

  /** From the empty box, each end of the result is an infinite sentinel
      or one of the points' coordinates: inflation invents no values. */
  lemma {:induction false} InflateAllAttained(pts: seq<Vec3E>, a: int)
    requires 0 <= a < 3
    ensures Lo(InflateAll(Empty(), pts), a) == PosInf
         || exists k :: 0 <= k < |pts| && AtE(pts[k], a) == Lo(InflateAll(Empty(), pts), a)
    ensures Hi(InflateAll(Empty(), pts), a) == NegInf
         || exists k :: 0 <= k < |pts| && AtE(pts[k], a) == Hi(InflateAll(Empty(), pts), a)
    decreases |pts|
  {
    if |pts| > 0 {
      var n := |pts| - 1;
      InflateAllAttained(pts[..n], a);
      var prev := InflateAll(Empty(), pts[..n]);
      if Lo(prev, a) != PosInf && Lo(InflateAll(Empty(), pts), a) == Lo(prev, a) {
        var k :| 0 <= k < n && AtE(pts[..n][k], a) == Lo(prev, a);
        assert pts[..n][k] == pts[k];
      }
      if Hi(prev, a) != NegInf && Hi(InflateAll(Empty(), pts), a) == Hi(prev, a) {
        var k :| 0 <= k < n && AtE(pts[..n][k], a) == Hi(prev, a);
        assert pts[..n][k] == pts[k];
      }
    }
  }

  // ---------------------------------------------------------------------
  // Transformation

  /** `transform(m)` yields the smallest box holding the image of every
      corner: it covers each image, and lies within any box that does. */
  lemma TransformSmallest(b: Bounds3, m: M.Mat4, c: Bounds3)
    ensures forall i :: 0 <= i < 8 ==> Covers(Transform(b, m), M.Transform3x4E(m, Corner(b.p1, b.p2, i)))
    ensures (forall i :: 0 <= i < 8 ==> Covers(c, M.Transform3x4E(m, Corner(b.p1, b.p2, i)))) ==> Within(Transform(b, m), c)
  {
    var pts := TransformedCorners(b, m);
    InflateAllCovers(Empty(), pts, Vec3E(NaN, NaN, NaN));
    if forall i :: 0 <= i < 8 ==> Covers(c, M.Transform3x4E(m, Corner(b.p1, b.p2, i))) {
      InflateAllSmallest(pts, c);
    }
  }

  /** Two ordered finite corners, p1 <= p2 on every axis. */
  predicate FiniteOrdered(b: Bounds3) {
    IsFinite(b.p1) && IsFinite(b.p2) && b.p1.x.r <= b.p2.x.r && b.p1.y.r <= b.p2.y.r && b.p1.z.r <= b.p2.z.r
  }

  /** The identity maps a finite point to itself, also in IEEE arithmetic. */
  lemma IdentityFixesFinitePoint(p: Vec3E)
    requires IsFinite(p)
    ensures M.Transform3x4E(M.Identity(), p) == p
  {
    M.IdentityFixesPoints(Lower(p));
    M.Transform3x4EFinite(M.Identity(), p);
  }

  /** The identity maps each corner of a finite box to itself. */
  lemma IdentityFixesCorners(b: Bounds3)
    requires IsFinite(b.p1) && IsFinite(b.p2)
    ensures forall i :: 0 <= i < 8 ==> TransformedCorners(b, M.Identity())[i] == Corner(b.p1, b.p2, i)
  {
    forall i | 0 <= i < 8
      ensures M.Transform3x4E(M.Identity(), Corner(b.p1, b.p2, i)) == Corner(b.p1, b.p2, i)
    {
      IdentityFixesFinitePoint(Corner(b.p1, b.p2, i));
    }
  }

  /** Every coordinate of a corner is the min or the max of that axis. */
  lemma CornerCoordinate(b: Bounds3, i: int, a: int)
    requires 0 <= i < 8 && 0 <= a < 3
    ensures AtE(Corner(b.p1, b.p2, i), a) == Lo(b, a) || AtE(Corner(b.p1, b.p2, i), a) == Hi(b, a)
  {
  }

  /** One axis of the copy: an end that lies within [lo, hi], covers lo (or
      hi), and is a sentinel or one of lo, hi, is lo (or hi). */
  lemma AxisPinned(lo: Ext, hi: Ext, lo': Ext, hi': Ext)
    requires lo.Fin? && hi.Fin? && lo.r <= hi.r
    requires !Lt(lo', lo) && !Lt(hi, hi')
    requires AxisContains(lo', hi', lo) && AxisContains(lo', hi', hi)
    requires lo' == PosInf || lo' == lo || lo' == hi
    requires hi' == NegInf || hi' == lo || hi' == hi
    ensures lo' == lo && hi' == hi
  {
  }

  /** Inflating the empty box by the eight corners of a finite ordered box,
      in any form that lists them in loop order, gives back that box. */
  lemma InflateByOwnCorners(b: Bounds3, pts: seq<Vec3E>)
    requires FiniteOrdered(b)
    requires |pts| == 8 && forall i :: 0 <= i < 8 ==> pts[i] == Corner(b.p1, b.p2, i)
    ensures InflateAll(Empty(), pts) == b
  {
    var r := InflateAll(Empty(), pts);
    InflateAllSmallest(pts, b);
    InflateAllCovers(Empty(), pts, b.p1);
    assert Covers(r, pts[0]) && Covers(r, pts[7]);
    assert pts[0] == b.p1 && pts[7] == b.p2;
    forall a | 0 <= a < 3
      ensures Lo(r, a) == Lo(b, a) && Hi(r, a) == Hi(b, a)
    {
      InflateAllAttained(pts, a);
      if Lo(r, a) != PosInf {
        var k :| 0 <= k < 8 && AtE(pts[k], a) == Lo(r, a);
        CornerCoordinate(b, k, a);
      }
      if Hi(r, a) != NegInf {
        var k :| 0 <= k < 8 && AtE(pts[k], a) == Hi(r, a);
        CornerCoordinate(b, k, a);
      }
      AxisPinned(Lo(b, a), Hi(b, a), Lo(r, a), Hi(r, a));
    }
    assert Lo(r, 0) == Lo(b, 0) && Lo(r, 1) == Lo(b, 1) && Lo(r, 2) == Lo(b, 2);
    assert Hi(r, 0) == Hi(b, 0) && Hi(r, 1) == Hi(b, 1) && Hi(r, 2) == Hi(b, 2);
  }

  /** Copying a box with finite, ordered corners (the identity transform)
      gives back the same box. */
  lemma CopyFiniteOrdered(b: Bounds3)
    requires FiniteOrdered(b)
    ensures CopyBounds(b) == b
  {
    IdentityFixesCorners(b);
    InflateByOwnCorners(b, TransformedCorners(b, M.Identity()));
  }

  /** A box whose six coordinates are all infinite (the empty sentinel, the
      whole space, or a mix) copies to the empty box: under the identity
      every corner meets `0 * inf` and turns into NaN. */
  lemma CopyInfiniteBox(b: Bounds3)
    requires !b.p1.x.Fin? && !b.p1.y.Fin? && !b.p1.z.Fin? && !b.p1.x.NaN? && !b.p1.y.NaN? && !b.p1.z.NaN?
    requires !b.p2.x.Fin? && !b.p2.y.Fin? && !b.p2.z.Fin? && !b.p2.x.NaN? && !b.p2.y.NaN? && !b.p2.z.NaN?
    ensures CopyBounds(b) == Empty()
  {
    var pts := TransformedCorners(b, M.Identity());
    InflateAllNaN(Empty(), pts);
  }

  /** The copy of the empty box is empty, and the whole space copies to the
      empty box as well. */
  lemma CopySentinels()
    ensures CopyBounds(Empty()) == Empty()
    ensures CopyBounds(Whole()) == Empty()
  {
    CopyInfiniteBox(Empty());
    CopyInfiniteBox(Whole());
  }

  // ---------------------------------------------------------------------
  // Center, size, area and scaling of finite boxes

  /** The midpoint of two reals. */
  function Mid(lo: real, hi: real): real {
    (lo + hi) * 0.5
  }

  /** For finite corners, `center()` is the midpoint of min and max, `size()`
      is max - min, and `area()` is twice the sum of the face products. */
  lemma FiniteMeasures(b: Bounds3)
    requires IsFinite(b.p1) && IsFinite(b.p2)
    ensures Center(b) == Lift(Vec3(Mid(b.p1.x.r, b.p2.x.r), Mid(b.p1.y.r, b.p2.y.r), Mid(b.p1.z.r, b.p2.z.r)))
    ensures Size(b) == Lift(Vec3(b.p2.x.r - b.p1.x.r, b.p2.y.r - b.p1.y.r, b.p2.z.r - b.p1.z.r))
    ensures var s := Lower(Size(b)); Area(b) == Fin(2.0 * (s.x * s.y + s.y * s.z + s.z * s.x))
  {
  }

  /** The centre of a finite ordered box lies inside it. */
  lemma CenterInside(b: Bounds3)
    requires FiniteOrdered(b)
    ensures Contains(b, Center(b))
  {
    FiniteMeasures(b);
  }

  /** One axis of `inflate(s)` on plain reals: the new ends, their midpoint
      and their distance. */
  lemma ScaleAboutMid(lo: real, hi: real, s: real, c: real, lo': real, hi': real)
    requires c == Mid(lo, hi) * (1.0 - s)
    requires lo' == lo * s + c && hi' == hi * s + c
    ensures Mid(lo', hi') == Mid(lo, hi)
    ensures hi' - lo' == (hi - lo) * s
  {
  }

  /** One axis of `inflate(s)` in IEEE arithmetic on finite ends lo, hi:
      the new ends stay finite, keep their midpoint, and their distance is
      scaled by s. */
  lemma AxisInflateScale(lo: real, hi: real, s: real)
    ensures var c := Mul(Mul(Add(Fin(lo), Fin(hi)), Fin(0.5)), Fin(1.0 - s));
            var lo' := Add(Mul(Fin(lo), Fin(s)), c);
            var hi' := Add(Mul(Fin(hi), Fin(s)), c);
            lo'.Fin? && hi'.Fin?
            && Mul(Add(lo', hi'), Fin(0.5)) == Mul(Add(Fin(lo), Fin(hi)), Fin(0.5))
            && Sub(hi', lo') == Mul(Sub(Fin(hi), Fin(lo)), Fin(s))
  {
    var c := Mul(Mul(Add(Fin(lo), Fin(hi)), Fin(0.5)), Fin(1.0 - s));
    var lo' := Add(Mul(Fin(lo), Fin(s)), c);
    var hi' := Add(Mul(Fin(hi), Fin(s)), c);
    assert c == Fin(Mid(lo, hi) * (1.0 - s));
    ScaleAboutMid(lo, hi, s, c.r, lo'.r, hi'.r);
  }

  /** `inflate(s)` with s > 0 keeps the centre of a finite box and scales
      its size by s; with s <= 0 it does nothing. */
  lemma InflateScaleFinite(b: Bounds3, s: real)
    requires IsFinite(b.p1) && IsFinite(b.p2)
    ensures s <= 0.0 ==> InflateScale(b, s) == b
    ensures s > 0.0 ==> IsFinite(InflateScale(b, s).p1) && IsFinite(InflateScale(b, s).p2)
    ensures s > 0.0 ==> Center(InflateScale(b, s)) == Center(b)
    ensures s > 0.0 ==> Size(InflateScale(b, s)) == ScaleE(Size(b), s)
  {
    if s > 0.0 {
      AxisInflateScale(b.p1.x.r, b.p2.x.r, s);
      AxisInflateScale(b.p1.y.r, b.p2.y.r, s);
      AxisInflateScale(b.p1.z.r, b.p2.z.r, s);
    }
  }
}

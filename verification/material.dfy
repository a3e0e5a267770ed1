/** Materials and the material registry.  A material is a name plus a
    surface derived from a colour and a finish; the registry is the
    factory's list of materials in the order they were added, and a
    material is identified by its position in it. */
module Materials {
  import opened Wrappers
  import opened Colors

  /** The finish coefficients `setSurface` reads. */
  datatype Finish = Finish(ambient: real, diffuse: real, spot: real, shine: real)

  datatype Surface = Surface(
    ambient: Color,
    diffuse: Color,
    spot: Color,
    shine: real,
    specular: Color,
    transparency: Color,
    ior: real)

  datatype Material = Material(name: string, surface: Surface)

  /** The surface `setSurface(color, finish)` writes: the three lit colours
      are the colour scaled by the finish's coefficients, the shine is the
      finish's, and the surface is opaque, non-specular and has index of
      refraction 1. */
  function SurfaceOf(color: Color, finish: Finish): Surface {
    Surface(
      Scale(color, finish.ambient),
      Scale(color, finish.diffuse),
      Scale(color, finish.spot),
      finish.shine,
      Black,
      Black,
      1.0)
  }

  /** `setSurface`: overwrites every field of the surface; the name stays. */
  function SetSurface(m: Material, color: Color, finish: Finish): (r: Material)
    ensures r.name == m.name
    ensures r.surface == SurfaceOf(color, finish)
  {
    m.(surface := SurfaceOf(color, finish))
  }

  /** Nothing of the previous surface survives `setSurface`: the last call
      alone decides the surface. */
  lemma SetSurfaceLastWins(m: Material, c1: Color, f1: Finish, c2: Color, f2: Finish)
    ensures SetSurface(SetSurface(m, c1, f1), c2, f2) == SetSurface(m, c2, f2)
    ensures SetSurface(SetSurface(m, c1, f1), c1, f1) == SetSurface(m, c1, f1)
  {
  }

  /** A black colour gives black lit colours whatever the finish, and a
      finish with zero coefficients gives black lit colours whatever the
      colour. */
  lemma BlackSurface(color: Color, finish: Finish)
    requires color == Black || (finish.ambient == 0.0 && finish.diffuse == 0.0 && finish.spot == 0.0)
    ensures SurfaceOf(color, finish).ambient == Black
    ensures SurfaceOf(color, finish).diffuse == Black
    ensures SurfaceOf(color, finish).spot == Black
  {
  }

  /** `Material(name, color)`: the name, and the surface `setSurface`
      derives from the colour and the default finish.  The default
      `Finish()` coefficients are a parameter. */
  function NewMaterial(name: string, color: Color, defaultFinish: Finish): (m: Material)
    ensures m.name == name
    ensures m.surface == SurfaceOf(color, defaultFinish)
  {
    Material(name, SurfaceOf(color, defaultFinish))
  }

  // ---------------------------------------------------------------------
  // Registry

  type Registry = seq<Material>

  /** The name occurs in the registry. */
  predicate Registered(reg: Registry, name: string) {
    exists j :: 0 <= j < |reg| && reg[j].name == name
  }

  /** `get(name)`: the position of the first material with that name, or
      None (the null pointer) when no material has it. */
  function Get(reg: Registry, name: string): (r: Option<nat>)
    ensures r.Some? ==> r.value < |reg| && reg[r.value].name == name
    ensures r.Some? ==> forall j :: 0 <= j < r.value ==> reg[j].name != name
    ensures r.None? <==> !Registered(reg, name)
  {
    if |reg| == 0 then
      None
    else if reg[0].name == name then
      Some(0)
    else
      match Get(reg[1..], name)
      case None => None
      case Some(i) => Some(i + 1)
  }

  /** Appending a material leaves every earlier lookup as it was, and
      makes a fresh name resolve to the new position. */
  lemma {:induction false} GetAfterAppend(reg: Registry, m: Material, name: string)
    ensures Get(reg, name).Some? ==> Get(reg + [m], name) == Get(reg, name)
    ensures Get(reg, name).None? && m.name == name ==> Get(reg + [m], name) == Some(|reg|)
    ensures Get(reg, name).None? && m.name != name ==> Get(reg + [m], name) == None
  {
    if |reg| == 0 {
      assert reg + [m] == [m];
      assert [m][1..] == [];
    } else {
      assert (reg + [m])[0] == reg[0];
      assert (reg + [m])[1..] == reg[1..] + [m];
      GetAfterAppend(reg[1..], m, name);
    }
  }

  /** `New(name, color)`: the registered material of that name, unchanged
      and with the colour ignored, when there is one; otherwise a new
      material of that name and colour, appended.  Returns the registry
      and the position of the material handed back. */
  function NewNamed(reg: Registry, name: string, color: Color, defaultFinish: Finish): (r: (Registry, nat))
    ensures r.1 < |r.0| && r.0[r.1].name == name
    ensures Registered(reg, name) ==> r.0 == reg && Some(r.1) == Get(reg, name)
    ensures !Registered(reg, name) ==> r.0 == reg + [NewMaterial(name, color, defaultFinish)]
  {
    match Get(reg, name)
    case Some(i) => (reg, i)
    case None => (reg + [NewMaterial(name, color, defaultFinish)], |reg|)
  }

  /** Asking twice for the same name gives the same material and adds at
      most one entry; the second colour is ignored. */
  lemma NewNamedTwice(reg: Registry, name: string, c1: Color, c2: Color, defaultFinish: Finish)
    ensures var (reg1, i1) := NewNamed(reg, name, c1, defaultFinish);
            var (reg2, i2) := NewNamed(reg1, name, c2, defaultFinish);
            reg2 == reg1 && i2 == i1 && |reg1| <= |reg| + 1
  {
    var (reg1, i1) := NewNamed(reg, name, c1, defaultFinish);
    if !Registered(reg, name) {
      GetAfterAppend(reg, NewMaterial(name, c1, defaultFinish), name);
    }
    assert Registered(reg1, name);
  }

  /** `New(color)`: always appends a material named "mat" followed by the
      decimal registry size before the call, without looking for a
      material of that name. */
  function NewAnonymous(reg: Registry, color: Color, defaultFinish: Finish): (r: (Registry, nat))
    ensures |r.0| == |reg| + 1 && r.0[..|reg|] == reg && r.1 == |reg|
    ensures r.0[r.1] == NewMaterial(AnonymousName(|reg|), color, defaultFinish)
  {
    (reg + [NewMaterial(AnonymousName(|reg|), color, defaultFinish)], |reg|)
  }

  /** The name `sprintf(name, "mat%d", id)` writes. */
  function AnonymousName(id: nat): (s: string)
    ensures |s| > 3 && s[..3] == "mat"
  {
    "mat" + Digits(id)
  }

  /** Anonymous names from different registry sizes differ, so successive
      `New(color)` calls never repeat a name among themselves. */
  lemma AnonymousNamesDistinct(a: nat, b: nat)
    requires a != b
    ensures AnonymousName(a) != AnonymousName(b)
  {
    if AnonymousName(a) == AnonymousName(b) {
      assert Digits(a) == AnonymousName(a)[3..];
      assert Digits(b) == AnonymousName(b)[3..];
      ParseDigits(a);
      ParseDigits(b);
    }
  }

  /** `New(color)` does not check for a clash: after `New("mat1", c)` on an
      empty registry, `New(color)` adds a second "mat1", and `get("mat1")`
      still finds the first. */
  lemma AnonymousNameClash(c: Color, d: Color, defaultFinish: Finish)
    ensures var (reg1, _) := NewNamed([], "mat1", c, defaultFinish);
            var (reg2, i2) := NewAnonymous(reg1, d, defaultFinish);
            reg2[i2].name == "mat1" && Get(reg2, "mat1") == Some(0) && i2 == 1
  {
    assert Digits(1) == "1";
  }

  // ---------------------------------------------------------------------
  // Decimal digits

  predicate IsDigit(c: char) {
    '0' <= c <= '9'
  }

  function DigitChar(d: nat): (c: char)
    requires d < 10
    ensures IsDigit(c) && DigitValue(c) == d
  {
    (('0' as int) + d) as char
  }

  function DigitValue(c: char): nat
    requires IsDigit(c)
  {
    (c as int) - ('0' as int)
  }

  /** `%d` of a non-negative number: its decimal digits, most significant
      first, without leading zeros. */
  function Digits(n: nat): (s: string)
    ensures |s| > 0
    ensures forall k :: 0 <= k < |s| ==> IsDigit(s[k])
    ensures |s| > 1 ==> s[0] != '0'
  {
    if n < 10 then [DigitChar(n)] else Digits(n / 10) + [DigitChar(n % 10)]
  }

  /** The value of a string of decimal digits. */
  function Parse(s: string): nat
    requires forall k :: 0 <= k < |s| ==> IsDigit(s[k])
  {
    if |s| == 0 then 0
    else Parse(s[..|s| - 1]) * 10 + DigitValue(s[|s| - 1])
  }

  /** Reading back the digits gives the number. */
  lemma {:induction false} ParseDigits(n: nat)
    ensures Parse(Digits(n)) == n
  {
    var s := Digits(n);
    if n >= 10 {
      ParseDigits(n / 10);
      assert s[..|s| - 1] == Digits(n / 10);
    }
  }
}

/**
 * Vector utilities: the 2- and 3-component vectors of the simulation over exact reals,
 * promotion and demotion between them, and the guarded normalisation.
 */
module Vectors {
  import opened Wrappers

  datatype Vec2 = Vec2(x: real, y: real)
  datatype Vec3 = Vec3(x: real, y: real, z: real)

  /** A value handed to an operation that needs a vector; Python checks its type at run time. */
  datatype Value = V2(v2: Vec2) | V3(v3: Vec3) | NotVector

  const Zero: Vec3 := Vec3(0.0, 0.0, 0.0)

  /** Squared lengths at or below this are left alone by Normalized. */
  const Epsilon: real := 0.000001

  function Add(a: Vec3, b: Vec3): Vec3 {
    Vec3(a.x + b.x, a.y + b.y, a.z + b.z)
  }

  function Scale(a: Vec3, k: real): Vec3 {
    Vec3(a.x * k, a.y * k, a.z * k)
  }

  function LengthSquared(v: Vec3): real {
    v.x * v.x + v.y * v.y + v.z * v.z
  }

  function LengthSquared2(v: Vec2): real {
    v.x * v.x + v.y * v.y
  }

  /** to_vec3: a 3-vector is returned as it is, a 2-vector gets depth 0, anything else is refused. */
  function ToVec3(v: Value): (r: Result<Vec3>)
    ensures r.Ok? <==> !v.NotVector?
    ensures r.Fail? ==> r.failure == InvalidArgument
    ensures v.V3? ==> r == Ok(v.v3)
    ensures v.V2? ==> r.Ok? && r.value.x == v.v2.x && r.value.y == v.v2.y && r.value.z == 0.0
  {
    match v
    case V3(w) => Ok(w)
    case V2(w) => Ok(Vec3(w.x, w.y, 0.0))
    case NotVector => Fail(InvalidArgument)
  }

  /** to_vec2: a 2-vector is returned as it is, a 3-vector loses its depth, anything else is refused. */
  function ToVec2(v: Value): (r: Result<Vec2>)
    ensures r.Ok? <==> !v.NotVector?
    ensures r.Fail? ==> r.failure == InvalidArgument
    ensures v.V2? ==> r == Ok(v.v2)
    ensures v.V3? ==> r.Ok? && r.value.x == v.v3.x && r.value.y == v.v3.y
  {
    match v
    case V2(w) => Ok(w)
    case V3(w) => Ok(Vec2(w.x, w.y))
    case NotVector => Fail(InvalidArgument)
  }

  /** Demoting a promoted 2-vector gives it back. */
  lemma DemotePromote(w: Vec2)
    ensures ToVec3(V2(w)).Ok?
    ensures ToVec2(V3(ToVec3(V2(w)).value)) == Ok(w)
  {
  }

  /** Promoting a demoted 3-vector gives it back exactly when its depth was 0. */
  lemma PromoteDemote(v: Vec3)
    ensures ToVec2(V3(v)).Ok?
    ensures ToVec3(V2(ToVec2(V3(v)).value)) == Ok(Vec3(v.x, v.y, 0.0))
    ensures ToVec3(V2(ToVec2(V3(v)).value)) == Ok(v) <==> v.z == 0.0
  {
  }

  /**
   * normalized: a vector whose squared length is at most Epsilon comes back unchanged;
   * any longer vector is divided by its length, which `unit` stands for (square roots are
   * not modelled). Something that is not a vector has no length and is refused.
   */
  function Normalized(v: Value, unit: Value -> Value): (r: Result<Value>)
    ensures r.Fail? <==> v.NotVector?
    ensures r.Fail? ==> r.failure == InvalidArgument
    ensures v.V2? && LengthSquared2(v.v2) <= Epsilon ==> r == Ok(v)
    ensures v.V3? && LengthSquared(v.v3) <= Epsilon ==> r == Ok(v)
  {
    match v
    case NotVector => Fail(InvalidArgument)
    case V2(w) => if LengthSquared2(w) <= Epsilon then Ok(v) else Ok(unit(v))
    case V3(w) => if LengthSquared(w) <= Epsilon then Ok(v) else Ok(unit(v))
  }

  /** The zero vector is returned as it is, whatever the division would have produced. */
  lemma NormalizedZero(unit: Value -> Value)
    ensures Normalized(V2(Vec2(0.0, 0.0)), unit) == Ok(V2(Vec2(0.0, 0.0)))
    ensures Normalized(V3(Zero), unit) == Ok(V3(Zero))
  {
  }
}

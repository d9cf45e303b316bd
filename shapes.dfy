/**
 * Collision shapes and their touching tests. A sphere is tested against another sphere on
 * the horizontal plane only: the depth coordinate is used for drawing order, never for
 * contact.
 */
module Shapes {
  import opened Wrappers
  import opened Vectors

  /**
   * A collision shape: a SphereCollision of some radius, or a bare Collision object, which
   * has the shared sphere helper but no touching test of its own.
   */
  datatype Shape = Sphere(radius: real) | Plain

  /** Squared distance between two positions, with depth ignored. */
  function PlanarDistanceSquared(a: Vec3, b: Vec3): real {
    (a.x - b.x) * (a.x - b.x) + (a.y - b.y) * (a.y - b.y)
  }

  /** is_touching_sphere_sphere: the planar distance is at most the sum of the radii, boundary included. */
  function SphereSphereTouching(ra: real, rb: real, aPos: Vec3, bPos: Vec3): bool {
    PlanarDistanceSquared(aPos, bPos) <= (ra + rb) * (ra + rb)
  }

  /** SphereCollision.is_touching: a sphere can only be tested against a sphere; any other pairing is "no answer". */
  function SphereIsTouching(radius: real, other: Shape, selfPos: Vec3, otherPos: Vec3): (r: Option<bool>)
    ensures r.None? <==> !other.Sphere?
    ensures r.Some? ==> (r.value <==> PlanarDistanceSquared(selfPos, otherPos) <= (radius + other.radius) * (radius + other.radius))
  {
    match other
    case Sphere(rb) => Some(SphereSphereTouching(radius, rb, selfPos, otherPos))
    case Plain => None
  }

  /**
   * collision.is_touching(other, ...) dispatched on the receiving shape: a sphere answers,
   * a bare Collision has no such method and the call fails.
   */
  function ShapeIsTouching(s: Shape, other: Shape, sPos: Vec3, otherPos: Vec3): (r: Result<Option<bool>>)
    ensures r.Fail? <==> s.Plain?
    ensures r.Fail? ==> r.failure == NoTouchTest
    ensures r.Ok? ==> r.value == SphereIsTouching(s.radius, other, sPos, otherPos)
  {
    match s
    case Sphere(ra) => Ok(SphereIsTouching(ra, other, sPos, otherPos))
    case Plain => Fail(NoTouchTest)
  }

  /** Swapping the two spheres does not change the answer. */
  lemma SphereSphereSymmetric(ra: real, rb: real, aPos: Vec3, bPos: Vec3)
    ensures SphereSphereTouching(ra, rb, aPos, bPos) == SphereSphereTouching(rb, ra, bPos, aPos)
  {
  }

  /** Moving either sphere up or down does not change the answer. */
  lemma SphereSphereIgnoresDepth(ra: real, rb: real, aPos: Vec3, bPos: Vec3, za: real, zb: real)
    ensures SphereSphereTouching(ra, rb, aPos, bPos)
         == SphereSphereTouching(ra, rb, aPos.(z := za), bPos.(z := zb))
  {
  }

  /** Moving both spheres by the same offset does not change the answer. */
  lemma SphereSphereTranslation(ra: real, rb: real, aPos: Vec3, bPos: Vec3, d: Vec3)
    ensures SphereSphereTouching(ra, rb, aPos, bPos)
         == SphereSphereTouching(ra, rb, Add(aPos, d), Add(bPos, d))
  {
  }

  /** Growing a sphere keeps a touching pair touching. */
  lemma {:induction false} SphereSphereGrow(ra: real, ra': real, rb: real, aPos: Vec3, bPos: Vec3)
    requires 0.0 <= ra + rb <= ra' + rb
    requires SphereSphereTouching(ra, rb, aPos, bPos)
    ensures SphereSphereTouching(ra', rb, aPos, bPos)
  {
    var s, s' := ra + rb, ra' + rb;
    assert s * s <= s * s' <= s' * s';
  }

  /** Two spheres of radius 30 whose centres are 60 apart touch: the boundary counts. */
  lemma BoundaryTouches()
    ensures SphereSphereTouching(30.0, 30.0, Vec3(0.0, 0.0, 0.0), Vec3(60.0, 0.0, 0.0))
    ensures ShapeIsTouching(Sphere(30.0), Sphere(30.0), Vec3(0.0, 0.0, 0.0), Vec3(60.0, 0.0, 0.0)) == Ok(Some(true))
  {
  }

  /** Just beyond the boundary they do not. */
  lemma BeyondBoundaryApart()
    ensures !SphereSphereTouching(30.0, 30.0, Vec3(0.0, 0.0, 0.0), Vec3(61.0, 0.0, 0.0))
    ensures !SphereSphereTouching(30.0, 30.0, Vec3(0.0, 0.0, 0.0), Vec3(60.0001, 0.0, 0.0))
  {
  }

  /** Two spheres whose centres differ only in depth always touch, whatever their radii. */
  lemma StackedSpheresTouch(ra: real, rb: real, p: Vec3, z: real)
    ensures SphereSphereTouching(ra, rb, p, p.(z := z))
  {
    var s := ra + rb;
    if s < 0.0 {
      assert s * s == (-s) * (-s);
    }
  }
}

/**
 * Actors: bodies with a position, a velocity, an acceleration and a list of pending forces,
 * integrated once per tick, optionally carrying a collision shape.
 */
module Actors {
  import opened Wrappers
  import opened Vectors
  import opened Shapes

  /** The friction every actor starts with. */
  const DefaultFriction: real := 0.01

  /** How an actor reacts to a contact: a plain collidable actor ignores it, a ball is kicked away. */
  datatype Kind = Passive | Ball

  /** A snapshot of an actor's fields. */
  datatype Body = Body(
    pos: Vec3,
    vel: Vec3,
    acc: Vec3,
    friction: real,
    forces: seq<Vec3>,
    deleted: bool,
    shape: Option<Shape>,
    solid: bool,
    kind: Kind)

  /**
   * The force a ball receives from a contact, given the ball, the other actor and the tick
   * length. In the game it is kick multiplier * |other velocity| / dt along the direction
   * away from the other actor; square root and normalisation are not modelled, so it is a
   * parameter.
   */
  type Kick = (Body, Body, real) -> Vec3

  /** The sum of the pending forces, accumulated front to back from the zero vector. */
  function SumForces(fs: seq<Vec3>): Vec3 {
    if fs == [] then Zero else Add(SumForces(fs[..|fs| - 1]), fs[|fs| - 1])
  }

  /**
   * Actor.update with `damping` standing for friction ** dt: the acceleration becomes the
   * sum of the pending forces, which are cleared; the velocity gains acceleration * dt and is
   * then damped; the position moves by the new velocity * dt.
   */
  function Integrate(b: Body, dt: real, damping: real): (r: Body)
    ensures r.forces == []
    ensures r == b.(pos := r.pos, vel := r.vel, acc := r.acc, forces := [])
  {
    var acc := SumForces(b.forces);
    var vel := Scale(Add(b.vel, Scale(acc, dt)), damping);
    b.(acc := acc, vel := vel, forces := [], pos := Add(b.pos, Scale(vel, dt)))
  }

  /** on_collision: a ball appends its kick to its pending forces; any other actor does nothing. */
  function Respond(self: Body, other: Body, dt: real, kick: Kick): (r: Body)
    ensures r == self.(forces := r.forces)
    ensures self.forces <= r.forces && |r.forces| <= |self.forces| + 1
    ensures self.kind == Passive ==> r == self
  {
    match self.kind
    case Passive => self
    case Ball => self.(forces := self.forces + [kick(self, other, dt)])
  }

  /**
   * CollidableActor.is_touching: both actors must have a shape bound; the test itself is the
   * receiving shape's.
   */
  function IsTouching(a: Body, b: Body): (r: Result<Option<bool>>)
    ensures r == Fail(MissingShape) <==> a.shape.None? || b.shape.None?
    ensures a.shape.Some? && b.shape.Some? ==> r == ShapeIsTouching(a.shape.value, b.shape.value, a.pos, b.pos)
  {
    if a.shape.None? then Fail(MissingShape)
    else if b.shape.None? then Fail(MissingShape)
    else ShapeIsTouching(a.shape.value, b.shape.value, a.pos, b.pos)
  }

  /** The contact that makes the collision pass fire both responses. */
  predicate Contact(a: Body, b: Body) {
    IsTouching(a, b) == Ok(Some(true))
  }

  /** Between two spheres the test does not depend on which actor asks. */
  lemma IsTouchingSymmetric(a: Body, b: Body)
    requires a.shape.Some? && a.shape.value.Sphere?
    requires b.shape.Some? && b.shape.value.Sphere?
    ensures IsTouching(a, b) == IsTouching(b, a)
    ensures Contact(a, b) == Contact(b, a)
  {
    SphereSphereSymmetric(a.shape.value.radius, b.shape.value.radius, a.pos, b.pos);
  }

  /** Summing a longer list of forces adds the sums of its two parts. */
  lemma {:induction false} SumForcesAppend(fs: seq<Vec3>, gs: seq<Vec3>)
    ensures SumForces(fs + gs) == Add(SumForces(fs), SumForces(gs))
    decreases |gs|
  {
    if gs == [] {
      assert fs + gs == fs;
    } else {
      var init := gs[..|gs| - 1];
      assert (fs + gs)[..|fs + gs| - 1] == fs + init;
      SumForcesAppend(fs, init);
    }
  }

  /** A force applied before a step is added once into the next step's acceleration. */
  lemma {:induction false} AppliedForceIsAccumulated(b: Body, f: Vec3, dt: real, damping: real)
    ensures Integrate(b.(forces := b.forces + [f]), dt, damping).acc
         == Add(Integrate(b, dt, damping).acc, f)
  {
    SumForcesAppend(b.forces, [f]);
    assert SumForces([f]) == Add(Zero, f);
  }

  /** Without forces and without velocity a step leaves position and velocity as they were. */
  lemma AtRestStaysAtRest(b: Body, dt: real, damping: real)
    requires b.forces == [] && b.vel == Zero
    ensures Integrate(b, dt, damping).pos == b.pos
    ensures Integrate(b, dt, damping).vel == b.vel
    ensures Integrate(b, dt, damping).acc == Zero
  {
    assert SumForces(b.forces) == Zero;
    assert Scale(Zero, dt) == Zero;
    assert Scale(Zero, damping) == Zero;
  }

  /**
   * A step of zero length moves nothing and still clears the pending forces. The velocity is
   * only multiplied by the damping factor, which is friction ** 0 == 1 in the game, so there
   * the velocity stays as it was.
   */
  lemma ZeroStepOnlyDamps(b: Body, damping: real)
    ensures Integrate(b, 0.0, damping).pos == b.pos
    ensures Integrate(b, 0.0, damping).vel == Scale(b.vel, damping)
    ensures damping == 1.0 ==> Integrate(b, 0.0, damping).vel == b.vel
    ensures Integrate(b, 0.0, damping).forces == []
  {
  }

  /** Without forces a step only damps the velocity. */
  lemma {:induction false} ForceFreeVelocity(b: Body, dt: real, damping: real)
    requires b.forces == []
    ensures Integrate(b, dt, damping).vel == Scale(b.vel, damping)
  {
    assert SumForces(b.forces) == Zero;
    assert Scale(Zero, dt) == Zero;
    assert Add(b.vel, Zero) == b.vel;
  }

  /** Without forces the squared speed is multiplied by the square of the damping factor. */
  lemma {:induction false} DampingScalesSpeed(b: Body, dt: real, damping: real)
    requires b.forces == []
    ensures LengthSquared(Integrate(b, dt, damping).vel) == damping * damping * LengthSquared(b.vel)
  {
    ForceFreeVelocity(b, dt, damping);
    ScaledLength(b.vel, damping);
  }

  /** With a damping factor in [0, 1) and no forces a moving actor strictly slows down. */
  lemma {:induction false} DampingSlowsDown(b: Body, dt: real, damping: real)
    requires b.forces == [] && LengthSquared(b.vel) > 0.0
    requires 0.0 <= damping < 1.0
    ensures LengthSquared(Integrate(b, dt, damping).vel) < LengthSquared(b.vel)
  {
    var after := Integrate(b, dt, damping).vel;
    ForceFreeVelocity(b, dt, damping);
    assert after == Scale(b.vel, damping);
    SlowerByScaling(b.vel, damping);
  }

  /** Scaling a moving vector by a factor in [0, 1) makes it strictly shorter. */
  lemma SlowerByScaling(v: Vec3, k: real)
    requires LengthSquared(v) > 0.0 && 0.0 <= k < 1.0
    ensures LengthSquared(Scale(v, k)) < LengthSquared(v)
  {
    ScaledLength(v, k);
    ShrinkFactor(k, LengthSquared(v));
  }

  /** Scaling a vector by k scales its squared length by k * k. */
  lemma ScaledLength(v: Vec3, k: real)
    ensures LengthSquared(Scale(v, k)) == k * k * LengthSquared(v)
  {
    assert (v.x * k) * (v.x * k) == k * k * (v.x * v.x);
    assert (v.y * k) * (v.y * k) == k * k * (v.y * v.y);
    assert (v.z * k) * (v.z * k) == k * k * (v.z * v.z);
  }

  /** Scaling a positive quantity by the square of a factor in [0, 1) makes it smaller. */
  lemma ShrinkFactor(d: real, len: real)
    requires 0.0 <= d < 1.0 && len > 0.0
    ensures d * d * len < len
  {
    assert d * d <= d;
    assert d * d * len <= d * len;
    assert d * len < len;
  }

  /** One force of (100, 0, 0) on a resting actor, dt = 1, friction 0.01: it ends at (1, 0, 0) moving at (1, 0, 0). */
  lemma SingleForceStep(b: Body)
    requires b.pos == Zero && b.vel == Zero && b.forces == [Vec3(100.0, 0.0, 0.0)]
    ensures Integrate(b, 1.0, 0.01).acc == Vec3(100.0, 0.0, 0.0)
    ensures Integrate(b, 1.0, 0.01).vel == Vec3(1.0, 0.0, 0.0)
    ensures Integrate(b, 1.0, 0.01).pos == Vec3(1.0, 0.0, 0.0)
  {
    var f := Vec3(100.0, 0.0, 0.0);
    assert b.forces[..0] == [];
    assert SumForces(b.forces) == Add(Zero, f) == f;
    var v := Scale(Add(Zero, Scale(f, 1.0)), 0.01);
    assert Scale(f, 1.0) == f;
    assert v == Vec3(1.0, 0.0, 0.0);
    assert Add(Zero, Scale(v, 1.0)) == v;
  }

  /** An actor: its fields are updated in place by its own methods. */
  class Actor {
    var pos: Vec3
    var vel: Vec3
    var acc: Vec3
    var friction: real
    var forces: seq<Vec3>
    var deleted: bool
    var shape: Option<Shape>
    var solid: bool
    const kind: Kind

    function State(): Body
      reads this
    {
      Body(pos, vel, acc, friction, forces, deleted, shape, solid, kind)
    }

    /** A new actor at (x, y, z), at rest, with the default friction and nothing pending. */
    constructor (x: real, y: real, z: real, kind: Kind, shape: Option<Shape>, solid: bool)
      ensures State() == Body(Vec3(x, y, z), Zero, Zero, DefaultFriction, [], false, shape, solid, kind)
    {
      pos := Vec3(x, y, z);
      vel := Zero;
      acc := Zero;
      friction := DefaultFriction;
      forces := [];
      deleted := false;
      this.shape := shape;
      this.solid := solid;
      this.kind := kind;
    }

    /** Object.delete: raises the tombstone flag and nothing else. */
    method Delete()
      modifies this
      ensures State() == old(State()).(deleted := true)
    {
      deleted := true;
    }

    /** apply_force: a vector, promoted to three components, joins the end of the pending forces. */
    method ApplyForce(force: Value) returns (failure: Option<Failure>)
      modifies this
      ensures failure.Some? <==> force.NotVector?
      ensures failure.Some? ==> failure.value == InvalidArgument && State() == old(State())
      ensures failure.None? ==> State() == old(State()).(forces := old(forces) + [ToVec3(force).value])
    {
      if force.NotVector? {
        return Some(InvalidArgument);
      }
      var f := ToVec3(force).value;
      forces := forces + [f];
      failure := None;
    }

    /** Actor.update, with `damping` the value of friction ** dt. */
    method Update(dt: real, damping: real)
      modifies this
      ensures State() == Integrate(old(State()), dt, damping)
    {
      var sum := Zero;
      for i := 0 to |forces|
        invariant sum == SumForces(forces[..i])
      {
        assert forces[..i + 1][..i] == forces[..i];
        sum := Add(sum, forces[i]);
      }
      assert forces[..|forces|] == forces;
      acc := sum;
      forces := [];
      vel := Add(vel, Scale(acc, dt));
      vel := Scale(vel, damping);
      pos := Add(pos, Scale(vel, dt));
    }

    /** on_collision: the response of this actor to touching `other`. */
    method OnCollision(other: Actor, dt: real, kick: Kick)
      modifies this
      ensures State() == Respond(old(State()), old(other.State()), dt, kick)
    {
      if kind == Ball {
        var failure := ApplyForce(V3(kick(State(), other.State(), dt)));
        assert failure.None?;
      }
    }
  }
}

# Waterpolo physics core in Dafny

This project models the simulation core of a small top-down waterpolo game, `main.py`.
Actors have a position, a velocity, an acceleration and a list of pending forces. A game
keeps an ordered list of actors and a frame counter. Each tick runs two passes:

- **The collision pass.** It visits every pair of actors `i < j`. On contact, actor `i`
  responds to actor `j`, and then actor `j` responds to actor `i`.
- **The update pass.** A cursor walks the list. A tombstoned actor is popped at the cursor,
  which does not move. Any other actor integrates its pending forces, and the cursor moves on.

Modules, one per file:

- `wrappers.dfy` (`Wrappers`): `Option`, `Result`, and the errors the core raises. In
  Python these are exceptions. Here they are values.
- `vectors.dfy` (`Vectors`): 2- and 3-vectors over exact reals, `to_vec3`, `to_vec2`,
  and the zero-length guard of `normalized`.
- `colors.dfy` (`Colors`): `hex_to_rgb`.
- `shapes.dfy` (`Shapes`): the sphere/sphere touching test and its dispatch on the
  receiving shape.
- `actors.dfy` (`Actors`):
  - `Body` is a value snapshot of an actor;
  - `Integrate` and `Respond` specify one step and one collision response;
  - `class Actor` holds the fields that `delete`, `apply_force`, `update` and
    `on_collision` change in place.
- `registry.dfy` (`Registry`):
  - the order in which the collision pass visits pairs;
  - the collision pass as a fold (`Collide`) over snapshots;
  - the update pass (`Sweep`, `Survivors`);
  - `class Game`, whose methods run both passes on the live objects, with loop
    invariants that tie them to those specifications.

Inputs from outside the core are parameters:

- `friction ** dt` is a `Power` function.
- The kick a ball receives is a `Kick` function. In the game it is
  `kick_multiplier * |other.vel| / dt` along the direction away from the other actor.
- The `unit` argument of `Normalized` stands for the division by the vector's length.

`Game.Update` takes its `dt` as an argument, as the game loop passes it.

## Model

| member | source | states |
|---|---|---|
| Vectors.ToVec3 | main.py:27-33 | Succeeds exactly for vectors. A 3-vector comes back unchanged; a 2-vector keeps x and y and gets z = 0. Anything else is refused with InvalidArgument. |
| Vectors.ToVec2 | main.py:35-41 | Succeeds exactly for vectors. A 2-vector comes back unchanged; a 3-vector keeps x and y. Anything else is refused with InvalidArgument. |
| Vectors.DemotePromote | main.py:27-41 | to_vec2(to_vec3(v)) == v for every 2-vector. |
| Vectors.PromoteDemote | main.py:27-41 | to_vec3(to_vec2(v)) is v with z = 0, and it equals v exactly when v.z == 0. |
| Vectors.Normalized | main.py:51-54 | A vector whose squared length is at most 0.000001 comes back unchanged, for 2- and 3-vectors alike. A non-vector is an error. |
| Vectors.NormalizedZero | main.py:51-54 | The zero 2-vector and the zero 3-vector are returned as they are, whatever the division would give. |
| Colors.HexToRgb | main.py:24-25 | Green and blue lie in [0, 255]. r*65536 + g*256 + b == code. Red lies in [0, 255] exactly when 0 <= code < 2^24. |
| Colors.BackgroundColour | main.py:447 | hex_to_rgb(0x0095e9) == (0, 149, 233). |
| Shapes.SphereIsTouching | main.py:235-237 | No answer (None) exactly when the other shape is not a sphere. Otherwise the answer is "planar squared distance <= (ra + rb)^2". |
| Shapes.ShapeIsTouching | main.py:218-237 | A bare Collision as receiver has no is_touching and fails with NoTouchTest. A sphere receiver answers with the sphere test. |
| Shapes.SphereSphereSymmetric | main.py:222-227 | Swapping the two spheres does not change the result. |
| Shapes.SphereSphereIgnoresDepth | main.py:222-227 | Changing either z coordinate does not change the result. |
| Shapes.SphereSphereTranslation | main.py:222-227 | Moving both centres by the same offset does not change the result. |
| Shapes.SphereSphereGrow | main.py:222-227 | A touching pair still touches when one radius grows (with a non-negative radius sum). |
| Shapes.BoundaryTouches | main.py:222-227 | The boundary is inclusive: radii 30 and 30 at distance 60 touch, through the dispatch too. |
| Shapes.BeyondBoundaryApart | main.py:222-227 | At distance 61 or 60.0001 they do not touch. |
| Shapes.StackedSpheresTouch | main.py:222-227 | Two spheres that differ only in depth always touch. |
| Actors.Integrate | main.py:182-194 | After a step the pending forces are empty. Only pos, vel, acc and forces change. |
| Actors.Respond | main.py:266-269 | A response only appends to the pending forces, at most one force. A passive collidable actor does not change. |
| Actors.IsTouching | main.py:259-264 | Fails with MissingShape exactly when either actor has no shape. Otherwise it is the receiving shape's test at the two positions. |
| Actors.IsTouchingSymmetric | main.py:259-264 | Between two spheres the touching test and the contact do not depend on which actor asks. |
| Actors.SumForcesAppend | main.py:186-188 | Summing a concatenation of force lists adds the two sums. |
| Actors.AppliedForceIsAccumulated | main.py:186-188 | A force applied before a step is added exactly once into the next acceleration. |
| Actors.AtRestStaysAtRest | main.py:182-194 | With no forces and zero velocity, a step keeps pos and vel and sets acc to zero. |
| Actors.ZeroStepOnlyDamps | main.py:182-194 | With dt = 0 the position stays, the forces are cleared and the velocity is multiplied by the damping factor. In the game that factor is friction ** 0 == 1, and then the velocity is unchanged. |
| Actors.ForceFreeVelocity | main.py:186-192 | With no forces the new velocity is the old one times the damping factor. |
| Actors.DampingScalesSpeed | main.py:191-192 | With no forces the squared speed is multiplied by the square of the damping factor. |
| Actors.DampingSlowsDown | main.py:191-192 | With no forces and a damping factor in [0, 1), a moving actor strictly slows down. |
| Actors.SingleForceStep | main.py:182-194 | A resting actor with one force (100, 0, 0), dt = 1 and the default friction 0.01 as damping ends at (1, 0, 0) with velocity (1, 0, 0). |
| Actors.Actor.constructor | main.py:171-180 | A new actor stands at (x, y, z), at rest, with friction 0.01, no pending forces and not deleted. |
| Actors.Actor.Delete | main.py:129-130 | Raises the tombstone flag and changes nothing else. |
| Actors.Actor.ApplyForce | main.py:199-204 | A vector, promoted to three components, is appended to the end of the pending forces and nothing else changes. A non-vector is refused and nothing changes. |
| Actors.Actor.Update | main.py:182-194 | The new state is Integrate of the old one: the loop sums the pending forces front to back. |
| Actors.Actor.OnCollision | main.py:345-346 | The new state is Respond of the old one: a ball appends its kick, and any other actor stays as it was. |
| Registry.RowAt | main.py:439 | Row i up to j has j - i - 1 entries, with (i, i + 1 + k) at position k. |
| Registry.RowMembers | main.py:439 | Row i up to j holds exactly the pairs (i, j') with i < j' < j. |
| Registry.RowOrdered | main.py:439 | A row comes in increasing order. |
| Registry.RowsMembers | main.py:438-439 | The first i rows hold exactly the pairs i' < j' < n with i' < i. |
| Registry.RowsOrdered | main.py:438-439 | The first i rows come in strict lexicographic order. |
| Registry.AllPairsExactlyOnce | main.py:438-439 | The pass visits exactly the pairs i < j < n, each once, in lexicographic order. |
| Registry.RowPrefix | main.py:439 | Row i up to j is a prefix of row i up to any later j'. |
| Registry.RowsPrefix | main.py:438 | The first i rows are a prefix of the first i' rows, for i <= i'. |
| Registry.VisitedIsPrefix | main.py:438-439 | What the loops have visited after pair (i, j) is a prefix of the whole pass. |
| Registry.VisitedInRange | main.py:438-441 | Every visited pair indexes into the n-actor list. |
| Registry.CollideLast | main.py:438-444 | The pass over ps is the pass over all but the last pair, followed by one visit of the last pair. |
| Registry.CollideOnlyAddsForces | main.py:440-444 | During the pass every actor only gains pending forces. No actor moves, changes shape or is deleted. |
| Registry.CollideKeepsFlags | main.py:438-444 | The collision pass neither tombstones nor revives any actor. |
| Registry.CollideMeaning | main.py:438-444 | The pass fails with the first failing test. Without a failure it fires exactly the responses of the pairs touching at the start of the tick, in visiting order. |
| Registry.ContactCallsInPairs | main.py:442-444 | Each contact fires (i, j) and then (j, i), adjacent. Every fired call comes from a touching visited pair, and every touching pair fires both. |
| Registry.FailureIsFinal | main.py:438-444 | Once a test has failed, later pairs change nothing. |
| Registry.DeletedFlags | main.py:425 | One flag per actor, equal to that actor's tombstone. |
| Registry.SurvivorsAppend | main.py:420-430 | Filtering distributes over concatenation, so survivors keep their relative order. |
| Registry.SurvivorsMembership | main.py:420-430 | An actor survives exactly when it stood in the list with its flag false. |
| Registry.SweepIsSurvivorsStepped | main.py:420-430 | The update pass has one entry per survivor: the m-th is the m-th survivor integrated once, with its own friction. |
| Registry.SweepLeavesLiveSettledActors | main.py:420-430 | After the update pass no actor is tombstoned and none has pending forces. |
| Registry.SweepAppend | main.py:420-430 | The update pass over two lists in a row is the two passes in a row. |
| Registry.MiddleDeletion | main.py:420-430 | For A, B, C with B tombstoned, the pass leaves A and C in that order, each stepped once. |
| Registry.SurvivorsDistinct | main.py:426 | Popping actors from a list without repeats leaves a list without repeats. |
| Registry.AppendDistinct | main.py:458-459 | Appending an actor that is not yet registered keeps the list without repeats. |
| Registry.OthersDiffer | main.py:440-441 | In a list without repeats, the actor at k is different from every other entry. |
| Registry.SurvivorsExtend | main.py:425-430 | Considering one more actor appends it to the survivors exactly when it is not tombstoned. |
| Registry.SteppedExtend | main.py:425-430 | Considering one more actor appends it stepped, or unchanged if it is tombstoned. |
| Registry.SteppedSurvivors | main.py:420-430 | If every live actor has taken its step and every tombstoned one is untouched, then the survivors hold exactly the update pass of the starting states. |
| Registry.CollideNext | main.py:439-444 | One more inner-loop visit is one more step of the pass. |
| Registry.StopsAt | main.py:438-444 | A pass that fails at (i, j) ends there: the whole pass is the pass up to (i, j). |
| Registry.PassComplete | main.py:438 | After the last row the pass has visited every pair. |
| Registry.RowComplete | main.py:438-439 | The end of row i is the start of row i + 1. Row i starts where the rows before it end. |
| Registry.CursorAt | main.py:421-430 | The actor at the cursor is the k-th original one. Popping a tombstoned actor leaves the cursor on the list after it. Passing a live actor moves the cursor by one. |
| Registry.CursorDone | main.py:421 | Once every original actor is passed, the list holds exactly the survivors. |
| Registry.SteppedNext | main.py:425-430 | Passing the k-th actor replaces exactly its target state, by the stepped state unless it is tombstoned. |
| Registry.SteppedDone | main.py:421 | Once every original actor is passed, every live one has been stepped. |
| Registry.UpdateAt | main.py:429 | Updating one registered actor steps its state and no other actor's. |
| Registry.CollideAt | main.py:443-444 | After the two responses, xs[i] has responded to xs[j], then xs[j] to the new xs[i]. No other actor changes. |
| Registry.Game.constructor | main.py:358-375 | A new game has no actors and frame 0. |
| Registry.Game.NewActor | main.py:458-459 | The actor joins the end of the list, and the frame is unchanged. |
| Registry.Game.DoCollisions | main.py:435-444 | The error and the final states are those of CollisionPass over the starting states, and no tombstone flag changes. |
| Registry.Game.CollideRow | main.py:438-444 | After one outer turn the states are the pass up to the end of row i, or the whole pass if a test failed. |
| Registry.Game.CollideStep | main.py:439-444 | After one inner turn the states are the pass up to (i, j + 1), or the whole pass if the test failed. |
| Registry.Game.VisitPair | main.py:440-444 | Returns the touching test on the current states, which are then those of one Visit of (i, j). |
| Registry.Game.UpdateActors | main.py:419-430 | The list becomes the survivors of the tombstone flags, in their original order. The states become the update pass of the starting states. Every original actor, popped ones included, ends in its Stepped state: each live actor is integrated once and each tombstoned one is left as it was. The list stays without repeats. |
| Registry.Game.Advance | main.py:421-430 | One turn of the cursor loop moves the list, the cursor and the states from their target values after k actors to those after k + 1. |
| Registry.Game.Update | main.py:411-433 | A tick runs the collision pass and then the update pass, and increments the frame counter. On success every original actor ends in the Stepped state of its post-collision state, so a tombstoned actor is never integrated. An error in the collision pass leaves the list and frame counter as they were, with the responses fired before the error kept. |

## Left out

- Rendering, images, colours as constants, the screen and surface setup, all `draw` methods: pygame output with no part in the simulation.
- Keyboard input and player control (`is_key_down`, the directional vector helpers, `Controls`, `Player.do_movement`, `Player.do_diving`): they read live keyboard state. `Player.update` calls `update2`, which does not exist, when `typ == 1`. That path is not modelled.
- `Game.main`, the clock tick, event polling with `sys.exit`, `Game.init` and the one-game guard in `Game.__init__`: process control and I/O.
- Floating point: vectors are exact reals, and nothing claims bit-exact float behaviour.
- `friction ** dt` (main.py:192) is the `Power` parameter. `Actor.Update` receives its value as `damping`.
- The square root in `distance`, `normalize` and `get_nomalized_vector_to` are not modelled. The longer branch of `normalized` is the `unit` parameter.
- The force of `Ball.on_collision` (main.py:346) is the `Kick` parameter, because it needs a square root and a normalisation.
- Actors.Respond: the kick is total, so a response never fails. In the game, `Ball.on_collision` raises ZeroDivisionError on `1/dt` when dt == 0. It raises ValueError from `normalize()` (main.py:216) when the two centres coincide. Either error would abort `do_collisions` after the responses already fired. The model does not capture these two failures, so dt is taken to be non-zero and ball contacts to have distinct centres.
- Actors.Actor.OnCollision: inherits the total kick of `Actors.Respond` and so does not raise at dt == 0 or at coincident centres (main.py:346, 216).
- `sqr`, `cube`, `pow4` and `Actor.distance_sq` are trivial arithmetic. The sphere test states its squared distance itself.
- The builder setters (`set_collision`, `set_solid`, `set_radius`) are folded into the `Actor` constructor arguments. `Ball.radius` is the radius of its sphere shape.
- Registry.Game.NewActor: requires that the actor is not registered yet. The source appends without checking; the model keeps the list without repeats so that updating one actor changes exactly one entry.
- Actors: only collidable actors are modelled (`Kind` is `Passive` or `Ball`). A plain `Actor` in the list would raise in `do_collisions`, because it has no `is_touching`.
- Actors.DampingSlowsDown: assumes a damping factor in [0, 1). This holds for friction 0.01 and dt > 0, but powers of reals are not modelled.
- Vectors.Normalized: only the zero-length guard is specified. The unit-length result of the other branch is not.
- The `assert isinstance(other, CollidableActor)` check in `CollidableActor.is_touching` is not modelled, since every modelled actor is collidable.
- Positions are always 3-vectors (`actor.pos`), so the `to_vec3` calls inside the sphere test are the identity and are not modelled.

A bare `Collision` as the receiver has no `is_touching` method, so the call raises
(main.py:218-220, 264). `Shapes.ShapeIsTouching` models this as `NoTouchTest`.

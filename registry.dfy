/**
 * The actor registry and its per-tick passes: the all-pairs collision pass, which fires both
 * responses of every touching pair, and the update pass, which integrates every live actor
 * once and drops tombstoned ones from the list without skipping any other.
 */
module Registry {
  import opened Wrappers
  import opened Vectors
  import opened Actors

  /** A pair of indices into the actor list. */
  type Pair = (nat, nat)

  /** friction ** dt: exponentiation of reals is not modelled, so it is a parameter. */
  type Power = (real, real) -> real

  // ---------------------------------------------------------------------------------------
  // The order in which the collision pass visits pairs
  // ---------------------------------------------------------------------------------------

  /** (i, i+1), ..., (i, j-1): the pairs of row i the inner loop has visited before reaching j. */
  function Row(i: nat, j: nat): seq<Pair>
    decreases j
  {
    if j <= i + 1 then [] else Row(i, j - 1) + [(i, j - 1)]
  }

  /** Rows 0 to i-1 of the pass over n actors, one after the other. */
  function Rows(i: nat, n: nat): seq<Pair> {
    if i == 0 then [] else Rows(i - 1, n) + Row(i - 1, n)
  }

  /** Every pair the collision pass over n actors tests, in the order it tests them. */
  function AllPairs(n: nat): seq<Pair> {
    Rows(n, n)
  }

  predicate LexLess(p: Pair, q: Pair) {
    p.0 < q.0 || (p.0 == q.0 && p.1 < q.1)
  }

  predicate StrictlyOrdered(ps: seq<Pair>) {
    forall a, b :: 0 <= a < b < |ps| ==> LexLess(ps[a], ps[b])
  }

  /** Row i up to j holds (i, i+1+k) at position k. */
  lemma {:induction false} RowAt(i: nat, j: nat)
    ensures |Row(i, j)| == if j <= i + 1 then 0 else j - i - 1
    ensures forall k :: 0 <= k < |Row(i, j)| ==> Row(i, j)[k] == (i, i + 1 + k)
    decreases j
  {
    if j > i + 1 {
      RowAt(i, j - 1);
    }
  }

  /** Row i up to j holds exactly the pairs (i, j') with i < j' < j. */
  lemma {:induction false} RowMembers(i: nat, j: nat)
    ensures forall p :: p in Row(i, j) <==> p.0 == i && i < p.1 < j
    decreases j
  {
    if j > i + 1 {
      RowMembers(i, j - 1);
      assert Row(i, j) == Row(i, j - 1) + [(i, j - 1)];
    }
  }

  /** Row i up to j comes in increasing order. */
  lemma {:induction false} RowOrdered(i: nat, j: nat)
    ensures StrictlyOrdered(Row(i, j))
  {
    RowAt(i, j);
  }

  /** The first i rows hold exactly the pairs i' < j' < n with i' < i. */
  lemma {:induction false} RowsMembers(i: nat, n: nat)
    ensures forall p :: p in Rows(i, n) <==> p.0 < i && p.0 < p.1 < n
  {
    if i > 0 {
      var front, row := Rows(i - 1, n), Row(i - 1, n);
      assert Rows(i, n) == front + row;
      forall p
        ensures p in Rows(i, n) <==> p.0 < i && p.0 < p.1 < n
      {
        RowsMembers(i - 1, n);
        RowMembers(i - 1, n);
        assert p in front + row <==> p in front || p in row;
      }
    }
  }

  /** Two ordered runs, the first entirely below the second, make one ordered run. */
  lemma OrderedAppend(xs: seq<Pair>, ys: seq<Pair>)
    requires StrictlyOrdered(xs) && StrictlyOrdered(ys)
    requires forall a, b :: 0 <= a < |xs| && 0 <= b < |ys| ==> LexLess(xs[a], ys[b])
    ensures StrictlyOrdered(xs + ys)
  {
    forall a, b | 0 <= a < b < |xs + ys|
      ensures LexLess((xs + ys)[a], (xs + ys)[b])
    {
      if b < |xs| {
      } else if a >= |xs| {
        assert LexLess(ys[a - |xs|], ys[b - |xs|]);
      } else {
        assert LexLess(xs[a], ys[b - |xs|]);
      }
    }
  }

  /** The first i rows come in lexicographic order. */
  lemma {:induction false} RowsOrdered(i: nat, n: nat)
    ensures StrictlyOrdered(Rows(i, n))
  {
    if i > 0 {
      var front, row := Rows(i - 1, n), Row(i - 1, n);
      forall a, b | 0 <= a < |front| && 0 <= b < |row|
        ensures LexLess(front[a], row[b])
      {
        RowsMembers(i - 1, n);
        RowMembers(i - 1, n);
        assert front[a] in front && row[b] in row;
      }
      RowsOrdered(i - 1, n);
      RowOrdered(i - 1, n);
      OrderedAppend(front, row);
      assert Rows(i, n) == front + row;
    }
  }

  /**
   * The collision pass tests each pair i < j < n exactly once and nothing else, in
   * lexicographic order.
   */
  lemma AllPairsExactlyOnce(n: nat)
    ensures forall p :: p in AllPairs(n) <==> p.0 < p.1 < n
    ensures StrictlyOrdered(AllPairs(n))
    ensures forall a, b :: 0 <= a < b < |AllPairs(n)| ==> AllPairs(n)[a] != AllPairs(n)[b]
  {
    RowsMembers(n, n);
    RowsOrdered(n, n);
  }

  /** Row i up to j comes first in row i up to a later j'. */
  lemma {:induction false} RowPrefix(i: nat, j: nat, j': nat)
    requires j <= j'
    ensures Row(i, j) <= Row(i, j')
    decreases j'
  {
    if j < j' && j' > i + 1 {
      RowPrefix(i, j, j' - 1);
    }
  }

  /** The first i rows come first in the first i' rows, for i <= i'. */
  lemma {:induction false} RowsPrefix(i: nat, i': nat, n: nat)
    requires i <= i'
    ensures Rows(i, n) <= Rows(i', n)
    decreases i'
  {
    if i < i' {
      RowsPrefix(i, i' - 1, n);
    }
  }

  /** What the two loops have visited once they finish pair (i, j) is where the full pass begins. */
  lemma VisitedIsPrefix(i: nat, j: nat, n: nat)
    requires i < j < n
    ensures Rows(i, n) + Row(i, j + 1) <= AllPairs(n)
  {
    var a, b, c := Rows(i, n), Row(i, j + 1), Row(i, n);
    RowPrefix(i, j + 1, n);
    assert (a + c)[..|a + b|] == a + b;
    assert Rows(i + 1, n) == a + c;
    RowsPrefix(i + 1, n, n);
  }

  /** The pairs visited at (i, j) all lie in an n-actor list. */
  lemma VisitedInRange(i: nat, j: nat, n: nat)
    requires i <= n && j <= n
    ensures InRange(Rows(i, n) + Row(i, j), n)
  {
    RowsMembers(i, n);
    RowAt(i, j);
    forall p | p in Row(i, j)
      ensures p.0 < n && p.1 < n
    {
      var k :| 0 <= k < |Row(i, j)| && Row(i, j)[k] == p;
    }
  }

  /** The pairs the two loops have visited when the outer one is at i and the inner one at j. */
  function Visited(i: nat, j: nat, n: nat): (ps: seq<Pair>)
    requires i <= n && j <= n
    ensures InRange(ps, n)
  {
    VisitedInRange(i, j, n);
    Rows(i, n) + Row(i, j)
  }

  // ---------------------------------------------------------------------------------------
  // The collision pass over snapshots
  // ---------------------------------------------------------------------------------------

  predicate InRange(ps: seq<Pair>, n: nat) {
    forall p :: p in ps ==> p.0 < n && p.1 < n
  }

  /**
   * The state of a collision pass: the actors, the on_collision calls made so far as
   * (receiver, other), and the error that stopped the pass, if one did.
   */
  datatype Pass = Pass(bodies: seq<Body>, fired: seq<Pair>, failure: Option<Failure>)

  /** One visit of the inner loop: test the pair, and on contact fire both responses, first then second. */
  function Visit(o: Pass, p: Pair, dt: real, kick: Kick): (r: Pass)
    requires p.0 < |o.bodies| && p.1 < |o.bodies|
    ensures |r.bodies| == |o.bodies|
  {
    if o.failure.Some? then o
    else
      var (i, j) := p;
      match IsTouching(o.bodies[i], o.bodies[j])
      case Fail(f) => o.(failure := Some(f))
      case Ok(t) =>
        if t == Some(true) then
          var bi := Respond(o.bodies[i], o.bodies[j], dt, kick);
          var bj := Respond(o.bodies[j], bi, dt, kick);
          o.(bodies := o.bodies[i := bi][j := bj], fired := o.fired + [(i, j), (j, i)])
        else o
  }

  /** The pass over the pairs `ps`, visited in order, starting from the actors `s`. */
  function Collide(s: seq<Body>, ps: seq<Pair>, dt: real, kick: Kick): (o: Pass)
    requires InRange(ps, |s|)
    ensures |o.bodies| == |s|
    decreases |ps|, 0
  {
    if ps == [] then Pass(s, [], None)
    else VisitAfter(s, ps[..|ps| - 1], ps[|ps| - 1], dt, kick)
  }

  /** The pass over the pairs `ps` followed by one more visit, of `p`. */
  function VisitAfter(s: seq<Body>, ps: seq<Pair>, p: Pair, dt: real, kick: Kick): (o: Pass)
    requires InRange(ps, |s|) && p.0 < |s| && p.1 < |s|
    ensures |o.bodies| == |s|
    decreases |ps|, 1
  {
    Visit(Collide(s, ps, dt, kick), p, dt, kick)
  }

  /** Each pair of the pass is one visit. */
  lemma CollideLast(s: seq<Body>, ps: seq<Pair>, dt: real, kick: Kick)
    requires InRange(ps, |s|) && ps != []
    ensures InRange(ps[..|ps| - 1], |s|)
    ensures Collide(s, ps, dt, kick) == Visit(Collide(s, ps[..|ps| - 1], dt, kick), ps[|ps| - 1], dt, kick)
  {
  }

  /** The pass as it stands when the outer loop is at i and the inner loop at j. */
  function PassAt(s: seq<Body>, i: nat, j: nat, dt: real, kick: Kick): Pass
    requires i <= |s| && j <= |s|
  {
    Collide(s, Visited(i, j, |s|), dt, kick)
  }

  /** The whole collision pass of one tick: every pair i < j, in order. */
  function CollisionPass(s: seq<Body>, dt: real, kick: Kick): Pass {
    VisitedInRange(|s|, 0, |s|);
    assert Visited(|s|, 0, |s|) == AllPairs(|s|);
    Collide(s, AllPairs(|s|), dt, kick)
  }

  /** The responses fired on a contact between s[i] and s[j], without any actor changing. */
  function ContactCalls(s: seq<Body>, ps: seq<Pair>): seq<Pair>
    requires InRange(ps, |s|)
  {
    if ps == [] then []
    else
      var p := ps[|ps| - 1];
      ContactCalls(s, ps[..|ps| - 1]) + if Contact(s[p.0], s[p.1]) then [p, (p.1, p.0)] else []
  }

  /** The first pair of `ps`, in order, whose test raises, and its error. */
  function FirstFailure(s: seq<Body>, ps: seq<Pair>): Option<Failure>
    requires InRange(ps, |s|)
  {
    if ps == [] then None
    else
      var earlier := FirstFailure(s, ps[..|ps| - 1]);
      var p := ps[|ps| - 1];
      if earlier.Some? then earlier
      else match IsTouching(s[p.0], s[p.1])
        case Fail(f) => Some(f)
        case Ok(_) => None
  }

  /** Two snapshots of one actor that agree on everything but the pending forces, of which the second has more. */
  predicate OnlyMoreForces(a: Body, b: Body) {
    b == a.(forces := b.forces) && a.forces <= b.forces
  }

  /**
   * Responses only ever append pending forces: during the pass no actor moves, changes shape
   * or is deleted, so no response changes what a later test sees.
   */
  lemma {:induction false} CollideOnlyAddsForces(s: seq<Body>, ps: seq<Pair>, dt: real, kick: Kick)
    requires InRange(ps, |s|)
    ensures forall k :: 0 <= k < |s| ==> OnlyMoreForces(s[k], Collide(s, ps, dt, kick).bodies[k])
  {
    if ps != [] {
      var init := ps[..|ps| - 1];
      assert InRange(init, |s|) by {
        forall p | p in init ensures p in ps { }
      }
      CollideOnlyAddsForces(s, init, dt, kick);
    }
  }

  /** The collision pass never tombstones an actor nor revives one. */
  lemma CollideKeepsFlags(s: seq<Body>, ps: seq<Pair>, dt: real, kick: Kick)
    requires InRange(ps, |s|)
    ensures DeletedFlags(Collide(s, ps, dt, kick).bodies) == DeletedFlags(s)
  {
    CollideOnlyAddsForces(s, ps, dt, kick);
  }

  /**
   * The pass fires exactly the responses of the touching pairs as the actors stood at the
   * start, each pair once per visit, in the order visited, and stops at the first error.
   */
  lemma {:induction false} CollideMeaning(s: seq<Body>, ps: seq<Pair>, dt: real, kick: Kick)
    requires InRange(ps, |s|)
    ensures Collide(s, ps, dt, kick).failure == FirstFailure(s, ps)
    ensures FirstFailure(s, ps).None? ==> Collide(s, ps, dt, kick).fired == ContactCalls(s, ps)
  {
    if ps != [] {
      var init := ps[..|ps| - 1];
      var p := ps[|ps| - 1];
      assert InRange(init, |s|) by {
        forall q | q in init ensures q in ps { }
      }
      CollideMeaning(s, init, dt, kick);
      CollideOnlyAddsForces(s, init, dt, kick);
      var o := Collide(s, init, dt, kick);
      assert IsTouching(o.bodies[p.0], o.bodies[p.1]) == IsTouching(s[p.0], s[p.1]) by {
        assert OnlyMoreForces(s[p.0], o.bodies[p.0]);
        assert OnlyMoreForces(s[p.1], o.bodies[p.1]);
      }
    }
  }

  /** Each contact fires two calls, the pair and then the same pair reversed, and nothing else fires. */
  lemma {:induction false} ContactCallsInPairs(s: seq<Body>, ps: seq<Pair>)
    requires InRange(ps, |s|)
    ensures |ContactCalls(s, ps)| % 2 == 0
    ensures forall t :: 0 <= t < |ContactCalls(s, ps)| / 2 ==>
      var c := ContactCalls(s, ps);
      c[2 * t] in ps && Contact(s[c[2 * t].0], s[c[2 * t].1]) && c[2 * t + 1] == (c[2 * t].1, c[2 * t].0)
    ensures forall p :: p in ps && Contact(s[p.0], s[p.1]) ==> p in ContactCalls(s, ps) && (p.1, p.0) in ContactCalls(s, ps)
  {
    if ps != [] {
      var init := ps[..|ps| - 1];
      assert InRange(init, |s|) by {
        forall q | q in init ensures q in ps { }
      }
      ContactCallsInPairs(s, init);
      var prev := ContactCalls(s, init);
      var c := ContactCalls(s, ps);
      assert c[..|prev|] == prev;
      forall t | 0 <= t < |c| / 2
        ensures c[2 * t] in ps && Contact(s[c[2 * t].0], s[c[2 * t].1]) && c[2 * t + 1] == (c[2 * t].1, c[2 * t].0)
      {
        if 2 * t < |prev| {
          assert c[2 * t] == prev[2 * t] && c[2 * t + 1] == prev[2 * t + 1];
          assert c[2 * t] in init;
        }
      }
    }
  }

  /** After the first error nothing more happens, whatever pairs follow. */
  lemma {:induction false} FailureIsFinal(s: seq<Body>, ps: seq<Pair>, qs: seq<Pair>, dt: real, kick: Kick)
    requires InRange(ps + qs, |s|)
    requires InRange(ps, |s|)
    requires Collide(s, ps, dt, kick).failure.Some?
    ensures Collide(s, ps + qs, dt, kick) == Collide(s, ps, dt, kick)
    decreases |qs|
  {
    if qs == [] {
      assert ps + qs == ps;
    } else {
      var init := qs[..|qs| - 1];
      assert (ps + qs)[..|ps + qs| - 1] == ps + init;
      assert InRange(ps + init, |s|) by {
        forall q | q in ps + init ensures q in ps + qs { }
      }
      FailureIsFinal(s, ps, init, dt, kick);
    }
  }

  // ---------------------------------------------------------------------------------------
  // The update pass over snapshots
  // ---------------------------------------------------------------------------------------

  /** The tombstone flags of a list of actors. */
  function DeletedFlags(s: seq<Body>): (d: seq<bool>)
    ensures |d| == |s| && forall k :: 0 <= k < |s| ==> d[k] == s[k].deleted
  {
    seq(|s|, k requires 0 <= k < |s| => s[k].deleted)
  }

  /** The entries of `xs` whose flag in `dead` is false, in their original order. */
  function Survivors<T>(xs: seq<T>, dead: seq<bool>): seq<T>
    requires |xs| == |dead|
  {
    if xs == [] then []
    else Survivors(xs[..|xs| - 1], dead[..|xs| - 1]) + if dead[|xs| - 1] then [] else [xs[|xs| - 1]]
  }

  /** The update pass: tombstoned actors drop out; every other actor, in order, takes one integration step. */
  function Sweep(s: seq<Body>, dt: real, power: Power): seq<Body> {
    if s == [] then []
    else
      var b := s[|s| - 1];
      Sweep(s[..|s| - 1], dt, power) + if b.deleted then [] else [Integrate(b, dt, power(b.friction, dt))]
  }

  /** Filtering distributes over concatenation: survivors keep their relative order. */
  lemma {:induction false} SurvivorsAppend<T>(xs: seq<T>, ys: seq<T>, d: seq<bool>, e: seq<bool>)
    requires |xs| == |d| && |ys| == |e|
    ensures Survivors(xs + ys, d + e) == Survivors(xs, d) + Survivors(ys, e)
    decreases |ys|
  {
    if ys == [] {
      assert xs + ys == xs && d + e == d;
    } else {
      var n := |ys| - 1;
      assert (xs + ys)[..|xs| + n] == xs + ys[..n];
      assert (d + e)[..|xs| + n] == d + e[..n];
      SurvivorsAppend(xs, ys[..n], d, e[..n]);
    }
  }

  /** An entry survives exactly when it stood somewhere in the list with its flag false. */
  lemma {:induction false} SurvivorsMembership<T>(xs: seq<T>, dead: seq<bool>, x: T)
    requires |xs| == |dead|
    ensures x in Survivors(xs, dead) <==> exists k :: 0 <= k < |xs| && xs[k] == x && !dead[k]
  {
    if xs != [] {
      var n := |xs| - 1;
      var front := Survivors(xs[..n], dead[..n]);
      var last := if dead[n] then [] else [xs[n]];
      assert Survivors(xs, dead) == front + last;
      SurvivorsMembership(xs[..n], dead[..n], x);
      if x in front {
        var k :| 0 <= k < n && xs[..n][k] == x && !dead[..n][k];
        assert xs[k] == x && !dead[k];
      }
      if exists k :: 0 <= k < |xs| && xs[k] == x && !dead[k] {
        var k :| 0 <= k < |xs| && xs[k] == x && !dead[k];
        if k < n {
          assert xs[..n][k] == x && !dead[..n][k];
        }
      }
    }
  }

  /** The update pass keeps the survivors of the tombstone flags and steps each of them. */
  lemma {:induction false} SweepIsSurvivorsStepped(s: seq<Body>, dt: real, power: Power)
    ensures |Sweep(s, dt, power)| == |Survivors(s, DeletedFlags(s))|
    ensures forall m :: 0 <= m < |Sweep(s, dt, power)| ==>
      var b := Survivors(s, DeletedFlags(s))[m];
      Sweep(s, dt, power)[m] == Integrate(b, dt, power(b.friction, dt))
  {
    if s != [] {
      var n := |s| - 1;
      assert DeletedFlags(s)[..n] == DeletedFlags(s[..n]);
      SweepIsSurvivorsStepped(s[..n], dt, power);
    }
  }

  /** After the update pass no actor is tombstoned and no actor has pending forces. */
  lemma {:induction false} SweepLeavesLiveSettledActors(s: seq<Body>, dt: real, power: Power)
    ensures forall b :: b in Sweep(s, dt, power) ==> !b.deleted && b.forces == []
  {
    if s != [] {
      SweepLeavesLiveSettledActors(s[..|s| - 1], dt, power);
    }
  }

  /** The update pass over two lists one after the other is the two passes one after the other. */
  lemma {:induction false} SweepAppend(s: seq<Body>, t: seq<Body>, dt: real, power: Power)
    ensures Sweep(s + t, dt, power) == Sweep(s, dt, power) + Sweep(t, dt, power)
    decreases |t|
  {
    if t == [] {
      assert s + t == s;
    } else {
      var n := |t| - 1;
      var b := t[n];
      var last := if b.deleted then [] else [Integrate(b, dt, power(b.friction, dt))];
      assert (s + t)[..|s| + n] == s + t[..n];
      assert Sweep(s + t, dt, power) == Sweep(s + t[..n], dt, power) + last;
      assert Sweep(t, dt, power) == Sweep(t[..n], dt, power) + last;
      SweepAppend(s, t[..n], dt, power);
    }
  }

  /** A, B, C with B tombstoned: the pass leaves A and C, in that order, each stepped once. */
  lemma MiddleDeletion(a: Body, b: Body, c: Body, dt: real, power: Power)
    requires !a.deleted && b.deleted && !c.deleted
    ensures Sweep([a, b, c], dt, power)
         == [Integrate(a, dt, power(a.friction, dt)), Integrate(c, dt, power(c.friction, dt))]
  {
    assert [a, b, c][..2] == [a, b];
    assert [a, b][..1] == [a];
    assert [a][..0] == [];
    assert Sweep([a], dt, power) == [Integrate(a, dt, power(a.friction, dt))];
    assert Sweep([a, b], dt, power) == Sweep([a], dt, power);
  }

  // ---------------------------------------------------------------------------------------
  // The registry
  // ---------------------------------------------------------------------------------------

  /** The snapshots of a list of actors. */
  function StatesOf(xs: seq<Actor>): (r: seq<Body>)
    reads set a | a in xs
    ensures |r| == |xs| && forall k {:trigger r[k]} :: 0 <= k < |xs| ==> r[k] == xs[k].State()
  {
    seq(|xs|, k requires 0 <= k < |xs| reads set a | a in xs => xs[k].State())
  }

  /** No entry occurs twice: each one is absent from the entries before it. */
  predicate Distinct(xs: seq<Actor>) {
    xs == [] || (xs[|xs| - 1] !in xs[..|xs| - 1] && Distinct(xs[..|xs| - 1]))
  }

  /** In a list without repeats, the entry at k differs from every other entry. */
  lemma {:induction false} OthersDiffer(xs: seq<Actor>, k: nat)
    requires Distinct(xs) && k < |xs|
    ensures forall m :: 0 <= m < |xs| && m != k ==> xs[m] != xs[k]
  {
    var n := |xs| - 1;
    if k < n {
      OthersDiffer(xs[..n], k);
      assert xs[k] in xs[..n];
    } else {
      assert forall m :: 0 <= m < n ==> xs[m] == xs[..n][m];
    }
  }

  /** Filtering a list without repeats leaves a list without repeats. */
  lemma {:induction false} SurvivorsDistinct(xs: seq<Actor>, dead: seq<bool>)
    requires |xs| == |dead| && Distinct(xs)
    ensures Distinct(Survivors(xs, dead))
  {
    if xs != [] {
      var n := |xs| - 1;
      SurvivorsDistinct(xs[..n], dead[..n]);
      SurvivorsMembership(xs[..n], dead[..n], xs[n]);
      var front := Survivors(xs[..n], dead[..n]);
      assert Survivors(xs, dead) == front + if dead[n] then [] else [xs[n]];
      if !dead[n] {
        assert xs[n] !in xs[..n];
        assert xs[n] !in front;
        AppendDistinct(front, xs[n]);
      } else {
        assert Survivors(xs, dead) == front;
      }
    }
  }

  /** Adding an entry that is not yet there keeps a list without repeats. */
  lemma AppendDistinct(xs: seq<Actor>, a: Actor)
    requires Distinct(xs) && a !in xs
    ensures Distinct(xs + [a])
  {
    assert (xs + [a])[..|xs|] == xs;
  }

  /** The update pass written per position: each live entry stepped, each tombstoned one as it was. */
  function Stepped(s: seq<Body>, dt: real, power: Power): (r: seq<Body>)
    ensures |r| == |s|
  {
    if s == [] then []
    else
      var b := s[|s| - 1];
      Stepped(s[..|s| - 1], dt, power) + [if b.deleted then b else Integrate(b, dt, power(b.friction, dt))]
  }

  /** One more entry considered: it joins the survivors exactly when its flag is false. */
  lemma SurvivorsExtend<T>(xs: seq<T>, dead: seq<bool>, k: nat)
    requires |xs| == |dead| && k < |xs|
    ensures Survivors(xs[..k + 1], dead[..k + 1]) == Survivors(xs[..k], dead[..k]) + if dead[k] then [] else [xs[k]]
  {
    assert xs[..k + 1][..k] == xs[..k];
    assert dead[..k + 1][..k] == dead[..k];
  }

  /** One more entry considered: it is stepped unless it is tombstoned. */
  lemma SteppedExtend(s: seq<Body>, k: nat, dt: real, power: Power)
    requires k < |s|
    ensures Stepped(s[..k + 1], dt, power)
         == Stepped(s[..k], dt, power) + [if s[k].deleted then s[k] else Integrate(s[k], dt, power(s[k].friction, dt))]
  {
    assert s[..k + 1][..k] == s[..k];
  }

  /** The list as the update loop leaves it once the cursor has passed k of the original actors. */
  function ListAfter<T>(xs: seq<T>, dead: seq<bool>, k: nat): seq<T>
    requires |xs| == |dead| && k <= |xs|
  {
    Survivors(xs[..k], dead[..k]) + xs[k..]
  }

  /** Where the cursor stands once it has passed k of the original actors. */
  function CursorAfter<T>(xs: seq<T>, dead: seq<bool>, k: nat): nat
    requires |xs| == |dead| && k <= |xs|
  {
    |Survivors(xs[..k], dead[..k])|
  }

  /** The states of the original actors once the cursor has passed k of them. */
  function StatesAfter(s0: seq<Body>, k: nat, dt: real, power: Power): seq<Body>
    requires k <= |s0|
  {
    Stepped(s0[..k], dt, power) + s0[k..]
  }

  /**
   * When every live actor of a list has taken its step and every tombstoned one is untouched,
   * the survivors of the list hold exactly the update pass of the states it started from.
   */
  lemma {:induction false} SteppedSurvivors(xs: seq<Actor>, s0: seq<Body>, dt: real, power: Power)
    requires StatesOf(xs) == Stepped(s0, dt, power)
    ensures StatesOf(Survivors(xs, DeletedFlags(s0))) == Sweep(s0, dt, power)
  {
    if xs != [] {
      var n := |xs| - 1;
      assert DeletedFlags(s0)[..n] == DeletedFlags(s0[..n]);
      assert StatesOf(xs[..n]) == StatesOf(xs)[..n];
      SteppedSurvivors(xs[..n], s0[..n], dt, power);
      var front := Survivors(xs[..n], DeletedFlags(s0[..n]));
      var last := if s0[n].deleted then [] else [xs[n]];
      assert StatesOf(front + last) == StatesOf(front) + StatesOf(last);
    }
  }

  /** One more visit of the inner loop is one more step of the pass. */
  lemma CollideNext(s: seq<Body>, i: nat, j: nat, dt: real, kick: Kick)
    requires i < j < |s|
    ensures PassAt(s, i, j + 1, dt, kick) == Visit(PassAt(s, i, j, dt, kick), (i, j), dt, kick)
  {
    var n := |s|;
    assert Visited(i, j + 1, n) == Visited(i, j, n) + [(i, j)];
    assert Visited(i, j + 1, n)[..|Visited(i, j + 1, n)| - 1] == Visited(i, j, n);
    CollideLast(s, Visited(i, j + 1, n), dt, kick);
  }

  /** A pass that fails at pair (i, j) ends there: the full pass is the pass up to (i, j). */
  lemma StopsAt(s: seq<Body>, i: nat, j: nat, dt: real, kick: Kick)
    requires i < j < |s|
    requires PassAt(s, i, j + 1, dt, kick).failure.Some?
    ensures CollisionPass(s, dt, kick) == PassAt(s, i, j + 1, dt, kick)
  {
    var n := |s|;
    var visited := Visited(i, j + 1, n);
    VisitedIsPrefix(i, j, n);
    assert Visited(n, 0, n) == AllPairs(n);
    var rest := AllPairs(n)[|visited|..];
    assert AllPairs(n) == visited + rest;
    FailureIsFinal(s, visited, rest, dt, kick);
  }

  /** After the last row the pass has visited every pair. */
  lemma PassComplete(s: seq<Body>, dt: real, kick: Kick)
    ensures CollisionPass(s, dt, kick) == PassAt(s, |s|, 0, dt, kick)
  {
    assert Visited(|s|, 0, |s|) == AllPairs(|s|);
  }

  /** The end of one row is the start of the next. */
  lemma RowComplete(s: seq<Body>, i: nat, dt: real, kick: Kick)
    requires i < |s|
    ensures PassAt(s, i, |s|, dt, kick) == PassAt(s, i + 1, 0, dt, kick)
    ensures PassAt(s, i, i + 1, dt, kick) == PassAt(s, i, 0, dt, kick)
  {
    assert Visited(i, |s|, |s|) == Visited(i + 1, 0, |s|);
    assert Visited(i, i + 1, |s|) == Visited(i, 0, |s|);
  }

  /** What the update cursor sees: at its position stands the k-th original actor. */
  lemma CursorAt<T>(xs: seq<T>, dead: seq<bool>, k: nat, actors: seq<T>)
    requires |xs| == |dead| && k <= |xs|
    requires actors == ListAfter(xs, dead, k) && CursorAfter(xs, dead, k) < |actors|
    ensures k < |xs| && actors[CursorAfter(xs, dead, k)] == xs[k]
    ensures dead[k] ==> var i := CursorAfter(xs, dead, k);
      actors[..i] + actors[i + 1..] == ListAfter(xs, dead, k + 1) && i == CursorAfter(xs, dead, k + 1)
    ensures !dead[k] ==>
      actors == ListAfter(xs, dead, k + 1) && CursorAfter(xs, dead, k) + 1 == CursorAfter(xs, dead, k + 1)
  {
    SurvivorsExtend(xs, dead, k);
    assert xs[k..] == [xs[k]] + xs[k + 1..];
  }

  /** The loop is done once the cursor has passed every original actor. */
  lemma CursorDone<T>(xs: seq<T>, dead: seq<bool>)
    requires |xs| == |dead|
    ensures ListAfter(xs, dead, |xs|) == Survivors(xs, dead)
  {
    assert xs[..|xs|] == xs && dead[..|xs|] == dead;
  }

  /** The states the loop must reach after the cursor passes position k. */
  lemma SteppedNext(s0: seq<Body>, k: nat, dt: real, power: Power)
    requires k < |s0|
    ensures StatesAfter(s0, k, dt, power)[k] == s0[k]
    ensures StatesAfter(s0, k + 1, dt, power)
         == StatesAfter(s0, k, dt, power)[k := if s0[k].deleted then s0[k] else Integrate(s0[k], dt, power(s0[k].friction, dt))]
  {
    SteppedExtend(s0, k, dt, power);
    assert s0[k..] == [s0[k]] + s0[k + 1..];
  }

  /** Once every original actor is passed, the states the loop must reach are the stepped ones. */
  lemma SteppedDone(s0: seq<Body>, dt: real, power: Power)
    ensures StatesAfter(s0, |s0|, dt, power) == Stepped(s0, dt, power)
  {
    assert s0[..|s0|] == s0;
  }

  /** Actor.update on one actor of a list without repeats changes that actor's state and no other. */
  method UpdateAt(a: Actor, ghost xs: seq<Actor>, ghost k: nat, dt: real, damping: real)
    requires Distinct(xs) && k < |xs| && xs[k] == a
    modifies a
    ensures StatesOf(xs) == old(StatesOf(xs))[k := Integrate(old(StatesOf(xs))[k], dt, damping)]
  {
    OthersDiffer(xs, k);
    a.Update(dt, damping);
  }

  /** The two responses of a contact between xs[i] and xs[j]: first xs[i] responds, then xs[j] to the new xs[i]. */
  method CollideAt(xs: seq<Actor>, i: nat, j: nat, dt: real, kick: Kick)
    requires Distinct(xs) && i < j < |xs|
    modifies xs[i], xs[j]
    ensures var s := old(StatesOf(xs));
      var bi := Respond(s[i], s[j], dt, kick);
      StatesOf(xs) == s[i := bi][j := Respond(s[j], bi, dt, kick)]
  {
    OthersDiffer(xs, i);
    OthersDiffer(xs, j);
    xs[i].OnCollision(xs[j], dt, kick);
    xs[j].OnCollision(xs[i], dt, kick);
  }

  /** Game: the ordered list of actors and the frame counter. */
  class Game {
    var actors: seq<Actor>
    var frame: int

    /** Each actor is registered once. */
    ghost predicate Valid()
      reads this
    {
      Distinct(actors)
    }

    function Bodies(): seq<Body>
      reads this, set a | a in actors
    {
      StatesOf(actors)
    }

    constructor ()
      ensures Valid() && actors == [] && frame == 0
    {
      actors := [];
      frame := 0;
    }

    /** new_actor: the actor joins the end of the list. */
    method NewActor(a: Actor)
      requires Valid() && a !in actors
      modifies this
      ensures Valid()
      ensures actors == old(actors) + [a] && frame == old(frame)
    {
      AppendDistinct(actors, a);
      actors := actors + [a];
    }

    /**
     * do_collisions: for every pair i < j, in order, test actors[i] against actors[j]; on
     * contact actors[i] responds to actors[j] and then actors[j] to actors[i]. The first
     * failing test stops the pass.
     */
    method DoCollisions(dt: real, kick: Kick) returns (failure: Option<Failure>)
      requires Valid()
      modifies set a | a in actors
      ensures failure == CollisionPass(old(Bodies()), dt, kick).failure
      ensures Bodies() == CollisionPass(old(Bodies()), dt, kick).bodies
      ensures DeletedFlags(Bodies()) == DeletedFlags(old(Bodies()))
    {
      var n := |actors|;
      ghost var s0 := Bodies();
      ghost var o := Pass(s0, [], None);
      assert DeletedFlags(CollisionPass(s0, dt, kick).bodies) == DeletedFlags(s0) by {
        VisitedInRange(n, 0, n);
        assert Visited(n, 0, n) == AllPairs(n);
        CollideKeepsFlags(s0, AllPairs(n), dt, kick);
      }
      for i := 0 to n
        invariant o == PassAt(s0, i, 0, dt, kick) && o.failure.None?
        invariant StatesOf(actors) == o.bodies
      {
        RowComplete(s0, i, dt, kick);
        failure, o := CollideRow(i, s0, o, dt, kick);
        if failure.Some? {
          return;
        }
      }
      PassComplete(s0, dt, kick);
      failure := None;
    }

    /** One turn of the outer collision loop: actors[i] against every later actor, in order. */
    method CollideRow(i: nat, ghost s0: seq<Body>, ghost o0: Pass, dt: real, kick: Kick)
      returns (failure: Option<Failure>, ghost o: Pass)
      requires Distinct(actors) && i < |actors| == |s0|
      requires o0 == PassAt(s0, i, i + 1, dt, kick) && o0.failure.None?
      requires StatesOf(actors) == o0.bodies
      modifies set a | a in actors
      ensures StatesOf(actors) == o.bodies && failure == o.failure
      ensures failure.None? ==> o == PassAt(s0, i, |s0|, dt, kick)
      ensures failure.Some? ==> o == CollisionPass(s0, dt, kick)
    {
      var n := |actors|;
      o := o0;
      failure := None;
      for j := i + 1 to n
        invariant o == PassAt(s0, i, j, dt, kick) && o.failure.None? && failure.None?
        invariant StatesOf(actors) == o.bodies
      {
        failure, o := CollideStep(i, j, s0, o, dt, kick);
        if failure.Some? {
          return;
        }
      }
    }

    /** One turn of the inner collision loop, as a step of the pass. */
    method CollideStep(i: nat, j: nat, ghost s0: seq<Body>, ghost o0: Pass, dt: real, kick: Kick)
      returns (failure: Option<Failure>, ghost o: Pass)
      requires Valid() && i < j < |actors| == |s0|
      requires o0 == PassAt(s0, i, j, dt, kick) && o0.failure.None?
      requires StatesOf(actors) == o0.bodies
      modifies actors[i], actors[j]
      ensures StatesOf(actors) == o.bodies && failure == o.failure
      ensures failure.None? ==> o == PassAt(s0, i, j + 1, dt, kick)
      ensures failure.Some? ==> o == CollisionPass(s0, dt, kick)
    {
      CollideNext(s0, i, j, dt, kick);
      var t := VisitPair(i, j, o0, dt, kick);
      o := Visit(o0, (i, j), dt, kick);
      failure := None;
      if t.Fail? {
        failure := Some(t.failure);
        StopsAt(s0, i, j, dt, kick);
      }
    }

    /** One turn of the inner collision loop: test actors[i] against actors[j] and on contact fire both responses. */
    method VisitPair(i: nat, j: nat, ghost o: Pass, dt: real, kick: Kick) returns (t: Result<Option<bool>>)
      requires Valid() && i < j < |actors| && StatesOf(actors) == o.bodies && o.failure.None?
      modifies actors[i], actors[j]
      ensures t == IsTouching(o.bodies[i], o.bodies[j])
      ensures StatesOf(actors) == Visit(o, (i, j), dt, kick).bodies
    {
      t := IsTouching(actors[i].State(), actors[j].State());
      if t == Ok(Some(true)) {
        CollideAt(actors, i, j, dt, kick);
      }
    }

    /**
     * The update loop of Game.update: a cursor walks the list; a tombstoned actor is popped
     * at the cursor, which then stays put; any other actor is updated and the cursor moves on.
     */
    method UpdateActors(dt: real, power: Power)
      requires Valid()
      modifies this, set a | a in actors
      ensures Valid()
      ensures actors == Survivors(old(actors), DeletedFlags(old(Bodies())))
      ensures Bodies() == Sweep(old(Bodies()), dt, power)
      ensures StatesOf(old(actors)) == Stepped(old(Bodies()), dt, power)
      ensures frame == old(frame)
    {
      ghost var xs := actors;
      ghost var s0 := Bodies();
      ghost var dead := DeletedFlags(s0);
      ghost var k := 0;
      var i := 0;
      while i < |actors|
        invariant 0 <= k <= |xs|
        invariant actors == ListAfter(xs, dead, k) && i == CursorAfter(xs, dead, k)
        invariant frame == old(frame)
        invariant StatesOf(xs) == StatesAfter(s0, k, dt, power)
        decreases |xs| - k
      {
        i := Advance(i, xs, s0, k, dt, power);
        k := k + 1;
      }
      assert k == |xs|;
      CursorDone(xs, dead);
      SteppedDone(s0, dt, power);
      SurvivorsDistinct(xs, dead);
      SteppedSurvivors(xs, s0, dt, power);
    }

    /**
     * One turn of the update loop, at cursor i standing on the k-th original actor: pop it if
     * it is tombstoned, otherwise update it and move the cursor on.
     */
    method Advance(i: nat, ghost xs: seq<Actor>, ghost s0: seq<Body>, ghost k: nat, dt: real, power: Power)
      returns (next: nat)
      requires Distinct(xs) && |s0| == |xs| && k <= |xs| && i < |actors|
      requires actors == ListAfter(xs, DeletedFlags(s0), k) && i == CursorAfter(xs, DeletedFlags(s0), k)
      requires StatesOf(xs) == StatesAfter(s0, k, dt, power)
      modifies this, set a | a in xs
      ensures k < |xs|
      ensures actors == ListAfter(xs, DeletedFlags(s0), k + 1) && next == CursorAfter(xs, DeletedFlags(s0), k + 1)
      ensures StatesOf(xs) == StatesAfter(s0, k + 1, dt, power)
      ensures frame == old(frame)
    {
      CursorAt(xs, DeletedFlags(s0), k, actors);
      var a := actors[i];
      SteppedNext(s0, k, dt, power);
      assert a.State() == s0[k];
      if a.deleted {
        actors := actors[..i] + actors[i + 1..];
        next := i;
      } else {
        UpdateAt(a, xs, k, dt, power(a.friction, dt));
        next := i + 1;
      }
    }

    /**
     * Game.update without the event polling: the collision pass, then the update pass, then
     * the frame counter. An error in the collision pass ends the tick there.
     */
    method Update(dt: real, power: Power, kick: Kick) returns (failure: Option<Failure>)
      requires Valid()
      modifies this, set a | a in actors
      ensures Valid()
      ensures failure == CollisionPass(old(Bodies()), dt, kick).failure
      ensures failure.Some? ==>
        && actors == old(actors) && frame == old(frame)
        && Bodies() == CollisionPass(old(Bodies()), dt, kick).bodies
      ensures failure.None? ==>
        && actors == Survivors(old(actors), DeletedFlags(old(Bodies())))
        && Bodies() == Sweep(CollisionPass(old(Bodies()), dt, kick).bodies, dt, power)
        && StatesOf(old(actors)) == Stepped(CollisionPass(old(Bodies()), dt, kick).bodies, dt, power)
        && frame == old(frame) + 1
    {
      failure := DoCollisions(dt, kick);
      if failure.Some? {
        return;
      }
      UpdateActors(dt, power);
      frame := frame + 1;
    }
  }
}

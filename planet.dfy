/** One body of the solar simulation and its per-frame step: `Planet.attraction`
    (the pull of one other body) and `Planet.update_position` (sum the pulls,
    update the velocity, then the position from the new velocity, then the
    orbit trail).

    Positions, velocities and masses are reals. The four floating-point library
    calls of `attraction` (math.sqrt, math.atan2, math.cos, math.sin) are not
    computed here: the caller supplies them as a `MathLib`. Everything around
    them (what is read, what is written, in which order, and where Python
    raises ZeroDivisionError) is modelled as the source does it. */
module Planets {
  import Trail

  datatype Option<+T> = None | Some(value: T)

  datatype Result<+T, +E> = Success(value: T) | Failure(error: E)

  /** A pair of reals: a position (m), a velocity (m/s) or a force (N). */
  datatype Vec = Vec(x: real, y: real)

  /** Gravitational constant `Planet.G`, in SI units. */
  const G: real := 6.67428e-11

  /** Time step `Planet.TIMESTEP`: one day, 3600 * 24 seconds. */
  const TIMESTEP: real := 86400.0

  /** The library calls `attraction` makes. */
  datatype MathLib = MathLib(
    sqrt: real -> real,
    atan2: (real, real) -> real,
    cos: real -> real,
    sin: real -> real)

  /** What `sqrt` means over the reals: the non-negative square root, which is
      positive exactly for a positive argument. */
  ghost predicate SqrtSound(m: MathLib) {
    forall r: real :: 0.0 <= r ==>
      0.0 <= m.sqrt(r) && m.sqrt(r) * m.sqrt(r) == r && (0.0 < m.sqrt(r) <==> 0.0 < r)
  }

  /** The two places where a step raises Python's ZeroDivisionError. */
  datatype Fault =
    | Coincident  // `attraction` divides by distance**2 and the distance is 0
    | Massless    // `update_position` divides the summed force by a mass of 0

  /** The physical state of a planet, as `update_position` reads and writes it. */
  datatype Body = Body(
    pos: Vec,             // x, y
    vel: Vec,             // x_vel, y_vel
    mass: real,
    sun: bool,
    distanceToSun: real,  // distance_to_sun
    orbit: seq<Vec>)

  /** `distance` in `attraction`: the library square root of the squared
      distance from `from` to `to`. */
  function Distance(m: MathLib, from: Vec, to: Vec): real {
    var dx := to.x - from.x;
    var dy := to.y - from.y;
    m.sqrt(dx * dx + dy * dy)
  }

  /** The magnitude G * m1 * m2 / distance**2 of the Newtonian pull. */
  function Magnitude(mass: real, otherMass: real, distance: real): real
    requires distance != 0.0
  {
    G * mass * otherMass / (distance * distance)
  }

  /** The value `attraction` returns for a body of mass `mass` at `from`
      pulled by one of mass `otherMass` at `to`: the Newtonian force split
      along the angle atan2(dy, dx), or a fault where Python divides by
      distance**2 and the distance is 0. */
  function Pull(m: MathLib, from: Vec, mass: real, to: Vec, otherMass: real): (r: Result<Vec, Fault>)
    ensures r.Failure? <==> Distance(m, from, to) == 0.0
    ensures r.Failure? ==> r.error == Coincident
  {
    var distance := Distance(m, from, to);
    if distance == 0.0 then Failure(Coincident)
    else
      var force := Magnitude(mass, otherMass, distance);
      var theta := m.atan2(to.y - from.y, to.x - from.x);
      Success(Along(m, theta, force))
  }

  /** The pull of `other` on `me`. */
  function PullOn(m: MathLib, me: Body, other: Body): Result<Vec, Fault> {
    Pull(m, me.pos, me.mass, other.pos, other.mass)
  }

  /** A force of size `force` at angle `theta`: (cos(theta) * force,
      sin(theta) * force). */
  function Along(m: MathLib, theta: real, force: real): Vec {
    Vec(m.cos(theta) * force, m.sin(theta) * force)
  }

  /** The `distance_to_sun` that `attraction` leaves on `me`: the distance to
      `other` when `other` is flagged `sun`, the old value otherwise. The write
      happens before the division, so it happens also when `Pull` fails. */
  function SunDistance(m: MathLib, me: Body, other: Body): real {
    if other.sun then Distance(m, me.pos, other.pos) else me.distanceToSun
  }

  /** Where the force loop of `update_position` stands: the summed force, the
      `distance_to_sun` written so far, and the fault that stopped it, if any. */
  datatype Sweep = Sweep(force: Vec, distanceToSun: real, fault: Option<Fault>)

  /** One turn of the force loop of `update_position`: the pull of `other` on
      `me` added to the sweep `s`, unless `s` has already stopped. */
  function NextSweep(m: MathLib, me: Body, s: Sweep, other: Body): Sweep {
    if s.fault.Some? then s
    else
      var dist := SunDistance(m, me.(distanceToSun := s.distanceToSun), other);
      match PullOn(m, me, other)
      case Failure(f) => Sweep(s.force, dist, Some(f))
      case Success(f) => Sweep(Vec(s.force.x + f.x, s.force.y + f.y), dist, None)
  }

  /** The force loop of `update_position` over `others` (the planet list with
      `me` skipped), in list order, starting from a zero force. It stops at the
      first pull that faults. */
  function SweepOf(m: MathLib, me: Body, others: seq<Body>): Sweep {
    if others == [] then Sweep(Vec(0.0, 0.0), me.distanceToSun, None)
    else NextSweep(m, me, SweepOf(m, me, others[..|others| - 1]), others[|others| - 1])
  }

  /** The net force on `me` as the plain sum of the pulls of `others`, added
      up from the front; it is None when some pull faults. */
  function NetForce(m: MathLib, me: Body, others: seq<Body>): Option<Vec> {
    if others == [] then Some(Vec(0.0, 0.0))
    else
      match (PullOn(m, me, others[0]), NetForce(m, me, others[1..]))
      case (Success(f), Some(rest)) => Some(Vec(f.x + rest.x, f.y + rest.y))
      case _ => None
  }

  /** The state `update_position` leaves and the fault it raised, if any. */
  datatype Outcome = Outcome(body: Body, fault: Option<Fault>)

  /** `update_position` of `me` against `others`: sweep the forces, then
      x_vel += total_fx / mass * TIMESTEP (likewise y), then x += x_vel *
      TIMESTEP (likewise y) with the new velocity, then record the new position
      on the trail. On a fault only `distance_to_sun` has been written. */
  function Advance(m: MathLib, me: Body, others: seq<Body>): (r: Outcome)
    ensures r.body.mass == me.mass && r.body.sun == me.sun
    ensures r.body.distanceToSun == SweepOf(m, me, others).distanceToSun
    ensures r.fault.Some? ==> r.body == me.(distanceToSun := r.body.distanceToSun)
    ensures r.fault.None? ==> 0 < |r.body.orbit| <= Trail.CAPACITY && r.body.orbit[|r.body.orbit| - 1] == r.body.pos
  {
    var s := SweepOf(m, me, others);
    if s.fault.Some? then Outcome(me.(distanceToSun := s.distanceToSun), s.fault)
    else if me.mass == 0.0 then Outcome(me.(distanceToSun := s.distanceToSun), Some(Massless))
    else
      Outcome(Move(me.(distanceToSun := s.distanceToSun), s.force), None)
  }

  /** The second half of `update_position`: x_vel += fx / mass * TIMESTEP
      (likewise y), then x += x_vel * TIMESTEP (likewise y) with the new
      velocity, then the new position recorded on the trail. */
  function Move(me: Body, force: Vec): (r: Body)
    requires me.mass != 0.0
    ensures r.mass == me.mass && r.sun == me.sun && r.distanceToSun == me.distanceToSun
    ensures 0 < |r.orbit| <= Trail.CAPACITY && r.orbit[|r.orbit| - 1] == r.pos
  {
    var vel := Vec(Kick(me.vel.x, force.x, me.mass), Kick(me.vel.y, force.y, me.mass));
    var pos := Vec(Drift(me.pos.x, vel.x), Drift(me.pos.y, vel.y));
    Body(pos, vel, me.mass, me.sun, me.distanceToSun, Trail.Retain(me.orbit, pos))
  }

  /** `v += f / mass * TIMESTEP`: one velocity component after the step. */
  function Kick(v: real, f: real, mass: real): real
    requires mass != 0.0
  {
    v + f / mass * TIMESTEP
  }

  /** `p += v * TIMESTEP`: one position component after the step. */
  function Drift(p: real, v: real): real {
    p + v * TIMESTEP
  }

  // ----- Properties of one step -----

  /** With a sound square root, `attraction` fails exactly when the two bodies
      sit at the same position. */
  lemma PullFailsIffCoincident(m: MathLib, me: Body, other: Body)
    requires SqrtSound(m)
    ensures PullOn(m, me, other).Failure? <==> me.pos == other.pos
  {
    RootOfSquaresIsZero(m, other.pos.x - me.pos.x, other.pos.y - me.pos.y);
  }

  /** A sound sqrt(a * a + b * b) is 0 exactly when a and b are. */
  lemma RootOfSquaresIsZero(m: MathLib, a: real, b: real)
    requires SqrtSound(m)
    ensures m.sqrt(a * a + b * b) == 0.0 <==> a == 0.0 && b == 0.0
  {
    assert 0.0 <= a * a + b * b;
    if a == 0.0 && b == 0.0 {
      assert a * a + b * b == 0.0;
      assert m.sqrt(0.0) == 0.0;
    } else {
      assert 0.0 < a * a + b * b by {
        if a != 0.0 {
          assert 0.0 < a * a;
        } else {
          assert 0.0 < b * b;
        }
      }
      assert 0.0 < m.sqrt(a * a + b * b);
    }
  }

  /** The recorded `distance_to_sun` is the Euclidean distance: non-negative,
      and its square is the squared difference of the positions. */
  lemma SunDistanceIsEuclidean(m: MathLib, me: Body, other: Body)
    requires SqrtSound(m) && other.sun
    ensures var d := SunDistance(m, me, other);
      0.0 <= d && d * d == (other.pos.x - me.pos.x) * (other.pos.x - me.pos.x) + (other.pos.y - me.pos.y) * (other.pos.y - me.pos.y)
  {
    var dx, dy := other.pos.x - me.pos.x, other.pos.y - me.pos.y;
    assert 0.0 <= dx * dx + dy * dy;
  }

  /** Where no pull faults, the force loop's total is the sum of the pulls of
      all the other bodies. */
  lemma {:induction false} SweepSumsPulls(m: MathLib, me: Body, others: seq<Body>)
    ensures SweepOf(m, me, others).fault.None? <==> NetForce(m, me, others).Some?
    ensures NetForce(m, me, others).Some? ==> SweepOf(m, me, others).force == NetForce(m, me, others).value
  {
    if others != [] {
      var n := |others|;
      var init := others[..n - 1];
      SweepSumsPulls(m, me, init);
      NetForceSnoc(m, me, init, others[n - 1]);
      assert init + [others[n - 1]] == others;
    }
  }

  /** NetForce of a list extended at the back is NetForce of the list plus the
      last pull. */
  lemma {:induction false} NetForceSnoc(m: MathLib, me: Body, init: seq<Body>, last: Body)
    ensures var n := NetForce(m, me, init + [last]);
      n.Some? <==> NetForce(m, me, init).Some? && PullOn(m, me, last).Success?
    ensures var n := NetForce(m, me, init + [last]);
      n.Some? ==> n.value == Vec(NetForce(m, me, init).value.x + PullOn(m, me, last).value.x,
                                 NetForce(m, me, init).value.y + PullOn(m, me, last).value.y)
  {
    if init == [] {
      assert [last][1..] == [];
    } else {
      assert (init + [last])[1..] == init[1..] + [last];
      NetForceSnoc(m, me, init[1..], last);
    }
  }

  /** `distance_to_sun` after the force loop is untouched when no other
      body is flagged `sun`, whether or not the loop ran to the end. */
  lemma {:induction false} SweepKeepsDistanceWithoutSun(m: MathLib, me: Body, others: seq<Body>)
    requires forall j :: 0 <= j < |others| ==> !others[j].sun
    ensures SweepOf(m, me, others).distanceToSun == me.distanceToSun
  {
    if others != [] {
      var init := others[..|others| - 1];
      assert forall j :: 0 <= j < |init| ==> init[j] == others[j];
      SweepKeepsDistanceWithoutSun(m, me, init);
    }
  }

  /** `distance_to_sun` after the force loop is the distance to the last
      other body flagged `sun`. */
  lemma {:induction false} SweepRecordsSunDistance(m: MathLib, me: Body, others: seq<Body>, j: nat)
    requires SweepOf(m, me, others).fault.None?
    requires j < |others| && others[j].sun
    requires forall k :: j < k < |others| ==> !others[k].sun
    ensures SweepOf(m, me, others).distanceToSun == Distance(m, me.pos, others[j].pos)
  {
    var n := |others|;
    var init := others[..n - 1];
    SweepDistanceStep(m, me, others);
    if j < n - 1 {
      SweepRecordsSunDistance(m, me, init, j);
    }
  }

  /** `update_position` as a whole, faulted or not, leaves `distance_to_sun`
      as it was when no other body is flagged `sun`. */
  lemma StepKeepsDistanceWithoutSun(m: MathLib, me: Body, others: seq<Body>)
    requires forall j :: 0 <= j < |others| ==> !others[j].sun
    ensures Advance(m, me, others).body.distanceToSun == me.distanceToSun
  {
    SweepKeepsDistanceWithoutSun(m, me, others);
  }

  /** A step that does not fault leaves `distance_to_sun` as the distance to
      the last other body flagged `sun`. */
  lemma StepRecordsSunDistance(m: MathLib, me: Body, others: seq<Body>, j: nat)
    requires Advance(m, me, others).fault.None?
    requires j < |others| && others[j].sun
    requires forall k :: j < k < |others| ==> !others[k].sun
    ensures Advance(m, me, others).body.distanceToSun == Distance(m, me.pos, others[j].pos)
  {
    SweepRecordsSunDistance(m, me, others, j);
  }

  /** The force loop can only stop with `Coincident`: the division by
      distance**2 in `attraction` is its one source of exceptions. */
  lemma {:induction false} SweepFaultIsCoincident(m: MathLib, me: Body, others: seq<Body>)
    ensures SweepOf(m, me, others).fault.Some? ==> SweepOf(m, me, others).fault == Some(Coincident)
  {
    if others != [] {
      SweepFaultIsCoincident(m, me, others[..|others| - 1]);
    }
  }

  /** When `update_position` raises: with `Coincident` exactly when some
      pull fails, with `Massless` exactly when every pull succeeds and the
      mass is 0, and not at all otherwise. */
  lemma AdvanceFaultsIff(m: MathLib, me: Body, others: seq<Body>)
    ensures Advance(m, me, others).fault.None? <==> NetForce(m, me, others).Some? && me.mass != 0.0
    ensures Advance(m, me, others).fault == Some(Massless) <==> NetForce(m, me, others).Some? && me.mass == 0.0
    ensures Advance(m, me, others).fault == Some(Coincident) <==> NetForce(m, me, others).None?
  {
    SweepSumsPulls(m, me, others);
    SweepFaultIsCoincident(m, me, others);
  }

  /** With a real square root, the sum of the pulls fails exactly when some
      other body sits at the same position. */
  lemma {:induction false} NetForceNoneIff(m: MathLib, me: Body, others: seq<Body>)
    requires SqrtSound(m)
    ensures NetForce(m, me, others).None? <==> exists j :: 0 <= j < |others| && others[j].pos == me.pos
  {
    if others != [] {
      var rest := others[1..];
      NetForceNoneIff(m, me, rest);
      PullFailsIffCoincident(m, me, others[0]);
      if exists j :: 0 <= j < |rest| && rest[j].pos == me.pos {
        var j :| 0 <= j < |rest| && rest[j].pos == me.pos;
        assert others[j + 1].pos == me.pos;
      }
      if exists j :: 0 <= j < |others| && others[j].pos == me.pos {
        var j :| 0 <= j < |others| && others[j].pos == me.pos;
        if j > 0 {
          assert rest[j - 1].pos == me.pos;
        }
      }
    }
  }

  /** With a real square root, `update_position` raises `Coincident` exactly
      when some other body sits at the planet's own position. */
  lemma StepRaisesIffCoincident(m: MathLib, me: Body, others: seq<Body>)
    requires SqrtSound(m)
    ensures Advance(m, me, others).fault == Some(Coincident) <==> exists j :: 0 <= j < |others| && others[j].pos == me.pos
  {
    AdvanceFaultsIff(m, me, others);
    NetForceNoneIff(m, me, others);
  }

  /** The last turn of the force loop: `distance_to_sun` is the distance to
      the last body when it is the sun, and what the earlier turns left
      otherwise. */
  lemma SweepDistanceStep(m: MathLib, me: Body, others: seq<Body>)
    requires others != [] && SweepOf(m, me, others).fault.None?
    ensures var init := others[..|others| - 1];
      SweepOf(m, me, init).fault.None? &&
      (forall k :: 0 <= k < |init| ==> init[k] == others[k]) &&
      SweepOf(m, me, others).distanceToSun ==
        if others[|others| - 1].sun then Distance(m, me.pos, others[|others| - 1].pos)
        else SweepOf(m, me, init).distanceToSun
  {
  }

  /** Semi-implicit Euler: the velocity gains force / mass times TIMESTEP,
      and the new position already uses that new velocity, so it moves by
      the old velocity times TIMESTEP plus the acceleration times TIMESTEP
      squared (explicit Euler would leave that last term out). */
  lemma PositionUsesNewVelocity(m: MathLib, me: Body, others: seq<Body>)
    requires Advance(m, me, others).fault.None?
    ensures var after := Advance(m, me, others).body;
      var f := SweepOf(m, me, others).force;
      after.vel == Vec(me.vel.x + f.x / me.mass * TIMESTEP, me.vel.y + f.y / me.mass * TIMESTEP)
    ensures var after := Advance(m, me, others).body;
      var f := SweepOf(m, me, others).force;
      after.pos.x == me.pos.x + me.vel.x * TIMESTEP + f.x / me.mass * TIMESTEP * TIMESTEP &&
      after.pos.y == me.pos.y + me.vel.y * TIMESTEP + f.y / me.mass * TIMESTEP * TIMESTEP
  {
  }

  /** A step that does not fault keeps the newest points of the old trail in
      order and adds the new position at the newest end. */
  lemma StepExtendsTrail(m: MathLib, me: Body, others: seq<Body>)
    requires Advance(m, me, others).fault.None?
    ensures var after := Advance(m, me, others).body;
      after.orbit == Trail.Retain(me.orbit, after.pos) &&
      after.orbit[..|after.orbit| - 1] == me.orbit[|me.orbit| + 1 - |after.orbit|..]
  {
  }

  // ----- The mutable planet -----

  /** `Planet`: the fields set in `__init__` and changed by `update_position`. */
  class Planet {
    var x: real
    var y: real
    var radius: int
    var color: (int, int, int)
    var mass: real
    var name: string
    var description: string
    var orbit: seq<Vec>
    var sun: bool
    var distanceToSun: real
    var xVel: real
    var yVel: real

    /** `Planet(x, y, radius, color, mass, name, description)`: at rest, with
        an empty trail, not the sun, and a distance to the sun of 0. */
    constructor (x: real, y: real, radius: int, color: (int, int, int), mass: real, name: string := "", description: string := "")
      ensures this.x == x && this.y == y && this.radius == radius && this.color == color
      ensures this.mass == mass && this.name == name && this.description == description
      ensures orbit == [] && !sun && distanceToSun == 0.0 && xVel == 0.0 && yVel == 0.0
    {
      this.x, this.y := x, y;
      this.radius := radius;
      this.color := color;
      this.mass := mass;
      this.name := name;
      this.description := description;
      orbit := [];
      sun := false;
      distanceToSun := 0.0;
      xVel, yVel := 0.0, 0.0;
    }

    /** The physical state of this planet as a value. */
    function Snapshot(): Body
      reads this
    {
      Body(Vec(x, y), Vec(xVel, yVel), mass, sun, distanceToSun, orbit)
    }

    /** `attraction(other)`: writes `distance_to_sun` when `other` is the sun,
        then returns the pull of `other` or raises on a zero distance. */
    method Attraction(other: Planet, m: MathLib) returns (r: Result<Vec, Fault>)
      modifies this`distanceToSun
      ensures distanceToSun == SunDistance(m, old(Snapshot()), old(other.Snapshot()))
      ensures r == Pull(m, old(Vec(x, y)), old(mass), old(Vec(other.x, other.y)), old(other.mass))
    {
      var distance := Distance(m, Vec(x, y), Vec(other.x, other.y));
      if other.sun {
        distanceToSun := distance;
      }
      if distance == 0.0 {
        return Failure(Coincident);
      }
      var force := Magnitude(mass, other.mass, distance);
      var theta := m.atan2(other.y - y, other.x - x);
      r := Success(Along(m, theta, force));
    }

    /** The force loop of `update_position`: `attraction` of every planet in
        `planets` but this one, in list order, summed into total_fx and
        total_fy; an exception from `attraction` ends it. */
    method SumForces(planets: seq<Planet>, m: MathLib) returns (total: Vec, fault: Option<Fault>)
      modifies this`distanceToSun
      ensures SweepOf(m, old(Snapshot()), old(Bodies(Without(planets, this)))) == Sweep(total, distanceToSun, fault)
    {
      ghost var me := Snapshot();
      ghost var skipped := Without(planets, this);
      ghost var others := Bodies(skipped);
      ghost var n := 0;
      var totalFx, totalFy := 0.0, 0.0;
      for j := 0 to |planets|
        invariant Snapshot() == me.(distanceToSun := distanceToSun)
        invariant n <= |skipped| == |others|
        invariant Without(planets[..j], this) == skipped[..n]
        invariant SweepOf(m, me, others[..n]) == Sweep(Vec(totalFx, totalFy), distanceToSun, None)
      {
        var planet := planets[j];
        WithoutNext(planets, j, this, n);
        if planet == this {
          continue;
        }
        SweepNext(m, me, others, n);
        var sum, stop := AddPull(planet, m, Vec(totalFx, totalFy), me);
        if stop.Some? {
          SweepStopsAtFault(m, me, others[..n + 1], others);
          assert SweepOf(m, me, others) == Sweep(sum, distanceToSun, stop);
          return sum, stop;
        }
        totalFx, totalFy := sum.x, sum.y;
        n := n + 1;
      }
      assert planets[..|planets|] == planets;
      assert others[..n] == others;
      assert SweepOf(m, me, others) == Sweep(Vec(totalFx, totalFy), distanceToSun, None);
      total, fault := Vec(totalFx, totalFy), None;
    }

    /** One turn of the force loop: `attraction(other)` added to the running
        total, as NextSweep says for the body `me` this planet started from. */
    method AddPull(other: Planet, m: MathLib, total: Vec, ghost me: Body) returns (next: Vec, fault: Option<Fault>)
      requires other != this && Snapshot() == me.(distanceToSun := distanceToSun)
      modifies this`distanceToSun
      ensures NextSweep(m, me, Sweep(total, old(distanceToSun), None), old(other.Snapshot())) == Sweep(next, distanceToSun, fault)
      ensures Snapshot() == me.(distanceToSun := distanceToSun)
    {
      var f := Attraction(other, m);
      if f.Failure? {
        return total, Some(f.error);
      }
      next, fault := Vec(total.x + f.value.x, total.y + f.value.y), None;
    }

    /** The second half of `update_position`, once the force loop has summed
        `force`: velocity, then position with the new velocity, then the
        trail, as Move says. */
    method Accelerate(force: Vec)
      requires mass != 0.0
      modifies this`xVel, this`yVel, this`x, this`y, this`orbit
      ensures Snapshot() == Move(old(Snapshot()), force)
    {
      xVel := Kick(xVel, force.x, mass);
      yVel := Kick(yVel, force.y, mass);
      x := Drift(x, xVel);
      y := Drift(y, yVel);
      orbit := Trail.Retain(orbit, Vec(x, y));
    }

    /** `update_position(planets)`: sum the forces of the other planets, then
        update velocity, position and trail as `Advance` says. Name,
        description, radius, colour, mass and the sun flag never change. */
    method UpdatePosition(planets: seq<Planet>, m: MathLib) returns (fault: Option<Fault>)
      modifies this`x, this`y, this`xVel, this`yVel, this`orbit, this`distanceToSun
      ensures var o := Advance(m, old(Snapshot()), old(Bodies(Without(planets, this))));
        Snapshot() == o.body && fault == o.fault
      ensures name == old(name) && description == old(description)
      ensures radius == old(radius) && color == old(color)
      ensures mass == old(mass) && sun == old(sun)
    {
      ghost var me := Snapshot();
      ghost var others := Bodies(Without(planets, this));
      var total;
      total, fault := SumForces(planets, m);
      assert SweepOf(m, me, others) == Sweep(total, distanceToSun, fault);
      if fault.Some? {
        assert Advance(m, me, others) == Outcome(Snapshot(), fault);
        return;
      }
      if mass == 0.0 {
        assert Advance(m, me, others) == Outcome(Snapshot(), Some(Massless));
        return Some(Massless);
      }
      ghost var swept := Snapshot();
      Accelerate(total);
      assert Snapshot() == Move(swept, total);
      assert Advance(m, me, others) == Outcome(Snapshot(), None);
    }
  }

  /** `planets` with every occurrence of `p` skipped, in list order: the
      bodies whose pull `update_position` sums. */
  function Without(planets: seq<Planet>, p: Planet): (r: seq<Planet>)
    ensures p !in r
  {
    if planets == [] then []
    else Without(planets[..|planets| - 1], p) + (if planets[|planets| - 1] == p then [] else [planets[|planets| - 1]])
  }

  /** The loop of `update_position` skips the planet itself and nothing
      else: the planets it visits are exactly the others of the list. */
  lemma {:induction false} WithoutSkipsOnlySelf(planets: seq<Planet>, p: Planet)
    ensures forall q :: q in Without(planets, p) <==> q in planets && q != p
  {
    if planets != [] {
      var n := |planets|;
      WithoutSkipsOnlySelf(planets[..n - 1], p);
      assert planets == planets[..n - 1] + [planets[n - 1]];
    }
  }

  /** The snapshots of `planets`, in order. */
  function Bodies(planets: seq<Planet>): (r: seq<Body>)
    reads set p | p in planets
    ensures |r| == |planets|
    ensures forall i :: 0 <= i < |planets| ==> r[i] == planets[i].Snapshot()
  {
    if planets == [] then []
    else Bodies(planets[..|planets| - 1]) + [planets[|planets| - 1].Snapshot()]
  }

  /** Skipping `p` in a prefix of the list gives a prefix of skipping it in
      the whole list. */
  lemma {:induction false} WithoutPrefix(planets: seq<Planet>, k: nat, p: Planet)
    requires k <= |planets|
    ensures Without(planets[..k], p) <= Without(planets, p)
    decreases |planets|
  {
    if k < |planets| {
      var n := |planets|;
      assert planets[..n - 1][..k] == planets[..k];
      WithoutPrefix(planets[..n - 1], k, p);
    } else {
      assert planets[..k] == planets;
    }
  }

  /** One turn of the force loop's skip: entry j of `planets` is either `p`,
      skipped, or the next planet whose pull is summed. */
  lemma WithoutNext(planets: seq<Planet>, j: nat, p: Planet, n: nat)
    requires j < |planets| && n <= |Without(planets, p)|
    requires Without(planets[..j], p) == Without(planets, p)[..n]
    ensures planets[j] == p ==> Without(planets[..j + 1], p) == Without(planets, p)[..n]
    ensures planets[j] != p ==>
      n < |Without(planets, p)| && Without(planets, p)[n] == planets[j] &&
      Without(planets[..j + 1], p) == Without(planets, p)[..n + 1]
  {
    assert planets[..j + 1][..j] == planets[..j];
    WithoutPrefix(planets, j + 1, p);
  }

  lemma SweepNext(m: MathLib, me: Body, others: seq<Body>, n: nat)
    requires n < |others|
    ensures SweepOf(m, me, others[..n + 1]) == NextSweep(m, me, SweepOf(m, me, others[..n]), others[n])
  {
    assert others[..n + 1][..n] == others[..n];
  }

  /** Once the force loop has faulted, the bodies still to come change nothing. */
  lemma {:induction false} SweepStopsAtFault(m: MathLib, me: Body, prefix: seq<Body>, all: seq<Body>)
    requires prefix <= all
    requires SweepOf(m, me, prefix).fault.Some?
    ensures SweepOf(m, me, all) == SweepOf(m, me, prefix)
    decreases |all|
  {
    if |all| > |prefix| {
      assert prefix <= all[..|all| - 1];
      SweepStopsAtFault(m, me, prefix, all[..|all| - 1]);
    } else {
      assert prefix == all;
    }
  }
}

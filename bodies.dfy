/**
 * The bodies as mutable objects, as the source keeps them: each `Body` holds
 * its position, velocity, recorded distance to the Sun and orbit trail in
 * fields that the physics step overwrites in place. Every method is proved
 * against the value-level step of module `Simulation`.
 */
module Bodies {
  import opened Physics
  import opened Simulation

  /**
   * A Sun or a planet. The methods that `Planet` alone defines in the source
   * require `!isSun`.
   */
  class Body {
    var x: real
    var y: real
    var xVel: real
    var yVel: real
    var distanceToSun: real
    var orbit: seq<Vec>
    const mass: real
    const isSun: bool

    /** The planet constructor: at rest, with an empty orbit and no recorded distance. */
    constructor Planet(x0: real, y0: real, m: real)
      ensures State() == BodyState(Vec(x0, y0), Vec(0.0, 0.0), m, false, 0.0, [])
    {
      x, y := x0, y0;
      xVel, yVel := 0.0, 0.0;
      distanceToSun := 0.0;
      orbit := [];
      mass := m;
      isSun := false;
    }

    /** The Sun constructor; the Sun never moves, so its velocity and orbit stay as set here. */
    constructor Sun(x0: real, y0: real, m: real)
      ensures State() == BodyState(Vec(x0, y0), Vec(0.0, 0.0), m, true, 0.0, [])
    {
      x, y := x0, y0;
      xVel, yVel := 0.0, 0.0;
      distanceToSun := 0.0;
      orbit := [];
      mass := m;
      isSun := true;
    }

    function State(): BodyState
      reads this
    {
      BodyState(Vec(x, y), Vec(xVel, yVel), mass, isSun, distanceToSun, orbit)
    }

    /**
     * `Planet.attraction`: the pull of `other` on this planet. When `other` is
     * the Sun, the distance to it is recorded first, even if the division
     * then raises; nothing else of either body changes.
     */
    method Attraction(other: Body, sqrt: real -> real) returns (force: Outcome<Vec>)
      requires !isSun
      modifies this`distanceToSun
      ensures force == Physics.Attraction(AsParticle(old(State())), AsParticle(old(other.State())), sqrt)
      ensures distanceToSun ==
                if other.isSun then Distance(Vec(x, y), Vec(other.x, other.y), sqrt) else old(distanceToSun)
    {
      var dx := other.x - x;
      var dy := other.y - y;
      var distance := sqrt(Square(dx) + Square(dy));
      if other.isSun {
        distanceToSun := distance;
      }
      if Square(distance) == 0.0 {
        return ZeroDivisionError;
      }
      force := Ok(Pull(dx, dy, distance, mass, other.mass));
    }

    /**
     * The force loop of `Planet.update_position`: the sum of the pulls of
     * every body of `bodies` except this one (skipped by identity), in list
     * order, stopping at the first raise. Only the recorded distance changes.
     */
    method TotalForce(bodies: seq<Body>, sqrt: real -> real) returns (total: Outcome<Vec>)
      requires !isSun
      modifies this`distanceToSun
      ensures total == NetForce(AsParticle(old(State())), old(OthersOf(this, bodies)), sqrt)
      ensures distanceToSun ==
                DistanceToSunAfter(AsParticle(old(State())), old(OthersOf(this, bodies)), old(distanceToSun), sqrt)
    {
      ghost var me := AsParticle(State());
      ghost var d0 := distanceToSun;
      OthersOfSplit(this, bodies);
      var sum := Vec(0.0, 0.0);
      var i := 0;
      while i < |bodies|
        invariant 0 <= i <= |bodies|
        invariant NetForce(me, old(OthersOf(this, bodies[..i])), sqrt) == Ok(sum)
        invariant distanceToSun == DistanceToSunAfter(me, old(OthersOf(this, bodies[..i])), d0, sqrt)
      {
        var planet := bodies[i];
        ghost var seen := old(OthersOf(this, bodies[..i]));
        assert bodies[..i + 1][..i] == bodies[..i];
        if planet != this {
          ghost var p := AsParticle(planet.State());
          assert old(OthersOf(this, bodies[..i + 1])) == seen + [p];
          ghost var d := distanceToSun;
          var f := Attraction(planet, sqrt);
          ForceLoopStep(me, seen, p, sum, f, d, d0, sqrt);
          if f.ZeroDivisionError? {
            FailureIsFinal(me, seen + [p], old(OthersOf(this, bodies[i + 1..])), d0, sqrt);
            return ZeroDivisionError;
          }
          sum := sum.Plus(f.value);
        }
        i := i + 1;
      }
      assert bodies[..|bodies|] == bodies;
      return Ok(sum);
    }

    /**
     * `Planet.update_position`: sum the pulls of the other bodies, then
     * update the velocity, then move with the new velocity, then append the
     * new position to the orbit.
     */
    method UpdatePosition(bodies: seq<Body>, sqrt: real -> real) returns (status: Status)
      requires !isSun
      modifies this
      ensures (State(), status) == Updated(old(State()), old(OthersOf(this, bodies)), sqrt)
    {
      var total := TotalForce(bodies, sqrt);
      if total.ZeroDivisionError? || mass == 0.0 {
        return Raised;
      }
      xVel := Accelerated(xVel, total.value.x, mass);
      yVel := Accelerated(yVel, total.value.y, mass);
      x := x + xVel * TIMESTEP;
      y := y + yVel * TIMESTEP;
      orbit := orbit + [Vec(x, y)];
      return Done;
    }
  }

  /** The bodies that `self` iterates over in `update_position`: all of `bodies` but `self`, in order. */
  function OthersOf(self: Body, bodies: seq<Body>): seq<Particle>
    reads bodies
    decreases |bodies|
  {
    if bodies == [] then []
    else
      var prefix := OthersOf(self, bodies[..|bodies| - 1]);
      var last := bodies[|bodies| - 1];
      if last == self then prefix else prefix + [AsParticle(last.State())]
  }

  function States(bodies: seq<Body>): (bs: seq<BodyState>)
    reads bodies
    ensures |bs| == |bodies|
    ensures forall i :: 0 <= i < |bodies| ==> bs[i] == bodies[i].State()
  {
    seq(|bodies|, i reads bodies requires 0 <= i < |bodies| => bodies[i].State())
  }

  /** No body appears twice in the list. */
  predicate Distinct(bodies: seq<Body>) {
    forall i, j :: 0 <= i < j < |bodies| ==> bodies[i] != bodies[j]
  }

  lemma {:induction false} OthersOfAppend(self: Body, a: seq<Body>, b: seq<Body>)
    ensures OthersOf(self, a + b) == OthersOf(self, a) + OthersOf(self, b)
    decreases |b|
  {
    if b == [] {
      assert a + b == a;
    } else {
      var b' := b[..|b| - 1];
      assert (a + b)[..|a + b| - 1] == a + b';
      OthersOfAppend(self, a, b');
    }
  }

  /** Cutting the list anywhere cuts the bodies met there. */
  lemma {:induction false} OthersOfSplit(self: Body, bodies: seq<Body>)
    ensures forall k :: 0 <= k <= |bodies| ==>
              OthersOf(self, bodies) == OthersOf(self, bodies[..k]) + OthersOf(self, bodies[k..])
  {
    forall k | 0 <= k <= |bodies|
      ensures OthersOf(self, bodies) == OthersOf(self, bodies[..k]) + OthersOf(self, bodies[k..])
    {
      assert bodies == bodies[..k] + bodies[k..];
      OthersOfAppend(self, bodies[..k], bodies[k..]);
    }
  }

  /** A body that is not in the list meets every body of it. */
  lemma {:induction false} OthersOfAbsent(self: Body, bodies: seq<Body>)
    requires self !in bodies
    ensures OthersOf(self, bodies) == Particles(States(bodies))
    decreases |bodies|
  {
    if bodies != [] {
      var prefix := bodies[..|bodies| - 1];
      OthersOfAbsent(self, prefix);
      assert States(bodies) == States(prefix) + [bodies[|bodies| - 1].State()];
      assert Particles(States(bodies)) == Particles(States(prefix)) + [AsParticle(bodies[|bodies| - 1].State())];
    }
  }

  /** The body itself is skipped wherever it stands. */
  lemma OthersOfSkipsSelf(self: Body, before: seq<Body>, after: seq<Body>)
    ensures OthersOf(self, before + [self] + after) == OthersOf(self, before) + OthersOf(self, after)
  {
    OthersOfAppend(self, before + [self], after);
    OthersOfAppend(self, before, [self]);
    assert [self][..0] == [];
  }

  lemma StatesOfParts(bodies: seq<Body>, i: nat)
    requires i < |bodies|
    ensures States(bodies)[..i] == States(bodies[..i])
    ensures States(bodies)[i + 1..] == States(bodies[i + 1..])
  {
  }

  /**
   * In a list without repetitions, skipping a body by identity is skipping
   * it by position.
   */
  lemma {:induction false} OthersOfIsOthers(bodies: seq<Body>, i: nat)
    requires Distinct(bodies) && i < |bodies|
    ensures OthersOf(bodies[i], bodies) == Others(States(bodies), i)
  {
    var self := bodies[i];
    var before, after := bodies[..i], bodies[i + 1..];
    assert bodies == before + [self] + after;
    OthersOfSkipsSelf(self, before, after);
    OthersOfAbsent(self, before);
    OthersOfAbsent(self, after);
    StatesOfParts(bodies, i);
    ParticlesAppend(States(before), States(after));
  }

  /**
   * The frame loop: every non-Sun body of `bodies` in turn is advanced in
   * place against the current state of the whole list. A raise stops the
   * loop with the bodies as they are at that moment.
   */
  method Frame(bodies: seq<Body>, sqrt: real -> real) returns (status: Status)
    requires Distinct(bodies)
    modifies set b | b in bodies
    ensures (States(bodies), status) == Simulation.Frame(old(States(bodies)), sqrt)
  {
    ghost var start := States(bodies);
    ghost var target := Simulation.Frame(start, sqrt);
    assert target == FrameUpTo(start, |bodies|, PlanetUpdate(sqrt));
    var i := 0;
    while i < |bodies|
      invariant 0 <= i <= |bodies|
      invariant (States(bodies), Done) == FrameUpTo(start, i, PlanetUpdate(sqrt))
    {
      status := Advance(bodies, start, i, sqrt);
      if status == Raised {
        RaisedStopsFrame(start, i + 1, |bodies|, PlanetUpdate(sqrt));
        return;
      }
      i := i + 1;
    }
    return Done;
  }

  /**
   * The body of the frame loop: advance body `i` unless it is the Sun. When
   * the loop has reached `i` from `start`, it has then done step `i` as well.
   */
  method Advance(bodies: seq<Body>, ghost start: seq<BodyState>, i: nat, sqrt: real -> real) returns (status: Status)
    requires Distinct(bodies) && i < |bodies|
    requires |start| == |bodies| && (States(bodies), Done) == FrameUpTo(start, i, PlanetUpdate(sqrt))
    modifies bodies[i]
    ensures (States(bodies), status) == FrameUpTo(start, i + 1, PlanetUpdate(sqrt))
  {
    FrameUpToNext(start, i, PlanetUpdate(sqrt));
    var planet := bodies[i];
    if planet.isSun {
      return Done;
    }
    ghost var before := States(bodies);
    OthersOfIsOthers(bodies, i);
    status := planet.UpdatePosition(bodies, sqrt);
    assert States(bodies) == before[i := planet.State()] by {
      forall j | 0 <= j < |bodies| && j != i
        ensures bodies[j].State() == before[j]
      {
        assert bodies[j] != planet;
      }
    }
  }

  /** `frames` passes of the frame loop, stopping at the first raise. */
  method Run(bodies: seq<Body>, frames: nat, sqrt: real -> real) returns (status: Status)
    requires Distinct(bodies)
    modifies set b | b in bodies
    ensures (States(bodies), status) == Simulation.Run(old(States(bodies)), frames, sqrt)
  {
    ghost var start := States(bodies);
    ghost var target := Simulation.Run(start, frames, sqrt);
    assert target == RunFrames(start, frames, PlanetUpdate(sqrt));
    var k := 0;
    while k < frames
      invariant 0 <= k <= frames
      invariant (States(bodies), Done) == RunFrames(start, k, PlanetUpdate(sqrt))
    {
      RunFramesStep(start, k, PlanetUpdate(sqrt));
      status := Frame(bodies, sqrt);
      if status == Raised {
        RaisedStopsRun(start, k + 1, frames, PlanetUpdate(sqrt));
        return;
      }
      k := k + 1;
    }
    return Done;
  }
}

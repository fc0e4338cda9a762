/**
 * One simulation step on values: the state of every body as a record, the
 * update of one planet (`Planet.update_position`), one pass of the frame loop
 * over the list of bodies, and a run of several frames.
 *
 * A raised ZeroDivisionError ends the program in the source; here it ends the
 * frame with status `Raised`, and the state is what the source held at the
 * moment of the raise.
 */
module Simulation {
  import opened Physics

  /** Everything the physics step reads or writes of one body. */
  datatype BodyState = BodyState(
    pos: Vec,
    vel: Vec,
    mass: real,
    isSun: bool,
    distanceToSun: real,
    orbit: seq<Vec>)

  /** How a step ended: normally, or with a ZeroDivisionError. */
  datatype Status = Done | Raised

  function AsParticle(b: BodyState): Particle {
    Particle(b.pos, b.mass, b.isSun)
  }

  function Particles(bs: seq<BodyState>): (ps: seq<Particle>)
    ensures |ps| == |bs|
    ensures forall i :: 0 <= i < |bs| ==> ps[i] == AsParticle(bs[i])
  {
    seq(|bs|, i requires 0 <= i < |bs| => AsParticle(bs[i]))
  }

  lemma ParticlesAppend(a: seq<BodyState>, b: seq<BodyState>)
    ensures Particles(a + b) == Particles(a) + Particles(b)
  {
  }

  /**
   * The bodies that body `i` iterates over in `update_position`: the whole
   * list in order, with body `i` itself skipped.
   */
  function Others(bs: seq<BodyState>, i: nat): seq<Particle>
    requires i < |bs|
  {
    Particles(bs[..i] + bs[i + 1..])
  }

  /** Body `i` meets every other body exactly once, in list order, and never itself. */
  lemma OthersSkipsSelf(bs: seq<BodyState>, i: nat)
    requires i < |bs|
    ensures |Others(bs, i)| == |bs| - 1
    ensures forall j :: 0 <= j < i ==> Others(bs, i)[j] == AsParticle(bs[j])
    ensures forall j :: i < j < |bs| ==> Others(bs, i)[j - 1] == AsParticle(bs[j])
  {
  }

  /** One velocity component after one step under force component `f`. */
  function Accelerated(v: real, f: real, mass: real): real
    requires mass != 0.0
  {
    v + f / mass * TIMESTEP
  }

  /**
   * `update_position` on one body, given the other bodies in list order:
   * sum the forces, update the velocity, move with the new velocity and
   * append the new position to the orbit. The recorded distance to the Sun is
   * written by the force loop even when the step then raises.
   */
  function Updated(b: BodyState, others: seq<Particle>, sqrt: real -> real): (r: (BodyState, Status))
    ensures r.0.mass == b.mass && r.0.isSun == b.isSun
  {
    var measured := b.(distanceToSun := DistanceToSunAfter(AsParticle(b), others, b.distanceToSun, sqrt));
    match NetForce(AsParticle(b), others, sqrt)
    case ZeroDivisionError => (measured, Raised)
    case Ok(f) =>
      if b.mass == 0.0 then (measured, Raised)
      else
        var vel := Vec(Accelerated(b.vel.x, f.x, b.mass), Accelerated(b.vel.y, f.y, b.mass));
        var pos := Vec(b.pos.x + vel.x * TIMESTEP, b.pos.y + vel.y * TIMESTEP);
        (measured.(vel := vel, pos := pos, orbit := b.orbit + [pos]), Done)
  }

  /** A per-body step: the new state of a body and how the step ended, given the other bodies. */
  type Update = (BodyState, seq<Particle>) -> (BodyState, Status)

  /** `update_position` as a per-body step. */
  function PlanetUpdate(sqrt: real -> real): Update {
    (b: BodyState, others: seq<Particle>) => Updated(b, others, sqrt)
  }

  /**
   * One iteration of the frame loop at index `i`: a Sun is passed over; any
   * other body is replaced by its update against the list as it stands.
   */
  function FrameStep(cur: seq<BodyState>, i: nat, update: Update): (r: (seq<BodyState>, Status))
    requires i < |cur|
    ensures |r.0| == |cur|
  {
    if cur[i].isSun then (cur, Done)
    else
      var (b, status) := update(cur[i], Others(cur, i));
      (cur[i := b], status)
  }

  /**
   * The frame loop after it has visited the first `n` bodies, in list order;
   * the first raise stops the loop.
   */
  function FrameUpTo(bs: seq<BodyState>, n: nat, update: Update): (r: (seq<BodyState>, Status))
    requires n <= |bs|
    ensures |r.0| == |bs|
    decreases n
  {
    if n == 0 then (bs, Done)
    else
      var (cur, status) := FrameUpTo(bs, n - 1, update);
      if status == Raised then (cur, status) else FrameStep(cur, n - 1, update)
  }

  /** `frames` passes of the frame loop, stopping at the first raise. */
  function RunFrames(bs: seq<BodyState>, frames: nat, update: Update): (r: (seq<BodyState>, Status))
    ensures |r.0| == |bs|
    decreases frames
  {
    if frames == 0 then (bs, Done)
    else
      var (cur, status) := RunFrames(bs, frames - 1, update);
      if status == Raised then (cur, status) else FrameUpTo(cur, |cur|, update)
  }

  /** One pass of the source's frame loop (main.py, lines 136-138). */
  function Frame(bs: seq<BodyState>, sqrt: real -> real): (seq<BodyState>, Status) {
    FrameUpTo(bs, |bs|, PlanetUpdate(sqrt))
  }

  /** `frames` passes of the source's frame loop. */
  function Run(bs: seq<BodyState>, frames: nat, sqrt: real -> real): (seq<BodyState>, Status) {
    RunFrames(bs, frames, PlanetUpdate(sqrt))
  }

  // ---------------------------------------------------------------------------
  // One body

  /**
   * The update raises exactly when another body sits at this body's position
   * or this body has zero mass.
   */
  lemma UpdateRaisesIff(b: BodyState, others: seq<Particle>, sqrt: real -> real)
    requires IsSqrt(sqrt)
    ensures Updated(b, others, sqrt).1 == Raised <==>
            (exists j :: 0 <= j < |others| && others[j].pos == b.pos) || b.mass == 0.0
  {
    NetForceFailsIffCoincident(AsParticle(b), others, sqrt);
  }

  /**
   * A completed update appends exactly one point, the new position, and keeps
   * the earlier points; a raised update leaves position, velocity and orbit
   * as they were.
   */
  lemma UpdateAppendsToOrbit(b: BodyState, others: seq<Particle>, sqrt: real -> real)
    ensures var (b', status) := Updated(b, others, sqrt);
            if status == Done then
              |b'.orbit| == |b.orbit| + 1 && b'.orbit[..|b.orbit|] == b.orbit &&
              b'.orbit[|b.orbit|] == b'.pos
            else
              b'.pos == b.pos && b'.vel == b.vel && b'.orbit == b.orbit
  {
    var (b', status) := Updated(b, others, sqrt);
    if status == Done {
      assert b'.orbit[..|b.orbit|] == b.orbit;
    }
  }

  /**
   * Semi-implicit Euler: the velocity moves by `force / mass * TIMESTEP`
   * first, and the position then moves by the NEW velocity times `TIMESTEP`.
   */
  lemma VelocityBeforePosition(b: BodyState, others: seq<Particle>, sqrt: real -> real)
    requires Updated(b, others, sqrt).1 == Done
    ensures NetForce(AsParticle(b), others, sqrt).Ok? && b.mass != 0.0
    ensures var f := NetForce(AsParticle(b), others, sqrt).value;
            var b' := Updated(b, others, sqrt).0;
            b'.vel.x == b.vel.x + f.x / b.mass * TIMESTEP &&
            b'.vel.y == b.vel.y + f.y / b.mass * TIMESTEP &&
            b'.pos.x == b.pos.x + (b.vel.x + f.x / b.mass * TIMESTEP) * TIMESTEP &&
            b'.pos.y == b.pos.y + (b.vel.y + f.y / b.mass * TIMESTEP) * TIMESTEP
  {
  }

  /**
   * The recorded distance: unchanged when no Sun is among the other bodies;
   * the distance to the last Sun in the list when the force loop completes.
   */
  lemma UpdateRecordsDistanceToSun(b: BodyState, others: seq<Particle>, sqrt: real -> real)
    ensures (forall j :: 0 <= j < |others| ==> !others[j].isSun) ==>
              Updated(b, others, sqrt).0.distanceToSun == b.distanceToSun
    ensures forall j :: 0 <= j < |others| && others[j].isSun &&
                        (forall k :: j < k < |others| ==> !others[k].isSun) &&
                        NetForce(AsParticle(b), others, sqrt).Ok? ==>
              Updated(b, others, sqrt).0.distanceToSun == Distance(b.pos, others[j].pos, sqrt)
  {
    var me := AsParticle(b);
    assert Updated(b, others, sqrt).0.distanceToSun == DistanceToSunAfter(me, others, b.distanceToSun, sqrt);
    if forall j :: 0 <= j < |others| ==> !others[j].isSun {
      NoSunKeepsDistance(me, others, b.distanceToSun, sqrt);
    }
    forall j | 0 <= j < |others| && others[j].isSun &&
               (forall k :: j < k < |others| ==> !others[k].isSun) &&
               NetForce(me, others, sqrt).Ok?
      ensures DistanceToSunAfter(me, others, b.distanceToSun, sqrt) == Distance(b.pos, others[j].pos, sqrt)
    {
      RecordsDistanceToLastSun(me, others, j, b.distanceToSun, sqrt);
    }
  }

  /** A completed per-body step appends the body's new position to its orbit. */
  ghost predicate GrowsOrbit(update: Update) {
    forall b, others :: update(b, others).1 == Done ==>
      update(b, others).0.orbit == b.orbit + [update(b, others).0.pos]
  }

  /** A per-body step keeps the body's mass and kind. */
  ghost predicate KeepsKind(update: Update) {
    forall b, others :: update(b, others).0.mass == b.mass && update(b, others).0.isSun == b.isSun
  }

  lemma PlanetUpdateIsWellBehaved(sqrt: real -> real)
    ensures GrowsOrbit(PlanetUpdate(sqrt)) && KeepsKind(PlanetUpdate(sqrt))
  {
    forall b, others | PlanetUpdate(sqrt)(b, others).1 == Done
      ensures PlanetUpdate(sqrt)(b, others).0.orbit == b.orbit + [PlanetUpdate(sqrt)(b, others).0.pos]
    {
      UpdateAppendsToOrbit(b, others, sqrt);
      var b' := Updated(b, others, sqrt).0;
      assert b'.orbit == b'.orbit[..|b.orbit|] + [b'.orbit[|b.orbit|]];
    }
  }

  // ---------------------------------------------------------------------------
  // One frame, for any per-body step

  /**
   * The first `n` steps leave the bodies from `n` on untouched and never
   * touch a Sun.
   */
  lemma {:induction false} FrameUpToKeeps(bs: seq<BodyState>, n: nat, update: Update)
    requires n <= |bs|
    ensures var r := FrameUpTo(bs, n, update).0;
            (forall k :: n <= k < |bs| ==> r[k] == bs[k]) &&
            (forall k :: 0 <= k < |bs| && bs[k].isSun ==> r[k] == bs[k])
    decreases n
  {
    if n > 0 {
      FrameUpToKeeps(bs, n - 1, update);
    }
  }

  /** With a kind-preserving step, every body keeps its mass and kind. */
  lemma {:induction false} FrameUpToKeepsKind(bs: seq<BodyState>, n: nat, update: Update)
    requires n <= |bs| && KeepsKind(update)
    ensures var r := FrameUpTo(bs, n, update).0;
            forall k :: 0 <= k < |bs| ==> r[k].mass == bs[k].mass && r[k].isSun == bs[k].isSun
    decreases n
  {
    if n > 0 {
      FrameUpToKeepsKind(bs, n - 1, update);
    }
  }

  /** A frame loop that has raised does not resume: a completed step was preceded by completed steps. */
  lemma {:induction false} DoneBeforeDone(bs: seq<BodyState>, n: nat, update: Update)
    requires 0 < n <= |bs| && FrameUpTo(bs, n, update).1 == Done
    ensures FrameUpTo(bs, n - 1, update).1 == Done
  {
  }

  /** Once the loop has raised, it stays raised; so a completed frame completed every step. */
  lemma {:induction false} RaisedIsFinal(bs: seq<BodyState>, k: nat, n: nat, update: Update)
    requires k <= n <= |bs|
    requires FrameUpTo(bs, n, update).1 == Done
    ensures FrameUpTo(bs, k, update).1 == Done
    decreases n
  {
    if k < n {
      DoneBeforeDone(bs, n, update);
      RaisedIsFinal(bs, k, n - 1, update);
    }
  }

  /** The loop after one more iteration, once the iterations before it have completed. */
  lemma {:induction false} FrameUpToNext(bs: seq<BodyState>, i: nat, update: Update)
    requires i < |bs| && FrameUpTo(bs, i, update).1 == Done
    ensures FrameUpTo(bs, i + 1, update) == FrameStep(FrameUpTo(bs, i, update).0, i, update)
  {
  }

  /** After a raise the loop does nothing more. */
  lemma {:induction false} RaisedStopsFrame(bs: seq<BodyState>, n: nat, m: nat, update: Update)
    requires n <= m <= |bs| && FrameUpTo(bs, n, update).1 == Raised
    ensures FrameUpTo(bs, m, update) == FrameUpTo(bs, n, update)
    decreases m
  {
    if m > n {
      RaisedStopsFrame(bs, n, m - 1, update);
    }
  }

  /** Steps from `i` on never touch the bodies before `i`. */
  lemma {:induction false} PrefixSettled(bs: seq<BodyState>, i: nat, n: nat, update: Update)
    requires i <= n <= |bs|
    ensures FrameUpTo(bs, n, update).0[..i] == FrameUpTo(bs, i, update).0[..i]
    decreases n
  {
    if n > i {
      PrefixSettled(bs, i, n - 1, update);
    }
  }

  /** A completed step `i` replaced body `i` by its update against the list as it stood. */
  lemma {:induction false} StepAt(bs: seq<BodyState>, i: nat, update: Update)
    requires i < |bs| && FrameUpTo(bs, i + 1, update).1 == Done
    requires !FrameUpTo(bs, i, update).0[i].isSun
    ensures FrameUpTo(bs, i, update).1 == Done
    ensures var cur := FrameUpTo(bs, i, update).0;
            update(cur[i], Others(cur, i)) == (FrameUpTo(bs, i + 1, update).0[i], Done)
  {
    DoneBeforeDone(bs, i + 1, update);
  }

  /**
   * What step `i` of a completed frame saw: body `i` as it was, the bodies
   * before it as the frame leaves them, the bodies after it as they were; and
   * what it wrote is what the frame leaves at `i`.
   */
  lemma {:induction false} StepSees(bs: seq<BodyState>, i: nat, update: Update)
    requires i < |bs|
    requires FrameUpTo(bs, |bs|, update).1 == Done
    ensures FrameUpTo(bs, i + 1, update).1 == Done
    ensures var after := FrameUpTo(bs, |bs|, update).0;
            var cur := FrameUpTo(bs, i, update).0;
            cur[i] == bs[i] && FrameUpTo(bs, i + 1, update).0[i] == after[i] &&
            cur[..i] + cur[i + 1..] == after[..i] + bs[i + 1..]
  {
    var after := FrameUpTo(bs, |bs|, update).0;
    var cur := FrameUpTo(bs, i, update).0;
    var next := FrameUpTo(bs, i + 1, update).0;
    FrameUpToKeeps(bs, i, update);
    RaisedIsFinal(bs, i + 1, |bs|, update);
    PrefixSettled(bs, i + 1, |bs|, update);
    PrefixSettled(bs, i, |bs|, update);
    assert after[i] == after[..i + 1][i] == next[..i + 1][i] == next[i];
    assert cur[i + 1..] == bs[i + 1..];
  }

  /**
   * Body `i` of `after` is what `update` made of body `i` of `before` when it
   * saw the bodies before `i` as in `after` and those after `i` as in `before`.
   */
  ghost predicate SteppedAgainst(before: seq<BodyState>, after: seq<BodyState>, i: nat, update: Update)
    requires i < |before| == |after|
  {
    update(before[i], Particles(after[..i] + before[i + 1..])) == (after[i], Done)
  }

  /** Step `i` of a completed frame, in terms of the frame's final state. */
  lemma {:induction false} StepOfBody(bs: seq<BodyState>, i: nat, update: Update)
    requires i < |bs| && !bs[i].isSun
    requires FrameUpTo(bs, |bs|, update).1 == Done
    ensures SteppedAgainst(bs, FrameUpTo(bs, |bs|, update).0, i, update)
  {
    StepSees(bs, i, update);
    StepAt(bs, i, update);
  }

  /**
   * In a completed frame every non-Sun body `i` was advanced exactly once, by
   * a step that saw the already-advanced bodies before it and the
   * not-yet-advanced bodies after it.
   */
  lemma {:induction false} FrameUpToIsStaggered(bs: seq<BodyState>, update: Update)
    requires FrameUpTo(bs, |bs|, update).1 == Done
    ensures forall i :: 0 <= i < |bs| && !bs[i].isSun ==>
              SteppedAgainst(bs, FrameUpTo(bs, |bs|, update).0, i, update)
  {
    forall i | 0 <= i < |bs| && !bs[i].isSun
      ensures SteppedAgainst(bs, FrameUpTo(bs, |bs|, update).0, i, update)
    {
      StepOfBody(bs, i, update);
    }
  }

  /** With an orbit-growing step, a completed frame grows every non-Sun orbit by the body's new position. */
  lemma {:induction false} FrameUpToGrowsOrbits(bs: seq<BodyState>, update: Update)
    requires GrowsOrbit(update)
    requires FrameUpTo(bs, |bs|, update).1 == Done
    ensures var after := FrameUpTo(bs, |bs|, update).0;
            forall i :: 0 <= i < |bs| && !bs[i].isSun ==> after[i].orbit == bs[i].orbit + [after[i].pos]
  {
    var after := FrameUpTo(bs, |bs|, update).0;
    forall i | 0 <= i < |bs| && !bs[i].isSun
      ensures after[i].orbit == bs[i].orbit + [after[i].pos]
    {
      StepOfBody(bs, i, update);
    }
  }

  /** One more frame, after completed ones. */
  lemma {:induction false} RunFramesStep(bs: seq<BodyState>, k: nat, update: Update)
    requires RunFrames(bs, k, update).1 == Done
    ensures RunFrames(bs, k + 1, update) == FrameUpTo(RunFrames(bs, k, update).0, |bs|, update)
  {
  }

  /** After a raise no further frame runs. */
  lemma {:induction false} RaisedStopsRun(bs: seq<BodyState>, n: nat, m: nat, update: Update)
    requires n <= m && RunFrames(bs, n, update).1 == Raised
    ensures RunFrames(bs, m, update) == RunFrames(bs, n, update)
    decreases m
  {
    if m > n {
      RaisedStopsRun(bs, n, m - 1, update);
    }
  }

  /**
   * After `frames` completed frames every non-Sun orbit has grown by `frames`
   * points and every Sun is where it started.
   */
  lemma {:induction false} RunFramesGrowsOrbits(bs: seq<BodyState>, frames: nat, update: Update)
    requires GrowsOrbit(update) && KeepsKind(update)
    requires RunFrames(bs, frames, update).1 == Done
    ensures var after := RunFrames(bs, frames, update).0;
            forall i :: 0 <= i < |bs| ==>
              after[i].isSun == bs[i].isSun &&
              (bs[i].isSun ==> after[i] == bs[i]) &&
              (!bs[i].isSun ==> |after[i].orbit| == |bs[i].orbit| + frames)
    decreases frames
  {
    if frames > 0 {
      RunFramesGrowsOrbits(bs, frames - 1, update);
      var cur := RunFrames(bs, frames - 1, update).0;
      FrameUpToGrowsOrbits(cur, update);
      FrameUpToKeeps(cur, |cur|, update);
      FrameUpToKeepsKind(cur, |cur|, update);
    }
  }

  // ---------------------------------------------------------------------------
  // The source's frame loop

  /**
   * The Sun never moves (its whole state is left as it was), and every body
   * keeps its mass and its kind.
   */
  lemma {:induction false} SunStaysFixed(bs: seq<BodyState>, sqrt: real -> real)
    ensures |Frame(bs, sqrt).0| == |bs|
    ensures forall k :: 0 <= k < |bs| && bs[k].isSun ==> Frame(bs, sqrt).0[k] == bs[k]
    ensures forall k :: 0 <= k < |bs| ==>
              Frame(bs, sqrt).0[k].mass == bs[k].mass && Frame(bs, sqrt).0[k].isSun == bs[k].isSun
  {
    PlanetUpdateIsWellBehaved(sqrt);
    FrameUpToKeeps(bs, |bs|, PlanetUpdate(sqrt));
    FrameUpToKeepsKind(bs, |bs|, PlanetUpdate(sqrt));
  }

  /**
   * In a completed frame every non-Sun body was advanced exactly once, in list
   * order: body `i` was updated against the already-advanced bodies before it
   * and the not-yet-advanced bodies after it, itself skipped.
   */
  lemma {:induction false} FrameIsStaggered(bs: seq<BodyState>, sqrt: real -> real)
    requires Frame(bs, sqrt).1 == Done
    ensures |Frame(bs, sqrt).0| == |bs|
    ensures var after := Frame(bs, sqrt).0;
            forall i :: 0 <= i < |bs| && !bs[i].isSun ==>
              Updated(bs[i], Particles(after[..i] + bs[i + 1..]), sqrt) == (after[i], Done)
  {
    FrameUpToIsStaggered(bs, PlanetUpdate(sqrt));
  }

  /**
   * A planet that shares its position with another body makes the frame
   * raise. (Two Suns at one position do not: neither is ever updated.)
   */
  lemma {:induction false} FrameRaisesOnCoincidence(bs: seq<BodyState>, i: nat, j: nat, sqrt: real -> real)
    requires IsSqrt(sqrt)
    requires i < |bs| && j < |bs| && i != j && !bs[i].isSun && bs[i].pos == bs[j].pos
    ensures Frame(bs, sqrt).1 == Raised
    decreases i
  {
    if j < i && !bs[j].isSun {
      // the earlier of the two planets raises first
      FrameRaisesOnCoincidence(bs, j, i, sqrt);
    } else {
      var update := PlanetUpdate(sqrt);
      if FrameUpTo(bs, i, update).1 == Raised {
        RaisedStopsFrame(bs, i, |bs|, update);
      } else {
        // body `i` is still at its start, and so is body `j`: a Sun, or later in the list
        var cur := FrameUpTo(bs, i, update).0;
        FrameUpToKeeps(bs, i, update);
        FrameUpToNext(bs, i, update);
        OthersSkipsSelf(cur, i);
        var k := if j < i then j else j - 1;
        assert Others(cur, i)[k].pos == cur[i].pos;
        UpdateRaisesIff(cur[i], Others(cur, i), sqrt);
        RaisedStopsFrame(bs, i + 1, |bs|, update);
      }
    }
  }

  /** In a completed frame every non-Sun orbit grows by exactly the body's new position. */
  lemma {:induction false} FrameGrowsOrbits(bs: seq<BodyState>, sqrt: real -> real)
    requires Frame(bs, sqrt).1 == Done
    ensures |Frame(bs, sqrt).0| == |bs|
    ensures var after := Frame(bs, sqrt).0;
            forall i :: 0 <= i < |bs| && !bs[i].isSun ==> after[i].orbit == bs[i].orbit + [after[i].pos]
  {
    PlanetUpdateIsWellBehaved(sqrt);
    FrameUpToGrowsOrbits(bs, PlanetUpdate(sqrt));
  }

  /**
   * After `frames` completed frames every planet's orbit has grown by
   * `frames` points and every Sun is where it started; planets that start
   * with an empty orbit have exactly `frames` points.
   */
  lemma {:induction false} RunGrowsOrbits(bs: seq<BodyState>, frames: nat, sqrt: real -> real)
    requires Run(bs, frames, sqrt).1 == Done
    ensures |Run(bs, frames, sqrt).0| == |bs|
    ensures var after := Run(bs, frames, sqrt).0;
            forall i :: 0 <= i < |bs| ==>
              (bs[i].isSun ==> after[i] == bs[i]) &&
              (!bs[i].isSun ==> |after[i].orbit| == |bs[i].orbit| + frames)
  {
    PlanetUpdateIsWellBehaved(sqrt);
    RunFramesGrowsOrbits(bs, frames, PlanetUpdate(sqrt));
  }
}

# PlanetSimulation physics core in Dafny

This project models the physics step of PlanetSimulation's `main.py`. That
step is a Newtonian N-body toy in the plane, with one Sun and several planets.

- In every frame, the program walks its list of bodies in order.
- It advances every body that is not the Sun by one `TIMESTEP` of one day.
- The integrator is semi-implicit Euler:
  - sum the pull of every other body;
  - update the velocity from that force;
  - move the body with the new velocity;
  - append the new position to the body's orbit trail.
- While it sums the pulls, a planet records its distance to the Sun.
- Bodies are updated in place. A planet later in the list therefore feels the
  already-moved positions of the planets before it.

The model has three modules:

- `Physics` (`physics.dfy`) holds the pure force computation.
  - `Attraction` is `Planet.attraction` without its side effect (main.py:71-84).
  - `NetForce` is the summing loop of `update_position` (main.py:87-94). A
    division by zero raises, and that stops the sum.
  - `DistanceToSunAfter` is the value that loop leaves in `distance_to_sun`
    (main.py:77-78 within 88-94).
  - Positions, velocities and masses are `real`. The square root is a
    parameter `sqrt`. Every fact that depends on it requires `IsSqrt(sqrt)`:
    `sqrt(s)` is non-negative and squares to `s`.
  - `cos(atan2(dy, dx))` and `sin(atan2(dy, dx))` are written as `dx / d` and
    `dy / d`.
- `Simulation` (`simulation.dfy`) is the step on values.
  - `BodyState` is one body's record. `Updated` is `update_position`
    (main.py:86-101).
  - `FrameUpTo` and `Frame` are the frame loop over a list of records
    (main.py:136-138). Each step sees the list as it stands at that moment.
  - `Run` is several frames of the main loop (main.py:129-138).
  - The loop is written over any per-body step of type `Update`. Its lemmas
    hold for every step that keeps the kind of a body and grows its orbit,
    and `PlanetUpdateIsWellBehaved` shows that `update_position` does both.
- `Bodies` (`bodies.dfy`) holds the bodies as the program keeps them.
  - `Body` is a class whose fields the methods overwrite in place.
  - `Attraction`, `TotalForce` and `UpdatePosition` are methods on it.
  - `Frame` and `Run` are driver methods over a sequence of `Body`
    references.
  - Each method is proved equal to its value-level counterpart.

Python raises `ZeroDivisionError` in two places:

- two bodies at the same position (`distance ** 2` at main.py:80);
- a planet of mass zero (main.py:96-97).

The source guards neither case, and the program then ends with the
exception. The model keeps these cases reachable and does not exclude them by
a precondition:

- a failed force is the outcome `ZeroDivisionError`;
- a failed update or frame ends with the status `Raised`;
- the state returned is the state at the moment of the raise. It includes a
  distance already recorded and the planets already moved earlier in the frame.

## Model

| member | source | states |
|---|---|---|
| Physics.DistanceIsEuclidean | main.py:73-75 | the distance is non-negative, its square is `dx² + dy²`, and it is zero exactly when the two positions coincide |
| Physics.DistanceSymmetric | main.py:73-75 | the distance from A to B equals the distance from B to A |
| Physics.AttractionFailsIffCoincident | main.py:75-80 | `attraction` raises (divides by zero) if and only if the two bodies are at the same position |
| Physics.NewtonThirdLaw | main.py:71-84 | the pull of B on A is defined exactly when the pull of A on B is, and is its negation |
| Physics.AttractionInverseSquare | main.py:80-84 | the squared magnitude of the force vector is `(G·m1·m2/r²)²`, with `r²` the squared distance |
| Physics.AttractionPointsToOther | main.py:73-84 | for positive masses the force is parallel to the displacement `(dx, dy)` and has a positive dot product with it, so it points toward the other body |
| Physics.NetForceFailsIffCoincident | main.py:87-94 | the summing loop raises if and only if some body in the list sits at the updating body's own position |
| Physics.NetForceAppend | main.py:87-94 | superposition: the loop over two lists in a row succeeds exactly when both succeed, and its sum is the sum of the two sums |
| Physics.FailureIsFinal | main.py:88-94 | after a raise, no later body changes the outcome or the recorded distance |
| Physics.NoSunKeepsDistance | main.py:77-78 | with no Sun among the other bodies, `distance_to_sun` keeps its old value |
| Physics.RecordsDistanceToLastSun | main.py:77-78 | when the loop completes, `distance_to_sun` is the distance to the last Sun in the list |
| Simulation.OthersSkipsSelf | main.py:88-90 | body `i` meets every other body of the list exactly once, in list order, and never itself |
| Simulation.UpdateRaisesIff | main.py:80-97 | `update_position` raises if and only if another body is at this body's position or this body's mass is zero |
| Simulation.UpdateAppendsToOrbit | main.py:99-101 | a completed update appends exactly one point, the new position, and keeps the earlier points; a raised update leaves position, velocity and orbit as they were |
| Simulation.VelocityBeforePosition | main.py:96-100 | the new velocity is `vel + F/m·TIMESTEP` and the new position is `pos + (vel + F/m·TIMESTEP)·TIMESTEP`, so the position moves with the new velocity |
| Simulation.UpdateRecordsDistanceToSun | main.py:86-94 | the update keeps `distance_to_sun` when no Sun is among the others, and records the distance to the last Sun when the sum completes |
| Simulation.PlanetUpdateIsWellBehaved | main.py:96-101 | `update_position` never changes a body's mass or kind, and a completed one appends the new position to the orbit |
| Simulation.FrameUpToKeeps | main.py:136-138 | the first `n` steps of the frame loop leave the bodies from `n` on, and every Sun, unchanged |
| Simulation.PrefixSettled | main.py:136-138 | steps from `i` on never touch the bodies before `i` |
| Simulation.FrameUpToIsStaggered | main.py:136-138 | for any per-body step, a completed frame updated each non-Sun body `i` against the bodies before `i` as they ended the frame and the bodies after `i` as they began it |
| Simulation.SunStaysFixed | main.py:136-138 | one frame leaves every Sun's whole state unchanged and keeps every body's mass and kind |
| Simulation.FrameIsStaggered | main.py:136-138 | in a completed frame, each non-Sun body's new state is `update_position` against the already-advanced earlier bodies and the not-yet-advanced later ones |
| Simulation.FrameRaisesOnCoincidence | main.py:136-138 | a frame raises (the division at main.py:80) whenever a planet shares its position with another body; two Suns at one position do not make it raise, because neither is ever updated |
| Simulation.FrameGrowsOrbits | main.py:136-138 | in a completed frame, every non-Sun orbit grows by exactly the body's new position |
| Simulation.RunGrowsOrbits | main.py:129-138 | after `frames` completed frames, every Sun is as it started and every planet's orbit has grown by exactly `frames` points |
| Bodies.Body.Planet | main.py:43-50 | a new planet is at the given position with the given mass, at rest, with an empty orbit and distance 0 |
| Bodies.Body.Sun | main.py:104-106 | a new Sun is at the given position with the given mass and distance 0 |
| Bodies.Body.Attraction | main.py:71-84 | the method returns `Physics.Attraction` of the two bodies, sets only `distance_to_sun`, and sets it to the separation exactly when the other body is the Sun |
| Bodies.Body.TotalForce | main.py:87-94 | the summing loop returns `NetForce` over the other bodies (skipped by identity) and leaves `distance_to_sun` at `DistanceToSunAfter`; nothing else changes |
| Bodies.Body.UpdatePosition | main.py:86-101 | the body's new fields and the status are exactly `Updated` of its old state against the other bodies |
| Bodies.OthersOfIsOthers | main.py:88-90 | in a list without repeats, skipping `self` by identity is skipping it by position |
| Bodies.Advance | main.py:136-138 | one iteration of the frame loop moves the list from `FrameUpTo(start, i)` to `FrameUpTo(start, i + 1)` |
| Bodies.Frame | main.py:136-138 | the states of the bodies after the frame loop, and its status, are `Simulation.Frame` of their states before it |
| Bodies.Run | main.py:129-138 | `frames` passes of the frame loop give `Simulation.Run` of the starting states |

## Left out

- Drawing is not modelled, because it has no effect on the physics. This covers pygame, the window, the `draw` methods, the font and distance text, the clock, event polling and `display.update` (main.py:1-16, 35-39, 52-69, 129-135, 139).
- The display scale `SCALE`, `WIDTH` and `HEIGHT` are not modelled; they are used only for drawing.
- IEEE floating-point rounding is not modelled: every quantity is a `real`. Python's int-versus-float arithmetic at lines 21, 33 and 87 ends up in floats and is treated as real arithmetic too.
- `math.sqrt` is not modelled; it is the parameter `sqrt`, and lemmas that need its meaning require `IsSqrt(sqrt)`. `atan2`, `cos` and `sin` are not modelled either; they are replaced by `dx / d` and `dy / d`, which are equal to them on the reals.
- The initial conditions in `main()` are not modelled (main.py:113-127). Neither are the `y_vel` assignments made after construction, which an owner of a `Body` can write directly. The apparent typo `5.5842 * 10*24` in the Earth mass falls under this too. An accuracy claim such as "within 1% after one day" would depend on those constants and on floating point.
- `radius` and `color` are not modelled; they are display attributes.
- The `CelestialBodies`/`Planet`/`Sun` hierarchy is one class `Body` with an `isSun` flag. The model's Sun therefore has velocity and orbit fields that the source's Sun lacks. They start at zero and empty, and `Bodies.Frame` and `Bodies.Run` never change them (`Simulation.SunStaysFixed`).
- The source defines `attraction` and `update_position` only on `Planet` (main.py:71, 86). The model's `Bodies.Body.Attraction`, `Bodies.Body.TotalForce` and `Bodies.Body.UpdatePosition` therefore require `!isSun`.
- Aliasing is not modelled: `Bodies.Frame` and `Bodies.Run` require a list without repeated bodies. With a repeated body, skipping by identity would skip every copy; the source's list holds five distinct objects.
- A raised `ZeroDivisionError` is not propagated as a Python exception. The model ends the step with status `Raised` and keeps the state at the moment of the raise, which is the state in which the program stops.
- Concurrency and I/O are not modelled; there are none in the core.
- Simulation.UpdateRecordsDistanceToSun: gives the last-Sun reading only for a completed force loop. For a raised loop the recorded distance is still fully determined by `DistanceToSunAfter`, which `Bodies.Body.TotalForce` matches.

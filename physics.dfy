/**
 * Pure Newtonian gravity between point masses in the plane: the pull of one
 * body on another, the net pull of a list of bodies, and the distance-to-Sun
 * reading that the force computation records on the way.
 *
 * Floating point is abstracted to `real`. The square root is a parameter
 * `sqrt`; every fact that depends on it assumes `IsSqrt(sqrt)`. The angle
 * `theta = atan2(dy, dx)` is never formed: `cos(theta)` and `sin(theta)` are
 * `dx / d` and `dy / d`.
 */
module Physics {

  /** Gravitational constant, m^3 kg^-1 s^-2. */
  const G: real := 6.67428e-11

  /** One simulated day per step, in seconds. */
  const TIMESTEP: real := 86400.0

  datatype Vec = Vec(x: real, y: real) {
    function Plus(o: Vec): Vec { Vec(x + o.x, y + o.y) }
    function Neg(): Vec { Vec(-x, -y) }
  }

  /** What the force computation reads of a body: its position, its mass and whether it is the Sun. */
  datatype Particle = Particle(pos: Vec, mass: real, isSun: bool)

  /** A computed value, or the ZeroDivisionError the source raises instead. */
  datatype Outcome<T> = Ok(value: T) | ZeroDivisionError

  /** `sqrt` is the non-negative square root on the non-negative reals. */
  ghost predicate IsSqrt(sqrt: real -> real) {
    forall s :: 0.0 <= s ==> 0.0 <= sqrt(s) && Square(sqrt(s)) == s
  }

  /** Python's `r ** 2`. */
  function Square(r: real): real { r * r }

  /** `distance_x ** 2 + distance_y ** 2` for the displacement from `a` to `b`. */
  function SquaredDistance(a: Vec, b: Vec): real {
    Square(b.x - a.x) + Square(b.y - a.y)
  }

  function Distance(a: Vec, b: Vec, sqrt: real -> real): real {
    sqrt(SquaredDistance(a, b))
  }

  /**
   * The force that `other` exerts on `me` (`Planet.attraction`). The divisor
   * `distance ** 2` is zero exactly when the two bodies coincide, and then the
   * source raises.
   */
  function Attraction(me: Particle, other: Particle, sqrt: real -> real): Outcome<Vec> {
    var dx := other.pos.x - me.pos.x;
    var dy := other.pos.y - me.pos.y;
    var d := Distance(me.pos, other.pos, sqrt);
    if Square(d) == 0.0 then ZeroDivisionError
    else Ok(Pull(dx, dy, d, me.mass, other.mass))
  }

  /**
   * The force vector for displacement `(dx, dy)` at distance `d` between
   * masses `m1` and `m2`: magnitude `G * m1 * m2 / d²`, direction
   * `(dx / d, dy / d)`.
   */
  function Pull(dx: real, dy: real, d: real, m1: real, m2: real): Vec
    requires Square(d) != 0.0
  {
    var force := G * m1 * m2 / Square(d);
    Vec(dx / d * force, dy / d * force)
  }

  /**
   * The total force on `me` from `others`, accumulated left to right; the
   * first coincident body aborts the sum.
   */
  function NetForce(me: Particle, others: seq<Particle>, sqrt: real -> real): Outcome<Vec>
    decreases |others|
  {
    if others == [] then Ok(Vec(0.0, 0.0))
    else
      match NetForce(me, others[..|others| - 1], sqrt)
      case ZeroDivisionError => ZeroDivisionError
      case Ok(total) =>
        match Attraction(me, others[|others| - 1], sqrt)
        case ZeroDivisionError => ZeroDivisionError
        case Ok(f) => Ok(total.Plus(f))
  }

  /**
   * The value of `distance_to_sun` after the force loop over `others`, starting
   * from `d0`: every Sun that the loop reaches overwrites it, including a Sun
   * whose force computation then raises.
   */
  function DistanceToSunAfter(me: Particle, others: seq<Particle>, d0: real, sqrt: real -> real): real
    decreases |others|
  {
    if others == [] then d0
    else
      var prefix := others[..|others| - 1];
      var last := others[|others| - 1];
      if NetForce(me, prefix, sqrt).Ok? && last.isSun then Distance(me.pos, last.pos, sqrt)
      else DistanceToSunAfter(me, prefix, d0, sqrt)
  }

  // ---------------------------------------------------------------------------
  // Algebra on real numbers. Each step is stated over plain variables, so that
  // the facts reach the callers as statements about `Square` and products.

  lemma SameFactorsNonNegative(u: real, w: real)
    requires u == w
    ensures u * w >= 0.0
  {
  }

  lemma ZeroProduct(p: real, q: real)
    requires p * q == 0.0
    ensures p == 0.0 || q == 0.0
  {
  }

  /** A square is non-negative, and zero only for zero. */
  lemma SquareSign(r: real)
    ensures Square(r) >= 0.0
    ensures Square(r) == 0.0 <==> r == 0.0
  {
    SameFactorsNonNegative(r, r);
    if Square(r) == 0.0 {
      ZeroProduct(r, r);
    }
  }

  lemma SquareOfNegation(u: real, w: real)
    requires w == -u
    ensures Square(u) == Square(w)
  {
  }

  lemma SquareOfProduct(p: real, q: real)
    ensures Square(p * q) == Square(p) * Square(q)
  {
  }

  lemma DivideThenMultiply(p: real, q: real)
    requires q != 0.0
    ensures (p / q) * q == p
  {
  }

  /** Two parts `x` and `y` that make up a non-zero whole are the fractions `a` and `b` of it, and these sum to one. */
  lemma FractionsOfWhole(a: real, b: real, whole: real, x: real, y: real)
    requires a * whole == x && b * whole == y && whole == x + y && whole != 0.0
    ensures a + b == 1.0
  {
    Distribute(a, b, whole);
    CancelFactor(a + b, whole);
  }

  lemma CancelFactor(p: real, q: real)
    requires p * q == q && q != 0.0
    ensures p == 1.0
  {
  }

  lemma Distribute(a: real, b: real, s: real)
    ensures a * s + b * s == (a + b) * s
  {
  }

  lemma DivideAsProduct(p: real, d: real)
    requires d != 0.0
    ensures p / d == p * (1.0 / d)
  {
  }

  lemma ScaledCross(dx: real, dy: real, c: real)
    ensures (dx * c) * dy == (dy * c) * dx
  {
  }

  lemma ScaledDot(dx: real, dy: real, c: real)
    ensures (dx * c) * dx + (dy * c) * dy == c * (Square(dx) + Square(dy))
  {
  }

  lemma ProductPositive(p: real, q: real)
    requires p > 0.0 && q > 0.0
    ensures p * q > 0.0
  {
  }

  lemma QuotientPositive(p: real, d: real)
    requires p > 0.0 && d > 0.0
    ensures p / d > 0.0
  {
  }

  lemma NegatedQuotient(u: real, w: real, d: real, f: real)
    requires w == -u && d != 0.0
    ensures u / d * f == -(w / d * f)
  {
    assert u / d == -(w / d);
  }

  lemma ProductCommutes(g: real, a: real, b: real)
    ensures g * a * b == g * b * a
  {
  }

  // ---------------------------------------------------------------------------
  // Distance and the force between two bodies

  /** The squared distance is non-negative and zero exactly when the points coincide. */
  lemma SquaredDistanceZero(a: Vec, b: Vec)
    ensures SquaredDistance(a, b) >= 0.0
    ensures SquaredDistance(a, b) == 0.0 <==> a == b
  {
    SquareSign(b.x - a.x);
    SquareSign(b.y - a.y);
  }

  /** The distance is non-negative, squares to `dx² + dy²`, and is zero exactly when the points coincide. */
  lemma DistanceIsEuclidean(a: Vec, b: Vec, sqrt: real -> real)
    requires IsSqrt(sqrt)
    ensures Distance(a, b, sqrt) >= 0.0
    ensures Square(Distance(a, b, sqrt)) == SquaredDistance(a, b)
    ensures Distance(a, b, sqrt) == 0.0 <==> a == b
  {
    SquaredDistanceZero(a, b);
    SquareSign(Distance(a, b, sqrt));
  }

  lemma DistanceSymmetric(a: Vec, b: Vec, sqrt: real -> real)
    ensures Distance(a, b, sqrt) == Distance(b, a, sqrt)
  {
    SquareOfNegation(b.x - a.x, a.x - b.x);
    SquareOfNegation(b.y - a.y, a.y - b.y);
  }

  /** The force computation raises exactly when the two bodies are at the same position. */
  lemma AttractionFailsIffCoincident(me: Particle, other: Particle, sqrt: real -> real)
    requires IsSqrt(sqrt)
    ensures Attraction(me, other, sqrt).ZeroDivisionError? <==> me.pos == other.pos
  {
    DistanceIsEuclidean(me.pos, other.pos, sqrt);
    SquaredDistanceZero(me.pos, other.pos);
  }

  /** Newton's third law: the pull of B on A is the negation of the pull of A on B. */
  lemma NewtonThirdLaw(a: Particle, b: Particle, sqrt: real -> real)
    ensures Attraction(a, b, sqrt).Ok? <==> Attraction(b, a, sqrt).Ok?
    ensures Attraction(a, b, sqrt).Ok? ==>
              Attraction(a, b, sqrt).value == Attraction(b, a, sqrt).value.Neg()
  {
    DistanceSymmetric(a.pos, b.pos, sqrt);
    var d := Distance(a.pos, b.pos, sqrt);
    if Square(d) != 0.0 {
      PullAntisymmetric(b.pos.x - a.pos.x, b.pos.y - a.pos.y, a.pos.x - b.pos.x, a.pos.y - b.pos.y, d, a.mass, b.mass);
    }
  }

  /** Reversing the displacement and swapping the masses negates the pull. */
  lemma PullAntisymmetric(dx: real, dy: real, ex: real, ey: real, d: real, m1: real, m2: real)
    requires ex == -dx && ey == -dy && Square(d) != 0.0
    ensures Pull(dx, dy, d, m1, m2) == Pull(ex, ey, d, m2, m1).Neg()
  {
    SquareSign(d);
    ProductCommutes(G, m1, m2);
    var force := G * m1 * m2 / Square(d);
    NegatedQuotient(dx, ex, d, force);
    NegatedQuotient(dy, ey, d, force);
  }

  /** The magnitude of the pull obeys the inverse-square law `G * m1 * m2 / r²`. */
  lemma AttractionInverseSquare(me: Particle, other: Particle, sqrt: real -> real)
    requires IsSqrt(sqrt)
    requires Attraction(me, other, sqrt).Ok?
    ensures var f := Attraction(me, other, sqrt).value;
            Square(f.x) + Square(f.y) ==
              Square(G * me.mass * other.mass / SquaredDistance(me.pos, other.pos))
  {
    DistanceIsEuclidean(me.pos, other.pos, sqrt);
    InverseSquareAt(me, other, Distance(me.pos, other.pos, sqrt));
  }

  /** The inverse-square law for the pull computed with any `d` whose square is the squared distance. */
  lemma InverseSquareAt(me: Particle, other: Particle, d: real)
    requires Square(d) != 0.0 && Square(d) == SquaredDistance(me.pos, other.pos)
    ensures var f := Pull(other.pos.x - me.pos.x, other.pos.y - me.pos.y, d, me.mass, other.mass);
            Square(f.x) + Square(f.y) ==
              Square(G * me.mass * other.mass / SquaredDistance(me.pos, other.pos))
  {
    PullMagnitude(other.pos.x - me.pos.x, other.pos.y - me.pos.y, d, me.mass, other.mass);
  }

  /** `Pull` has magnitude `G * m1 * m2 / d²` when `d` is the length of `(dx, dy)`. */
  lemma PullMagnitude(dx: real, dy: real, d: real, m1: real, m2: real)
    requires Square(d) != 0.0 && Square(d) == Square(dx) + Square(dy)
    ensures var f := Pull(dx, dy, d, m1, m2);
            Square(f.x) + Square(f.y) == Square(G * m1 * m2 / Square(d))
  {
    SquareSign(d);
    UnitDirection(dx, dy, d);
    ScaledMagnitude(dx / d, dy / d, G * m1 * m2 / Square(d));
  }

  /** Scaling a unit vector by `s` gives a vector of length `|s|`. */
  lemma ScaledMagnitude(ux: real, uy: real, s: real)
    requires Square(ux) + Square(uy) == 1.0
    ensures Square(ux * s) + Square(uy * s) == Square(s)
  {
    SquareOfProduct(ux, s);
    SquareOfProduct(uy, s);
    Distribute(Square(ux), Square(uy), Square(s));
  }

  /** Dividing a displacement by its length gives a vector of length one. */
  lemma UnitDirection(dx: real, dy: real, d: real)
    requires d != 0.0 && Square(d) == Square(dx) + Square(dy)
    ensures Square(dx / d) + Square(dy / d) == 1.0
  {
    SquareSign(d);
    DivideThenMultiply(dx, d);
    DivideThenMultiply(dy, d);
    SquareOfProduct(dx / d, d);
    SquareOfProduct(dy / d, d);
    var ux, uy, dd := Square(dx / d), Square(dy / d), Square(d);
    assert ux * dd == Square(dx);
    assert uy * dd == Square(dy);
    FractionsOfWhole(ux, uy, dd, Square(dx), Square(dy));
  }

  /**
   * For positive masses the pull points from `me` toward `other`: it lies on
   * the line through both bodies and has a positive component along the
   * displacement.
   */
  lemma AttractionPointsToOther(me: Particle, other: Particle, sqrt: real -> real)
    requires IsSqrt(sqrt)
    requires me.mass > 0.0 && other.mass > 0.0
    requires Attraction(me, other, sqrt).Ok?
    ensures var f := Attraction(me, other, sqrt).value;
            var dx := other.pos.x - me.pos.x;
            var dy := other.pos.y - me.pos.y;
            f.x * dy == f.y * dx && f.x * dx + f.y * dy > 0.0
  {
    DistanceIsEuclidean(me.pos, other.pos, sqrt);
    var d := Distance(me.pos, other.pos, sqrt);
    PullPointsAlong(other.pos.x - me.pos.x, other.pos.y - me.pos.y, d, me.mass, other.mass);
  }

  /**
   * For positive masses and a positive length `d` of `(dx, dy)`, the pull is
   * parallel to `(dx, dy)` and has a positive component along it.
   */
  lemma PullPointsAlong(dx: real, dy: real, d: real, m1: real, m2: real)
    requires m1 > 0.0 && m2 > 0.0 && d > 0.0 && Square(d) == Square(dx) + Square(dy)
    ensures Square(d) != 0.0
    ensures var f := Pull(dx, dy, d, m1, m2);
            f.x * dy == f.y * dx && f.x * dx + f.y * dy > 0.0
  {
    SquareSign(d);
    ProductPositive(G, m1);
    ProductPositive(G * m1, m2);
    QuotientPositive(G * m1 * m2, Square(d));
    var force := G * m1 * m2 / Square(d);
    QuotientPositive(force, d);
    var k := force / d;
    ScaledPull(dx, dy, d, force);
    ScaledCross(dx, dy, k);
    ScaledDot(dx, dy, k);
    ProductPositive(k, Square(dx) + Square(dy));
  }

  /** `dx / d * force` is `dx` scaled by `force / d`. */
  lemma ScaledPull(dx: real, dy: real, d: real, force: real)
    requires d != 0.0
    ensures dx / d * force == dx * (force / d)
    ensures dy / d * force == dy * (force / d)
  {
    DivideAsProduct(dx, d);
    DivideAsProduct(dy, d);
    DivideAsProduct(force, d);
  }

  // ---------------------------------------------------------------------------
  // The net force

  /** The net force raises exactly when one of the other bodies is at `me`'s position. */
  lemma {:induction false} NetForceFailsIffCoincident(me: Particle, others: seq<Particle>, sqrt: real -> real)
    requires IsSqrt(sqrt)
    ensures NetForce(me, others, sqrt).ZeroDivisionError? <==>
            exists j :: 0 <= j < |others| && others[j].pos == me.pos
    decreases |others|
  {
    if others != [] {
      var prefix := others[..|others| - 1];
      NetForceFailsIffCoincident(me, prefix, sqrt);
      AttractionFailsIffCoincident(me, others[|others| - 1], sqrt);
      if exists j :: 0 <= j < |others| && others[j].pos == me.pos {
        var j :| 0 <= j < |others| && others[j].pos == me.pos;
        if j < |prefix| {
          assert prefix[j] == others[j];
        }
      }
      if exists j :: 0 <= j < |prefix| && prefix[j].pos == me.pos {
        var j :| 0 <= j < |prefix| && prefix[j].pos == me.pos;
        assert others[j] == prefix[j];
      }
    }
  }

  /** One more body in the force loop: its pull is added, or its raise ends the sum; a Sun records its distance. */
  lemma NetForceStep(me: Particle, seen: seq<Particle>, p: Particle, d0: real, sqrt: real -> real)
    ensures NetForce(me, seen + [p], sqrt) ==
              match NetForce(me, seen, sqrt)
              case ZeroDivisionError => ZeroDivisionError
              case Ok(total) =>
                match Attraction(me, p, sqrt)
                case ZeroDivisionError => ZeroDivisionError
                case Ok(f) => Ok(total.Plus(f))
    ensures DistanceToSunAfter(me, seen + [p], d0, sqrt) ==
              if NetForce(me, seen, sqrt).Ok? && p.isSun then Distance(me.pos, p.pos, sqrt)
              else DistanceToSunAfter(me, seen, d0, sqrt)
  {
    assert (seen + [p])[..|seen|] == seen;
  }

  /** One pass of the force loop, over values: the body's pull is added, or the loop raises. */
  lemma ForceLoopStep(me: Particle, seen: seq<Particle>, p: Particle, sum: Vec, f: Outcome<Vec>, d: real, d0: real,
                      sqrt: real -> real)
    requires NetForce(me, seen, sqrt) == Ok(sum)
    requires d == DistanceToSunAfter(me, seen, d0, sqrt)
    requires f == Attraction(me, p, sqrt)
    ensures NetForce(me, seen + [p], sqrt) == if f.Ok? then Ok(sum.Plus(f.value)) else ZeroDivisionError
    ensures DistanceToSunAfter(me, seen + [p], d0, sqrt) == if p.isSun then Distance(me.pos, p.pos, sqrt) else d
  {
    NetForceStep(me, seen, p, d0, sqrt);
  }

  /** Superposition: the net force of two lists one after the other is the sum of their net forces. */
  lemma {:induction false} NetForceAppend(me: Particle, a: seq<Particle>, b: seq<Particle>, sqrt: real -> real)
    ensures NetForce(me, a + b, sqrt).Ok? <==> NetForce(me, a, sqrt).Ok? && NetForce(me, b, sqrt).Ok?
    ensures NetForce(me, a + b, sqrt).Ok? ==>
              NetForce(me, a + b, sqrt).value == NetForce(me, a, sqrt).value.Plus(NetForce(me, b, sqrt).value)
    decreases |b|
  {
    if b == [] {
      assert a + b == a;
    } else {
      var b' := b[..|b| - 1];
      assert (a + b)[..|a + b| - 1] == a + b';
      assert (a + b)[|a + b| - 1] == b[|b| - 1];
      NetForceAppend(me, a, b', sqrt);
    }
  }

  /** Once the force loop has raised, later bodies change neither the outcome nor the recorded distance. */
  lemma {:induction false} FailureIsFinal(me: Particle, a: seq<Particle>, b: seq<Particle>, d0: real, sqrt: real -> real)
    requires NetForce(me, a, sqrt).ZeroDivisionError?
    ensures NetForce(me, a + b, sqrt).ZeroDivisionError?
    ensures DistanceToSunAfter(me, a + b, d0, sqrt) == DistanceToSunAfter(me, a, d0, sqrt)
    decreases |b|
  {
    if b == [] {
      assert a + b == a;
    } else {
      var b' := b[..|b| - 1];
      assert (a + b)[..|a + b| - 1] == a + b';
      FailureIsFinal(me, a, b', d0, sqrt);
    }
  }

  // ---------------------------------------------------------------------------
  // The distance-to-Sun side effect

  /** With no Sun among the other bodies, the recorded distance is left as it was. */
  lemma {:induction false} NoSunKeepsDistance(me: Particle, others: seq<Particle>, d0: real, sqrt: real -> real)
    requires forall j :: 0 <= j < |others| ==> !others[j].isSun
    ensures DistanceToSunAfter(me, others, d0, sqrt) == d0
    decreases |others|
  {
    if others != [] {
      var prefix := others[..|others| - 1];
      assert forall j :: 0 <= j < |prefix| ==> prefix[j] == others[j];
      NoSunKeepsDistance(me, prefix, d0, sqrt);
    }
  }

  /**
   * When the force loop completes, the recorded distance is the distance to
   * the last Sun in the list.
   */
  lemma {:induction false} RecordsDistanceToLastSun(me: Particle, others: seq<Particle>, j: nat, d0: real, sqrt: real -> real)
    requires NetForce(me, others, sqrt).Ok?
    requires j < |others| && others[j].isSun
    requires forall k :: j < k < |others| ==> !others[k].isSun
    ensures DistanceToSunAfter(me, others, d0, sqrt) == Distance(me.pos, others[j].pos, sqrt)
    decreases |others|
  {
    var prefix := others[..|others| - 1];
    if j < |others| - 1 {
      assert !others[|others| - 1].isSun;
      assert forall k :: j < k < |prefix| ==> prefix[k] == others[k];
      RecordsDistanceToLastSun(me, prefix, j, d0, sqrt);
    }
  }
}

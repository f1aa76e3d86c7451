/** Formulas that the five animations share: the closed-form one-dimensional
    elastic exchange, the reflection of a body off the two walls of one axis,
    the bounded trajectory buffer, the starting placement of the two 1D
    demonstrations, and the square root that the host supplies. All
    quantities are exact reals; the browser's floating point is not
    modelled. */
module Mechanics {

  /** The host's square root, passed in as a function: it is exact on the
      non-negative reals. */
  ghost predicate IsSqrt(sqrt: real -> real)
  {
    forall x :: 0.0 <= x ==> 0.0 <= sqrt(x) && sqrt(x) * sqrt(x) == x
  }

  /** The host's square root of x. Methods take the root through this
      function so that its value does not depend on the heap of the moment
      the method applies it. */
  function SquareRoot(sqrt: real -> real, x: real): real
  {
    sqrt(x)
  }

  /** The squared length of (dx, dy). */
  function Speed2(dx: real, dy: real): real
  {
    dx * dx + dy * dy
  }

  /** The length of the vector (dx, dy), through the host's square root. */
  function Hypot(sqrt: real -> real, dx: real, dy: real): real
  {
    SquareRoot(sqrt, Speed2(dx, dy))
  }

  /** With an exact root, the length is non-negative and squares to dx^2 + dy^2. */
  lemma HypotSpec(sqrt: real -> real, dx: real, dy: real)
    requires IsSqrt(sqrt)
    ensures var d := Hypot(sqrt, dx, dy);
      0.0 <= d && d * d == dx * dx + dy * dy
  {
    SquareNonNegative(dx);
    SquareNonNegative(dy);
  }

  /** The root of a positive number is positive. */
  lemma RootOfPositive(sqrt: real -> real, v: real)
    requires IsSqrt(sqrt) && v > 0.0
    ensures SquareRoot(sqrt, v) > 0.0
  {
    var r := SquareRoot(sqrt, v);
    assert 0.0 <= r && r * r == v;
    assert r != 0.0;
  }

  datatype Option<T> = None | Some(value: T)

  function Abs(x: real): real
  {
    if x < 0.0 then -x else x
  }

  lemma ProductPositive(a: real, b: real)
    requires a > 0.0 && b > 0.0
    ensures a * b > 0.0
  {
  }

  lemma SquarePositive(x: real)
    requires x != 0.0
    ensures x * x > 0.0
  {
    if x > 0.0 {
      ProductPositive(x, x);
    } else {
      ProductPositive(-x, -x);
    }
  }

  lemma SquareNonNegative(x: real)
    ensures x * x >= 0.0
  {
    if x != 0.0 {
      SquarePositive(x);
    }
  }

  lemma QuotientPositive(p: real, d: real)
    requires p > 0.0 && d > 0.0
    ensures p / d > 0.0
  {
    assert (p / d) * d == p;
  }

  /** Equal factors give equal products. Calling this spares the solver
      from substituting inside a product. */
  lemma MulEq(x: real, y: real, z: real)
    requires x == y
    ensures x * z == y * z
  {
  }

  /** A non-zero factor can be cancelled. */
  lemma CancelFactor(a: real, b: real, k: real)
    requires k != 0.0 && a * k == b * k
    ensures a == b
  {
    assert a == (a * k) / k;
  }

  /** Two non-negative numbers with equal squares are equal. */
  lemma SquaresEqual(r: real, a: real)
    requires r >= 0.0 && a >= 0.0 && r * r == a * a
    ensures r == a
  {
    if r > a {
      var p, q := r - a, r + a;
      ProductPositive(p, q);
    } else if r < a {
      var p, q := a - r, a + r;
      ProductPositive(p, q);
    }
  }

  /** The host's root of the square of a non-negative number is that number. */
  lemma RootOfSquare(sqrt: real -> real, a: real)
    requires IsSqrt(sqrt) && a >= 0.0
    ensures SquareRoot(sqrt, a * a) == a
  {
    SquareNonNegative(a);
    var r := SquareRoot(sqrt, a * a);
    assert r >= 0.0 && r * r == a * a;
    SquaresEqual(r, a);
  }

  // ---------------------------------------------------------------------
  // One-dimensional elastic collision

  /** Velocities after a perfectly elastic collision of a body of mass m1
      moving at u1 with a body of mass m2 moving at u2. */
  function ElasticFinal(m1: real, m2: real, u1: real, u2: real): (v: (real, real))
    requires m1 + m2 != 0.0
  {
    (((m1 - m2) * u1 + 2.0 * m2 * u2) / (m1 + m2),
     ((m2 - m1) * u2 + 2.0 * m1 * u1) / (m1 + m2))
  }

  /** The elastic exchange preserves the total momentum m1*u1 + m2*u2. */
  lemma ElasticConservesMomentum(m1: real, m2: real, u1: real, u2: real)
    requires m1 + m2 != 0.0
    ensures var v := ElasticFinal(m1, m2, u1, u2);
      m1 * v.0 + m2 * v.1 == m1 * u1 + m2 * u2
  {
    var M := m1 + m2;
    var a := (m1 - m2) * u1 + 2.0 * m2 * u2;
    var b := (m2 - m1) * u2 + 2.0 * m1 * u1;
    assert m1 * a + m2 * b == (m1 * u1 + m2 * u2) * M;
    assert m1 * (a / M) + m2 * (b / M) == (m1 * a + m2 * b) / M;
  }

  /** The elastic exchange reverses the relative velocity: v1 - v2 == u2 - u1. */
  lemma ElasticReversesApproach(m1: real, m2: real, u1: real, u2: real)
    requires m1 + m2 != 0.0
    ensures var v := ElasticFinal(m1, m2, u1, u2);
      v.0 - v.1 == u2 - u1
  {
    var M := m1 + m2;
    var a := (m1 - m2) * u1 + 2.0 * m2 * u2;
    var b := (m2 - m1) * u2 + 2.0 * m1 * u1;
    assert a - b == (u2 - u1) * M;
    assert a / M - b / M == (a - b) / M;
  }

  /** The elastic exchange preserves the total kinetic energy (both sides
      doubled: m1*u1^2 + m2*u2^2). */
  lemma ElasticConservesEnergy(m1: real, m2: real, u1: real, u2: real)
    requires m1 + m2 != 0.0
    ensures var v := ElasticFinal(m1, m2, u1, u2);
      m1 * v.0 * v.0 + m2 * v.1 * v.1 == m1 * u1 * u1 + m2 * u2 * u2
  {
    var v := ElasticFinal(m1, m2, u1, u2);
    ElasticConservesMomentum(m1, m2, u1, u2);
    ElasticReversesApproach(m1, m2, u1, u2);
    // p is the momentum handed from body 2 to body 1
    var p := m1 * (v.0 - u1);
    assert m2 * (v.1 - u2) == -p;
    calc {
      (m1 * v.0 * v.0 + m2 * v.1 * v.1) - (m1 * u1 * u1 + m2 * u2 * u2);
      m1 * (v.0 - u1) * (v.0 + u1) + m2 * (v.1 - u2) * (v.1 + u2);
      p * (v.0 + u1) - p * (v.1 + u2);
      p * ((v.0 - v.1) + (u1 - u2));
      0.0;
    }
  }

  /** With equal masses the two velocities are exchanged. */
  lemma ElasticEqualMassesSwap(m: real, u1: real, u2: real)
    requires m != 0.0
    ensures ElasticFinal(m, m, u1, u2) == (u2, u1)
  {
    var M := m + m;
    var a := (m - m) * u1 + 2.0 * m * u2;
    var b := (m - m) * u2 + 2.0 * m * u1;
    assert a == u2 * M && b == u1 * M;
    assert a / M == u2 && b / M == u1;
    var v := ElasticFinal(m, m, u1, u2);
    assert v.0 == a / M && v.1 == b / M;
  }

  // ---------------------------------------------------------------------
  // Perfectly inelastic collision

  /** The common velocity of two bodies that stick together: the total
      momentum over the total mass. */
  function CommonVelocity(m1: real, m2: real, u1: real, u2: real): real
    requires m1 + m2 != 0.0
  {
    (m1 * u1 + m2 * u2) / (m1 + m2)
  }

  // ---------------------------------------------------------------------
  // Wall reflection along one axis

  /** Position, velocity and whether a wall was touched, for one axis. */
  datatype Axis = Axis(pos: real, vel: real, hit: bool)

  /** The two wall checks of one axis, in the order the animations run them:
      first the low wall at lo, then the high wall at hi, the second test
      looking at the position the first may already have corrected. A body
      touching a wall is put back against it and its velocity is negated and
      scaled by the restitution e (1 for the collision demonstrations, 0.9
      for explosion fragments). */
  function WallBounce(pos: real, vel: real, r: real, lo: real, hi: real, e: real): Axis
  {
    var first := if pos - r < lo then Axis(lo + r, -vel * e, true) else Axis(pos, vel, false);
    if first.pos + r > hi then Axis(hi - r, -first.vel * e, true) else first
  }

  /** What one axis of wall checking does: it fires exactly when the body
      pokes through either wall; an untouched body is left as it is; in an
      arena at least one diameter wide a body through a wall ends up exactly
      against it, moving away with its speed scaled by e; and in a narrower
      arena a body through the low wall is reflected twice. */
  lemma WallBounceCases(pos: real, vel: real, r: real, lo: real, hi: real, e: real)
    ensures var a := WallBounce(pos, vel, r, lo, hi, e);
      && (a.hit <==> pos - r < lo || hi < pos + r)
      && (!a.hit ==> a.pos == pos && a.vel == vel)
      && (2.0 * r <= hi - lo && pos - r < lo ==> a.pos == lo + r && a.vel == -e * vel)
      && (2.0 * r <= hi - lo && hi < pos + r ==> a.pos == hi - r && a.vel == -e * vel)
      && (2.0 * r <= hi - lo ==> lo <= a.pos - r && a.pos + r <= hi)
      && (hi - lo < 2.0 * r && pos - r < lo ==> a.pos == hi - r && a.vel == e * e * vel)
  {
  }

  // ---------------------------------------------------------------------
  // Bounded trajectory buffer

  /** Append p, then drop the oldest entry if the buffer has grown beyond cap. */
  function BoundedPush<T>(s: seq<T>, p: T, cap: nat): seq<T>
  {
    var t := s + [p];
    if |t| > cap then t[1..] else t
  }

  /** A buffer within its capacity stays within it, the new entry is the
      newest, and the oldest entry is dropped exactly when the buffer was
      full. */
  lemma BoundedPushSpec<T>(s: seq<T>, p: T, cap: nat)
    requires 0 < cap && |s| <= cap
    ensures var r := BoundedPush(s, p, cap);
      && |r| <= cap
      && r[|r| - 1] == p
      && r == (if |s| < cap then s + [p] else s[1..] + [p])
  {
  }

  // ---------------------------------------------------------------------
  // Starting placement of the two 1D demonstrations

  /** Starting centres of the two bodies, chosen from their velocities so
      that they meet: approaching bodies start at a quarter and three
      quarters of the track; a faster first body starts against the left
      wall with the second in the middle; otherwise they start at the
      thirds. */
  function StartPositions(v1: real, v2: real, width: real, pad: real): (real, real)
  {
    if v1 > 0.0 && v2 < 0.0 then (width * 0.25, width * 0.75)
    else if v1 > v2 then (pad, width / 2.0)
    else (width / 3.0, width * 2.0 / 3.0)
  }

  /** The three placements, each with the exact condition that selects it;
      on a track wider than twice the padding the first body always starts
      to the left of the second. */
  lemma StartPositionsCases(v1: real, v2: real, width: real, pad: real)
    ensures var (x1, x2) := StartPositions(v1, v2, width, pad);
      && (v1 > 0.0 && v2 < 0.0 ==> x1 == width / 4.0 && x2 == 3.0 * width / 4.0)
      && (v1 > v2 && (v1 <= 0.0 || v2 >= 0.0) ==> x1 == pad && x2 == width / 2.0)
      && (v1 <= v2 ==> x1 == width / 3.0 && x2 == 2.0 * width / 3.0)
      && (0.0 <= 2.0 * pad < width ==> x1 < x2)
  {
  }
}

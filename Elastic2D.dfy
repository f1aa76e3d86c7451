/** The two-dimensional elastic collision demonstration: two discs in a
    rectangular arena meet once, exchange the components of their velocities
    along the line of centres as in a one-dimensional elastic collision, keep
    their tangential components, and bounce off the four walls without
    loss. A bounded list of trajectory points records the path. One call of
    Update is one animation frame. */
module Elastic2D {
  import opened Mechanics

  /** Seconds per frame, pixels per metre, and the gap between canvas edge and wall. */
  const TimeStep: real := 0.05
  const Scale: real := 15.0
  const BoundaryPadding: real := 20.0

  /** The trajectory list never holds more points than this. */
  const TrajectoryCap: nat := 100

  /** One disc (its colour, speed and angle are only displayed). */
  datatype Body = Body(x: real, y: real, radius: real, mass: real, vx: real, vy: real)

  /** One recorded frame: both centres, and whether the collision had happened. */
  datatype TrajectoryPoint = TrajectoryPoint(x1: real, y1: real, x2: real, y2: real, isCollision: bool)

  /** What calculateMomentum returns. */
  datatype MomentumVector = MomentumVector(px: real, py: real, magnitude: real)

  /** calculateMomentum: the two components and the length of m * v. */
  function CalculateMomentum(b: Body, sqrt: real -> real): MomentumVector
  {
    var px := b.mass * b.vx;
    var py := b.mass * b.vy;
    MomentumVector(px, py, Hypot(sqrt, px, py))
  }

  /** Twice the kinetic energy. */
  function Energy2(b: Body): real
  {
    b.mass * Speed2(b.vx, b.vy)
  }

  /** A mass-weighted sum of two quantities, such as a total momentum component. */
  function Weighted(m1: real, x1: real, m2: real, x2: real): real
  {
    m1 * x1 + m2 * x2
  }

  /** The two discs as resetObjects creates them: speed times the cosine and
      sine of each launch angle (supplied by the host), radius 10 + 2m, and
      centres 100 pixels either side of the middle of the arena. */
  function Initial(mass1: real, mass2: real, speed1: real, cos1: real, sin1: real,
                   speed2: real, cos2: real, sin2: real, width: real, height: real): seq<Body>
  {
    [Body(width / 2.0 - 100.0, height / 2.0, 10.0 + mass1 * 2.0, mass1, speed1 * cos1, speed1 * sin1),
     Body(width / 2.0 + 100.0, height / 2.0, 10.0 + mass2 * 2.0, mass2, speed2 * cos2, speed2 * sin2)]
  }

  /** One Euler step of the position. */
  function Drift(b: Body): Body
  {
    b.(x := b.x + b.vx * Scale * TimeStep, y := b.y + b.vy * Scale * TimeStep)
  }

  /** Distance between the two centres. */
  function Distance(b1: Body, b2: Body, sqrt: real -> real): real
  {
    Hypot(sqrt, b2.x - b1.x, b2.y - b1.y)
  }

  /** How far each centre moves along one axis: half the overlap, in the
      proportion delta / distance of that axis. */
  function OverlapShare(overlap: real, delta: real, distance: real): real
    requires distance != 0.0
  {
    (overlap * delta) / distance / 2.0
  }

  /** The overlap correction of checkCollision: each centre moves by half the
      overlap along the line of centres, away from the other. */
  function PushApart(b1: Body, b2: Body, sqrt: real -> real): (Body, Body)
    requires Distance(b1, b2, sqrt) != 0.0
  {
    var dx := b2.x - b1.x;
    var dy := b2.y - b1.y;
    var distance := Distance(b1, b2, sqrt);
    var overlap := b1.radius + b2.radius - distance;
    var overlapX := OverlapShare(overlap, dx, distance);
    var overlapY := OverlapShare(overlap, dy, distance);
    (b1.(x := b1.x - overlapX, y := b1.y - overlapY), b2.(x := b2.x + overlapX, y := b2.y + overlapY))
  }

  /** The unit vector from the first centre to the second. */
  function CollisionNormal(b1: Body, b2: Body, sqrt: real -> real): (real, real)
    requires Distance(b1, b2, sqrt) != 0.0
  {
    var distance := Distance(b1, b2, sqrt);
    ((b2.x - b1.x) / distance, (b2.y - b1.y) / distance)
  }

  /** Component of (vx, vy) along the unit normal (nx, ny). */
  function NormalPart(vx: real, vy: real, nx: real, ny: real): real
  {
    vx * nx + vy * ny
  }

  /** Component of (vx, vy) along the tangent (-ny, nx). */
  function TangentPart(vx: real, vy: real, nx: real, ny: real): real
  {
    vx * -ny + vy * nx
  }

  /** The velocity whose normal component is a and whose tangential component is t. */
  function Recompose(a: real, t: real, nx: real, ny: real): (real, real)
  {
    (a * nx + t * -ny, a * ny + t * nx)
  }

  /** calculateCollision's velocity update along the unit normal (nx, ny):
      the normal components go through the one-dimensional elastic formula,
      the tangential components are kept. */
  function Resolve(b1: Body, b2: Body, nx: real, ny: real): (Body, Body)
    requires b1.mass + b2.mass != 0.0
  {
    var v1n, v1t := NormalPart(b1.vx, b1.vy, nx, ny), TangentPart(b1.vx, b1.vy, nx, ny);
    var v2n, v2t := NormalPart(b2.vx, b2.vy, nx, ny), TangentPart(b2.vx, b2.vy, nx, ny);
    var after := ElasticFinal(b1.mass, b2.mass, v1n, v2n);
    var w1, w2 := Recompose(after.0, v1t, nx, ny), Recompose(after.1, v2t, nx, ny);
    (b1.(vx := w1.0, vy := w1.1), b2.(vx := w2.0, vy := w2.1))
  }

  /** addTrajectoryPoints: record both centres, keeping at most TrajectoryCap points. */
  function AddPoint(trajectories: seq<TrajectoryPoint>, b1: Body, b2: Body, isCollision: bool): seq<TrajectoryPoint>
  {
    BoundedPush(trajectories, TrajectoryPoint(b1.x, b1.y, b2.x, b2.y, isCollision), TrajectoryCap)
  }

  /** checkBoundaryCollision: lossless reflection off the left and right
      walls, then off the top and bottom walls, and whether any wall was
      touched. */
  function Bounds(b: Body, width: real, height: real): (Body, bool)
  {
    var ax := WallBounce(b.x, b.vx, b.radius, BoundaryPadding, width - BoundaryPadding, 1.0);
    var ay := WallBounce(b.y, b.vy, b.radius, BoundaryPadding, height - BoundaryPadding, 1.0);
    (b.(x := ax.pos, vx := ax.vel, y := ay.pos, vy := ay.vel), ax.hit || ay.hit)
  }

  /** What the animation holds between frames. */
  datatype Scene = Scene(objects: seq<Body>, trajectories: seq<TrajectoryPoint>, hasCollided: bool)

  predicate WellFormed(objects: seq<Body>)
  {
    |objects| == 2
    && objects[0].mass > 0.0 && objects[1].mass > 0.0
    && objects[0].radius > 0.0 && objects[1].radius > 0.0
  }

  /** The guard of checkCollision: touching, and no collision yet. */
  predicate Fires(objects: seq<Body>, hasCollided: bool, sqrt: real -> real)
    requires |objects| == 2
  {
    !hasCollided && Distance(objects[0], objects[1], sqrt) <= objects[0].radius + objects[1].radius
  }

  /** The source divides by the distance between the centres when the guard
      fires, so a firing guard needs distinct centres. */
  predicate Resolvable(objects: seq<Body>, hasCollided: bool, sqrt: real -> real)
  {
    WellFormed(objects)
    && (Fires(objects, hasCollided, sqrt) ==> Distance(objects[0], objects[1], sqrt) > 0.0)
  }

  /** The discs after a contact: pushed apart, then resolved along the new
      line of centres. */
  function Contact(o1: Body, o2: Body, sqrt: real -> real): (Body, Body)
    requires IsSqrt(sqrt) && Distance(o1, o2, sqrt) > 0.0
    requires o1.mass > 0.0 && o2.mass > 0.0 && o1.radius > 0.0 && o2.radius > 0.0
  {
    PushApartTouches(o1, o2, sqrt);
    var (p1, p2) := PushApart(o1, o2, sqrt);
    var n := CollisionNormal(p1, p2, sqrt);
    Resolve(p1, p2, n.0, n.1)
  }

  /** checkCollision with the calculateCollision it calls: when the guard
      fires, push the discs apart, resolve along the new line of centres,
      mark the collision and record a point. */
  function Collide(sc: Scene, sqrt: real -> real): (r: Scene)
    requires Resolvable(sc.objects, sc.hasCollided, sqrt) && IsSqrt(sqrt)
    ensures WellFormed(r.objects)
    ensures r.hasCollided <==> sc.hasCollided || Fires(sc.objects, sc.hasCollided, sqrt)
    ensures !Fires(sc.objects, sc.hasCollided, sqrt) ==> r == sc
  {
    if Fires(sc.objects, sc.hasCollided, sqrt) then
      var (r1, r2) := Contact(sc.objects[0], sc.objects[1], sqrt);
      Scene([r1, r2], AddPoint(sc.trajectories, r1, r2, true), true)
    else
      sc
  }

  function DriftAll(objects: seq<Body>): seq<Body>
    requires |objects| == 2
  {
    [Drift(objects[0]), Drift(objects[1])]
  }

  /** The point update records first when the animation runs with an empty list. */
  function FirstPoint(sc: Scene, isRunning: bool): seq<TrajectoryPoint>
    requires |sc.objects| == 2
  {
    if isRunning && |sc.trajectories| == 0
    then AddPoint(sc.trajectories, sc.objects[0], sc.objects[1], sc.hasCollided)
    else sc.trajectories
  }

  /** The wall checks of both discs, and a point after any wall contact. */
  function Finish(c: Scene, width: real, height: real): Scene
    requires |c.objects| == 2
  {
    var (b0, hit0) := Bounds(c.objects[0], width, height);
    var (b1, hit1) := Bounds(c.objects[1], width, height);
    Scene([b0, b1], if hit0 || hit1 then AddPoint(c.trajectories, b0, b1, c.hasCollided) else c.trajectories,
          c.hasCollided)
  }

  /** One frame of update: the first point, the drift, checkCollision, and
      the wall checks. */
  function Tick(sc: Scene, isRunning: bool, width: real, height: real, sqrt: real -> real): Scene
    requires WellFormed(sc.objects) && IsSqrt(sqrt)
    requires Resolvable(DriftAll(sc.objects), sc.hasCollided, sqrt)
  {
    Finish(Collide(Scene(DriftAll(sc.objects), FirstPoint(sc, isRunning), sc.hasCollided), sqrt), width, height)
  }

  // ---------------------------------------------------------------------
  // Properties

  /** A velocity rebuilt from normal component a and tangential component t
      has those components and the squared length a^2 + t^2. */
  lemma Rebuild(a: real, t: real, nx: real, ny: real)
    requires nx * nx + ny * ny == 1.0
    ensures var w := Recompose(a, t, nx, ny);
      && NormalPart(w.0, w.1, nx, ny) == a
      && TangentPart(w.0, w.1, nx, ny) == t
      && Speed2(w.0, w.1) == Speed2(a, t)
  {
    var n2 := nx * nx + ny * ny;
    var vx, vy := a * nx + t * -ny, a * ny + t * nx;
    assert vx * nx + vy * ny == a * n2;
    assert vx * -ny + vy * nx == t * n2;
    assert vx * vx + vy * vy == (a * a + t * t) * n2;
  }

  /** A velocity is the sum of its normal and tangential parts. */
  lemma Decompose(vx: real, vy: real, nx: real, ny: real)
    requires nx * nx + ny * ny == 1.0
    ensures var a, t := NormalPart(vx, vy, nx, ny), TangentPart(vx, vy, nx, ny);
      && Recompose(a, t, nx, ny) == (vx, vy)
      && Speed2(vx, vy) == Speed2(a, t)
  {
    var n2 := nx * nx + ny * ny;
    var a, t := vx * nx + vy * ny, vx * -ny + vy * nx;
    assert a * nx + t * -ny == vx * n2;
    assert a * ny + t * nx == vy * n2;
    Rebuild(a, t, nx, ny);
  }

  /** Recomposing commutes with mass-weighted sums. */
  lemma RecomposeLinear(m1: real, a1: real, t1: real, m2: real, a2: real, t2: real, nx: real, ny: real)
    ensures var w1, w2 := Recompose(a1, t1, nx, ny), Recompose(a2, t2, nx, ny);
      var r := Recompose(Weighted(m1, a1, m2, a2), Weighted(m1, t1, m2, t2), nx, ny);
      r.0 == Weighted(m1, w1.0, m2, w2.0) && r.1 == Weighted(m1, w1.1, m2, w2.1)
  {
    assert m1 * (a1 * nx + t1 * -ny) + m2 * (a2 * nx + t2 * -ny) == (m1 * a1 + m2 * a2) * nx + (m1 * t1 + m2 * t2) * -ny;
    assert m1 * (a1 * ny + t1 * nx) + m2 * (a2 * ny + t2 * nx) == (m1 * a1 + m2 * a2) * ny + (m1 * t1 + m2 * t2) * nx;
  }

  /** Exchanging normal components that keep m1 a1^2 + m2 a2^2 keeps the
      total of the squared speeds weighted by mass. */
  lemma EnergySum(m1: real, m2: real, a1: real, a2: real, u1: real, u2: real, t1: real, t2: real)
    requires m1 * a1 * a1 + m2 * a2 * a2 == m1 * u1 * u1 + m2 * u2 * u2
    ensures Weighted(m1, Speed2(a1, t1), m2, Speed2(a2, t2)) == Weighted(m1, Speed2(u1, t1), m2, Speed2(u2, t2))
  {
  }

  /** Along a unit normal the resolution keeps both components of the total
      momentum, keeps each disc's tangential velocity, reverses the relative
      normal velocity, and leaves positions and masses alone. */
  lemma ResolveConservesMomentum(b1: Body, b2: Body, nx: real, ny: real)
    requires b1.mass + b2.mass != 0.0
    requires nx * nx + ny * ny == 1.0
    ensures var (c1, c2) := Resolve(b1, b2, nx, ny);
      && Weighted(b1.mass, c1.vx, b2.mass, c2.vx) == Weighted(b1.mass, b1.vx, b2.mass, b2.vx)
      && Weighted(b1.mass, c1.vy, b2.mass, c2.vy) == Weighted(b1.mass, b1.vy, b2.mass, b2.vy)
      && TangentPart(c1.vx, c1.vy, nx, ny) == TangentPart(b1.vx, b1.vy, nx, ny)
      && TangentPart(c2.vx, c2.vy, nx, ny) == TangentPart(b2.vx, b2.vy, nx, ny)
      && NormalPart(c1.vx, c1.vy, nx, ny) - NormalPart(c2.vx, c2.vy, nx, ny)
         == NormalPart(b2.vx, b2.vy, nx, ny) - NormalPart(b1.vx, b1.vy, nx, ny)
      && c1.x == b1.x && c1.y == b1.y && c2.x == b2.x && c2.y == b2.y
      && c1.mass == b1.mass && c2.mass == b2.mass && c1.radius == b1.radius && c2.radius == b2.radius
  {
    var m1, m2 := b1.mass, b2.mass;
    var v1n, v1t := NormalPart(b1.vx, b1.vy, nx, ny), TangentPart(b1.vx, b1.vy, nx, ny);
    var v2n, v2t := NormalPart(b2.vx, b2.vy, nx, ny), TangentPart(b2.vx, b2.vy, nx, ny);
    var after := ElasticFinal(m1, m2, v1n, v2n);
    ElasticConservesMomentum(m1, m2, v1n, v2n);
    ElasticReversesApproach(m1, m2, v1n, v2n);
    Rebuild(after.0, v1t, nx, ny);
    Rebuild(after.1, v2t, nx, ny);
    Decompose(b1.vx, b1.vy, nx, ny);
    Decompose(b2.vx, b2.vy, nx, ny);
    RecomposeLinear(m1, after.0, v1t, m2, after.1, v2t, nx, ny);
    RecomposeLinear(m1, v1n, v1t, m2, v2n, v2t, nx, ny);
    var (c1, c2) := Resolve(b1, b2, nx, ny);
    assert (c1.vx, c1.vy) == Recompose(after.0, v1t, nx, ny);
    assert (c2.vx, c2.vy) == Recompose(after.1, v2t, nx, ny);
    var t := Weighted(m1, v1t, m2, v2t);
    assert Weighted(m1, after.0, m2, after.1) == Weighted(m1, v1n, m2, v2n);
    assert Recompose(Weighted(m1, after.0, m2, after.1), t, nx, ny) == Recompose(Weighted(m1, v1n, m2, v2n), t, nx, ny);
  }

  /** Along a unit normal the resolution keeps the total kinetic energy. */
  lemma ResolveConservesEnergy(b1: Body, b2: Body, nx: real, ny: real)
    requires b1.mass + b2.mass != 0.0
    requires nx * nx + ny * ny == 1.0
    ensures var (c1, c2) := Resolve(b1, b2, nx, ny);
      Energy2(c1) + Energy2(c2) == Energy2(b1) + Energy2(b2)
  {
    var m1, m2 := b1.mass, b2.mass;
    var v1n, v1t := NormalPart(b1.vx, b1.vy, nx, ny), TangentPart(b1.vx, b1.vy, nx, ny);
    var v2n, v2t := NormalPart(b2.vx, b2.vy, nx, ny), TangentPart(b2.vx, b2.vy, nx, ny);
    var after := ElasticFinal(m1, m2, v1n, v2n);
    ElasticConservesEnergy(m1, m2, v1n, v2n);
    EnergySum(m1, m2, after.0, after.1, v1n, v2n, v1t, v2t);
    Rebuild(after.0, v1t, nx, ny);
    Rebuild(after.1, v2t, nx, ny);
    Decompose(b1.vx, b1.vy, nx, ny);
    Decompose(b2.vx, b2.vy, nx, ny);
    var (c1, c2) := Resolve(b1, b2, nx, ny);
    assert (c1.vx, c1.vy) == Recompose(after.0, v1t, nx, ny);
    assert (c2.vx, c2.vy) == Recompose(after.1, v2t, nx, ny);
    assert Speed2(c1.vx, c1.vy) == Speed2(after.0, v1t);
    assert Speed2(c2.vx, c2.vy) == Speed2(after.1, v2t);
    assert Energy2(c1) + Energy2(c2) == Weighted(m1, Speed2(after.0, v1t), m2, Speed2(after.1, v2t));
    assert Energy2(b1) + Energy2(b2) == Weighted(m1, Speed2(v1n, v1t), m2, Speed2(v2n, v2t));
  }

  /** Scaling a vector of length d by the inverse of d gives a unit vector. */
  lemma UnitScaled(dx: real, dy: real, d: real, inv: real)
    requires d * inv == 1.0 && d * d == dx * dx + dy * dy
    ensures (dx * inv) * (dx * inv) + (dy * inv) * (dy * inv) == 1.0
  {
    MulEq(dx * dx + dy * dy, d * d, inv * inv);
    MulEq(d * inv, 1.0, d * inv);
  }

  /** Dividing a vector of length d > 0 by d gives a unit vector. */
  lemma UnitQuotient(dx: real, dy: real, d: real)
    requires d > 0.0 && d * d == dx * dx + dy * dy
    ensures (dx / d) * (dx / d) + (dy / d) * (dy / d) == 1.0
  {
    var inv := 1.0 / d;
    assert dx / d == dx * inv && dy / d == dy * inv;
    UnitScaled(dx, dy, d, inv);
  }

  /** The normal of two distinct centres has unit length. */
  lemma NormalIsUnit(b1: Body, b2: Body, sqrt: real -> real)
    requires IsSqrt(sqrt) && Distance(b1, b2, sqrt) > 0.0
    ensures var n := CollisionNormal(b1, b2, sqrt);
      n.0 * n.0 + n.1 * n.1 == 1.0
  {
    HypotSpec(sqrt, b2.x - b1.x, b2.y - b1.y);
    UnitQuotient(b2.x - b1.x, b2.y - b1.y, Distance(b1, b2, sqrt));
  }

  /** Moving both ends of a segment of length d outwards by half the
      overlap minD - d scales it by minD / d. */
  lemma PushAxis(dx: real, d: real, minD: real)
    requires d != 0.0
    ensures dx + 2.0 * OverlapShare(minD - d, dx, d) == (minD / d) * dx
  {
    var q := ((minD - d) * dx) / d;
    var k := minD / d;
    assert q * d == (minD - d) * dx;
    assert k * d == minD;
    assert (dx + q) * d == (k * dx) * d;
    CancelFactor(dx + q, k * dx, d);
  }

  /** Scaling an offset of length d by minD / d gives an offset of length minD. */
  lemma ScaledLength(dx: real, dy: real, d: real, minD: real)
    requires d > 0.0 && d * d == dx * dx + dy * dy
    ensures var k := minD / d;
      Speed2(k * dx, k * dy) == minD * minD
  {
    var k := minD / d;
    assert k * d == minD;
    assert (k * dx) * (k * dx) + (k * dy) * (k * dy) == (k * k) * (dx * dx + dy * dy);
    assert (k * k) * (d * d) == (k * d) * (k * d);
  }

  /** The overlap correction on centres (x1, y1) and (x2, y2) at distance d:
      the new offset is the old one scaled by (r1 + r2) / d, so its length is
      r1 + r2. */
  lemma PushedOffset(x1: real, y1: real, x2: real, y2: real, r1: real, r2: real, d: real)
    requires d > 0.0 && d * d == (x2 - x1) * (x2 - x1) + (y2 - y1) * (y2 - y1)
    ensures var dx, dy := x2 - x1, y2 - y1;
      var overlap := r1 + r2 - d;
      var ox, oy := OverlapShare(overlap, dx, d), OverlapShare(overlap, dy, d);
      var k := (r1 + r2) / d;
      && (x2 + ox) - (x1 - ox) == k * dx
      && (y2 + oy) - (y1 - oy) == k * dy
      && Speed2((x2 + ox) - (x1 - ox), (y2 + oy) - (y1 - oy)) == (r1 + r2) * (r1 + r2)
  {
    var dx, dy := x2 - x1, y2 - y1;
    PushAxis(dx, d, r1 + r2);
    PushAxis(dy, d, r1 + r2);
    ScaledLength(dx, dy, d, r1 + r2);
  }

  /** The overlap correction keeps the midpoint of the centres, moves them
      along the line of centres, and does not touch the velocities. */
  lemma PushApartMoves(b1: Body, b2: Body, sqrt: real -> real)
    requires IsSqrt(sqrt) && Distance(b1, b2, sqrt) > 0.0
    ensures var (c1, c2) := PushApart(b1, b2, sqrt);
      var k := (b1.radius + b2.radius) / Distance(b1, b2, sqrt);
      && c1.x + c2.x == b1.x + b2.x && c1.y + c2.y == b1.y + b2.y
      && c2.x - c1.x == k * (b2.x - b1.x) && c2.y - c1.y == k * (b2.y - b1.y)
      && c1.vx == b1.vx && c1.vy == b1.vy && c2.vx == b2.vx && c2.vy == b2.vy
      && c1.mass == b1.mass && c2.mass == b2.mass && c1.radius == b1.radius && c2.radius == b2.radius
  {
    var d := Distance(b1, b2, sqrt);
    var dx, dy := b2.x - b1.x, b2.y - b1.y;
    var overlap := b1.radius + b2.radius - d;
    var ox, oy := OverlapShare(overlap, dx, d), OverlapShare(overlap, dy, d);
    HypotSpec(sqrt, dx, dy);
    PushedOffset(b1.x, b1.y, b2.x, b2.y, b1.radius, b2.radius, d);
    assert PushApart(b1, b2, sqrt) == (b1.(x := b1.x - ox, y := b1.y - oy), b2.(x := b2.x + ox, y := b2.y + oy));
  }

  /** After the overlap correction the centres are exactly r1 + r2 apart. */
  lemma PushApartTouches(b1: Body, b2: Body, sqrt: real -> real)
    requires IsSqrt(sqrt) && Distance(b1, b2, sqrt) > 0.0 && b1.radius + b2.radius > 0.0
    ensures var (c1, c2) := PushApart(b1, b2, sqrt);
      Distance(c1, c2, sqrt) == b1.radius + b2.radius
  {
    var d := Distance(b1, b2, sqrt);
    var dx, dy := b2.x - b1.x, b2.y - b1.y;
    var minD := b1.radius + b2.radius;
    var k := minD / d;
    HypotSpec(sqrt, dx, dy);
    PushApartMoves(b1, b2, sqrt);
    ScaledLength(dx, dy, d, minD);
    RootOfSquare(sqrt, minD);
    var (c1, c2) := PushApart(b1, b2, sqrt);
    var ex, ey := c2.x - c1.x, c2.y - c1.y;
    assert ex == k * dx && ey == k * dy;
    assert Speed2(ex, ey) == minD * minD;
  }

  /** A contact keeps both components of the total momentum, the total
      kinetic energy, the masses and radii, and leaves the centres exactly
      touching. */
  lemma ContactConserves(o1: Body, o2: Body, sqrt: real -> real)
    requires IsSqrt(sqrt) && Distance(o1, o2, sqrt) > 0.0
    requires o1.mass > 0.0 && o2.mass > 0.0 && o1.radius > 0.0 && o2.radius > 0.0
    ensures var (r1, r2) := Contact(o1, o2, sqrt);
      && Weighted(r1.mass, r1.vx, r2.mass, r2.vx) == Weighted(o1.mass, o1.vx, o2.mass, o2.vx)
      && Weighted(r1.mass, r1.vy, r2.mass, r2.vy) == Weighted(o1.mass, o1.vy, o2.mass, o2.vy)
      && Energy2(r1) + Energy2(r2) == Energy2(o1) + Energy2(o2)
      && Distance(r1, r2, sqrt) == o1.radius + o2.radius
      && r1.mass == o1.mass && r2.mass == o2.mass && r1.radius == o1.radius && r2.radius == o2.radius
  {
    PushApartMoves(o1, o2, sqrt);
    PushApartTouches(o1, o2, sqrt);
    var (p1, p2) := PushApart(o1, o2, sqrt);
    NormalIsUnit(p1, p2, sqrt);
    var n := CollisionNormal(p1, p2, sqrt);
    ResolveConservesMomentum(p1, p2, n.0, n.1);
    ResolveConservesEnergy(p1, p2, n.0, n.1);
    var (r1, r2) := Resolve(p1, p2, n.0, n.1);
    assert Energy2(p1) == Energy2(o1) && Energy2(p2) == Energy2(o2);
    assert Distance(r1, r2, sqrt) == Distance(p1, p2, sqrt);
  }

  /** When the guard fires, the frame's collision keeps both components of
      the total momentum and the total kinetic energy, leaves the centres
      exactly touching, marks the collision, and records a collision point. */
  lemma CollideConserves(sc: Scene, sqrt: real -> real)
    requires Resolvable(sc.objects, sc.hasCollided, sqrt) && IsSqrt(sqrt)
    requires Fires(sc.objects, sc.hasCollided, sqrt)
    ensures var r := Collide(sc, sqrt);
      var o, q := sc.objects, r.objects;
      && q[0].mass * q[0].vx + q[1].mass * q[1].vx == o[0].mass * o[0].vx + o[1].mass * o[1].vx
      && q[0].mass * q[0].vy + q[1].mass * q[1].vy == o[0].mass * o[0].vy + o[1].mass * o[1].vy
      && Energy2(q[0]) + Energy2(q[1]) == Energy2(o[0]) + Energy2(o[1])
      && Distance(q[0], q[1], sqrt) == o[0].radius + o[1].radius
      && r.hasCollided && r.trajectories[|r.trajectories| - 1].isCollision
  {
    ContactConserves(sc.objects[0], sc.objects[1], sqrt);
  }

  /** checkBoundaryCollision reports a contact exactly when one of the four
      walls was crossed; without contact the disc is untouched; in an arena
      at least one diameter wide and high every crossed axis ends against its
      wall with that velocity component negated, and an axis not crossed is
      kept. */
  lemma BoundsCases(b: Body, width: real, height: real)
    ensures var (c, hit) := Bounds(b, width, height);
      var lo, hiX, hiY := BoundaryPadding, width - BoundaryPadding, height - BoundaryPadding;
      && (hit <==> b.x - b.radius < lo || hiX < b.x + b.radius || b.y - b.radius < lo || hiY < b.y + b.radius)
      && (!hit ==> c == b)
      && c.mass == b.mass && c.radius == b.radius
      && (2.0 * b.radius <= hiX - lo && b.x - b.radius < lo ==> c.x == lo + b.radius && c.vx == -b.vx)
      && (2.0 * b.radius <= hiX - lo && hiX < b.x + b.radius ==> c.x == hiX - b.radius && c.vx == -b.vx)
      && (2.0 * b.radius <= hiY - lo && b.y - b.radius < lo ==> c.y == lo + b.radius && c.vy == -b.vy)
      && (2.0 * b.radius <= hiY - lo && hiY < b.y + b.radius ==> c.y == hiY - b.radius && c.vy == -b.vy)
      && (lo <= b.x - b.radius && b.x + b.radius <= hiX ==> c.x == b.x && c.vx == b.vx)
      && (lo <= b.y - b.radius && b.y + b.radius <= hiY ==> c.y == b.y && c.vy == b.vy)
  {
    WallBounceCases(b.x, b.vx, b.radius, BoundaryPadding, width - BoundaryPadding, 1.0);
    WallBounceCases(b.y, b.vy, b.radius, BoundaryPadding, height - BoundaryPadding, 1.0);
  }

  /** The magnitude calculateMomentum reports is the length of (px, py). */
  lemma MomentumMagnitude(b: Body, sqrt: real -> real)
    requires IsSqrt(sqrt)
    ensures var p := CalculateMomentum(b, sqrt);
      && p.px == b.mass * b.vx && p.py == b.mass * b.vy
      && p.magnitude >= 0.0 && p.magnitude * p.magnitude == p.px * p.px + p.py * p.py
  {
    HypotSpec(sqrt, b.mass * b.vx, b.mass * b.vy);
  }

  /** A launch direction given by a unit (cos, sin) pair gives each disc
      exactly its input speed. */
  lemma InitialSpeeds(mass1: real, mass2: real, speed1: real, cos1: real, sin1: real,
                      speed2: real, cos2: real, sin2: real, width: real, height: real)
    requires cos1 * cos1 + sin1 * sin1 == 1.0 && cos2 * cos2 + sin2 * sin2 == 1.0
    ensures var s := Initial(mass1, mass2, speed1, cos1, sin1, speed2, cos2, sin2, width, height);
      && s[0].vx * s[0].vx + s[0].vy * s[0].vy == speed1 * speed1
      && s[1].vx * s[1].vx + s[1].vy * s[1].vy == speed2 * speed2
      && s[1].x - s[0].x == 200.0 && s[0].y == s[1].y
  {
    var s := Initial(mass1, mass2, speed1, cos1, sin1, speed2, cos2, sin2, width, height);
    assert s[0].vx * s[0].vx + s[0].vy * s[0].vy == speed1 * speed1 * (cos1 * cos1 + sin1 * sin1);
    assert s[1].vx * s[1].vx + s[1].vy * s[1].vy == speed2 * speed2 * (cos2 * cos2 + sin2 * sin2);
  }

  /** A frame keeps the discs well formed and the trajectory list within its
      cap, and it sets the collided flag exactly when it was already set or
      the guard fires on the drifted discs. */
  lemma TickInvariant(sc: Scene, isRunning: bool, width: real, height: real, sqrt: real -> real)
    requires WellFormed(sc.objects) && IsSqrt(sqrt)
    requires Resolvable(DriftAll(sc.objects), sc.hasCollided, sqrt)
    ensures var r := Tick(sc, isRunning, width, height, sqrt);
      && WellFormed(r.objects)
      && (|sc.trajectories| <= TrajectoryCap ==> |r.trajectories| <= TrajectoryCap)
      && (r.hasCollided <==> sc.hasCollided || Fires(DriftAll(sc.objects), sc.hasCollided, sqrt))
  {
    if |sc.trajectories| <= TrajectoryCap {
      var t0 := FirstPoint(sc, isRunning);
      BoundedPushSpec(sc.trajectories, TrajectoryPoint(sc.objects[0].x, sc.objects[0].y, sc.objects[1].x, sc.objects[1].y, sc.hasCollided), TrajectoryCap);
      var c := Collide(Scene(DriftAll(sc.objects), t0, sc.hasCollided), sqrt);
      if Fires(DriftAll(sc.objects), sc.hasCollided, sqrt) {
        BoundedPushSpec(t0, TrajectoryPoint(c.objects[0].x, c.objects[0].y, c.objects[1].x, c.objects[1].y, true), TrajectoryCap);
      }
      var (b0, hit0) := Bounds(c.objects[0], width, height);
      var (b1, hit1) := Bounds(c.objects[1], width, height);
      BoundedPushSpec(c.trajectories, TrajectoryPoint(b0.x, b0.y, b1.x, b1.y, c.hasCollided), TrajectoryCap);
    }
  }

  /** A run of frames: each scene is the frame after the one before it. */
  ghost predicate IsRun(run: seq<Scene>, isRunning: bool, width: real, height: real, sqrt: real -> real)
  {
    IsSqrt(sqrt)
    && forall i | 0 <= i < |run| - 1 ::
         && WellFormed(run[i].objects)
         && Resolvable(DriftAll(run[i].objects), run[i].hasCollided, sqrt)
         && run[i + 1] == Tick(run[i], isRunning, width, height, sqrt)
  }

  lemma RunTail(run: seq<Scene>, isRunning: bool, width: real, height: real, sqrt: real -> real)
    requires IsRun(run, isRunning, width, height, sqrt) && |run| > 0
    ensures IsRun(run[1..], isRunning, width, height, sqrt)
  {
  }

  /** The number of frames of a run in which the collision was resolved. */
  function Resolutions(run: seq<Scene>, sqrt: real -> real): nat
  {
    if |run| < 2 || |run[0].objects| != 2 then 0
    else (if Fires(DriftAll(run[0].objects), run[0].hasCollided, sqrt) then 1 else 0) + Resolutions(run[1..], sqrt)
  }

  /** Once the discs have collided, no later frame of the run resolves again. */
  lemma {:induction false} NoResolutionAfterCollision(run: seq<Scene>, isRunning: bool, width: real, height: real,
                                                     sqrt: real -> real)
    requires IsRun(run, isRunning, width, height, sqrt)
    requires |run| > 0 && run[0].hasCollided
    ensures Resolutions(run, sqrt) == 0
    decreases |run|
  {
    if |run| >= 2 {
      TickInvariant(run[0], isRunning, width, height, sqrt);
      RunTail(run, isRunning, width, height, sqrt);
      NoResolutionAfterCollision(run[1..], isRunning, width, height, sqrt);
    }
  }

  /** Between two resets the collision is resolved at most once: resolving
      it sets hasCollided, and only resetObjects clears it. */
  lemma {:induction false} AtMostOneResolution(run: seq<Scene>, isRunning: bool, width: real, height: real,
                                              sqrt: real -> real)
    requires IsRun(run, isRunning, width, height, sqrt)
    ensures Resolutions(run, sqrt) <= 1
    decreases |run|
  {
    if |run| >= 2 {
      TickInvariant(run[0], isRunning, width, height, sqrt);
      RunTail(run, isRunning, width, height, sqrt);
      if Fires(DriftAll(run[0].objects), run[0].hasCollided, sqrt) {
        NoResolutionAfterCollision(run[1..], isRunning, width, height, sqrt);
      } else {
        AtMostOneResolution(run[1..], isRunning, width, height, sqrt);
      }
    }
  }

  // ---------------------------------------------------------------------
  // The animation object

  class Collision2D {
    const width: real
    const height: real
    var isRunning: bool
    var objects: seq<Body>
    var trajectories: seq<TrajectoryPoint>
    var hasCollided: bool

    ghost predicate Valid()
      reads this
    {
      WellFormed(objects) && |trajectories| <= TrajectoryCap
    }

    function State(): Scene
      reads this
    {
      Scene(objects, trajectories, hasCollided)
    }

    constructor (width: real, height: real, mass1: real, mass2: real, speed1: real, cos1: real, sin1: real,
                 speed2: real, cos2: real, sin2: real)
      requires mass1 > 0.0 && mass2 > 0.0
      ensures Valid() && !isRunning
      ensures this.width == width && this.height == height
      ensures State() == Scene(Initial(mass1, mass2, speed1, cos1, sin1, speed2, cos2, sin2, width, height), [], false)
    {
      this.width := width;
      this.height := height;
      isRunning := false;
      objects := [];
      trajectories := [];
      hasCollided := false;
      new;
      ResetObjects(mass1, mass2, speed1, cos1, sin1, speed2, cos2, sin2);
    }

    /** resetObjects: both discs rebuilt from the inputs, no collision, no trajectory. */
    method ResetObjects(mass1: real, mass2: real, speed1: real, cos1: real, sin1: real,
                        speed2: real, cos2: real, sin2: real)
      requires mass1 > 0.0 && mass2 > 0.0
      modifies this
      ensures Valid() && isRunning == old(isRunning)
      ensures State() == Scene(Initial(mass1, mass2, speed1, cos1, sin1, speed2, cos2, sin2, width, height), [], false)
    {
      var vx1, vy1 := speed1 * cos1, speed1 * sin1;
      var vx2, vy2 := speed2 * cos2, speed2 * sin2;
      var radius1 := 10.0 + mass1 * 2.0;
      var radius2 := 10.0 + mass2 * 2.0;
      var centerX, centerY := width / 2.0, height / 2.0;
      objects := [Body(centerX - 100.0, centerY, radius1, mass1, vx1, vy1),
                  Body(centerX + 100.0, centerY, radius2, mass2, vx2, vy2)];
      hasCollided := false;
      trajectories := [];
    }

    /** addTrajectoryPoints: push the two centres, then drop the oldest point
        if the list has grown past the cap. */
    method AddTrajectoryPoints(obj1: Body, obj2: Body)
      requires |trajectories| <= TrajectoryCap
      modifies this
      ensures trajectories == AddPoint(old(trajectories), obj1, obj2, hasCollided)
      ensures |trajectories| <= TrajectoryCap
      ensures objects == old(objects) && hasCollided == old(hasCollided) && isRunning == old(isRunning)
    {
      BoundedPushSpec(trajectories, TrajectoryPoint(obj1.x, obj1.y, obj2.x, obj2.y, hasCollided), TrajectoryCap);
      trajectories := trajectories + [TrajectoryPoint(obj1.x, obj1.y, obj2.x, obj2.y, hasCollided)];
      if |trajectories| > TrajectoryCap {
        trajectories := trajectories[1..];
      }
    }

    /** calculateCollision: resolve along the current line of centres, set
        the collided flag, and record a point. */
    method CalculateCollision(sqrt: real -> real)
      requires Valid() && IsSqrt(sqrt)
      requires Distance(objects[0], objects[1], sqrt) > 0.0
      modifies this
      ensures Valid() && isRunning == old(isRunning) && hasCollided
      ensures var n := CollisionNormal(old(objects[0]), old(objects[1]), sqrt);
        (objects[0], objects[1]) == Resolve(old(objects[0]), old(objects[1]), n.0, n.1)
      ensures trajectories == AddPoint(old(trajectories), objects[0], objects[1], true)
    {
      var obj1, obj2 := objects[0], objects[1];
      var distance := Distance(obj1, obj2, sqrt);
      var nx := (obj2.x - obj1.x) / distance;
      var ny := (obj2.y - obj1.y) / distance;
      var v1n, v1t := NormalPart(obj1.vx, obj1.vy, nx, ny), TangentPart(obj1.vx, obj1.vy, nx, ny);
      var v2n, v2t := NormalPart(obj2.vx, obj2.vy, nx, ny), TangentPart(obj2.vx, obj2.vy, nx, ny);
      var after := ElasticFinal(obj1.mass, obj2.mass, v1n, v2n);
      var w1, w2 := Recompose(after.0, v1t, nx, ny), Recompose(after.1, v2t, nx, ny);
      objects := [obj1.(vx := w1.0, vy := w1.1), obj2.(vx := w2.0, vy := w2.1)];
      hasCollided := true;
      AddTrajectoryPoints(objects[0], objects[1]);
    }

    /** checkCollision: when touching and not yet collided, push the discs
        apart and call calculateCollision. */
    method CheckCollision(sqrt: real -> real)
      requires Valid() && IsSqrt(sqrt) && Resolvable(objects, hasCollided, sqrt)
      modifies this
      ensures Valid() && isRunning == old(isRunning)
      ensures State() == Collide(old(State()), sqrt)
    {
      var obj1, obj2 := objects[0], objects[1];
      var distance := Distance(obj1, obj2, sqrt);
      var minDistance := obj1.radius + obj2.radius;
      if distance <= minDistance && !hasCollided {
        PushApartMoves(obj1, obj2, sqrt);
        PushApartTouches(obj1, obj2, sqrt);
        var (moved1, moved2) := PushApart(obj1, obj2, sqrt);
        objects := [moved1, moved2];
        CalculateCollision(sqrt);
      }
    }

    /** checkBoundaryCollision for one disc: returns the corrected disc and
        whether any wall was touched. */
    method CheckBoundaryCollision(body: Body) returns (moved: Body, collided: bool)
      ensures (moved, collided) == Bounds(body, width, height)
      ensures collided <==> body.x - body.radius < BoundaryPadding || width - BoundaryPadding < body.x + body.radius
                            || body.y - body.radius < BoundaryPadding || height - BoundaryPadding < body.y + body.radius
      ensures !collided ==> moved == body
    {
      BoundsCases(body, width, height);
      moved := body;
      collided := false;
      if moved.x - moved.radius < BoundaryPadding {
        moved := moved.(x := BoundaryPadding + moved.radius, vx := -moved.vx);
        collided := true;
      }
      if moved.x + moved.radius > width - BoundaryPadding {
        moved := moved.(x := width - BoundaryPadding - moved.radius, vx := -moved.vx);
        collided := true;
      }
      if moved.y - moved.radius < BoundaryPadding {
        moved := moved.(y := BoundaryPadding + moved.radius, vy := -moved.vy);
        collided := true;
      }
      if moved.y + moved.radius > height - BoundaryPadding {
        moved := moved.(y := height - BoundaryPadding - moved.radius, vy := -moved.vy);
        collided := true;
      }
    }

    /** The drift loop of update: every disc moves by one Euler step. */
    method DriftObjects()
      requires Valid()
      modifies this
      ensures Valid() && objects == DriftAll(old(objects))
      ensures trajectories == old(trajectories) && hasCollided == old(hasCollided) && isRunning == old(isRunning)
    {
      ghost var before := objects;
      for i := 0 to |objects|
        invariant Valid() && isRunning == old(isRunning) && hasCollided == old(hasCollided)
        invariant trajectories == old(trajectories)
        invariant forall k | 0 <= k < i :: objects[k] == Drift(before[k])
        invariant forall k | i <= k < 2 :: objects[k] == before[k]
      {
        var obj := objects[i];
        obj := obj.(x := obj.x + obj.vx * Scale * TimeStep, y := obj.y + obj.vy * Scale * TimeStep);
        objects := objects[i := obj];
      }
    }

    /** The wall loop of update: checkBoundaryCollision on every disc, then a
        point if any wall was touched. */
    method CheckBoundaries()
      requires Valid()
      modifies this
      ensures Valid() && isRunning == old(isRunning)
      ensures State() == Finish(old(State()), width, height)
    {
      ghost var collided := State();
      var boundaryCollided := false;
      for i := 0 to |objects|
        invariant Valid() && isRunning == old(isRunning)
        invariant trajectories == collided.trajectories && hasCollided == collided.hasCollided
        invariant forall k | 0 <= k < i :: objects[k] == Bounds(collided.objects[k], width, height).0
        invariant forall k | i <= k < 2 :: objects[k] == collided.objects[k]
        invariant boundaryCollided <==> exists k | 0 <= k < i :: Bounds(collided.objects[k], width, height).1
      {
        var obj, hit := CheckBoundaryCollision(objects[i]);
        objects := objects[i := obj];
        if hit {
          boundaryCollided := true;
        }
      }
      if boundaryCollided {
        AddTrajectoryPoints(objects[0], objects[1]);
      }
    }

    /** update: one frame (drawing and scheduling the next frame are not modelled). */
    method Update(sqrt: real -> real)
      requires Valid() && IsSqrt(sqrt)
      requires Resolvable(DriftAll(objects), hasCollided, sqrt)
      modifies this
      ensures Valid() && isRunning == old(isRunning)
      ensures State() == Tick(old(State()), isRunning, width, height, sqrt)
    {
      if isRunning && |trajectories| == 0 {
        AddTrajectoryPoints(objects[0], objects[1]);
      }
      assert trajectories == FirstPoint(old(State()), isRunning);
      DriftObjects();
      CheckCollision(sqrt);
      CheckBoundaries();
    }

    /** start: a stopped animation starts and runs its first frame; a running one pauses. */
    method Start(sqrt: real -> real)
      requires Valid() && IsSqrt(sqrt)
      requires Resolvable(DriftAll(objects), hasCollided, sqrt)
      modifies this
      ensures Valid()
      ensures isRunning == !old(isRunning)
      ensures State() == if old(isRunning) then old(State()) else Tick(old(State()), true, width, height, sqrt)
    {
      if !isRunning {
        isRunning := true;
        Update(sqrt);
      } else {
        isRunning := false;
      }
    }

    /** reset: stop, and rebuild both discs with no collision and no trajectory. */
    method Reset(mass1: real, mass2: real, speed1: real, cos1: real, sin1: real,
                 speed2: real, cos2: real, sin2: real)
      requires mass1 > 0.0 && mass2 > 0.0
      modifies this
      ensures Valid() && !isRunning
      ensures State() == Scene(Initial(mass1, mass2, speed1, cos1, sin1, speed2, cos2, sin2, width, height), [], false)
    {
      isRunning := false;
      ResetObjects(mass1, mass2, speed1, cos1, sin1, speed2, cos2, sin2);
    }
  }
}

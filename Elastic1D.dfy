/** The one-dimensional elastic collision demonstration: two bodies on a
    track between two walls meet once, exchange velocities elastically, and
    bounce off the walls without loss. One call of Update is one animation
    frame. */
module Elastic1D {
  import opened Mechanics

  /** Seconds per frame, pixels per metre, and the gap between canvas edge and wall. */
  const TimeStep: real := 0.05
  const Scale: real := 50.0
  const BoundaryPadding: real := 50.0

  /** One body of the demonstration (its colour and initial values are only drawn). */
  datatype Body = Body(x: real, y: real, radius: real, mass: real, velocity: real, hasCollided: bool)

  function Momentum(b: Body): real
  {
    b.mass * b.velocity
  }

  function Energy(b: Body): real
  {
    b.mass * b.velocity * b.velocity / 2.0
  }

  /** The two bodies as resetObjects creates them from the four input values. */
  function Initial(mass1: real, mass2: real, velocity1: real, velocity2: real,
                   width: real, height: real): seq<Body>
  {
    var (x1, x2) := StartPositions(velocity1, velocity2, width, BoundaryPadding);
    [Body(x1, height / 2.0, 10.0 + mass1 * 3.0, mass1, velocity1, false),
     Body(x2, height / 2.0, 10.0 + mass2 * 3.0, mass2, velocity2, false)]
  }

  /** One Euler step of the position. */
  function Drift(b: Body): Body
  {
    b.(x := b.x + b.velocity * Scale * TimeStep)
  }

  /** calculateCollision: elastic velocities, and both bodies marked as collided. */
  function Resolve(b1: Body, b2: Body): (Body, Body)
    requires b1.mass + b2.mass != 0.0
  {
    var v := ElasticFinal(b1.mass, b2.mass, b1.velocity, b2.velocity);
    (b1.(velocity := v.0, hasCollided := true), b2.(velocity := v.1, hasCollided := true))
  }

  /** Overlap correction: each centre moves away from the other by half the overlap. */
  function PushApart(x1: real, x2: real, minDistance: real): (real, real)
  {
    var overlap := minDistance - Abs(x1 - x2);
    if x1 < x2 then (x1 - overlap / 2.0, x2 + overlap / 2.0)
    else (x1 + overlap / 2.0, x2 - overlap / 2.0)
  }

  /** The guard of checkCollision: touching, and neither body collided yet. */
  predicate Fires(b1: Body, b2: Body)
  {
    Abs(b1.x - b2.x) <= b1.radius + b2.radius && !b1.hasCollided && !b2.hasCollided
  }

  /** The pairwise part of checkCollision. */
  function Encounter(b1: Body, b2: Body): (Body, Body)
    requires b1.mass + b2.mass != 0.0
  {
    if Fires(b1, b2) then
      var x := PushApart(b1.x, b2.x, b1.radius + b2.radius);
      Resolve(b1.(x := x.0), b2.(x := x.1))
    else
      (b1, b2)
  }

  /** The wall part of checkCollision for one body: lossless reflection. */
  function Walls(b: Body, width: real): Body
  {
    var a := WallBounce(b.x, b.velocity, b.radius, BoundaryPadding, width - BoundaryPadding, 1.0);
    b.(x := a.pos, velocity := a.vel)
  }

  /** One frame of update: drift both bodies, then checkCollision. Masses,
      radii and heights never change. */
  function Tick(s: seq<Body>, width: real): (r: seq<Body>)
    requires |s| == 2 && s[0].mass + s[1].mass != 0.0
    ensures |r| == 2
    ensures forall i | 0 <= i < 2 :: r[i].mass == s[i].mass && r[i].radius == s[i].radius && r[i].y == s[i].y
  {
    var e := Encounter(Drift(s[0]), Drift(s[1]));
    [Walls(e.0, width), Walls(e.1, width)]
  }

  /** The number of frames, among the first n from s, in which the collision was resolved. */
  function Resolutions(s: seq<Body>, width: real, n: nat): nat
    requires |s| == 2 && s[0].mass + s[1].mass != 0.0
    decreases n
  {
    if n == 0 then 0
    else (if Fires(Drift(s[0]), Drift(s[1])) then 1 else 0) + Resolutions(Tick(s, width), width, n - 1)
  }

  /** calculateCollision conserves momentum and kinetic energy, exchanges
      the velocities of equal masses, leaves positions and masses alone, and
      sets both collided flags. */
  lemma ResolveConserves(b1: Body, b2: Body)
    requires b1.mass + b2.mass != 0.0
    ensures var (c1, c2) := Resolve(b1, b2);
      && Momentum(c1) + Momentum(c2) == Momentum(b1) + Momentum(b2)
      && Energy(c1) + Energy(c2) == Energy(b1) + Energy(b2)
      && (b1.mass == b2.mass ==> c1.velocity == b2.velocity && c2.velocity == b1.velocity)
      && c1.x == b1.x && c2.x == b2.x && c1.mass == b1.mass && c2.mass == b2.mass
      && c1.hasCollided && c2.hasCollided
  {
    var (c1, c2) := Resolve(b1, b2);
    ElasticConservesMomentum(b1.mass, b2.mass, b1.velocity, b2.velocity);
    ElasticConservesEnergy(b1.mass, b2.mass, b1.velocity, b2.velocity);
    assert Energy(c1) + Energy(c2) == (b1.mass * c1.velocity * c1.velocity + b2.mass * c2.velocity * c2.velocity) / 2.0;
    assert Energy(b1) + Energy(b2) == (b1.mass * b1.velocity * b1.velocity + b2.mass * b2.velocity * b2.velocity) / 2.0;
    if b1.mass == b2.mass {
      ElasticEqualMassesSwap(b1.mass, b1.velocity, b2.velocity);
    }
  }

  /** The overlap correction leaves the sum of the centres unchanged, puts
      them exactly minDistance apart, and keeps their left-to-right order. */
  lemma PushApartSpec(x1: real, x2: real, minDistance: real)
    requires Abs(x1 - x2) <= minDistance
    ensures var (y1, y2) := PushApart(x1, x2, minDistance);
      && y1 + y2 == x1 + x2
      && Abs(y1 - y2) == minDistance
      && (x1 < x2 ==> y1 < y2)
      && (x2 <= x1 ==> y2 <= y1)
  {
  }

  /** Once either body has collided, no later frame resolves a collision. */
  lemma {:induction false} NoResolutionAfterCollision(s: seq<Body>, width: real, n: nat)
    requires |s| == 2 && s[0].mass + s[1].mass != 0.0
    requires s[0].hasCollided || s[1].hasCollided
    ensures Resolutions(s, width, n) == 0
    decreases n
  {
    if n > 0 {
      var t := Tick(s, width);
      assert t[0].hasCollided || t[1].hasCollided;
      NoResolutionAfterCollision(t, width, n - 1);
    }
  }

  /** At most one collision is resolved in any run of frames: resolving it
      sets both flags, and only a reset clears them. */
  lemma {:induction false} AtMostOneResolution(s: seq<Body>, width: real, n: nat)
    requires |s| == 2 && s[0].mass + s[1].mass != 0.0
    ensures Resolutions(s, width, n) <= 1
    decreases n
  {
    if n > 0 {
      var t := Tick(s, width);
      if Fires(Drift(s[0]), Drift(s[1])) {
        assert t[0].hasCollided && t[1].hasCollided;
        NoResolutionAfterCollision(t, width, n - 1);
      } else {
        AtMostOneResolution(t, width, n - 1);
      }
    }
  }

  /** The animation object: the two bodies, the run flag, and the canvas
      size it was built for. */
  class ElasticCollision1D {
    const width: real
    const height: real
    var isRunning: bool
    var objects: seq<Body>

    ghost predicate Valid()
      reads this
    {
      |objects| == 2 && objects[0].mass > 0.0 && objects[1].mass > 0.0
    }

    constructor (width: real, height: real, mass1: real, mass2: real, velocity1: real, velocity2: real)
      requires mass1 > 0.0 && mass2 > 0.0
      ensures Valid() && !isRunning
      ensures this.width == width && this.height == height
      ensures objects == Initial(mass1, mass2, velocity1, velocity2, width, height)
    {
      this.width := width;
      this.height := height;
      isRunning := false;
      objects := [];
      new;
      ResetObjects(mass1, mass2, velocity1, velocity2);
    }

    /** resetObjects: sizes from masses, positions from velocities, flags clear. */
    method ResetObjects(mass1: real, mass2: real, velocity1: real, velocity2: real)
      requires mass1 > 0.0 && mass2 > 0.0
      modifies this
      ensures Valid() && isRunning == old(isRunning)
      ensures objects == Initial(mass1, mass2, velocity1, velocity2, width, height)
    {
      var radius1 := 10.0 + mass1 * 3.0;
      var radius2 := 10.0 + mass2 * 3.0;
      var centerY := height / 2.0;
      var x1, x2;
      if velocity1 > 0.0 && velocity2 < 0.0 {
        x1, x2 := width * 0.25, width * 0.75;
      } else if velocity1 > velocity2 {
        x1, x2 := BoundaryPadding, width / 2.0;
      } else {
        x1, x2 := width / 3.0, width * 2.0 / 3.0;
      }
      objects := [Body(x1, centerY, radius1, mass1, velocity1, false),
                  Body(x2, centerY, radius2, mass2, velocity2, false)];
    }

    method CalculateCollision()
      requires Valid()
      modifies this
      ensures Valid() && isRunning == old(isRunning)
      ensures (objects[0], objects[1]) == Resolve(old(objects[0]), old(objects[1]))
    {
      var obj1, obj2 := objects[0], objects[1];
      var v1Final := ((obj1.mass - obj2.mass) * obj1.velocity + 2.0 * obj2.mass * obj2.velocity) / (obj1.mass + obj2.mass);
      var v2Final := ((obj2.mass - obj1.mass) * obj2.velocity + 2.0 * obj1.mass * obj1.velocity) / (obj1.mass + obj2.mass);
      assert v1Final == ElasticFinal(obj1.mass, obj2.mass, obj1.velocity, obj2.velocity).0;
      assert v2Final == ElasticFinal(obj1.mass, obj2.mass, obj1.velocity, obj2.velocity).1;
      obj1 := obj1.(velocity := v1Final);
      obj2 := obj2.(velocity := v2Final);
      obj1 := obj1.(hasCollided := true);
      obj2 := obj2.(hasCollided := true);
      objects := [obj1, obj2];
    }

    /** checkCollision: the guarded push-apart and resolution, then both walls for each body. */
    method CheckCollision()
      requires Valid()
      modifies this
      ensures Valid() && isRunning == old(isRunning)
      ensures var e := Encounter(old(objects[0]), old(objects[1]));
        objects == [Walls(e.0, width), Walls(e.1, width)]
    {
      var obj1, obj2 := objects[0], objects[1];
      var distance := Abs(obj1.x - obj2.x);
      var minDistance := obj1.radius + obj2.radius;
      if distance <= minDistance && !obj1.hasCollided && !obj2.hasCollided {
        var overlap := minDistance - distance;
        if obj1.x < obj2.x {
          obj1 := obj1.(x := obj1.x - overlap / 2.0);
          obj2 := obj2.(x := obj2.x + overlap / 2.0);
        } else {
          obj1 := obj1.(x := obj1.x + overlap / 2.0);
          obj2 := obj2.(x := obj2.x - overlap / 2.0);
        }
        assert (obj1.x, obj2.x) == PushApart(objects[0].x, objects[1].x, minDistance);
        objects := [obj1, obj2];
        CalculateCollision();
      }
      assert (objects[0], objects[1]) == Encounter(old(objects[0]), old(objects[1]));
      ghost var checked := objects;
      for i := 0 to |objects|
        invariant |objects| == 2 && isRunning == old(isRunning)
        invariant forall k | 0 <= k < i :: objects[k] == Walls(checked[k], width)
        invariant forall k | i <= k < 2 :: objects[k] == checked[k]
      {
        var obj := objects[i];
        if obj.x - obj.radius < BoundaryPadding {
          obj := obj.(x := BoundaryPadding + obj.radius, velocity := -obj.velocity);
        }
        if obj.x + obj.radius > width - BoundaryPadding {
          obj := obj.(x := width - BoundaryPadding - obj.radius, velocity := -obj.velocity);
        }
        assert obj == Walls(checked[i], width);
        objects := objects[i := obj];
      }
    }

    /** update: one frame (drawing and scheduling the next frame are not modelled). */
    method Update()
      requires Valid()
      modifies this
      ensures Valid() && isRunning == old(isRunning)
      ensures objects == Tick(old(objects), width)
    {
      ghost var before := objects;
      for i := 0 to |objects|
        invariant |objects| == 2 && isRunning == old(isRunning)
        invariant forall k | 0 <= k < i :: objects[k] == Drift(before[k])
        invariant forall k | i <= k < 2 :: objects[k] == before[k]
      {
        var obj := objects[i];
        obj := obj.(x := obj.x + obj.velocity * Scale * TimeStep);
        objects := objects[i := obj];
      }
      CheckCollision();
    }

    /** start: a stopped animation starts and runs its first frame; a running one pauses. */
    method Start()
      requires Valid()
      modifies this
      ensures Valid()
      ensures isRunning == !old(isRunning)
      ensures objects == if old(isRunning) then old(objects) else Tick(old(objects), width)
    {
      if !isRunning {
        isRunning := true;
        Update();
      } else {
        isRunning := false;
      }
    }

    /** reset: stop, rebuild both bodies from the inputs, and clear the collided flags. */
    method Reset(mass1: real, mass2: real, velocity1: real, velocity2: real)
      requires mass1 > 0.0 && mass2 > 0.0
      modifies this
      ensures Valid() && !isRunning
      ensures objects == Initial(mass1, mass2, velocity1, velocity2, width, height)
      ensures !objects[0].hasCollided && !objects[1].hasCollided
    {
      isRunning := false;
      ResetObjects(mass1, mass2, velocity1, velocity2);
      ghost var built := objects;
      for i := 0 to |objects|
        invariant |objects| == 2 && !isRunning
        invariant forall k | 0 <= k < i :: objects[k] == built[k].(hasCollided := false)
        invariant forall k | i <= k < 2 :: objects[k] == built[k]
      {
        objects := objects[i := objects[i].(hasCollided := false)];
      }
    }
  }
}

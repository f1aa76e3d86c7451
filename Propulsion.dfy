/** The rocket demonstration: a rocket burns propellant at a fixed rate,
    each burn ejecting three exhaust particles that carry the burnt mass; the
    thrust lasts while propellant remains, and gravity pulls throughout. The
    host's cos, sin and atan2, the constant pi and the random draws for the
    exhaust's jitter are inputs. */
module Propulsion {
  import opened Mechanics

  const TimeStep: real := 0.05
  const Scale: real := 20.0
  const Gravity: real := 9.8
  /** Particles ejected by one burn. */
  const ParticleCount: nat := 3
  /** A particle's lifespan, in seconds. */
  const Lifespan: real := 1.0
  const TrailCap: nat := 100
  /** The trail grows only when its length is a multiple of this. */
  const TrailEvery: int := 5

  datatype TrailPoint = TrailPoint(x: real, y: real, velocity: real)

  datatype Rocket = Rocket(x: real, y: real, width: real, height: real,
                           dryMass: real, propellantMass: real, exhaustVelocity: real, burnRate: real,
                           velocity: real, acceleration: real, isLaunched: bool, trail: seq<TrailPoint>)

  /** An exhaust particle: its speed along its heading angle, the mass it
      carries, and the seconds it has left. */
  datatype Particle = Particle(x: real, y: real, radius: real, velocity: real, angle: real,
                               mass: real, lifespan: real)

  /** What the animation holds between frames. */
  datatype Flight = Flight(rocket: Rocket, propellantUsed: real, particles: seq<Particle>)

  /** The random draws of one burn: one for the speed variation, one for
      the angle variation, and for each particle one each for its x offset,
      its y offset and its radius. */
  datatype Puff = Puff(velocityDraw: real, angleDraw: real, spots: seq<(real, real, real)>)

  predicate IsDraw(r: real)
  {
    0.0 <= r < 1.0
  }

  predicate PuffOk(puff: Puff)
  {
    && ParticleCount <= |puff.spots|
    && IsDraw(puff.velocityDraw) && IsDraw(puff.angleDraw)
    && forall i | 0 <= i < |puff.spots| :: IsDraw(puff.spots[i].0) && IsDraw(puff.spots[i].1) && IsDraw(puff.spots[i].2)
  }

  /** The invariant the animation keeps: a positive dry mass, a non-negative
      burn rate, a used amount of propellant between zero and the load, and
      a trail within its cap. */
  predicate Valid(f: Flight)
  {
    && f.rocket.dryMass > 0.0 && f.rocket.burnRate >= 0.0
    && 0.0 <= f.propellantUsed <= f.rocket.propellantMass
    && |f.rocket.trail| <= TrailCap
  }

  /** The mass of the rocket with the propellant still on board. */
  function CurrentMass(f: Flight): real
  {
    f.rocket.dryMass + f.rocket.propellantMass - f.propellantUsed
  }

  /** resetSimulation: the rocket on the pad at rest, nothing burnt, no particles. */
  function Launchpad(width: real, height: real, dryMass: real, propellantMass: real,
                     exhaustVelocity: real, burnRate: real): Flight
  {
    Flight(Rocket(width / 2.0, height - 100.0, 40.0, 80.0, dryMass, propellantMass, exhaustVelocity, burnRate,
                  0.0, 0.0, false, []), 0.0, [])
  }

  // ---------------------------------------------------------------------
  // addExhaustParticle

  /** One ejected particle, at the bottom of the rocket with the jitter of
      the draws, heading down (pi / 2) with the angle variation, at the
      exhaust speed opposed to the rocket's with the speed variation, and
      carrying a third of the burnt mass. */
  function Spawn(r: Rocket, burned: real, puff: Puff, pi: real, i: nat): Particle
    requires i < |puff.spots|
  {
    var exhaustX := r.x;
    var exhaustY := r.y + r.height / 2.0;
    var velocityVariation := (puff.velocityDraw - 0.5) * 2.0;
    var angleVariation := (puff.angleDraw - 0.5) * 0.5;
    var spot := puff.spots[i];
    Particle(exhaustX + (spot.0 - 0.5) * 10.0, exhaustY + (spot.1 - 0.5) * 5.0, 3.0 + spot.2 * 3.0,
             -r.exhaustVelocity + velocityVariation, pi / 2.0 + angleVariation,
             burned / ParticleCount as real, Lifespan)
  }

  /** The first k particles of a burn, in the order they are pushed. */
  function Spawned(r: Rocket, burned: real, puff: Puff, pi: real, k: nat): (s: seq<Particle>)
    requires k <= |puff.spots|
    ensures |s| == k
  {
    if k == 0 then [] else Spawned(r, burned, puff, pi, k - 1) + [Spawn(r, burned, puff, pi, k - 1)]
  }

  /** The propellant used after a burn of the given amount: the sum, but no
      more than the load. */
  function Clamped(used: real, burned: real, load: real): real
  {
    var u := used + burned;
    if u > load then load else u
  }

  /** addExhaustParticle: while propellant remains, a frame's worth is
      burnt (clamped to the load) and three particles are ejected; with the
      tank empty nothing happens. */
  function Exhaust(f: Flight, puff: Puff, pi: real): Flight
    requires PuffOk(puff)
  {
    var burned := f.rocket.burnRate * TimeStep;
    if f.propellantUsed < f.rocket.propellantMass then
      f.(propellantUsed := Clamped(f.propellantUsed, burned, f.rocket.propellantMass),
         particles := f.particles + Spawned(f.rocket, burned, puff, pi, ParticleCount))
    else f
  }

  lemma {:induction false} SpawnedShape(r: Rocket, burned: real, puff: Puff, pi: real, k: nat)
    requires k <= |puff.spots|
    ensures forall i | 0 <= i < k :: Spawned(r, burned, puff, pi, k)[i] == Spawn(r, burned, puff, pi, i)
    decreases k
  {
    if k > 0 {
      SpawnedShape(r, burned, puff, pi, k - 1);
    }
  }

  /** A burn keeps the propellant invariant and never gives propellant
      back; it ejects exactly three particles exactly when propellant
      remained, each carrying a third of burnRate * dt (the amount before
      clamping), living one second, with a radius in [3, 6) and a speed
      within 1 of the exhaust speed opposed to the rocket. */
  lemma ExhaustSpec(f: Flight, puff: Puff, pi: real)
    requires Valid(f) && PuffOk(puff)
    ensures var g := Exhaust(f, puff, pi);
      var burned := f.rocket.burnRate * TimeStep;
      && Valid(g) && g.rocket == f.rocket
      && f.propellantUsed <= g.propellantUsed
      && (f.propellantUsed < f.rocket.propellantMass ==>
            && |g.particles| == |f.particles| + 3 && g.particles[..|f.particles|] == f.particles
            && (g.propellantUsed == f.propellantUsed + burned || g.propellantUsed == f.rocket.propellantMass)
            && forall i | |f.particles| <= i < |g.particles| ::
                 && g.particles[i].mass == burned / 3.0 && g.particles[i].lifespan == 1.0
                 && 3.0 <= g.particles[i].radius < 6.0
                 && -f.rocket.exhaustVelocity - 1.0 <= g.particles[i].velocity < -f.rocket.exhaustVelocity + 1.0)
      && (f.rocket.propellantMass <= f.propellantUsed ==> g == f)
  {
    var burned := f.rocket.burnRate * TimeStep;
    if f.propellantUsed < f.rocket.propellantMass {
      var g := Exhaust(f, puff, pi);
      var ejected := Spawned(f.rocket, burned, puff, pi, ParticleCount);
      SpawnedShape(f.rocket, burned, puff, pi, ParticleCount);
      assert g.particles == f.particles + ejected;
      assert g.particles[..|f.particles|] == f.particles;
      forall i | |f.particles| <= i < |g.particles|
        ensures && g.particles[i].mass == burned / 3.0 && g.particles[i].lifespan == 1.0
                && 3.0 <= g.particles[i].radius < 6.0
                && -f.rocket.exhaustVelocity - 1.0 <= g.particles[i].velocity < -f.rocket.exhaustVelocity + 1.0
      {
        assert g.particles[i] == ejected[i - |f.particles|];
      }
      assert 0.0 <= burned by {
        if f.rocket.burnRate > 0.0 {
          ProductPositive(f.rocket.burnRate, TimeStep);
        }
      }
    }
  }

  // ---------------------------------------------------------------------
  // updateRocket

  /** The thrust: burnRate * exhaustVelocity while propellant remains, none afterwards. */
  function Thrust(f: Flight): real
  {
    if f.propellantUsed < f.rocket.propellantMass then f.rocket.burnRate * f.rocket.exhaustVelocity else 0.0
  }

  /** updateRocket: launch, accelerate by thrust over the current mass less
      gravity, integrate velocity then height (screen y grows downwards), and
      add a trail point when the trail's length is a multiple of five. */
  function Fly(f: Flight): Flight
    requires Valid(f)
  {
    var r := f.rocket;
    var acceleration := Thrust(f) / CurrentMass(f) - Gravity;
    var velocity := r.velocity + acceleration * TimeStep;
    var y := r.y - velocity * TimeStep * Scale;
    var trail := if |r.trail| % TrailEvery == 0 then BoundedPush(r.trail, TrailPoint(r.x, y, velocity), TrailCap)
                 else r.trail;
    f.(rocket := r.(isLaunched := true, acceleration := acceleration, velocity := velocity, y := y, trail := trail))
  }

  lemma QuotientAbove(p: real, m: real, g: real)
    requires m > 0.0 && p > g * m
    ensures p / m > g
  {
    var q := p / m;
    assert q * m == p;
    if q <= g {
      ProductPositive(g - q, m);
    }
  }

  /** The current mass never drops below the dry mass. With fuel left the
      acceleration is thrust over mass less gravity, and it is upwards
      exactly when the thrust beats the weight; with the tank empty the
      rocket falls freely at -9.8. Velocity then height are integrated and
      the propellant and the particles are untouched. An empty trail gets
      the new position, a trail of one point is left alone, so a trail that
      starts empty never holds more than one point. */
  lemma FlySpec(f: Flight)
    requires Valid(f)
    ensures var g := Fly(f);
      var m := CurrentMass(f);
      && Valid(g) && g.propellantUsed == f.propellantUsed && g.particles == f.particles
      && m >= f.rocket.dryMass && g.rocket.isLaunched
      && (f.propellantUsed < f.rocket.propellantMass ==>
            g.rocket.acceleration == f.rocket.burnRate * f.rocket.exhaustVelocity / m - Gravity)
      && (f.propellantUsed < f.rocket.propellantMass && f.rocket.burnRate * f.rocket.exhaustVelocity > Gravity * m ==>
            g.rocket.acceleration > 0.0)
      && (f.rocket.propellantMass <= f.propellantUsed ==> g.rocket.acceleration == -9.8)
      && g.rocket.velocity == f.rocket.velocity + g.rocket.acceleration * TimeStep
      && g.rocket.y == f.rocket.y - g.rocket.velocity * TimeStep * Scale
      && (|f.rocket.trail| == 0 ==> g.rocket.trail == [TrailPoint(f.rocket.x, g.rocket.y, g.rocket.velocity)])
      && (|f.rocket.trail| == 1 ==> g.rocket.trail == f.rocket.trail)
      && (|f.rocket.trail| <= 1 ==> |g.rocket.trail| <= 1)
  {
    var m := CurrentMass(f);
    BoundedPushSpec(f.rocket.trail, TrailPoint(f.rocket.x, Fly(f).rocket.y, Fly(f).rocket.velocity), TrailCap);
    if f.propellantUsed < f.rocket.propellantMass && f.rocket.burnRate * f.rocket.exhaustVelocity > Gravity * m {
      QuotientAbove(f.rocket.burnRate * f.rocket.exhaustVelocity, m, Gravity);
    }
  }

  // ---------------------------------------------------------------------
  // updateExhaustParticles

  /** One particle's frame: it moves along its heading, its heading bends
      under gravity, and it ages by one time step. */
  function Advance(p: Particle, cos: real -> real, sin: real -> real, atan2: (real, real) -> real): Particle
  {
    p.(x := p.x + cos(p.angle) * p.velocity * TimeStep * Scale,
       y := p.y + sin(p.angle) * p.velocity * TimeStep * Scale,
       angle := atan2(sin(p.angle) * p.velocity + Gravity * TimeStep, cos(p.angle) * p.velocity),
       lifespan := p.lifespan - TimeStep)
  }

  /** The particles after a frame: each advanced, and those left with no
      lifespan dropped, the rest in their order. */
  function Kept(s: seq<Particle>, cos: real -> real, sin: real -> real, atan2: (real, real) -> real): seq<Particle>
  {
    if |s| == 0 then []
    else
      var p := Advance(s[0], cos, sin, atan2);
      (if p.lifespan <= 0.0 then [] else [p]) + Kept(s[1..], cos, sin, atan2)
  }

  /** The subsequence relation: a is b with some elements left out. */
  predicate SubSeq<T(==)>(a: seq<T>, b: seq<T>)
    decreases |b|
  {
    if |a| == 0 then true
    else if |b| == 0 then false
    else (a[0] == b[0] && SubSeq(a[1..], b[1..])) || SubSeq(a, b[1..])
  }

  function AdvanceAll(s: seq<Particle>, cos: real -> real, sin: real -> real, atan2: (real, real) -> real): seq<Particle>
  {
    seq(|s|, i requires 0 <= i < |s| => Advance(s[i], cos, sin, atan2))
  }

  /** The filter: every kept particle is alive, every advanced particle
      that is alive is kept, and the kept ones are the advanced ones with
      some left out, so their order is kept. */
  lemma {:induction false} KeptSpec(s: seq<Particle>, cos: real -> real, sin: real -> real,
                                     atan2: (real, real) -> real)
    ensures var k := Kept(s, cos, sin, atan2);
      && (forall q | q in k :: q.lifespan > 0.0)
      && (forall i | 0 <= i < |s| :: s[i].lifespan - TimeStep > 0.0 ==> Advance(s[i], cos, sin, atan2) in k)
      && SubSeq(k, AdvanceAll(s, cos, sin, atan2))
      && |k| <= |s|
    decreases |s|
  {
    if |s| > 0 {
      var p := Advance(s[0], cos, sin, atan2);
      var rest := Kept(s[1..], cos, sin, atan2);
      KeptSpec(s[1..], cos, sin, atan2);
      var all := AdvanceAll(s, cos, sin, atan2);
      assert all[1..] == AdvanceAll(s[1..], cos, sin, atan2);
      assert all[0] == p;
      forall i | 0 <= i < |s| && s[i].lifespan - TimeStep > 0.0
        ensures Advance(s[i], cos, sin, atan2) in Kept(s, cos, sin, atan2)
      {
        if i > 0 {
          assert s[i] == s[1..][i - 1];
        }
      }
      if p.lifespan > 0.0 {
        assert Kept(s, cos, sin, atan2) == [p] + rest;
        assert ([p] + rest)[1..] == rest;
      } else {
        assert Kept(s, cos, sin, atan2) == rest;
        SubSeqSkip(rest, all);
      }
    }
  }

  /** A subsequence of the tail is a subsequence of the whole. */
  lemma SubSeqSkip<T>(a: seq<T>, b: seq<T>)
    requires |b| > 0 && SubSeq(a, b[1..])
    ensures SubSeq(a, b)
  {
  }

  /** k successive exhaust updates of the particle list. */
  function KeptFrames(s: seq<Particle>, k: nat, cos: real -> real, sin: real -> real,
                      atan2: (real, real) -> real): seq<Particle>
  {
    if k == 0 then s else Kept(KeptFrames(s, k - 1, cos, sin, atan2), cos, sin, atan2)
  }

  /** A particle advanced k frames, regardless of its lifespan. */
  function AdvanceFrames(p: Particle, k: nat, cos: real -> real, sin: real -> real,
                         atan2: (real, real) -> real): Particle
  {
    if k == 0 then p else Advance(AdvanceFrames(p, k - 1, cos, sin, atan2), cos, sin, atan2)
  }

  /** The exhaust update treats the particles one by one: filtering a
      concatenation filters each part. */
  lemma {:induction false} KeptConcat(a: seq<Particle>, b: seq<Particle>, cos: real -> real, sin: real -> real,
                                       atan2: (real, real) -> real)
    ensures Kept(a + b, cos, sin, atan2) == Kept(a, cos, sin, atan2) + Kept(b, cos, sin, atan2)
    decreases |a|
  {
    if |a| > 0 {
      assert (a + b)[0] == a[0];
      assert (a + b)[1..] == a[1..] + b;
      KeptConcat(a[1..], b, cos, sin, atan2);
    } else {
      assert a + b == b;
    }
  }

  /** So do k successive updates. */
  lemma {:induction false} KeptFramesConcat(a: seq<Particle>, b: seq<Particle>, k: nat, cos: real -> real,
                                             sin: real -> real, atan2: (real, real) -> real)
    ensures KeptFrames(a + b, k, cos, sin, atan2) == KeptFrames(a, k, cos, sin, atan2) + KeptFrames(b, k, cos, sin, atan2)
  {
    if k > 0 {
      KeptFramesConcat(a, b, k - 1, cos, sin, atan2);
      KeptConcat(KeptFrames(a, k - 1, cos, sin, atan2), KeptFrames(b, k - 1, cos, sin, atan2), cos, sin, atan2);
    }
  }

  /** A live particle ages by one time step per frame, and after k frames it
      is still in the list, advanced k times, exactly when its lifespan less
      k time steps is still positive. */
  lemma {:induction false} SingleParticleFrames(p: Particle, k: nat, cos: real -> real, sin: real -> real,
                                                 atan2: (real, real) -> real)
    requires p.lifespan > 0.0
    ensures AdvanceFrames(p, k, cos, sin, atan2).lifespan == p.lifespan - k as real * TimeStep
    ensures KeptFrames([p], k, cos, sin, atan2)
            == if p.lifespan - k as real * TimeStep > 0.0 then [AdvanceFrames(p, k, cos, sin, atan2)] else []
  {
    if k > 0 {
      SingleParticleFrames(p, k - 1, cos, sin, atan2);
      var before := KeptFrames([p], k - 1, cos, sin, atan2);
      var q := AdvanceFrames(p, k - 1, cos, sin, atan2);
      assert (k - 1) as real * TimeStep + TimeStep == k as real * TimeStep;
      if p.lifespan - (k - 1) as real * TimeStep > 0.0 {
        assert before == [q];
        assert before[1..] == [];
        assert Kept(before, cos, sin, atan2)
               == (if Advance(q, cos, sin, atan2).lifespan <= 0.0 then [] else [Advance(q, cos, sin, atan2)]);
      } else {
        assert before == [];
      }
    }
  }

  /** A particle spawned with a full lifespan, wherever it sits among the
      others, is still there after 19 exhaust updates and gone on the 20th:
      the k-th update keeps it, aged k time steps, exactly when k < 20. */
  lemma LifespanFrames(before: seq<Particle>, p: Particle, after: seq<Particle>, k: nat, cos: real -> real,
                       sin: real -> real, atan2: (real, real) -> real)
    requires p.lifespan == Lifespan
    ensures var q := AdvanceFrames(p, k, cos, sin, atan2);
      && q.lifespan == Lifespan - k as real * TimeStep
      && KeptFrames(before + [p] + after, k, cos, sin, atan2)
         == KeptFrames(before, k, cos, sin, atan2) + (if k < 20 then [q] else []) + KeptFrames(after, k, cos, sin, atan2)
  {
    SingleParticleFrames(p, k, cos, sin, atan2);
    KeptFramesConcat(before + [p], after, k, cos, sin, atan2);
    KeptFramesConcat(before, [p], k, cos, sin, atan2);
    assert Lifespan - k as real * TimeStep > 0.0 <==> k < 20;
  }

  // ---------------------------------------------------------------------
  // Momentum

  datatype MomentumReport = MomentumReport(rocket: real, exhaust: real, total: real)

  /** calculateMomentum: the rocket's momentum, the exhaust's (propellant
      used times the exhaust speed, opposed), and their sum. */
  function CalculateMomentum(f: Flight): MomentumReport
  {
    var rocketMomentum := CurrentMass(f) * f.rocket.velocity;
    var exhaustMomentum := f.propellantUsed * -f.rocket.exhaustVelocity;
    MomentumReport(rocketMomentum, exhaustMomentum, rocketMomentum + exhaustMomentum)
  }

  /** The total is the current mass times the velocity less the used
      propellant times the exhaust speed; the exhaust's share never points
      upwards for a non-negative exhaust speed; and on the pad all three
      values are zero. */
  lemma MomentumSpec(f: Flight, width: real, height: real, dryMass: real, propellantMass: real,
                     exhaustVelocity: real, burnRate: real)
    requires Valid(f)
    ensures var p := CalculateMomentum(f);
      && p.total == CurrentMass(f) * f.rocket.velocity - f.propellantUsed * f.rocket.exhaustVelocity
      && (f.rocket.exhaustVelocity >= 0.0 ==> p.exhaust <= 0.0)
    ensures CalculateMomentum(Launchpad(width, height, dryMass, propellantMass, exhaustVelocity, burnRate))
            == MomentumReport(0.0, 0.0, 0.0)
  {
    if f.rocket.exhaustVelocity > 0.0 && f.propellantUsed > 0.0 {
      ProductPositive(f.propellantUsed, f.rocket.exhaustVelocity);
    }
  }

  // ---------------------------------------------------------------------
  // Frames

  /** update: while running, burn, fly, then age the particles; otherwise nothing. */
  function Frame(f: Flight, isRunning: bool, puff: Puff, pi: real,
                 cos: real -> real, sin: real -> real, atan2: (real, real) -> real): Flight
    requires Valid(f) && PuffOk(puff)
  {
    if !isRunning then f
    else
      var burnt := Exhaust(f, puff, pi);
      ExhaustSpec(f, puff, pi);
      var flown := Fly(burnt);
      flown.(particles := Kept(flown.particles, cos, sin, atan2))
  }

  /** A frame keeps the invariant and the load, never decreases the
      propellant used, and keeps a trail of at most one point that short.
      Once the tank is empty (or with a zero load) a frame burns nothing,
      ejects nothing and just lets gravity slow the rocket by 9.8 * dt. */
  lemma FrameSpec(f: Flight, isRunning: bool, puff: Puff, pi: real,
                  cos: real -> real, sin: real -> real, atan2: (real, real) -> real)
    requires Valid(f) && PuffOk(puff)
    ensures var g := Frame(f, isRunning, puff, pi, cos, sin, atan2);
      && Valid(g) && f.propellantUsed <= g.propellantUsed
      && g.rocket.propellantMass == f.rocket.propellantMass
      && (|f.rocket.trail| <= 1 ==> |g.rocket.trail| <= 1)
      && (isRunning && f.rocket.propellantMass <= f.propellantUsed ==>
            && g.propellantUsed == f.propellantUsed
            && g.rocket.velocity == f.rocket.velocity - Gravity * TimeStep
            && g.particles == Kept(f.particles, cos, sin, atan2))
  {
    ExhaustSpec(f, puff, pi);
    var burnt := Exhaust(f, puff, pi);
    FlySpec(burnt);
  }

  /** A run of frames, with the draws of each frame. */
  ghost predicate IsRun(run: seq<Flight>, puffs: seq<Puff>, isRunning: bool, pi: real,
                        cos: real -> real, sin: real -> real, atan2: (real, real) -> real)
  {
    && |puffs| == |run| - 1
    && forall i | 0 <= i < |run| - 1 ::
         Valid(run[i]) && PuffOk(puffs[i]) && run[i + 1] == Frame(run[i], isRunning, puffs[i], pi, cos, sin, atan2)
  }

  lemma RunTail(run: seq<Flight>, puffs: seq<Puff>, isRunning: bool, pi: real,
                cos: real -> real, sin: real -> real, atan2: (real, real) -> real)
    requires IsRun(run, puffs, isRunning, pi, cos, sin, atan2) && |run| > 1
    ensures IsRun(run[1..], puffs[1..], isRunning, pi, cos, sin, atan2)
  {
  }

  /** Along a run from a valid start, every state is valid, the propellant
      used only grows, and no more than the load is ever used. */
  lemma {:induction false} RunKeepsPropellant(run: seq<Flight>, puffs: seq<Puff>, isRunning: bool, pi: real,
                                             cos: real -> real, sin: real -> real, atan2: (real, real) -> real)
    requires IsRun(run, puffs, isRunning, pi, cos, sin, atan2) && |run| > 0 && Valid(run[0])
    ensures Valid(run[|run| - 1])
    ensures run[0].propellantUsed <= run[|run| - 1].propellantUsed <= run[0].rocket.propellantMass
    ensures run[|run| - 1].rocket.propellantMass == run[0].rocket.propellantMass
    decreases |run|
  {
    if |run| > 1 {
      FrameSpec(run[0], isRunning, puffs[0], pi, cos, sin, atan2);
      RunTail(run, puffs, isRunning, pi, cos, sin, atan2);
      RunKeepsPropellant(run[1..], puffs[1..], isRunning, pi, cos, sin, atan2);
    }
  }

  /** The trail grows only when its length is a multiple of 5, so a trail
      that starts with at most one point (the pad's is empty) never holds
      more than one. */
  lemma {:induction false} RunTrailAtMostOne(run: seq<Flight>, puffs: seq<Puff>, isRunning: bool, pi: real,
                                            cos: real -> real, sin: real -> real, atan2: (real, real) -> real)
    requires IsRun(run, puffs, isRunning, pi, cos, sin, atan2) && |run| > 0
    requires |run[0].rocket.trail| <= 1
    ensures forall i | 0 <= i < |run| :: |run[i].rocket.trail| <= 1
    decreases |run|
  {
    if |run| > 1 {
      FrameSpec(run[0], isRunning, puffs[0], pi, cos, sin, atan2);
      RunTail(run, puffs, isRunning, pi, cos, sin, atan2);
      RunTrailAtMostOne(run[1..], puffs[1..], isRunning, pi, cos, sin, atan2);
      assert forall i | 1 <= i < |run| :: run[i] == run[1..][i - 1];
    }
  }

  /** The step of the filter at index i of s. */
  lemma KeptStep(s: seq<Particle>, i: nat, cos: real -> real, sin: real -> real, atan2: (real, real) -> real)
    requires i < |s|
    ensures var p := Advance(s[i], cos, sin, atan2);
      Kept(s[i..], cos, sin, atan2) == (if p.lifespan <= 0.0 then [] else [p]) + Kept(s[i + 1..], cos, sin, atan2)
  {
    assert s[i..][1..] == s[i + 1..];
  }

  lemma SplitAt<T>(s: seq<T>, i: nat, rest: seq<T>)
    requires i < |s|
    ensures s[..i + 1] + rest == s[..i] + [s[i]] + rest
    ensures (s[..i] + [s[i]] + rest)[i] == s[i]
  {
    assert s[..i + 1] == s[..i] + [s[i]];
  }

  lemma ReplaceAt<T>(a: seq<T>, x: T, y: T, b: seq<T>)
    ensures (a + [x] + b)[|a| := y] == a + [y] + b
  {
  }

  lemma RemoveAt<T>(a: seq<T>, x: T, b: seq<T>)
    ensures (a + [x] + b)[..|a|] + (a + [x] + b)[|a| + 1..] == a + b
  {
    assert (a + [x] + b)[..|a|] == a;
    assert (a + [x] + b)[|a| + 1..] == b;
  }

  /** The particle the backward loop of updateExhaustParticles looks at next
      is still untouched. */
  lemma KeptIndex(s: seq<Particle>, i: nat, current: seq<Particle>,
                  cos: real -> real, sin: real -> real, atan2: (real, real) -> real)
    requires i < |s| && current == s[..i + 1] + Kept(s[i + 1..], cos, sin, atan2)
    ensures i < |current| && current[i] == s[i]
  {
    SplitAt(s, i, Kept(s[i + 1..], cos, sin, atan2));
  }

  /** One step of the backward loop: replacing the particle at i by its
      advanced copy, and removing it when it has expired, extends the kept
      suffix by that particle. */
  lemma KeptLoopStep(s: seq<Particle>, i: nat, current: seq<Particle>, p: Particle, next: seq<Particle>,
                     cos: real -> real, sin: real -> real, atan2: (real, real) -> real)
    requires i < |s| && current == s[..i + 1] + Kept(s[i + 1..], cos, sin, atan2)
    requires p == Advance(s[i], cos, sin, atan2)
    requires next == if p.lifespan <= 0.0 then current[i := p][..i] + current[i := p][i + 1..] else current[i := p]
    ensures next == s[..i] + Kept(s[i..], cos, sin, atan2)
  {
    var done := Kept(s[i + 1..], cos, sin, atan2);
    KeptStep(s, i, cos, sin, atan2);
    SplitAt(s, i, done);
    ReplaceAt(s[..i], s[i], p, done);
    if p.lifespan <= 0.0 {
      RemoveAt(s[..i], p, done);
    } else {
      assert s[..i] + [p] + done == s[..i] + ([p] + done);
    }
  }

  class RocketPropulsion {
    const width: real
    const height: real
    var isRunning: bool
    var rocket: Rocket
    var propellantUsed: real
    var exhaustParticles: seq<Particle>

    function State(): Flight
      reads this
    {
      Flight(rocket, propellantUsed, exhaustParticles)
    }

    constructor (width: real, height: real, dryMass: real, propellantMass: real, exhaustVelocity: real, burnRate: real)
      requires dryMass > 0.0 && propellantMass >= 0.0 && burnRate >= 0.0
      ensures Valid(State()) && !isRunning
      ensures this.width == width && this.height == height
      ensures State() == Launchpad(width, height, dryMass, propellantMass, exhaustVelocity, burnRate)
    {
      this.width := width;
      this.height := height;
      isRunning := false;
      propellantUsed := 0.0;
      rocket := Launchpad(width, height, dryMass, propellantMass, exhaustVelocity, burnRate).rocket;
      exhaustParticles := [];
      new;
      ResetSimulation(dryMass, propellantMass, exhaustVelocity, burnRate);
    }

    /** resetSimulation: the rocket back on the pad with the given parameters. */
    method ResetSimulation(dryMass: real, propellantMass: real, exhaustVelocity: real, burnRate: real)
      requires dryMass > 0.0 && propellantMass >= 0.0 && burnRate >= 0.0
      modifies this
      ensures Valid(State()) && isRunning == old(isRunning)
      ensures State() == Launchpad(width, height, dryMass, propellantMass, exhaustVelocity, burnRate)
    {
      propellantUsed := 0.0;
      rocket := Rocket(width / 2.0, height - 100.0, 40.0, 80.0, dryMass, propellantMass, exhaustVelocity, burnRate,
                       0.0, 0.0, false, []);
      exhaustParticles := [];
    }

    /** addExhaustParticle. */
    method AddExhaustParticle(puff: Puff, pi: real)
      requires Valid(State()) && PuffOk(puff)
      modifies this
      ensures Valid(State()) && isRunning == old(isRunning)
      ensures State() == Exhaust(old(State()), puff, pi)
    {
      ExhaustSpec(State(), puff, pi);
      var propellantBurned := rocket.burnRate * TimeStep;
      if propellantUsed < rocket.propellantMass {
        propellantUsed := propellantUsed + propellantBurned;
        if propellantUsed > rocket.propellantMass {
          propellantUsed := rocket.propellantMass;
        }
        var exhaustX := rocket.x;
        var exhaustY := rocket.y + rocket.height / 2.0;
        var velocityVariation := (puff.velocityDraw - 0.5) * 2.0;
        var angleVariation := (puff.angleDraw - 0.5) * 0.5;
        ghost var before := exhaustParticles;
        ghost var used := propellantUsed;
        for i := 0 to ParticleCount
          invariant exhaustParticles == before + Spawned(rocket, propellantBurned, puff, pi, i)
          invariant rocket == old(rocket) && propellantUsed == used && isRunning == old(isRunning)
        {
          var particleMass := propellantBurned / ParticleCount as real;
          var spot := puff.spots[i];
          exhaustParticles := exhaustParticles + [Particle(exhaustX + (spot.0 - 0.5) * 10.0,
                                                           exhaustY + (spot.1 - 0.5) * 5.0,
                                                           3.0 + spot.2 * 3.0,
                                                           -rocket.exhaustVelocity + velocityVariation,
                                                           pi / 2.0 + angleVariation,
                                                           particleMass, Lifespan)];
        }
      }
    }

    /** updateRocket. */
    method UpdateRocket()
      requires Valid(State())
      modifies this
      ensures Valid(State()) && isRunning == old(isRunning)
      ensures State() == Fly(old(State()))
    {
      FlySpec(State());
      if !rocket.isLaunched {
        rocket := rocket.(isLaunched := true);
      }
      var currentMass := rocket.dryMass + rocket.propellantMass - propellantUsed;
      var thrustForce := if propellantUsed < rocket.propellantMass then rocket.burnRate * rocket.exhaustVelocity else 0.0;
      rocket := rocket.(acceleration := thrustForce / currentMass - Gravity);
      rocket := rocket.(velocity := rocket.velocity + rocket.acceleration * TimeStep);
      rocket := rocket.(y := rocket.y - rocket.velocity * TimeStep * Scale);
      if |rocket.trail| % TrailEvery == 0 {
        rocket := rocket.(trail := rocket.trail + [TrailPoint(rocket.x, rocket.y, rocket.velocity)]);
        if |rocket.trail| > TrailCap {
          rocket := rocket.(trail := rocket.trail[1..]);
        }
      }
    }

    /** updateExhaustParticles: from the last particle down, advance it and
        splice it out if its lifespan is used up. */
    method UpdateExhaustParticles(cos: real -> real, sin: real -> real, atan2: (real, real) -> real)
      modifies this
      ensures rocket == old(rocket) && propellantUsed == old(propellantUsed) && isRunning == old(isRunning)
      ensures exhaustParticles == Kept(old(exhaustParticles), cos, sin, atan2)
    {
      ghost var before := exhaustParticles;
      var i := |exhaustParticles|;
      while i > 0
        invariant 0 <= i <= |before|
        invariant exhaustParticles == before[..i] + Kept(before[i..], cos, sin, atan2)
        invariant rocket == old(rocket) && propellantUsed == old(propellantUsed) && isRunning == old(isRunning)
      {
        i := i - 1;
        ghost var current := exhaustParticles;
        KeptIndex(before, i, current, cos, sin, atan2);
        var particle := Advance(exhaustParticles[i], cos, sin, atan2);
        exhaustParticles := exhaustParticles[i := particle];
        if particle.lifespan <= 0.0 {
          exhaustParticles := exhaustParticles[..i] + exhaustParticles[i + 1..];
        }
        KeptLoopStep(before, i, current, particle, exhaustParticles, cos, sin, atan2);
      }
      assert before[0..] == before;
    }

    /** update: one frame (drawing and scheduling the next frame are not modelled). */
    method Update(puff: Puff, pi: real, cos: real -> real, sin: real -> real, atan2: (real, real) -> real)
      requires Valid(State()) && PuffOk(puff)
      modifies this
      ensures Valid(State()) && isRunning == old(isRunning)
      ensures State() == Frame(old(State()), isRunning, puff, pi, cos, sin, atan2)
    {
      if isRunning {
        AddExhaustParticle(puff, pi);
        UpdateRocket();
        ghost var flown := State();
        UpdateExhaustParticles(cos, sin, atan2);
        assert State() == flown.(particles := Kept(flown.particles, cos, sin, atan2));
        FrameSpec(old(State()), isRunning, puff, pi, cos, sin, atan2);
      }
    }

    /** start: a stopped animation starts and runs its first frame; a running one pauses. */
    method Start(puff: Puff, pi: real, cos: real -> real, sin: real -> real, atan2: (real, real) -> real)
      requires Valid(State()) && PuffOk(puff)
      modifies this
      ensures Valid(State())
      ensures isRunning == !old(isRunning)
      ensures State() == if old(isRunning) then old(State()) else Frame(old(State()), true, puff, pi, cos, sin, atan2)
    {
      if !isRunning {
        isRunning := true;
        Update(puff, pi, cos, sin, atan2);
      } else {
        isRunning := false;
      }
    }

    /** reset: stop, and put the rocket back on the pad. */
    method Reset(dryMass: real, propellantMass: real, exhaustVelocity: real, burnRate: real)
      requires dryMass > 0.0 && propellantMass >= 0.0 && burnRate >= 0.0
      modifies this
      ensures Valid(State()) && !isRunning
      ensures State() == Launchpad(width, height, dryMass, propellantMass, exhaustVelocity, burnRate)
    {
      isRunning := false;
      ResetSimulation(dryMass, propellantMass, exhaustVelocity, burnRate);
    }
  }
}

/** The explosion demonstration: a body at rest in the middle of the arena
    breaks into fragments whose masses are a random partition of its own and
    whose momenta cancel; the fragments then fly, bouncing off the walls with
    a loss of a tenth of their speed, while their positions are sampled every
    third frame into a bounded trajectory buffer. The random draws and the
    cosines and sines of the random directions are inputs. */
module Fragmentation {
  import opened Mechanics

  const TimeStep: real := 0.05
  const Scale: real := 15.0
  const BoundaryPadding: real := 20.0
  /** The fraction of its speed a fragment keeps at a wall. */
  const Restitution: real := 0.9
  const TrajectoryCap: nat := 100
  /** Positions are sampled on every frame whose number is a multiple of this. */
  const SampleEvery: int := 3

  datatype Fragment = Fragment(x: real, y: real, radius: real, mass: real, vx: real, vy: real)

  /** One trajectory entry: the time since the explosion and every fragment's centre. */
  datatype Snapshot = Snapshot(time: real, points: seq<(real, real)>)

  /** A value of the host's uniform random generator. */
  predicate IsDraw(r: real)
  {
    0.0 <= r < 1.0
  }

  predicate AllDraws(s: seq<real>)
  {
    forall i | 0 <= i < |s| :: IsDraw(s[i])
  }

  function Sum(s: seq<real>): real
  {
    if |s| == 0 then 0.0 else s[0] + Sum(s[1..])
  }

  // ---------------------------------------------------------------------
  // Mass partition

  /** The share of the remaining mass a fragment other than the last takes
      for the draw r: half the draw, but at least a tenth. */
  function Share(r: real): real
  {
    if 0.1 < r * 0.5 then r * 0.5 else 0.1
  }

  /** The factor a fragment other than the last takes from the unassigned
      mass m, for the draw r. */
  function Portion(r: real, m: real): real
  {
    Share(r) * m
  }

  /** The mass factors with indices i to n - 1, in the order they are made,
      when remaining is still unassigned: each but the last takes its share
      of the unassigned mass, using the draw with its own index; the last
      takes all that remains. */
  function Partition(remaining: real, draws: seq<real>, i: nat, n: nat): (r: seq<real>)
    requires n - 1 <= |draws|
    ensures |r| == if i < n then n - i else 0
    decreases n - i
  {
    if n <= i then []
    else if i == n - 1 then [remaining]
    else
      var factor := Portion(draws[i], remaining);
      [factor] + Partition(remaining - factor, draws, i + 1, n)
  }

  /** The mass still unassigned when the factor with index k is drawn. */
  function Unassigned(factors: seq<real>, total: real, k: nat): real
    requires k <= |factors|
  {
    total - Sum(factors[..k])
  }

  lemma ShareBounds(r: real, m: real)
    requires IsDraw(r) && m > 0.0
    ensures 0.1 * m <= Portion(r, m) < 0.5 * m
  {
    var s := Share(r);
    assert 0.1 <= s < 0.5;
    if s > 0.1 {
      ProductPositive(s - 0.1, m);
    }
    ProductPositive(0.5 - s, m);
  }

  lemma SumCons(x: real, s: seq<real>)
    ensures Sum([x] + s) == x + Sum(s)
  {
    assert ([x] + s)[1..] == s;
  }

  /** The factors add up to exactly the mass partitioned. */
  lemma {:induction false} PartitionSum(remaining: real, draws: seq<real>, i: nat, n: nat)
    requires i < n && n - 1 <= |draws|
    ensures Sum(Partition(remaining, draws, i, n)) == remaining
    decreases n - i
  {
    if i == n - 1 {
      assert Partition(remaining, draws, i, n)[1..] == [];
    } else {
      var factor := Portion(draws[i], remaining);
      PartitionSum(remaining - factor, draws, i + 1, n);
      SumCons(factor, Partition(remaining - factor, draws, i + 1, n));
    }
  }

  /** Every factor is positive, and every factor but the last lies between
      a tenth (inclusive) and a half (exclusive) of the mass still
      unassigned when it is drawn. */
  predicate Shares(p: seq<real>, total: real)
  {
    && (forall k | 0 <= k < |p| :: p[k] > 0.0)
    && (forall k | 0 <= k < |p| - 1 :: 0.1 * Unassigned(p, total, k) <= p[k] < 0.5 * Unassigned(p, total, k))
  }

  /** From a positive mass and draws in [0, 1), the factors are shares in
      the sense above. */
  lemma {:induction false} PartitionShares(remaining: real, draws: seq<real>, i: nat, n: nat)
    requires i < n && n - 1 <= |draws| && AllDraws(draws) && remaining > 0.0
    ensures Shares(Partition(remaining, draws, i, n), remaining)
    decreases n - i
  {
    if i < n - 1 {
      var factor := Portion(draws[i], remaining);
      ShareBounds(draws[i], remaining);
      var q := Partition(remaining - factor, draws, i + 1, n);
      PartitionShares(remaining - factor, draws, i + 1, n);
      PartitionStep(factor, q, remaining);
    } else {
      var p := Partition(remaining, draws, i, n);
      assert p == [remaining];
    }
  }

  /** Prefixing a share of the total keeps the shares property, measured
      against the total. */
  lemma PartitionStep(factor: real, q: seq<real>, remaining: real)
    requires 0.1 * remaining <= factor < 0.5 * remaining
    requires Shares(q, remaining - factor)
    ensures Shares([factor] + q, remaining)
  {
    var p := [factor] + q;
    assert Unassigned(p, remaining, 0) == remaining by {
      assert p[..0] == [];
    }
    forall k | 1 <= k < |p|
      ensures p[k] == q[k - 1] && Unassigned(p, remaining, k) == Unassigned(q, remaining - factor, k - 1)
    {
      assert p[..k] == [factor] + q[..k - 1];
      SumCons(factor, q[..k - 1]);
    }
  }

  // ---------------------------------------------------------------------
  // Fisher-Yates shuffle

  /** The draw r stretched over the positions 0 to i. */
  function Stretch(r: real, i: nat): real
  {
    r * (i + 1) as real
  }

  /** The index j = floor(r * (i + 1)) the shuffle swaps with position i. */
  function Pick(r: real, i: nat): int
  {
    Stretch(r, i).Floor
  }

  lemma StretchRange(r: real, i: nat)
    requires IsDraw(r)
    ensures 0.0 <= Stretch(r, i) < (i + 1) as real
  {
    var n := (i + 1) as real;
    ProductPositive(1.0 - r, n);
    assert (1.0 - r) * n == n - r * n;
    if r > 0.0 {
      ProductPositive(r, n);
    }
  }

  /** A draw picks a position at or below i. */
  lemma PickInRange(r: real, i: nat)
    requires IsDraw(r)
    ensures 0 <= Pick(r, i) <= i
  {
    StretchRange(r, i);
    var f := Pick(r, i);
    assert f as real <= Stretch(r, i) < f as real + 1.0;
  }

  function Swap(s: seq<real>, i: nat, j: nat): seq<real>
    requires i < |s| && j < |s|
  {
    s[i := s[j]][j := s[i]]
  }

  /** The shuffle steps for positions i, i - 1, ..., 1 of s; the step at
      position p swaps it with Pick of the draw with index |s| - 1 - p, so
      the first draw serves the last position. */
  function ShuffleFrom(s: seq<real>, draws: seq<real>, i: nat): (r: seq<real>)
    requires i < |s| && |s| - 1 <= |draws| && AllDraws(draws)
    ensures |r| == |s|
    decreases i
  {
    if i == 0 then s
    else
      var r := draws[|s| - 1 - i];
      PickInRange(r, i);
      ShuffleFrom(Swap(s, i, Pick(r, i)), draws, i - 1)
  }

  /** The whole shuffle, from the last position down to position 1. */
  function Shuffled(s: seq<real>, draws: seq<real>): (r: seq<real>)
    requires |s| - 1 <= |draws| && AllDraws(draws)
    ensures |r| == |s|
  {
    if |s| == 0 then s else ShuffleFrom(s, draws, |s| - 1)
  }

  /** Changing one element changes the sum by the difference. */
  lemma {:induction false} SumUpdate(s: seq<real>, k: nat, v: real)
    requires k < |s|
    ensures Sum(s[k := v]) == Sum(s) - s[k] + v
    decreases |s|
  {
    if k == 0 {
      assert s[k := v][1..] == s[1..];
    } else {
      assert s[k := v][1..] == s[1..][k - 1 := v];
      SumUpdate(s[1..], k - 1, v);
    }
  }

  lemma SwapPermutes(s: seq<real>, i: nat, j: nat)
    requires i < |s| && j < |s|
    ensures multiset(Swap(s, i, j)) == multiset(s) && Sum(Swap(s, i, j)) == Sum(s)
  {
    SumUpdate(s, i, s[j]);
    SumUpdate(s[i := s[j]], j, s[i]);
  }

  /** The shuffle is a permutation: it keeps the multiset of factors, and
      with it their sum. */
  lemma {:induction false} ShuffleFromPermutes(s: seq<real>, draws: seq<real>, i: nat)
    requires i < |s| && |s| - 1 <= |draws| && AllDraws(draws)
    ensures multiset(ShuffleFrom(s, draws, i)) == multiset(s)
    ensures Sum(ShuffleFrom(s, draws, i)) == Sum(s)
    decreases i
  {
    if i > 0 {
      var r := draws[|s| - 1 - i];
      PickInRange(r, i);
      SwapPermutes(s, i, Pick(r, i));
      ShuffleFromPermutes(Swap(s, i, Pick(r, i)), draws, i - 1);
    }
  }

  lemma {:induction false} ShuffledPermutes(s: seq<real>, draws: seq<real>)
    requires |s| - 1 <= |draws| && AllDraws(draws)
    ensures multiset(Shuffled(s, draws)) == multiset(s)
    ensures Sum(Shuffled(s, draws)) == Sum(s)
  {
    if |s| > 0 {
      assert Shuffled(s, draws) == ShuffleFrom(s, draws, |s| - 1);
      ShuffleFromPermutes(s, draws, |s| - 1);
    }
  }

  /** Positive factors stay positive, wherever the shuffle puts them. */
  lemma ShuffledPositive(s: seq<real>, draws: seq<real>)
    requires |s| - 1 <= |draws| && AllDraws(draws)
    requires forall k | 0 <= k < |s| :: s[k] > 0.0
    ensures forall k | 0 <= k < |s| :: Shuffled(s, draws)[k] > 0.0
  {
    ShuffledPermutes(s, draws);
    var t := Shuffled(s, draws);
    forall k | 0 <= k < |s| ensures t[k] > 0.0 {
      assert t[k] in multiset(t);
      assert t[k] in multiset(s);
    }
  }

  // ---------------------------------------------------------------------
  // Fragments

  /** A fragment other than the last: it starts at (x, y), moves along the
      drawn direction (cos, sin) at the speed force / mass, and its radius
      grows with its mass. */
  function Piece(mass: real, dir: (real, real), force: real, x: real, y: real): Fragment
    requires mass != 0.0
  {
    var speed := force / mass;
    Fragment(x, y, 10.0 + mass * 1.5, mass, speed * dir.0, speed * dir.1)
  }

  predicate NonZero(factors: seq<real>, k: nat)
  {
    k <= |factors| && forall i | 0 <= i < k :: factors[i] != 0.0
  }

  /** The first k fragments, in the order they are pushed. */
  function Pieces(factors: seq<real>, dirs: seq<(real, real)>, force: real, x: real, y: real, k: nat): (r: seq<Fragment>)
    requires NonZero(factors, k) && k <= |dirs|
    ensures |r| == k
  {
    if k == 0 then []
    else Pieces(factors, dirs, force, x, y, k - 1) + [Piece(factors[k - 1], dirs[k - 1], force, x, y)]
  }

  /** The x and y components of the total momentum, summed in push order. */
  function MomentumX(fs: seq<Fragment>): real
  {
    if |fs| == 0 then 0.0 else MomentumX(fs[..|fs| - 1]) + fs[|fs| - 1].mass * fs[|fs| - 1].vx
  }

  function MomentumY(fs: seq<Fragment>): real
  {
    if |fs| == 0 then 0.0 else MomentumY(fs[..|fs| - 1]) + fs[|fs| - 1].mass * fs[|fs| - 1].vy
  }

  /** The total mass of the fragments. */
  function TotalMass(fs: seq<Fragment>): real
  {
    if |fs| == 0 then 0.0 else fs[0].mass + TotalMass(fs[1..])
  }

  /** All the fragments: those made from the draws, then a last one whose
      velocity is the momentum accumulated so far, negated and divided by
      its mass. */
  function Explode(factors: seq<real>, dirs: seq<(real, real)>, force: real, x: real, y: real): seq<Fragment>
    requires 1 <= |factors| && NonZero(factors, |factors|) && |factors| - 1 <= |dirs|
  {
    var first := Pieces(factors, dirs, force, x, y, |factors| - 1);
    var lastMass := factors[|factors| - 1];
    first + [Fragment(x, y, 10.0 + lastMass * 1.5, lastMass, -MomentumX(first) / lastMass, -MomentumY(first) / lastMass)]
  }

  /** A drawn fragment carries momentum force * (cos, sin), whatever its mass. */
  lemma PieceMomentum(mass: real, dir: (real, real), force: real, x: real, y: real)
    requires mass != 0.0
    ensures var p := Piece(mass, dir, force, x, y);
      p.mass * p.vx == force * dir.0 && p.mass * p.vy == force * dir.1
  {
    var speed := force / mass;
    assert mass * speed == force;
    MulEq(mass * speed, force, dir.0);
    MulEq(mass * speed, force, dir.1);
  }

  lemma {:induction false} PiecesShape(factors: seq<real>, dirs: seq<(real, real)>, force: real, x: real, y: real, k: nat)
    requires NonZero(factors, k) && k <= |dirs|
    ensures var r := Pieces(factors, dirs, force, x, y, k);
      forall i | 0 <= i < k :: r[i] == Piece(factors[i], dirs[i], force, x, y)
    decreases k
  {
    if k > 0 {
      PiecesShape(factors, dirs, force, x, y, k - 1);
    }
  }

  lemma {:induction false} TotalMassOf(fs: seq<Fragment>, factors: seq<real>)
    requires |fs| == |factors| && forall i | 0 <= i < |fs| :: fs[i].mass == factors[i]
    ensures TotalMass(fs) == Sum(factors)
    decreases |fs|
  {
    if |fs| > 0 {
      TotalMassOf(fs[1..], factors[1..]);
    }
  }

  /** One fragment per factor, all at (x, y), each with its factor as mass
      and radius 10 + 1.5 * mass, and each drawn fragment carrying momentum
      force along its direction. */
  lemma ExplodeShape(factors: seq<real>, dirs: seq<(real, real)>, force: real, x: real, y: real)
    requires 1 <= |factors| && NonZero(factors, |factors|) && |factors| - 1 <= |dirs|
    ensures var r := Explode(factors, dirs, force, x, y);
      && |r| == |factors|
      && (forall i | 0 <= i < |r| ::
            r[i].x == x && r[i].y == y && r[i].mass == factors[i] && r[i].radius == 10.0 + factors[i] * 1.5)
      && (forall i | 0 <= i < |r| - 1 ::
            r[i].mass * r[i].vx == force * dirs[i].0 && r[i].mass * r[i].vy == force * dirs[i].1)
  {
    var n := |factors|;
    var r := Explode(factors, dirs, force, x, y);
    PiecesShape(factors, dirs, force, x, y, n - 1);
    forall i | 0 <= i < n - 1
      ensures r[i].mass * r[i].vx == force * dirs[i].0 && r[i].mass * r[i].vy == force * dirs[i].1
    {
      PieceMomentum(factors[i], dirs[i], force, x, y);
    }
  }

  lemma DivCancel(m: real, p: real)
    requires m != 0.0
    ensures m * (p / m) == p
  {
  }

  lemma MomentumPush(fs: seq<Fragment>, f: Fragment)
    ensures MomentumX(fs + [f]) == MomentumX(fs) + f.mass * f.vx
    ensures MomentumY(fs + [f]) == MomentumY(fs) + f.mass * f.vy
  {
    assert (fs + [f])[..|fs|] == fs;
  }

  /** The last fragment cancels the momentum of the others, in both axes. */
  lemma ExplodeCancels(factors: seq<real>, dirs: seq<(real, real)>, force: real, x: real, y: real)
    requires 1 <= |factors| && NonZero(factors, |factors|) && |factors| - 1 <= |dirs|
    ensures var r := Explode(factors, dirs, force, x, y);
      MomentumX(r) == 0.0 && MomentumY(r) == 0.0
  {
    var n := |factors|;
    var first := Pieces(factors, dirs, force, x, y, n - 1);
    var lastMass := factors[n - 1];
    var px, py := MomentumX(first), MomentumY(first);
    var last := Fragment(x, y, 10.0 + lastMass * 1.5, lastMass, -px / lastMass, -py / lastMass);
    assert Explode(factors, dirs, force, x, y) == first + [last];
    MomentumPush(first, last);
    DivCancel(lastMass, -px);
    DivCancel(lastMass, -py);
  }

  /** The fragments together have the mass of the factors. */
  lemma ExplodeMass(factors: seq<real>, dirs: seq<(real, real)>, force: real, x: real, y: real)
    requires 1 <= |factors| && NonZero(factors, |factors|) && |factors| - 1 <= |dirs|
    ensures TotalMass(Explode(factors, dirs, force, x, y)) == Sum(factors)
  {
    ExplodeShape(factors, dirs, force, x, y);
    TotalMassOf(Explode(factors, dirs, force, x, y), factors);
  }

  // ---------------------------------------------------------------------
  // What the animation holds between frames

  datatype World = World(original: Fragment, fragments: seq<Fragment>, trajectories: seq<Snapshot>,
                         hasExploded: bool, explosionTime: real)

  /** The body resetObjects places at the centre of the arena, at rest. */
  function Original(mass: real, width: real, height: real): Fragment
  {
    Fragment(width / 2.0, height / 2.0, 15.0 + mass * 2.0, mass, 0.0, 0.0)
  }

  function Fresh(mass: real, width: real, height: real): World
  {
    World(Original(mass, width, height), [], [], false, 0.0)
  }

  predicate Ready(w: World)
  {
    w.original.mass > 0.0 && |w.trajectories| <= TrajectoryCap
  }

  /** The random inputs of one explosion: a draw per partition step, a draw
      per shuffle step and a direction (cos, sin) per drawn fragment. */
  datatype Draws = Draws(fractions: seq<real>, swaps: seq<real>, directions: seq<(real, real)>)

  predicate Enough(d: Draws, n: nat)
  {
    && n - 1 <= |d.fractions| && n - 1 <= |d.swaps| && n - 1 <= |d.directions|
    && AllDraws(d.fractions) && AllDraws(d.swaps)
  }

  /** The mass factors after the shuffle, for the original body's mass. */
  function Factors(w: World, n: nat, d: Draws): (r: seq<real>)
    requires Ready(w) && 1 <= n && Enough(d, n)
    ensures |r| == n && NonZero(r, n) && Sum(r) == w.original.mass
  {
    var p := Partition(w.original.mass, d.fractions, 0, n);
    PartitionShares(w.original.mass, d.fractions, 0, n);
    PartitionSum(w.original.mass, d.fractions, 0, n);
    ShuffledPositive(p, d.swaps);
    ShuffledPermutes(p, d.swaps);
    Shuffled(p, d.swaps)
  }

  /** createExplosion: once the body has exploded nothing changes; otherwise
      it is replaced by n fragments at its centre that share its mass
      exactly and whose momenta cancel, and the clock since the explosion
      starts at zero. */
  function Blast(w: World, n: nat, force: real, d: Draws): (r: World)
    requires Ready(w) && 1 <= n && Enough(d, n)
    ensures Ready(r) && r.hasExploded
    ensures w.hasExploded ==> r == w
    ensures !w.hasExploded ==>
      && r.original == w.original && r.trajectories == w.trajectories && r.explosionTime == 0.0
      && |r.fragments| == n
      && (forall i | 0 <= i < n :: r.fragments[i].x == w.original.x && r.fragments[i].y == w.original.y)
      && TotalMass(r.fragments) == w.original.mass
      && MomentumX(r.fragments) == 0.0 && MomentumY(r.fragments) == 0.0
  {
    if w.hasExploded then w
    else
      var factors := Factors(w, n, d);
      ExplodeShape(factors, d.directions, force, w.original.x, w.original.y);
      ExplodeCancels(factors, d.directions, force, w.original.x, w.original.y);
      ExplodeMass(factors, d.directions, force, w.original.x, w.original.y);
      w.(hasExploded := true, explosionTime := 0.0,
         fragments := Explode(factors, d.directions, force, w.original.x, w.original.y))
  }

  // ---------------------------------------------------------------------
  // Flight

  function Drift(f: Fragment): Fragment
  {
    f.(x := f.x + f.vx * Scale * TimeStep, y := f.y + f.vy * Scale * TimeStep)
  }

  /** checkBoundaryCollision: the four wall checks with restitution 0.9, and
      whether any fired. */
  function Bounce(f: Fragment, width: real, height: real): (Fragment, bool)
  {
    var ax := WallBounce(f.x, f.vx, f.radius, BoundaryPadding, width - BoundaryPadding, Restitution);
    var ay := WallBounce(f.y, f.vy, f.radius, BoundaryPadding, height - BoundaryPadding, Restitution);
    (f.(x := ax.pos, vx := ax.vel, y := ay.pos, vy := ay.vel), ax.hit || ay.hit)
  }

  /** One fragment's frame: move, then bounce. */
  function Step(f: Fragment, width: real, height: real): Fragment
  {
    Bounce(Drift(f), width, height).0
  }

  function StepAll(fs: seq<Fragment>, width: real, height: real): seq<Fragment>
  {
    seq(|fs|, i requires 0 <= i < |fs| => Step(fs[i], width, height))
  }

  function Points(fs: seq<Fragment>): seq<(real, real)>
  {
    seq(|fs|, i requires 0 <= i < |fs| => (fs[i].x, fs[i].y))
  }

  /** addTrajectoryPoints: before the explosion nothing; afterwards the
      time and every fragment's centre are appended, dropping the oldest
      entry beyond the cap. */
  function Record(w: World): World
  {
    if !w.hasExploded then w
    else w.(trajectories := BoundedPush(w.trajectories, Snapshot(w.explosionTime, Points(w.fragments)), TrajectoryCap))
  }

  /** Math.round, which rounds halves up. */
  function Round(x: real): int
  {
    (x + 0.5).Floor
  }

  /** update: after the explosion the clock advances, every fragment moves
      and bounces, and the positions are sampled when the frame number is a
      multiple of three; before it, the body's radius pulses by the given
      factor. */
  function Frame(w: World, pulse: real, width: real, height: real): World
  {
    if w.hasExploded then
      var moved := w.(explosionTime := w.explosionTime + TimeStep, fragments := StepAll(w.fragments, width, height));
      if Round(moved.explosionTime / TimeStep) % SampleEvery == 0 then Record(moved) else moved
    else
      w.(original := w.original.(radius := (15.0 + w.original.mass * 2.0) * pulse))
  }

  /** What a wall check does to a fragment: it fires exactly when the
      fragment pokes through a wall; an untouched fragment is unchanged;
      mass and radius are kept; in an arena at least one diameter wide a
      fragment through a wall is put exactly against it with that velocity
      component reversed and scaled by 0.9, and an axis whose walls were not
      touched is left alone. */
  lemma BounceCases(f: Fragment, width: real, height: real)
    ensures var (c, hit) := Bounce(f, width, height);
      var lo, hiX, hiY := BoundaryPadding, width - BoundaryPadding, height - BoundaryPadding;
      && (hit <==> f.x - f.radius < lo || hiX < f.x + f.radius || f.y - f.radius < lo || hiY < f.y + f.radius)
      && (!hit ==> c == f)
      && c.mass == f.mass && c.radius == f.radius
      && (2.0 * f.radius <= hiX - lo && f.x - f.radius < lo ==> c.x == lo + f.radius && c.vx == -0.9 * f.vx)
      && (2.0 * f.radius <= hiX - lo && hiX < f.x + f.radius ==> c.x == hiX - f.radius && c.vx == -0.9 * f.vx)
      && (2.0 * f.radius <= hiY - lo && f.y - f.radius < lo ==> c.y == lo + f.radius && c.vy == -0.9 * f.vy)
      && (2.0 * f.radius <= hiY - lo && hiY < f.y + f.radius ==> c.y == hiY - f.radius && c.vy == -0.9 * f.vy)
      && (lo <= f.x - f.radius && f.x + f.radius <= hiX ==> c.x == f.x && c.vx == f.vx)
      && (lo <= f.y - f.radius && f.y + f.radius <= hiY ==> c.y == f.y && c.vy == f.vy)
  {
    WallBounceCases(f.x, f.vx, f.radius, BoundaryPadding, width - BoundaryPadding, Restitution);
    WallBounceCases(f.y, f.vy, f.radius, BoundaryPadding, height - BoundaryPadding, Restitution);
  }

  /** Appending a sample keeps the buffer within its cap, with the new
      sample last; before the explosion nothing is recorded. */
  lemma RecordSpec(w: World)
    requires |w.trajectories| <= TrajectoryCap
    ensures var r := Record(w);
      && |r.trajectories| <= TrajectoryCap
      && (!w.hasExploded ==> r == w)
      && (w.hasExploded ==>
            && r.trajectories[|r.trajectories| - 1] == Snapshot(w.explosionTime, Points(w.fragments))
            && r.fragments == w.fragments && r.explosionTime == w.explosionTime)
  {
    if w.hasExploded {
      BoundedPushSpec(w.trajectories, Snapshot(w.explosionTime, Points(w.fragments)), TrajectoryCap);
    }
  }

  lemma TotalMassStep(fs: seq<Fragment>, width: real, height: real)
    ensures TotalMass(StepAll(fs, width, height)) == TotalMass(fs)
    decreases |fs|
  {
    if |fs| > 0 {
      BounceCases(Drift(fs[0]), width, height);
      assert StepAll(fs, width, height)[1..] == StepAll(fs[1..], width, height);
      TotalMassStep(fs[1..], width, height);
    }
  }

  /** A frame after the explosion keeps the number of fragments and their
      total mass, and the buffer cap; if the clock read k frames it reads
      k + 1 frames afterwards, and the positions are sampled exactly when
      k + 1 is a multiple of three. Before the explosion only the radius of
      the body changes. */
  lemma FrameSpec(w: World, pulse: real, width: real, height: real, k: nat)
    requires Ready(w)
    ensures var r := Frame(w, pulse, width, height);
      && Ready(r) && r.hasExploded == w.hasExploded
      && (!w.hasExploded ==> r == w.(original := w.original.(radius := (15.0 + w.original.mass * 2.0) * pulse)))
      && (w.hasExploded ==>
            && |r.fragments| == |w.fragments| && TotalMass(r.fragments) == TotalMass(w.fragments)
            && r.original == w.original)
      && (w.hasExploded && w.explosionTime == k as real * TimeStep ==>
            && r.explosionTime == (k + 1) as real * TimeStep
            && ((k + 1) % 3 == 0 ==>
                  r.trajectories == BoundedPush(w.trajectories, Snapshot(r.explosionTime, Points(r.fragments)), TrajectoryCap))
            && ((k + 1) % 3 != 0 ==> r.trajectories == w.trajectories))
  {
    if w.hasExploded {
      var moved := w.(explosionTime := w.explosionTime + TimeStep, fragments := StepAll(w.fragments, width, height));
      TotalMassStep(w.fragments, width, height);
      RecordSpec(moved);
      if w.explosionTime == k as real * TimeStep {
        assert moved.explosionTime / TimeStep == (k + 1) as real;
        assert Round(moved.explosionTime / TimeStep) == k + 1;
      }
    }
  }

  /** While no fragment reaches a wall, flying keeps every velocity, so the
      total momentum stays what the explosion gave it. */
  lemma {:induction false} FlightKeepsMomentum(fs: seq<Fragment>, width: real, height: real)
    requires forall i | 0 <= i < |fs| :: !Bounce(Drift(fs[i]), width, height).1
    ensures MomentumX(StepAll(fs, width, height)) == MomentumX(fs)
    ensures MomentumY(StepAll(fs, width, height)) == MomentumY(fs)
    decreases |fs|
  {
    if |fs| > 0 {
      var n := |fs| - 1;
      var s := StepAll(fs, width, height);
      BounceCases(Drift(fs[n]), width, height);
      assert s[..n] == StepAll(fs[..n], width, height);
      FlightKeepsMomentum(fs[..n], width, height);
    }
  }

  /** The body at rest before the explosion: zero momentum, at the centre. */
  lemma FreshAtRest(mass: real, width: real, height: real)
    requires mass > 0.0
    ensures var w := Fresh(mass, width, height);
      && Ready(w) && !w.hasExploded && w.fragments == [] && w.trajectories == []
      && MomentumX([w.original]) == 0.0 && MomentumY([w.original]) == 0.0
      && w.original.x == width / 2.0 && w.original.y == height / 2.0 && w.original.radius == 15.0 + 2.0 * mass
  {
  }

  // ---------------------------------------------------------------------
  // Loops of createExplosion

  /** The partition loop: each factor but the last is its share of the
      remaining mass, which it then leaves; the last takes the rest. */
  method PartitionMass(totalMass: real, numFragments: nat, draws: seq<real>) returns (massFactors: array<real>)
    requires numFragments - 1 <= |draws|
    ensures fresh(massFactors)
    ensures massFactors[..] == Partition(totalMass, draws, 0, numFragments)
  {
    massFactors := new real[numFragments];
    var remainingMass := totalMass;
    for i := 0 to numFragments
      invariant massFactors[..i] + Partition(remainingMass, draws, i, numFragments)
                == Partition(totalMass, draws, 0, numFragments)
    {
      if i == numFragments - 1 {
        massFactors[i] := remainingMass;
      } else {
        var factor := Share(draws[i]) * remainingMass;
        massFactors[i] := factor;
        remainingMass := remainingMass - factor;
      }
      assert massFactors[..i + 1] == massFactors[..i] + [massFactors[i]];
    }
    assert massFactors[..] == massFactors[..numFragments];
  }

  /** The in-place Fisher-Yates shuffle, from the last position down. */
  method Shuffle(a: array<real>, draws: seq<real>)
    requires a.Length - 1 <= |draws| && AllDraws(draws)
    modifies a
    ensures a[..] == Shuffled(old(a[..]), draws)
  {
    if a.Length == 0 {
      return;
    }
    var i := a.Length - 1;
    while i > 0
      invariant 0 <= i < a.Length
      invariant ShuffleFrom(a[..], draws, i) == Shuffled(old(a[..]), draws)
    {
      var r := draws[a.Length - 1 - i];
      PickInRange(r, i);
      var j := Pick(r, i);
      ghost var before := a[..];
      var t := a[i];
      a[i] := a[j];
      a[j] := t;
      assert a[..] == Swap(before, i, j);
      i := i - 1;
    }
  }

  /** The fragment loop: a fragment per factor but the last, moving along
      its drawn direction at speed force / mass, while the momentum pushed so
      far is summed; then the last fragment, moving so as to cancel that sum. */
  method MakeFragments(massFactors: array<real>, force: real, dirs: seq<(real, real)>, x: real, y: real)
    returns (fragments: seq<Fragment>)
    requires 1 <= massFactors.Length && NonZero(massFactors[..], massFactors.Length)
    requires massFactors.Length - 1 <= |dirs|
    ensures fragments == Explode(massFactors[..], dirs, force, x, y)
  {
    ghost var factors := massFactors[..];
    var numFragments := massFactors.Length;
    fragments := [];
    var totalPx, totalPy := 0.0, 0.0;
    for i := 0 to numFragments - 1
      invariant fragments == Pieces(factors, dirs, force, x, y, i)
      invariant totalPx == MomentumX(fragments) && totalPy == MomentumY(fragments)
    {
      var mass := massFactors[i];
      var radius := 10.0 + mass * 1.5;
      var speed := force / mass;
      var vx := speed * dirs[i].0;
      var vy := speed * dirs[i].1;
      totalPx := totalPx + mass * vx;
      totalPy := totalPy + mass * vy;
      var piece := Fragment(x, y, radius, mass, vx, vy);
      assert piece == Piece(factors[i], dirs[i], force, x, y);
      MomentumPush(fragments, piece);
      fragments := fragments + [piece];
    }
    var lastMass := massFactors[numFragments - 1];
    var lastRadius := 10.0 + lastMass * 1.5;
    var lastVx := -totalPx / lastMass;
    var lastVy := -totalPy / lastMass;
    fragments := fragments + [Fragment(x, y, lastRadius, lastMass, lastVx, lastVy)];
  }

  class Explosion {
    const width: real
    const height: real
    var isRunning: bool
    var original: Fragment
    var fragments: seq<Fragment>
    var trajectories: seq<Snapshot>
    var hasExploded: bool
    var explosionTime: real

    function State(): World
      reads this
    {
      World(original, fragments, trajectories, hasExploded, explosionTime)
    }

    ghost predicate Valid()
      reads this
    {
      Ready(State())
    }

    constructor (width: real, height: real, mass: real)
      requires mass > 0.0
      ensures Valid() && !isRunning
      ensures this.width == width && this.height == height
      ensures State() == Fresh(mass, width, height)
    {
      this.width := width;
      this.height := height;
      isRunning := false;
      original := Original(mass, width, height);
      fragments := [];
      trajectories := [];
      hasExploded := false;
      explosionTime := 0.0;
      new;
      ResetObjects(mass);
    }

    /** resetObjects: a single body at rest in the centre, no fragments and
        no trajectory. */
    method ResetObjects(mass: real)
      requires mass > 0.0
      modifies this
      ensures Valid() && isRunning == old(isRunning)
      ensures State() == Fresh(mass, width, height)
    {
      hasExploded := false;
      explosionTime := 0.0;
      fragments := [];
      trajectories := [];
      var radius := 15.0 + mass * 2.0;
      var centerX, centerY := width / 2.0, height / 2.0;
      original := Fragment(centerX, centerY, radius, mass, 0.0, 0.0);
    }

    /** createExplosion with numFragments fragments and the given force. */
    method CreateExplosion(numFragments: nat, force: real, draws: Draws)
      requires Valid() && 1 <= numFragments && Enough(draws, numFragments)
      modifies this
      ensures Valid() && isRunning == old(isRunning)
      ensures State() == Blast(old(State()), numFragments, force, draws)
    {
      if hasExploded {
        return;
      }
      hasExploded := true;
      explosionTime := 0.0;
      var totalMass := original.mass;
      fragments := [];
      var massFactors := PartitionMass(totalMass, numFragments, draws.fractions);
      Shuffle(massFactors, draws.swaps);
      ghost var factors := Factors(old(State()), numFragments, draws);
      assert massFactors[..] == factors;
      fragments := MakeFragments(massFactors, force, draws.directions, original.x, original.y);
    }

    /** addTrajectoryPoints. */
    method AddTrajectoryPoints()
      requires Valid()
      modifies this
      ensures Valid() && isRunning == old(isRunning)
      ensures State() == Record(old(State()))
    {
      if !hasExploded {
        return;
      }
      var points := Points(fragments);
      BoundedPushSpec(trajectories, Snapshot(explosionTime, points), TrajectoryCap);
      trajectories := trajectories + [Snapshot(explosionTime, points)];
      if |trajectories| > TrajectoryCap {
        trajectories := trajectories[1..];
      }
    }

    /** checkBoundaryCollision for one fragment: the corrected fragment and
        whether any wall was touched. */
    method CheckBoundaryCollision(fragment: Fragment) returns (moved: Fragment, collided: bool)
      ensures (moved, collided) == Bounce(fragment, width, height)
      ensures collided <==> fragment.x - fragment.radius < BoundaryPadding
                            || width - BoundaryPadding < fragment.x + fragment.radius
                            || fragment.y - fragment.radius < BoundaryPadding
                            || height - BoundaryPadding < fragment.y + fragment.radius
      ensures !collided ==> moved == fragment
    {
      BounceCases(fragment, width, height);
      moved := fragment;
      collided := false;
      if moved.x - moved.radius < BoundaryPadding {
        moved := moved.(x := BoundaryPadding + moved.radius, vx := -moved.vx * Restitution);
        collided := true;
      }
      if moved.x + moved.radius > width - BoundaryPadding {
        moved := moved.(x := width - BoundaryPadding - moved.radius, vx := -moved.vx * Restitution);
        collided := true;
      }
      if moved.y - moved.radius < BoundaryPadding {
        moved := moved.(y := BoundaryPadding + moved.radius, vy := -moved.vy * Restitution);
        collided := true;
      }
      if moved.y + moved.radius > height - BoundaryPadding {
        moved := moved.(y := height - BoundaryPadding - moved.radius, vy := -moved.vy * Restitution);
        collided := true;
      }
    }

    /** update: one frame, with the pulse factor 1 + 0.05 sin(now / 200)
        supplied (drawing and scheduling are not modelled). */
    method Update(pulse: real)
      requires Valid()
      modifies this
      ensures Valid() && isRunning == old(isRunning)
      ensures State() == Frame(old(State()), pulse, width, height)
    {
      if hasExploded {
        explosionTime := explosionTime + TimeStep;
        ghost var before := fragments;
        for i := 0 to |fragments|
          invariant |fragments| == |before| && Valid() && isRunning == old(isRunning)
          invariant hasExploded && explosionTime == old(explosionTime) + TimeStep
          invariant original == old(original) && trajectories == old(trajectories)
          invariant forall k | 0 <= k < i :: fragments[k] == Step(before[k], width, height)
          invariant forall k | i <= k < |fragments| :: fragments[k] == before[k]
        {
          var fragment := fragments[i];
          fragment := fragment.(x := fragment.x + fragment.vx * Scale * TimeStep,
                                y := fragment.y + fragment.vy * Scale * TimeStep);
          var bounced, _ := CheckBoundaryCollision(fragment);
          fragments := fragments[i := bounced];
        }
        assert fragments == StepAll(before, width, height);
        if Round(explosionTime / TimeStep) % SampleEvery == 0 {
          AddTrajectoryPoints();
        }
      } else {
        original := original.(radius := (15.0 + original.mass * 2.0) * pulse);
      }
    }

    /** start: a stopped animation starts and runs its first frame; a running one pauses. */
    method Start(pulse: real)
      requires Valid()
      modifies this
      ensures Valid()
      ensures isRunning == !old(isRunning)
      ensures State() == if old(isRunning) then old(State()) else Frame(old(State()), pulse, width, height)
    {
      if !isRunning {
        isRunning := true;
        Update(pulse);
      } else {
        isRunning := false;
      }
    }

    /** reset: stop, and put the unexploded body back. */
    method Reset(mass: real)
      requires mass > 0.0
      modifies this
      ensures Valid() && !isRunning
      ensures State() == Fresh(mass, width, height)
    {
      isRunning := false;
      ResetObjects(mass);
    }
  }
}

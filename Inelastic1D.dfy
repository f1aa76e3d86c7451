/** The one-dimensional perfectly inelastic collision demonstration: two
    bodies on a track between two walls stick together when they touch, and
    from then on only the merged body moves. One call of Update is one
    animation frame. */
module Inelastic1D {
  import opened Mechanics

  /** Seconds per frame, pixels per metre, and the gap between canvas edge and wall. */
  const TimeStep: real := 0.05
  const Scale: real := 50.0
  const BoundaryPadding: real := 50.0

  /** Colours of the two bodies as they are created. */
  const FirstColor: string := "#3498db"
  const SecondColor: string := "#e74c3c"

  /** One body of the demonstration; its colour is a "#rrggbb" string. */
  datatype Body = Body(x: real, y: real, radius: real, mass: real, velocity: real, color: string)

  /** calculateMomentum. */
  function Momentum(b: Body): real
  {
    b.mass * b.velocity
  }

  function Energy(b: Body): real
  {
    b.mass * b.velocity * b.velocity / 2.0
  }

  // ---------------------------------------------------------------------
  // Colour blending on "#rrggbb" strings

  predicate IsHexDigit(c: char)
  {
    '0' <= c <= '9' || 'a' <= c <= 'f' || 'A' <= c <= 'F'
  }

  predicate IsLowerHexDigit(c: char)
  {
    '0' <= c <= '9' || 'a' <= c <= 'f'
  }

  /** The value parseInt gives one hexadecimal digit, in either case. */
  function HexValue(c: char): nat
    requires IsHexDigit(c)
  {
    if '0' <= c <= '9' then c as nat - '0' as nat
    else if 'a' <= c <= 'f' then c as nat - 'a' as nat + 10
    else c as nat - 'A' as nat + 10
  }

  /** The lower-case digit that toString(16) writes for n. */
  function HexDigit(n: nat): char
    requires n < 16
  {
    "0123456789abcdef"[n]
  }

  /** toString(16) of a natural number: lower-case digits, no leading zeros. */
  function ToHex(n: nat): string
    decreases n
  {
    if n < 16 then [HexDigit(n)] else ToHex(n / 16) + [HexDigit(n % 16)]
  }

  /** padStart(len, fill). */
  function PadStart(s: string, len: nat, fill: char): string
    decreases len - |s|
  {
    if |s| >= len then s else PadStart([fill] + s, len, fill)
  }

  /** A string blendColors can read: a leading character followed by three
      two-digit hexadecimal channels. */
  predicate Parsable(c: string)
  {
    |c| >= 7 && forall i | 1 <= i < 7 :: IsHexDigit(c[i])
  }

  /** A colour exactly as blendColors writes one: '#' and six lower-case digits. */
  predicate Canonical(c: string)
  {
    |c| == 7 && c[0] == '#' && forall i | 1 <= i < 7 :: IsLowerHexDigit(c[i])
  }

  /** parseInt(c.substr(i, 2), 16). */
  function Channel(c: string, i: nat): nat
    requires Parsable(c) && 1 <= i <= 5
  {
    HexValue(c[i]) * 16 + HexValue(c[i + 1])
  }

  /** Two-digit hexadecimal rendering of a channel value. */
  function ChannelText(n: nat): string
  {
    PadStart(ToHex(n), 2, '0')
  }

  /** blendColors: the floored average of each channel, written back as "#rrggbb". */
  function BlendColors(c1: string, c2: string): string
    requires Parsable(c1) && Parsable(c2)
  {
    var r := (Channel(c1, 1) + Channel(c2, 1)) / 2;
    var g := (Channel(c1, 3) + Channel(c2, 3)) / 2;
    var b := (Channel(c1, 5) + Channel(c2, 5)) / 2;
    "#" + ChannelText(r) + ChannelText(g) + ChannelText(b)
  }

  lemma HexDigitRoundTrip(n: nat)
    requires n < 16
    ensures IsLowerHexDigit(HexDigit(n)) && HexValue(HexDigit(n)) == n
  {
  }

  lemma HexValueRoundTrip(c: char)
    requires IsLowerHexDigit(c)
    ensures HexValue(c) < 16 && HexDigit(HexValue(c)) == c
  {
  }

  /** Any channel value below 256 is written as exactly two lower-case
      digits, high digit first. */
  lemma ChannelTextDigits(n: nat)
    requires n < 256
    ensures ChannelText(n) == [HexDigit(n / 16), HexDigit(n % 16)]
  {
    if n < 16 {
      assert ToHex(n) == [HexDigit(n)];
      assert ChannelText(n) == ['0'] + [HexDigit(n)];
    } else {
      assert ToHex(n / 16) == [HexDigit(n / 16)];
    }
  }

  /** Every channel value lies below 256. */
  lemma ChannelBound(c: string, i: nat)
    requires Parsable(c) && 1 <= i <= 5
    ensures Channel(c, i) < 256
  {
  }

  /** Three channels below 256, written out, give a canonical colour whose
      channels read back as the same three values. */
  lemma FormatRoundTrip(r: nat, g: nat, b: nat)
    requires r < 256 && g < 256 && b < 256
    ensures var c := "#" + ChannelText(r) + ChannelText(g) + ChannelText(b);
      && Canonical(c) && Channel(c, 1) == r && Channel(c, 3) == g && Channel(c, 5) == b
  {
    ChannelTextDigits(r);
    ChannelTextDigits(g);
    ChannelTextDigits(b);
    HexDigitRoundTrip(r / 16);
    HexDigitRoundTrip(r % 16);
    HexDigitRoundTrip(g / 16);
    HexDigitRoundTrip(g % 16);
    HexDigitRoundTrip(b / 16);
    HexDigitRoundTrip(b % 16);
    var c := "#" + ChannelText(r) + ChannelText(g) + ChannelText(b);
    assert c == ['#', HexDigit(r / 16), HexDigit(r % 16), HexDigit(g / 16), HexDigit(g % 16),
                 HexDigit(b / 16), HexDigit(b % 16)];
  }

  /** The blended colour is canonical and each of its channels reads back as
      the floored average of the two input channels. */
  lemma BlendColorsChannels(c1: string, c2: string)
    requires Parsable(c1) && Parsable(c2)
    ensures var c := BlendColors(c1, c2);
      && Canonical(c)
      && Channel(c, 1) == (Channel(c1, 1) + Channel(c2, 1)) / 2
      && Channel(c, 3) == (Channel(c1, 3) + Channel(c2, 3)) / 2
      && Channel(c, 5) == (Channel(c1, 5) + Channel(c2, 5)) / 2
  {
    ChannelBound(c1, 1);
    ChannelBound(c1, 3);
    ChannelBound(c1, 5);
    ChannelBound(c2, 1);
    ChannelBound(c2, 3);
    ChannelBound(c2, 5);
    FormatRoundTrip((Channel(c1, 1) + Channel(c2, 1)) / 2, (Channel(c1, 3) + Channel(c2, 3)) / 2,
                    (Channel(c1, 5) + Channel(c2, 5)) / 2);
  }

  /** Blending is symmetric in its two colours. */
  lemma BlendColorsCommutes(c1: string, c2: string)
    requires Parsable(c1) && Parsable(c2)
    ensures BlendColors(c1, c2) == BlendColors(c2, c1)
  {
    assert Channel(c1, 1) + Channel(c2, 1) == Channel(c2, 1) + Channel(c1, 1);
  }

  /** A channel of a canonical colour is written back as the same two digits. */
  lemma ChannelTextOfCanonical(c: string, i: nat)
    requires Canonical(c) && 1 <= i <= 5
    ensures Parsable(c) && ChannelText(Channel(c, i)) == [c[i], c[i + 1]]
  {
    HexValueRoundTrip(c[i]);
    HexValueRoundTrip(c[i + 1]);
    var v := Channel(c, i);
    assert v / 16 == HexValue(c[i]) && v % 16 == HexValue(c[i + 1]);
    ChannelTextDigits(v);
  }

  /** Blending a canonical colour with itself gives it back. */
  lemma BlendColorsSelf(c: string)
    requires Canonical(c)
    ensures Parsable(c) && BlendColors(c, c) == c
  {
    ChannelTextOfCanonical(c, 1);
    ChannelTextOfCanonical(c, 3);
    ChannelTextOfCanonical(c, 5);
    var r, g, b := Channel(c, 1), Channel(c, 3), Channel(c, 5);
    assert (r + r) / 2 == r && (g + g) / 2 == g && (b + b) / 2 == b;
    assert BlendColors(c, c) == "#" + ChannelText(r) + ChannelText(g) + ChannelText(b);
    assert c == ['#', c[1], c[2], c[3], c[4], c[5], c[6]];
  }

  /** The two starting colours blend to "#8d728b". */
  lemma StartingColorsBlend()
    ensures Parsable(FirstColor) && Parsable(SecondColor)
    ensures BlendColors(FirstColor, SecondColor) == "#8d728b"
  {
    assert Channel(FirstColor, 1) == 0x34 && Channel(SecondColor, 1) == 0xe7;
    assert Channel(FirstColor, 3) == 0x98 && Channel(SecondColor, 3) == 0x4c;
    assert Channel(FirstColor, 5) == 0xdb && Channel(SecondColor, 5) == 0x3c;
    ChannelTextDigits(0x8d);
    ChannelTextDigits(0x72);
    ChannelTextDigits(0x8b);
  }

  // ---------------------------------------------------------------------
  // The physics

  /** The two bodies as resetObjects creates them from the four input values. */
  function Initial(mass1: real, mass2: real, velocity1: real, velocity2: real,
                   width: real, height: real): seq<Body>
  {
    var (x1, x2) := StartPositions(velocity1, velocity2, width, BoundaryPadding);
    [Body(x1, height / 2.0, 10.0 + mass1 * 3.0, mass1, velocity1, FirstColor),
     Body(x2, height / 2.0, 10.0 + mass2 * 3.0, mass2, velocity2, SecondColor)]
  }

  /** One Euler step of the position. */
  function Drift(b: Body): Body
  {
    b.(x := b.x + b.velocity * Scale * TimeStep)
  }

  /** The guard of checkCollision: the two bodies touch or overlap. */
  predicate Touching(b1: Body, b2: Body)
  {
    Abs(b1.x - b2.x) <= b1.radius + b2.radius
  }

  /** Radius of the merged body: 1.2 times the host's square root of r1^2 + r2^2. */
  function CombinedRadius(r1: real, r2: real, sqrt: real -> real): real
  {
    SquareRoot(sqrt, r1 * r1 + r2 * r2) * 1.2
  }

  /** calculateInelasticCollision: the merged body, at the average of the two
      centres and the height of the first, with the summed mass, the velocity
      that keeps the momentum, the blended colour, and radius 1.2 * root,
      where root is the host's square root of r1^2 + r2^2. */
  function Merge(b1: Body, b2: Body, sqrt: real -> real): Body
    requires b1.mass + b2.mass != 0.0
    requires Parsable(b1.color) && Parsable(b2.color)
  {
    var totalMass := b1.mass + b2.mass;
    Body((b1.x + b2.x) / 2.0, b1.y, CombinedRadius(b1.radius, b2.radius, sqrt), totalMass,
         CommonVelocity(b1.mass, b2.mass, b1.velocity, b2.velocity),
         BlendColors(b1.color, b2.color))
  }

  /** The wall checks of checkBoundaryCollision: lossless reflection. */
  function Walls(b: Body, width: real): Body
  {
    var a := WallBounce(b.x, b.velocity, b.radius, BoundaryPadding, width - BoundaryPadding, 1.0);
    b.(x := a.pos, velocity := a.vel)
  }

  /** What the animation holds: the two original bodies and, after the
      collision, the merged body. */
  datatype Scene = Scene(objects: seq<Body>, combined: Option<Body>)

  predicate WellFormed(objects: seq<Body>)
  {
    |objects| == 2 && objects[0].mass > 0.0 && objects[1].mass > 0.0
    && Parsable(objects[0].color) && Parsable(objects[1].color)
  }

  /** One frame of update. Before the collision both bodies drift, the merge
      test runs on the drifted positions, and then both originals are checked
      against the walls (also in the frame that merges them). After it only
      the merged body drifts and reflects. */
  function Tick(sc: Scene, width: real, sqrt: real -> real): (r: Scene)
    requires WellFormed(sc.objects)
  {
    match sc.combined
    case Some(c) => Scene(sc.objects, Some(Walls(Drift(c), width)))
    case None =>
      var m0, m1 := Drift(sc.objects[0]), Drift(sc.objects[1]);
      var combined :=
        if Touching(m0, m1) then Some(Merge(m0, m1, sqrt))
        else None;
      Scene([Walls(m0, width), Walls(m1, width)], combined)
  }

  /** The merge keeps the total mass and the total momentum, centres the
      merged body between the two, and gives it the square of its radius
      1.44 times the sum of the squares of the two radii. */
  lemma MergeConserves(b1: Body, b2: Body, sqrt: real -> real)
    requires b1.mass + b2.mass != 0.0
    requires Parsable(b1.color) && Parsable(b2.color)
    requires IsSqrt(sqrt)
    ensures var c := Merge(b1, b2, sqrt);
      && c.mass == b1.mass + b2.mass
      && Momentum(c) == Momentum(b1) + Momentum(b2)
      && c.x == (b1.x + b2.x) / 2.0 && c.y == b1.y
      && c.radius * c.radius == 1.44 * (b1.radius * b1.radius + b2.radius * b2.radius)
      && c.color == BlendColors(b1.color, b2.color)
  {
    var c := Merge(b1, b2, sqrt);
    var M := b1.mass + b2.mass;
    var P := b1.mass * b1.velocity + b2.mass * b2.velocity;
    assert c.velocity == P / M;
    assert M * (P / M) == P;
    var rr := b1.radius * b1.radius + b2.radius * b2.radius;
    var root := SquareRoot(sqrt, rr);
    assert root * root == rr;
    assert c.radius * c.radius == 1.44 * (root * root);
  }

  /** The kinetic energy the merge destroys is m1*m2*(v1 - v2)^2 / (2(m1 + m2)):
      never negative for positive masses, and zero exactly when the two
      bodies already moved together. */
  lemma MergeDissipates(b1: Body, b2: Body, sqrt: real -> real)
    requires b1.mass > 0.0 && b2.mass > 0.0
    requires Parsable(b1.color) && Parsable(b2.color)
    ensures var c := Merge(b1, b2, sqrt);
      var dv := b1.velocity - b2.velocity;
      && Energy(b1) + Energy(b2) - Energy(c) == b1.mass * b2.mass * dv * dv / (2.0 * (b1.mass + b2.mass))
      && Energy(c) <= Energy(b1) + Energy(b2)
      && (Energy(c) == Energy(b1) + Energy(b2) <==> b1.velocity == b2.velocity)
  {
    var c := Merge(b1, b2, sqrt);
    var m1, m2, v1, v2 := b1.mass, b2.mass, b1.velocity, b2.velocity;
    var M := m1 + m2;
    var P := m1 * v1 + m2 * v2;
    var V := P / M;
    var dv := v1 - v2;
    assert c.velocity == V && c.mass == M;
    assert M * V == P;
    // twice the energy lost, multiplied by M
    assert M * (m1 * v1 * v1 + m2 * v2 * v2) - P * P == m1 * m2 * dv * dv;
    assert M * (M * V * V) == P * P;
    var loss := Energy(b1) + Energy(b2) - Energy(c);
    assert loss == (m1 * v1 * v1 + m2 * v2 * v2 - M * V * V) / 2.0;
    assert 2.0 * M * loss == m1 * m2 * dv * dv;
    assert loss == m1 * m2 * dv * dv / (2.0 * M);
    assert m1 * m2 > 0.0;
    assert dv * dv >= 0.0;
    if v1 != v2 {
      PositiveLoss(m1, m2, dv);
    }
  }

  lemma PositiveLoss(m1: real, m2: real, dv: real)
    requires m1 > 0.0 && m2 > 0.0 && dv != 0.0
    ensures m1 * m2 * dv * dv / (2.0 * (m1 + m2)) > 0.0
  {
    ProductPositive(m1, m2);
    var k := m1 * m2;
    if dv > 0.0 {
      ProductPositive(k, dv);
      ProductPositive(k * dv, dv);
    } else {
      ProductPositive(k, -dv);
      ProductPositive(k * -dv, -dv);
      assert k * -dv * -dv == k * dv * dv;
    }
    QuotientPositive(k * dv * dv, 2.0 * (m1 + m2));
  }

  /** Once the bodies have merged, every later frame leaves the two
      originals where they are and keeps the merged body. */
  lemma MergedStaysMerged(sc: Scene, width: real, sqrt: real -> real)
    requires WellFormed(sc.objects) && sc.combined.Some?
    ensures var r := Tick(sc, width, sqrt);
      && r.objects == sc.objects
      && r.combined.Some?
      && r.combined.value.mass == sc.combined.value.mass
      && r.combined.value.color == sc.combined.value.color
  {
  }

  /** Before the merge a frame merges the bodies exactly when their drifted
      centres are no further apart than the sum of their radii; the merged
      body then carries the total mass and momentum of the drifted pair. */
  lemma TickMergesWhenTouching(sc: Scene, width: real, sqrt: real -> real)
    requires WellFormed(sc.objects) && sc.combined.None?
    requires IsSqrt(sqrt)
    ensures var r := Tick(sc, width, sqrt);
      var m0, m1 := Drift(sc.objects[0]), Drift(sc.objects[1]);
      && (r.combined.Some? <==> Abs(m0.x - m1.x) <= m0.radius + m1.radius)
      && (r.combined.Some? ==>
            r.combined.value.mass == m0.mass + m1.mass
            && Momentum(r.combined.value) == Momentum(sc.objects[0]) + Momentum(sc.objects[1]))
      && WellFormed(r.objects)
  {
    var m0, m1 := Drift(sc.objects[0]), Drift(sc.objects[1]);
    MergeConserves(m0, m1, sqrt);
  }

  /** The animation object: the two bodies, the merged body once there is
      one, the run flag, and the canvas size it was built for. */
  class InelasticCollision1D {
    const width: real
    const height: real
    var isRunning: bool
    var objects: seq<Body>
    var combinedObject: Option<Body>

    ghost predicate Valid()
      reads this
    {
      WellFormed(objects)
    }

    function State(): Scene
      reads this
    {
      Scene(objects, combinedObject)
    }

    constructor (width: real, height: real, mass1: real, mass2: real, velocity1: real, velocity2: real)
      requires mass1 > 0.0 && mass2 > 0.0
      ensures Valid() && !isRunning
      ensures this.width == width && this.height == height
      ensures State() == Scene(Initial(mass1, mass2, velocity1, velocity2, width, height), None)
    {
      this.width := width;
      this.height := height;
      isRunning := false;
      objects := [];
      combinedObject := None;
      new;
      ResetObjects(mass1, mass2, velocity1, velocity2);
    }

    /** resetObjects: both bodies rebuilt from the inputs, and no merged body. */
    method ResetObjects(mass1: real, mass2: real, velocity1: real, velocity2: real)
      requires mass1 > 0.0 && mass2 > 0.0
      modifies this
      ensures Valid() && isRunning == old(isRunning)
      ensures State() == Scene(Initial(mass1, mass2, velocity1, velocity2, width, height), None)
    {
      var radius1 := 10.0 + mass1 * 3.0;
      var radius2 := 10.0 + mass2 * 3.0;
      var centerY := height / 2.0;
      var x1, x2;
      if velocity1 > 0.0 && velocity2 < 0.0 {
        x1, x2 := width * 0.25, width * 0.75;
      } else if velocity1 > velocity2 {
        x1, x2 := BoundaryPadding, width / 2.0;
      } else {
        x1, x2 := width / 3.0, width * 2.0 / 3.0;
      }
      objects := [Body(x1, centerY, radius1, mass1, velocity1, FirstColor),
                  Body(x2, centerY, radius2, mass2, velocity2, SecondColor)];
      combinedObject := None;
    }

    /** calculateInelasticCollision: build the merged body from the two
        current bodies; sqrt is the host's square root. */
    method CalculateInelasticCollision(sqrt: real -> real)
      requires Valid()
      modifies this
      ensures Valid() && isRunning == old(isRunning) && objects == old(objects)
      ensures combinedObject == Some(Merge(objects[0], objects[1], sqrt))
    {
      var obj1, obj2 := objects[0], objects[1];
      var totalMass := obj1.mass + obj2.mass;
      var finalVelocity := CommonVelocity(obj1.mass, obj2.mass, obj1.velocity, obj2.velocity);
      var combinedRadius := CombinedRadius(obj1.radius, obj2.radius, sqrt);
      combinedObject := Some(Body((obj1.x + obj2.x) / 2.0, obj1.y, combinedRadius, totalMass,
                                  finalVelocity, BlendColors(obj1.color, obj2.color)));
    }

    /** checkCollision: nothing once merged; otherwise merge when touching. */
    method CheckCollision(sqrt: real -> real)
      requires Valid()
      modifies this
      ensures Valid() && isRunning == old(isRunning) && objects == old(objects)
      ensures old(combinedObject).Some? ==> combinedObject == old(combinedObject)
      ensures old(combinedObject).None? ==>
        combinedObject == if Touching(objects[0], objects[1])
                          then Some(Merge(objects[0], objects[1], sqrt))
                          else None
    {
      if combinedObject.Some? {
        return;
      }
      var obj1, obj2 := objects[0], objects[1];
      var distance := Abs(obj1.x - obj2.x);
      var minDistance := obj1.radius + obj2.radius;
      if distance <= minDistance {
        CalculateInelasticCollision(sqrt);
      }
    }

    /** checkBoundaryCollision on one body, returning the corrected body. */
    method CheckBoundaryCollision(body: Body) returns (moved: Body)
      ensures moved == Walls(body, width)
      ensures moved.mass == body.mass && moved.radius == body.radius && moved.color == body.color
      ensures BoundaryPadding <= body.x - body.radius && body.x + body.radius <= width - BoundaryPadding
              ==> moved == body
      ensures 2.0 * body.radius <= width - 2.0 * BoundaryPadding ==>
              BoundaryPadding <= moved.x - moved.radius && moved.x + moved.radius <= width - BoundaryPadding
      ensures 2.0 * body.radius <= width - 2.0 * BoundaryPadding ==>
              (moved.velocity == body.velocity || moved.velocity == -body.velocity)
    {
      WallBounceCases(body.x, body.velocity, body.radius, BoundaryPadding, width - BoundaryPadding, 1.0);
      moved := body;
      if moved.x - moved.radius < BoundaryPadding {
        moved := moved.(x := BoundaryPadding + moved.radius, velocity := -moved.velocity);
      }
      if moved.x + moved.radius > width - BoundaryPadding {
        moved := moved.(x := width - BoundaryPadding - moved.radius, velocity := -moved.velocity);
      }
    }

    /** update: one frame (drawing and scheduling the next frame are not modelled). */
    method Update(sqrt: real -> real)
      requires Valid()
      modifies this
      ensures Valid() && isRunning == old(isRunning)
      ensures State() == Tick(old(State()), width, sqrt)
    {
      if combinedObject.Some? {
        var c := combinedObject.value;
        c := c.(x := c.x + c.velocity * Scale * TimeStep);
        c := CheckBoundaryCollision(c);
        combinedObject := Some(c);
      } else {
        ghost var before := objects;
        for i := 0 to |objects|
          invariant WellFormed(objects) && isRunning == old(isRunning) && combinedObject.None?
          invariant forall k | 0 <= k < i :: objects[k] == Drift(before[k])
          invariant forall k | i <= k < 2 :: objects[k] == before[k]
        {
          var obj := objects[i];
          obj := obj.(x := obj.x + obj.velocity * Scale * TimeStep);
          objects := objects[i := obj];
        }
        CheckCollision(sqrt);
        ghost var drifted := objects;
        for i := 0 to |objects|
          invariant WellFormed(objects) && isRunning == old(isRunning)
          invariant combinedObject == Tick(old(State()), width, sqrt).combined
          invariant forall k | 0 <= k < i :: objects[k] == Walls(drifted[k], width)
          invariant forall k | i <= k < 2 :: objects[k] == drifted[k]
        {
          var obj := CheckBoundaryCollision(objects[i]);
          objects := objects[i := obj];
        }
      }
    }

    /** start: a stopped animation starts and runs its first frame; a running one pauses. */
    method Start(sqrt: real -> real)
      requires Valid()
      modifies this
      ensures Valid()
      ensures isRunning == !old(isRunning)
      ensures State() == if old(isRunning) then old(State()) else Tick(old(State()), width, sqrt)
    {
      if !isRunning {
        isRunning := true;
        Update(sqrt);
      } else {
        isRunning := false;
      }
    }

    /** reset: stop, and rebuild both bodies with no merged body. */
    method Reset(mass1: real, mass2: real, velocity1: real, velocity2: real)
      requires mass1 > 0.0 && mass2 > 0.0
      modifies this
      ensures Valid() && !isRunning
      ensures State() == Scene(Initial(mass1, mass2, velocity1, velocity2, width, height), None)
    {
      isRunning := false;
      ResetObjects(mass1, mass2, velocity1, velocity2);
    }
  }
}

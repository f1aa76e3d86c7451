# Momentum animations, modelled in Dafny

The repository is a set of five browser animations that teach conservation
of momentum:

- a one-dimensional elastic collision;
- a one-dimensional perfectly inelastic collision, in which the bodies merge;
- a two-dimensional elastic collision of two discs;
- an explosion of one body into fragments;
- a rocket that burns propellant and ejects exhaust particles.

Each animation is a class. Its `update` advances the simulation by one
frame, and `start` and `reset` drive a small run/pause/reset flag machine.
This project models the physics of those classes over exact reals and
proves what the animations set out to show:

- collisions conserve momentum, and elastic ones conserve energy;
- an inelastic merge keeps the momentum and loses energy unless the
  bodies already moved together;
- a collision is resolved at most once between two resets;
- the fragments of an explosion carry its mass exactly and no net momentum;
- the rocket never uses more propellant than it carries.

Layout, one module per source file plus one shared module:

- `Mechanics.dfy`: the pieces the animations share. These are the closed-form elastic
  exchange, the two-wall reflection of one axis (with a restitution
  factor), the bounded trajectory buffer, the starting placement of the 1D
  demonstrations, and the host's square root (passed in as a function with
  its defining property).
- `Elastic1D.dfy`, `Inelastic1D.dfy`, `Elastic2D.dfy`, `Fragmentation.dfy`,
  `Propulsion.dfy`: one module per animation.
  - The entities the source updates in place are value datatypes held in
    the fields of a class named after the JavaScript class.
  - Each method ensures that the new state is a specification function of
    the old one; the spec functions and the lemmas about them carry the
    physics.
  - The explosion's mass factors are an `array`, partitioned and shuffled
    in place as in the source.

Everything the host supplies is an input:

- `Math.sqrt`, `Math.cos`, `Math.sin` and `Math.atan2` are function parameters;
- `Math.PI` is a real parameter;
- each `Math.random()` is a draw in [0, 1) from a sequence;
- the pulsation factor computed from the clock is a parameter.

One call of `Update` is one animation frame.

## Model

| member | source | states |
|---|---|---|
| Mechanics.ElasticFinal | js/animations/elasticCollision1D.js:163-164 | definition: the closed-form elastic velocities ((m1 − m2)·u1 + 2·m2·u2) / (m1 + m2) and ((m2 − m1)·u2 + 2·m1·u1) / (m1 + m2) |
| Mechanics.CommonVelocity | js/animations/inelasticCollision1D.js:167-168 | definition: the common velocity of a perfectly inelastic merge, total momentum over total mass |
| Mechanics.WallBounce | js/animations/elasticCollision1D.js:212-225 | definition: the low-wall test, then the high-wall test on the possibly corrected position, each putting the body against the wall with velocity −e·v |
| Mechanics.BoundedPush | js/animations/collision2D.js:339-353 | definition: append the point, then drop the oldest when the list is longer than the cap |
| Mechanics.StartPositions | js/animations/elasticCollision1D.js:88-104 | definition: the three starting placements, chosen by the signs and order of the two velocities |
| Mechanics.ElasticConservesMomentum | js/animations/elasticCollision1D.js:163-164 | with m1 + m2 ≠ 0 the elastic velocities keep m1·v1 + m2·v2 |
| Mechanics.ElasticReversesApproach | js/animations/elasticCollision1D.js:163-164 | the relative velocity is reversed: v1' − v2' = v2 − v1 |
| Mechanics.ElasticConservesEnergy | js/animations/elasticCollision1D.js:163-164 | the elastic velocities keep m1·v1² + m2·v2² |
| Mechanics.ElasticEqualMassesSwap | js/animations/elasticCollision1D.js:163-164 | with equal masses the two velocities are exchanged |
| Mechanics.WallBounceCases | js/animations/elasticCollision1D.js:212-225 | the left-then-right wall check fires iff the body pokes through a wall and leaves an untouched body as it is; in an arena at least a diameter wide it puts the body against the wall it crossed with velocity −e·v and inside both walls; in a narrower arena a body through the left wall is reflected twice |
| Mechanics.BoundedPushSpec | js/animations/collision2D.js:339-353 | push-then-shift keeps a buffer within its cap, the new entry is last, and the oldest is dropped exactly when the buffer was full |
| Mechanics.StartPositionsCases | js/animations/elasticCollision1D.js:88-104 | each of the three placements (w/4, 3w/4), (pad, w/2), (w/3, 2w/3) holds exactly under its condition on v1 and v2, and the first body starts left of the second when the track is wider than twice the padding |
| Elastic1D.Momentum | js/animations/elasticCollision1D.js:136-138 | definition: calculateMomentum, mass times velocity |
| Elastic1D.Resolve | js/animations/elasticCollision1D.js:158-186 | definition: calculateCollision, the elastic velocities of the pair and both collided flags set |
| Elastic1D.PushApart | js/animations/elasticCollision1D.js:197-206 | definition: each centre moves half the overlap away from the other, by the order of the centres |
| Elastic1D.Encounter | js/animations/elasticCollision1D.js:188-209 | definition: the guarded part of checkCollision, push-apart then Resolve when the bodies touch and neither has collided, otherwise no change |
| Elastic1D.Walls | js/animations/elasticCollision1D.js:212-225 | definition: the lossless two-wall check of one body |
| Elastic1D.Tick | js/animations/elasticCollision1D.js:228-244 | a frame keeps two bodies and leaves every mass, radius and height unchanged |
| Elastic1D.ResolveConserves | js/animations/elasticCollision1D.js:158-186 | calculateCollision keeps total momentum and kinetic energy, swaps the velocities of equal masses, keeps positions and masses, and sets both collided flags |
| Elastic1D.PushApartSpec | js/animations/elasticCollision1D.js:197-206 | the overlap correction keeps x1 + x2, leaves the centres exactly r1 + r2 apart and keeps their left/right order |
| Elastic1D.NoResolutionAfterCollision | js/animations/elasticCollision1D.js:197 | once either collided flag is set, no later frame resolves a collision |
| Elastic1D.AtMostOneResolution | js/animations/elasticCollision1D.js:197-209 | in any run of frames without a reset the collision is resolved at most once |
| Elastic1D.ElasticCollision1D.constructor | js/animations/elasticCollision1D.js:9-42 | a new animation is stopped and holds the two bodies resetObjects builds |
| Elastic1D.ElasticCollision1D.ResetObjects | js/animations/elasticCollision1D.js:76-134 | both bodies rebuilt: radius 10 + 3·mass, centred vertically, placed by their velocities, flags clear |
| Elastic1D.ElasticCollision1D.CalculateCollision | js/animations/elasticCollision1D.js:158-186 | the new pair is the elastic resolution of the old pair |
| Elastic1D.ElasticCollision1D.CheckCollision | js/animations/elasticCollision1D.js:188-226 | the guarded push-apart and resolution, then the lossless wall check of each body |
| Elastic1D.ElasticCollision1D.Update | js/animations/elasticCollision1D.js:228-244 | the bodies after the frame are the one-frame function of the bodies before |
| Elastic1D.ElasticCollision1D.Start | js/animations/elasticCollision1D.js:312-328 | start toggles isRunning; from stopped it runs one frame, from running it changes nothing else |
| Elastic1D.ElasticCollision1D.Reset | js/animations/elasticCollision1D.js:330-359 | reset leaves the animation stopped with freshly built bodies whose collided flags are clear |
| Inelastic1D.BlendColors | js/animations/inelasticCollision1D.js:202-219 | definition: the floored average of each of the three parsed channels, written back as "#" and three two-digit lower-case channels |
| Inelastic1D.HexDigitRoundTrip | js/animations/inelasticCollision1D.js:218 | a digit written by toString(16) is lower case and parses back to its value |
| Inelastic1D.HexValueRoundTrip | js/animations/inelasticCollision1D.js:204-210 | a lower-case hex digit parses below 16 and is written back as itself |
| Inelastic1D.ChannelTextDigits | js/animations/inelasticCollision1D.js:218 | toString(16).padStart(2, '0') of a value below 256 is its two hex digits, high digit first |
| Inelastic1D.ChannelBound | js/animations/inelasticCollision1D.js:204-210 | a two-digit channel parses below 256 |
| Inelastic1D.FormatRoundTrip | js/animations/inelasticCollision1D.js:218 | three channels below 256 format to a canonical "#rrggbb" whose channels parse back to them |
| Inelastic1D.BlendColorsChannels | js/animations/inelasticCollision1D.js:202-219 | blendColors returns '#' and six lower-case digits, and each channel reads back as floor((a + b) / 2) |
| Inelastic1D.BlendColorsCommutes | js/animations/inelasticCollision1D.js:202-219 | blendColors is symmetric in its two colours |
| Inelastic1D.ChannelTextOfCanonical | js/animations/inelasticCollision1D.js:204-218 | a channel of a canonical colour is written back as the same two digits |
| Inelastic1D.BlendColorsSelf | js/animations/inelasticCollision1D.js:202-219 | blending a lower-case "#rrggbb" colour with itself gives it back |
| Inelastic1D.StartingColorsBlend | js/animations/inelasticCollision1D.js:116-126 | the two starting colours #3498db and #e74c3c blend to #8d728b |
| Inelastic1D.Merge | js/animations/inelasticCollision1D.js:161-183 | definition: calculateInelasticCollision, one body at the average x and the first body's y, with the summed mass, the common velocity, radius 1.2·sqrt(r1² + r2²) and the blended colour |
| Inelastic1D.Walls | js/animations/inelasticCollision1D.js:239-251 | definition: checkBoundaryCollision, the lossless two-wall check of one body |
| Inelastic1D.Tick | js/animations/inelasticCollision1D.js:253-280 | definition: update; once merged only the combined body drifts and is wall-checked; before that both bodies drift, a merge is made when the drifted bodies touch, and both originals are wall-checked |
| Inelastic1D.MergeConserves | js/animations/inelasticCollision1D.js:161-186 | the merged body has mass m1 + m2 and momentum m1·v1 + m2·v2, sits at the average x and obj1's y, has radius² = 1.44·(r1² + r2²) and the blended colour |
| Inelastic1D.MergeDissipates | js/animations/inelasticCollision1D.js:167-168 | the kinetic energy lost is m1·m2·(v1 − v2)² / (2(m1 + m2)); with positive masses the merged energy is at most the sum, with equality iff v1 = v2 |
| Inelastic1D.MergedStaysMerged | js/animations/inelasticCollision1D.js:254-259 | after the merge a frame leaves both original bodies unchanged and keeps the merged body's mass and colour |
| Inelastic1D.TickMergesWhenTouching | js/animations/inelasticCollision1D.js:262-270 | before the merge a frame merges exactly when the drifted centres are at most r1 + r2 apart, and the merged body carries the total mass and momentum |
| Inelastic1D.InelasticCollision1D.constructor | js/animations/inelasticCollision1D.js:10-44 | a new animation is stopped, with the two bodies and no merged body |
| Inelastic1D.InelasticCollision1D.ResetObjects | js/animations/inelasticCollision1D.js:78-137 | both bodies rebuilt from the inputs and the merged body cleared |
| Inelastic1D.InelasticCollision1D.CalculateInelasticCollision | js/animations/inelasticCollision1D.js:161-200 | the merged body becomes the merge of the two current bodies, which stay as they are |
| Inelastic1D.InelasticCollision1D.CheckCollision | js/animations/inelasticCollision1D.js:221-237 | a no-op once merged; otherwise it merges exactly when the bodies touch |
| Inelastic1D.InelasticCollision1D.CheckBoundaryCollision | js/animations/inelasticCollision1D.js:239-251 | the body against a wall it crossed with negated velocity, an in-bounds body unchanged, mass, radius and colour kept |
| Inelastic1D.InelasticCollision1D.Update | js/animations/inelasticCollision1D.js:253-280 | the scene after the frame is the one-frame function of the scene before |
| Inelastic1D.InelasticCollision1D.Start | js/animations/inelasticCollision1D.js:391-407 | start toggles isRunning and runs one frame when starting |
| Inelastic1D.InelasticCollision1D.Reset | js/animations/inelasticCollision1D.js:409-435 | reset leaves the animation stopped, both bodies rebuilt and no merged body |
| Elastic2D.CalculateMomentum | js/animations/collision2D.js:171-182 | definition: calculateMomentum, px = m·vx, py = m·vy and the length of (px, py) |
| Elastic2D.PushApart | js/animations/collision2D.js:325-332 | definition: each centre moves by half the overlap along the line of centres, away from the other |
| Elastic2D.Resolve | js/animations/collision2D.js:261-293 | definition: calculateCollision's velocity update, the normal parts through the 1D elastic formula and the tangent parts kept |
| Elastic2D.Contact | js/animations/collision2D.js:256-337 | definition: push-apart, then Resolve along the normal of the new centres |
| Elastic2D.AddPoint | js/animations/collision2D.js:339-353 | definition: addTrajectoryPoints, the bounded push of both centres and the collision flag |
| Elastic2D.Bounds | js/animations/collision2D.js:355-393 | definition: checkBoundaryCollision, lossless left/right then top/bottom checks and whether any wall was touched |
| Elastic2D.Tick | js/animations/collision2D.js:395-430 | definition: update, the first point when running with an empty list, the drift, checkCollision, and the wall checks with a point after any contact |
| Elastic2D.Collide | js/animations/collision2D.js:312-337 | checkCollision keeps the discs well formed, sets the collision flag iff it was set or the guard fires, and changes nothing when the guard does not fire |
| Elastic2D.Rebuild | js/animations/collision2D.js:289-293 | a velocity rebuilt from normal part a and tangent part t has those parts and squared speed a² + t² |
| Elastic2D.Decompose | js/animations/collision2D.js:274-278 | a velocity is the sum of its normal and tangent parts along a unit normal |
| Elastic2D.ResolveConservesMomentum | js/animations/collision2D.js:270-293 | along a unit normal the resolution keeps total px and py and each tangent part, reverses the relative normal velocity, and keeps positions, masses and radii |
| Elastic2D.ResolveConservesEnergy | js/animations/collision2D.js:285-293 | along a unit normal the resolution keeps the total kinetic energy |
| Elastic2D.NormalIsUnit | js/animations/collision2D.js:261-267 | for distinct centres (dx / d, dy / d) is a unit vector |
| Elastic2D.PushApartMoves | js/animations/collision2D.js:325-332 | the overlap correction keeps the midpoint and stretches the offset between the centres by (r1 + r2) / d along the line of centres |
| Elastic2D.PushApartTouches | js/animations/collision2D.js:325-332 | after the overlap correction the centres are exactly r1 + r2 apart |
| Elastic2D.ContactConserves | js/animations/collision2D.js:256-337 | the push-apart followed by the resolution keeps total px, total py, kinetic energy, masses and radii, and leaves the centres exactly r1 + r2 apart |
| Elastic2D.CollideConserves | js/animations/collision2D.js:312-337 | when the guard fires, total px, total py and kinetic energy are kept, the discs end up touching, the flag is set and the last trajectory point is a collision point |
| Elastic2D.BoundsCases | js/animations/collision2D.js:355-393 | the four-wall check reports true iff some wall was crossed, clamps each crossed axis with a negated, lossless velocity component, and leaves untouched axes alone |
| Elastic2D.MomentumMagnitude | js/animations/collision2D.js:171-182 | calculateMomentum gives px = m·vx, py = m·vy and a non-negative magnitude whose square is px² + py² |
| Elastic2D.InitialSpeeds | js/animations/collision2D.js:105-127 | with (cos, sin) unit pairs each disc starts with its given speed, the two 200 px apart on one height |
| Elastic2D.TickInvariant | js/animations/collision2D.js:395-430 | a frame keeps the discs well formed and the trajectory list within 100, and sets the flag iff it was set or the drifted discs collide |
| Elastic2D.NoResolutionAfterCollision | js/animations/collision2D.js:323 | once the flag is set no later frame of a run resolves a collision |
| Elastic2D.AtMostOneResolution | js/animations/collision2D.js:303-323 | between two resets the collision is resolved at most once |
| Elastic2D.Collision2D.constructor | js/animations/collision2D.js:9-44 | a new animation is stopped, with the two discs, no collision and no trajectory |
| Elastic2D.Collision2D.ResetObjects | js/animations/collision2D.js:94-169 | both discs rebuilt from the inputs, flag cleared, trajectory emptied |
| Elastic2D.Collision2D.AddTrajectoryPoints | js/animations/collision2D.js:339-353 | the trajectory becomes the bounded push of the new point, within 100 entries, nothing else changed |
| Elastic2D.Collision2D.CalculateCollision | js/animations/collision2D.js:256-310 | the discs become their resolution along the normal of the current centres, the flag is set and a collision point is recorded |
| Elastic2D.Collision2D.CheckCollision | js/animations/collision2D.js:312-337 | the scene after the call is the guarded push-apart and resolution of the scene before |
| Elastic2D.Collision2D.CheckBoundaryCollision | js/animations/collision2D.js:355-393 | returns the wall-checked disc and true iff a wall was crossed; an untouched disc is returned as it is |
| Elastic2D.Collision2D.DriftObjects | js/animations/collision2D.js:401-405 | every disc becomes its one-step drift, nothing else changed |
| Elastic2D.Collision2D.CheckBoundaries | js/animations/collision2D.js:410-421 | the discs become their wall-checked versions and a point is recorded iff some wall was touched |
| Elastic2D.Collision2D.Update | js/animations/collision2D.js:395-430 | the scene after the frame is the one-frame function of the scene before |
| Elastic2D.Collision2D.Start | js/animations/collision2D.js:589-605 | start toggles isRunning and runs one frame when starting |
| Elastic2D.Collision2D.Reset | js/animations/collision2D.js:607-647 | reset leaves the animation stopped with fresh discs, no collision and no trajectory |
| Fragmentation.Partition | js/animations/explosion.js:184-197 | the partition loop makes one factor per fragment |
| Fragmentation.ShareBounds | js/animations/explosion.js:193 | max(0.1, r·0.5)·m lies in [0.1·m, 0.5·m) for a draw r in [0, 1) and m > 0 |
| Fragmentation.PartitionSum | js/animations/explosion.js:184-197 | the mass factors add up exactly to the mass partitioned |
| Fragmentation.PartitionShares | js/animations/explosion.js:184-197 | from a positive mass every factor is positive, and each factor but the last lies in [0.1, 0.5) of the mass still unassigned |
| Fragmentation.PickInRange | js/animations/explosion.js:201 | floor(r·(i + 1)) lies in 0..i for a draw r in [0, 1) |
| Fragmentation.ShuffleFrom | js/animations/explosion.js:200-203 | the shuffle steps keep the length |
| Fragmentation.SwapPermutes | js/animations/explosion.js:202 | a swap keeps the multiset and the sum |
| Fragmentation.ShuffleFromPermutes | js/animations/explosion.js:200-203 | the shuffle steps from any position down keep the multiset and the sum |
| Fragmentation.ShuffledPermutes | js/animations/explosion.js:200-203 | the Fisher-Yates shuffle is a permutation: it keeps the multiset and the sum of the factors |
| Fragmentation.ShuffledPositive | js/animations/explosion.js:200-203 | positive factors stay positive after the shuffle |
| Fragmentation.Pieces | js/animations/explosion.js:208-236 | the fragment loop makes one fragment per factor but the last |
| Fragmentation.PieceMomentum | js/animations/explosion.js:217-223 | a drawn fragment carries momentum force·(cos, sin) whatever its mass |
| Fragmentation.PiecesShape | js/animations/explosion.js:208-236 | each drawn fragment starts at the original centre with its factor as mass and radius 10 + 1.5·mass |
| Fragmentation.ExplodeShape | js/animations/explosion.js:206-254 | one fragment per factor, all at the original centre, each with its factor as mass, the drawn ones with momentum force·(cos, sin) |
| Fragmentation.ExplodeCancels | js/animations/explosion.js:206-254 | the last fragment's velocity −total / lastMass makes the sums of m·vx and of m·vy over all fragments zero |
| Fragmentation.ExplodeMass | js/animations/explosion.js:206-254 | the fragments together have the mass of the factors |
| Fragmentation.Shuffled | js/animations/explosion.js:200-203 | definition: the Fisher-Yates steps from the last position down to position 1, position i swapped with floor(r·(i + 1)) |
| Fragmentation.Explode | js/animations/explosion.js:206-254 | definition: the drawn fragments, then a last one whose velocity is the accumulated momentum negated and divided by its mass |
| Fragmentation.Factors | js/animations/explosion.js:184-203 | the shuffled factors are one per fragment, non-zero, and add up to the original mass |
| Fragmentation.Blast | js/animations/explosion.js:161-263 | idempotent once exploded; otherwise n fragments at the original centre with total mass equal to the original's and zero momentum in both axes, trajectories kept, clock at 0 |
| Fragmentation.Fresh | js/animations/explosion.js:93-123 | definition: resetObjects, the body at rest in the centre with radius 15 + 2·mass, no fragments, no trajectories, not exploded |
| Fragmentation.Bounce | js/animations/explosion.js:315-347 | definition: checkBoundaryCollision, the four wall checks with restitution 0.9 and whether any fired |
| Fragmentation.Record | js/animations/explosion.js:295-313 | definition: addTrajectoryPoints, nothing before the explosion, afterwards the bounded push of the time and every centre |
| Fragmentation.Frame | js/animations/explosion.js:349-380 | definition: update; after the explosion the clock advances, every fragment drifts and bounces, and positions are recorded when round(t / dt) is a multiple of 3; before it only the radius pulses |
| Fragmentation.BounceCases | js/animations/explosion.js:315-347 | the four-wall check fires iff some wall was crossed, clamps each crossed axis with velocity component −0.9 times the old one, and leaves untouched axes alone |
| Fragmentation.RecordSpec | js/animations/explosion.js:295-313 | nothing before the explosion; afterwards a snapshot of the time and every centre is appended last and the buffer stays within 100 |
| Fragmentation.TotalMassStep | js/animations/explosion.js:355-361 | moving and bouncing the fragments keeps their total mass |
| Fragmentation.FrameSpec | js/animations/explosion.js:349-380 | a frame keeps the invariant; before the explosion only the pulsing radius changes; afterwards the fragment count and total mass are kept, the clock ticks from k·dt to (k + 1)·dt and a sample is recorded iff (k + 1) is a multiple of 3 |
| Fragmentation.FlightKeepsMomentum | js/animations/explosion.js:355-361 | while no fragment reaches a wall a frame keeps both momentum sums |
| Fragmentation.FreshAtRest | js/animations/explosion.js:93-123 | the reset body sits at rest in the centre with radius 15 + 2·mass, and there are no fragments or trajectories |
| Fragmentation.PartitionMass | js/animations/explosion.js:184-197 | the partition loop fills a fresh array with exactly the partition of the total mass |
| Fragmentation.Shuffle | js/animations/explosion.js:200-203 | the in-place shuffle leaves the array holding the shuffle of its old contents |
| Fragmentation.MakeFragments | js/animations/explosion.js:206-254 | the fragment loop and the last fragment produce exactly the exploded fragment list |
| Fragmentation.Explosion.constructor | js/animations/explosion.js:9-46 | a new animation is stopped and holds the unexploded body |
| Fragmentation.Explosion.ResetObjects | js/animations/explosion.js:93-123 | the state becomes the unexploded body at rest with no fragments or trajectories |
| Fragmentation.Explosion.CreateExplosion | js/animations/explosion.js:161-263 | the state after the call is the explosion of the state before |
| Fragmentation.Explosion.AddTrajectoryPoints | js/animations/explosion.js:295-313 | the state after the call is the recorded state |
| Fragmentation.Explosion.CheckBoundaryCollision | js/animations/explosion.js:315-347 | returns the bounced fragment and true iff a wall was crossed; an untouched fragment is returned as it is |
| Fragmentation.Explosion.Update | js/animations/explosion.js:349-380 | the state after the frame is the one-frame function of the state before |
| Fragmentation.Explosion.Start | js/animations/explosion.js:566-585 | start toggles isRunning and runs one frame when starting |
| Fragmentation.Explosion.Reset | js/animations/explosion.js:587-607 | reset leaves the animation stopped with the unexploded body |
| Propulsion.Launchpad | js/animations/rocketPropulsion.js:83-129 | definition: resetSimulation, the rocket on the pad at rest and unlaunched with an empty trail, nothing burnt, no particles |
| Propulsion.Spawn | js/animations/rocketPropulsion.js:189-205 | definition: one exhaust particle at the rocket's base with the jitter of its draws, heading π/2 plus the angle variation, at −exhaustVelocity plus the speed variation, with a third of the burnt mass and lifespan 1 |
| Propulsion.Exhaust | js/animations/rocketPropulsion.js:166-207 | definition: addExhaustParticle; with propellant left, burnRate·dt is burnt, clamped at the load, and three particles are appended; with none left, nothing changes |
| Propulsion.Spawned | js/animations/rocketPropulsion.js:189-205 | the particle loop makes exactly as many particles as asked |
| Propulsion.SpawnedShape | js/animations/rocketPropulsion.js:189-205 | the particles appear in loop order, each built from its own draws |
| Propulsion.ExhaustSpec | js/animations/rocketPropulsion.js:166-207 | a burn keeps 0 ≤ used ≤ load and never lowers the propellant used; with propellant left it appends exactly 3 particles of mass burnRate·dt/3 (the unclamped amount), lifespan 1, radius in [3, 6) and speed within 1 of −exhaustVelocity, and clamps the propellant used at the load; with none left it changes nothing |
| Propulsion.Fly | js/animations/rocketPropulsion.js:234-272 | definition: updateRocket, launch, a = thrust / current mass − 9.8, v += a·dt, y −= v·dt·scale, and a trail point when the trail length is a multiple of 5 |
| Propulsion.FlySpec | js/animations/rocketPropulsion.js:234-272 | the current mass is at least the dry mass; the thrust is burnRate·exhaustVelocity while propellant remains and the acceleration −9.8 once it is gone; v += a·dt, then y −= v·dt·scale; an empty trail gets one point and a one-point trail is left alone |
| Propulsion.Advance | js/animations/rocketPropulsion.js:212-225 | definition: one particle's frame, moving along its heading, bending the heading with the host's atan2, and ageing by dt |
| Propulsion.Kept | js/animations/rocketPropulsion.js:209-232 | definition: updateExhaustParticles as a filter, every particle advanced and those with lifespan ≤ 0 dropped, the rest in order |
| Propulsion.KeptSpec | js/animations/rocketPropulsion.js:209-232 | every kept particle is alive, every advanced particle still alive is kept, the kept list is the advanced list with some left out in order, and it is no longer than before |
| Propulsion.KeptConcat | js/animations/rocketPropulsion.js:209-232 | the exhaust update of a concatenation is the concatenation of the updates of its parts |
| Propulsion.KeptFramesConcat | js/animations/rocketPropulsion.js:209-232 | so is the result of k successive exhaust updates |
| Propulsion.SingleParticleFrames | js/animations/rocketPropulsion.js:209-232 | a live particle, after k exhaust updates, has lifespan L − k·dt and is still in the list, advanced k times, iff L − k·dt > 0 |
| Propulsion.LifespanFrames | js/animations/rocketPropulsion.js:202-229 | a particle spawned with lifespan 1, anywhere in the list, is still there after k exhaust updates, advanced k times with lifespan 1 − k·0.05, iff k < 20; the particles around it are updated independently |
| Propulsion.CalculateMomentum | js/animations/rocketPropulsion.js:131-143 | definition: calculateMomentum, the rocket's momentum (current mass times velocity), the exhaust's (propellant used times −exhaustVelocity) and their sum |
| Propulsion.MomentumSpec | js/animations/rocketPropulsion.js:131-143 | total = currentMass·velocity − used·exhaustVelocity, the exhaust part is never positive for a non-negative exhaust speed, and all three are zero right after resetSimulation |
| Propulsion.Frame | js/animations/rocketPropulsion.js:274-296 | definition: update; while running, addExhaustParticle, updateRocket, then updateExhaustParticles; when stopped, nothing |
| Propulsion.FrameSpec | js/animations/rocketPropulsion.js:274-296 | a frame keeps the invariant and the load, never lowers the propellant used, keeps a trail of at most one point that short, and once the tank is empty only gravity slows the rocket |
| Propulsion.RunKeepsPropellant | js/animations/rocketPropulsion.js:171-178 | along any run from a valid start, the state stays valid and the propellant used only grows, never beyond the load |
| Propulsion.RunTrailAtMostOne | js/animations/rocketPropulsion.js:260-271 | the trail grows only at lengths that are multiples of 5, so a trail that starts with at most one point never holds more than one |
| Propulsion.KeptLoopStep | js/animations/rocketPropulsion.js:211-231 | one step of the reverse loop (advance the particle, splice it out when expired) extends the filtered suffix by that particle |
| Propulsion.RocketPropulsion.constructor | js/animations/rocketPropulsion.js:10-44 | a new animation is stopped with the rocket on the pad |
| Propulsion.RocketPropulsion.ResetSimulation | js/animations/rocketPropulsion.js:83-129 | the rocket on the pad at rest, unlaunched, with an empty trail; nothing burnt; no particles |
| Propulsion.RocketPropulsion.AddExhaustParticle | js/animations/rocketPropulsion.js:166-207 | the state after the call is the burn of the state before |
| Propulsion.RocketPropulsion.UpdateRocket | js/animations/rocketPropulsion.js:234-272 | the state after the call is the flight step of the state before |
| Propulsion.RocketPropulsion.UpdateExhaustParticles | js/animations/rocketPropulsion.js:209-232 | the reverse splice loop leaves exactly the advanced particles that are still alive, in their order, and the rocket untouched |
| Propulsion.RocketPropulsion.Update | js/animations/rocketPropulsion.js:274-296 | the state after the frame is the one-frame function of the state before |
| Propulsion.RocketPropulsion.Start | js/animations/rocketPropulsion.js:479-495 | start toggles isRunning and runs one frame when starting |
| Propulsion.RocketPropulsion.Reset | js/animations/rocketPropulsion.js:497-509 | reset leaves the animation stopped with the rocket back on the pad |

## Left out

- Drawing, the DOM and scheduling are not modelled: `render` and the `draw*` functions, `setupControls`, button labels and `disabled` flags, the `toFixed` text of `updateMomentumDisplay`, `updateMomentumAfterCollision` and `updateAfterExplosionMomentum`, and `requestAnimationFrame`/`cancelAnimationFrame`. These only produce output.
- `js/main.js` (navigation and canvas sizing) and `js/theme.js` (theme switching) are DOM plumbing. They are not part of this model.
- `js/animations/config.js` is static data; it is not part of this model. Two of its keys, `elastic1D` and `inelastic1D`, differ from the `elasticCollision1D` and `inelasticCollision1D` that the two 1D classes read; the other three match. No entry has the `parameters` field the classes read their defaults from. So masses, velocities, angles, counts and force are explicit inputs here.
- Floating point is not modelled: all quantities are exact reals, and the conservation laws hold exactly.
- Transcendental functions are not computed.
  - `Math.sqrt` is a parameter with its exact defining property.
  - `Math.cos`, `Math.sin` and `Math.atan2` are unconstrained parameters.
  - The 2D start velocities and the explosion directions come in as (cos, sin) pairs.
  - `toRadians`/`toDegrees` and the display-only `speed` and `angle` fields are not kept.
- `Math.random` is replaced by sequences of draws in [0, 1). Colours are dropped: `generateRandomColor` and the exhaust particles' rgba strings are output only. The fixed starting colours of the inelastic demonstration are kept, because they are blended.
- The clock-driven pulsation of the unexploded body is a parameter `pulse`; `Date.now()` is not modelled.
- Explosion's `calculateMomentum` and its total display are not modelled as an operation; the momentum sums `MomentumX`/`MomentumY` stand for them.
- Explosion's mass-factor array is created at its full length and filled by index, where the source pushes onto an empty array. The contents are the same.
- Elastic2D.Collide: it and the members that call it (`CheckCollision`, `Update`, `Start`, `CalculateCollision`) require the two centres to be apart when the collision guard fires. The source divides by that distance, so coincident centres produce NaN there.
- Fragmentation.Blast: it requires at least one fragment and a positive mass (`Explosion.CreateExplosion` and the constructor as well). With zero fragments the source indexes `massFactors[-1]` and builds an undefined fragment.
- Elastic1D.ElasticCollision1D.ResetObjects: it (and the 1D and 2D constructors and resets) requires positive masses. A zero total mass would make the collision formulas divide by zero.
- Propulsion.RocketPropulsion.ResetSimulation: it (and the constructor and `Reset`) requires dryMass > 0, propellantMass ≥ 0 and burnRate ≥ 0. A positive dry mass keeps the current mass, which updateRocket divides by, positive. Under these bounds the propellant bookkeeping is proved.
- Inelastic1D.BlendColors: it requires both colours to have six hexadecimal digits after the first character. The source applies `parseInt` to anything and would produce NaN channels.
- Propulsion.Advance: a particle's new heading is the host's atan2 of the bent velocity. No property of the particle angles is stated beyond this definition. Particle positions are only drawn.

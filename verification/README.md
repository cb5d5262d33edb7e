# Rabbit game rules in Dafny

This project models the game rules of Rabbit's `GameScene`, a side-scrolling
game where the player taps to flap. The rules are lifted out of the
SpriteKit scene into a pure state machine over an immutable `Scene` record.
The record holds:

- the game state (`Active` or `GameOver`);
- the points;
- the neglect timer (`sinceTouch`) and the spawn timer;
- the protagonist's body: velocity, spin, orientation and rotation lock;
- the scroll layer and its two ground sprites;
- the obstacle layer and its obstacles.

Three transitions act on it:

- `DidBegin`: a physics contact between two named nodes.
- `TouchesBegan`: a touch.
- `Update`: one frame. It steers the protagonist (`SteerHero`), scrolls the
  ground (`ScrollWorld`) and moves, despawns and spawns obstacles
  (`UpdateObstacles`).

`Runs` feeds any sequence of these events to a scene. It proves that:

- the score counts goal contacts;
- game over is final;
- a scene invariant holds in every scene reachable from a loaded scene whose
  two ground sprites sit exactly one width apart (gap-free ground, timers in
  range, obstacles inside the screen and spawn bands);
- in exact arithmetic, obstacles spawn on a fixed 90-frame cadence.

Modules:

- `Tuning`: the scene's constants as exact reals. One frame is 1/60 s, the
  scroll speed is 160, the rise cap is 400, the spin bound is 2, the
  orientation bounds are -20 and 30 degrees, and the spawn interval is 1.5 s.
- `Geometry`: points, and the translation between layer and scene coordinates.
- `Physics`: the body, impulses, and the saturating clamps.
- `Contact`: classifying a contact as score, lethal or ignored.
- `Ground`: the two-segment ground wrap-around.
- `Obstacles`: the obstacle field.
- `Scene`: the state and its three transitions.
- `Runs`: event sequences and the properties over them.

How the host environment is modelled:

- The screen width, the protagonist's mass and its moment of inertia are
  parameters (`Env`). The two inertia values only need to be positive.
- An impulse adds impulse/mass to the velocity. An angular impulse adds
  impulse/moment to the spin, and has no effect while the body's rotation is
  locked.
- Converting between a layer and the scene is a pure translation.
- The random obstacle height is an argument of type `SpawnHeight`, a real in
  [-100, 200].
- Loading the scene file is a `Layout` argument that supplies the protagonist,
  the ground and the obstacle layer. The model assumes the obstacle layer is
  empty when the scene loads and that the two ground sprites have equal
  widths and are loaded exactly one width apart.
- Restarting presents a freshly loaded scene, so it is modelled as
  `Initial(layout)`.

Three consequences of the code's order of operations:

- Segment 2 is placed relative to segment 1's position as already updated in
  the same frame. The result can differ from the opposite order, although the
  ground stays gap-free either way.
- Both timers advance by the fixed 1/60 s per frame, not by the frame's
  actual duration. So the spawn cadence is counted in frames.
- A new obstacle appears at scene x = half the screen width, not beyond it.

## Model

| member | source | states |
|---|---|---|
| Contact.Classify | GameScene.swift:73-92 | A goal on either side scores in any state. Any other contact is lethal exactly when the game is running, and ignored exactly when it is over. |
| Contact.ClassifySymmetric | GameScene.swift:74 | The outcome does not depend on which body the engine reports first. |
| Scene.DidBegin | GameScene.swift:64-98 | A goal contact adds exactly one point and changes nothing else, in either state. A non-goal contact while running switches to GameOver, locks rotation, zeroes the spin and leaves everything else alone. A non-goal contact after game over changes nothing. |
| Runs.NoDoubleGameOver | GameScene.swift:87-92 | A lethal contact ends a running game, and repeating it changes nothing more. |
| Scene.TouchesBegan | GameScene.swift:128-143 | After game over a touch changes nothing. While running, the velocity is zeroed before the flap, so the resulting momentum is exactly the (0, 250) impulse. The spin gains exactly the angular impulse 1 unless rotation is locked. The neglect timer is reset to 0. Nothing else changes. |
| Physics.ApplyImpulse | GameScene.swift:134 | The momentum changes by exactly the impulse, and nothing but the velocity changes. |
| Physics.ApplyAngularImpulse | GameScene.swift:139 | The angular momentum changes by exactly the impulse while rotation is allowed. With rotation locked the impulse has no effect. |
| Physics.Clamp | GameScene.swift:228-229 | The result lies in [lo, hi], and a value already in range is unchanged. |
| Physics.CapAbove | GameScene.swift:219-221 | The result is at most the cap, and a value already below it is unchanged. There is no lower bound. |
| Physics.ClampIdempotent | GameScene.swift:219-229 | Both saturations are idempotent. |
| Physics.ClampIsNearest | GameScene.swift:219-229 | Each saturation returns the point of its interval nearest to the input. |
| Scene.NeglectImpulse | GameScene.swift:223-226 | The nose-down impulse is non-zero exactly when more than 0.1 s have passed since the last touch, and then it is -20000/60. |
| Scene.SteerHero | GameScene.swift:217-229 | After a frame: vertical velocity is the one-sided saturation of the old one at 400 (exactly 400 if it was above, unchanged otherwise); horizontal velocity is untouched; orientation is the old one saturated into [-20°, 30°]; spin is in [-2, 2] and equals the saturated spin after the neglect impulse. |
| Scene.Update | GameScene.swift:214-238 | A frame after game over changes nothing. A running frame keeps the state and points. It steers the protagonist, adds exactly 1/60 to `sinceTouch`, scrolls the ground and updates the obstacles. It then adds 1/60 to the spawn timer, counting from 0 if the frame spawned. |
| Runs.NeglectTurnsNoseDown | GameScene.swift:223-229 | Past the neglect delay, the spin of a rotating protagonist with in-range spin never increases. It strictly decreases unless already at -2. |
| Runs.NoTorqueAfterTouch | GameScene.swift:223-229 | Within 0.1 s of a touch no torque is applied and the spin is only clamped. |
| Ground.Reposition | GameScene.swift:189-199 | A segment past the left edge moves to the other segment's scene x plus its own width and keeps its scene y and its width. A segment not past the edge is unchanged. |
| Ground.ScrollWorld | GameScene.swift:182-212 | The scroll layer moves left by 160/60. Segment 1 wraps relative to segment 2. Segment 2 then wraps relative to segment 1's updated position. Segments not past the edge keep their position, and widths and layer y positions never change. |
| Ground.ScrollKeepsContiguous | GameScene.swift:182-212 | If the two equal-width segments are exactly one width apart before a frame, they still are after it. |
| Ground.WrappedSegmentTrails | GameScene.swift:192-211 | A wrapped segment ends up exactly one width to the right of the other segment in layer coordinates. |
| Ground.GroundStaysContiguous | GameScene.swift:182-212 | After any number of frames the ground has no gap, and the layer has moved left by exactly that many frames of scroll. |
| Obstacles.Despawn | GameScene.swift:151-162 | The survivors are exactly the obstacles whose scene x is greater than minus half the screen width, each kept as often as it occurred. |
| Obstacles.DespawnAppend | GameScene.swift:151-162 | Sweeping two runs of children is sweeping each run and joining the results. |
| Obstacles.DespawnSingleton | GameScene.swift:151-162 | A single child survives exactly when it is on screen. With `DespawnAppend` this makes the sweep an order-preserving filter. |
| Obstacles.RemoveOffscreen | GameScene.swift:151-162 | The loop over a snapshot of the children computes exactly the survivors that `Despawn` describes. |
| Obstacles.UpdateObstacles | GameScene.swift:145-180 | The layer moves left by 160/60. The survivors stay in order. If the timer has reached 1.5, exactly one obstacle is appended, at scene (w/2, y), and the timer is reset to 0. Otherwise nothing is added and the timer is unchanged. |
| Obstacles.UpdateKeepsInBand | GameScene.swift:148-175 | If every obstacle's scene position lies in x ∈ (-w/2, w/2] and y ∈ [-100, 200] before a frame, this still holds after it. |
| Geometry.ConversionRoundTrip | GameScene.swift:154-175 | Converting from the layer to the scene and back, or the other way, returns the original point. |
| Runs.Step | GameScene.swift:64-238 | Every event adds one point exactly when it is a goal contact, and no event leaves GameOver. |
| Runs.ScoreCountsGoals | GameScene.swift:74-84 | Over any event sequence, in any state, the points grow by exactly the number of goal contacts. |
| Runs.GameOverIsFinal | GameScene.swift:215 | From GameOver, any event sequence changes nothing but the points, which grow by the number of goal contacts. Together with the gates at lines 87 and 129, no transition leads back to Active. |
| Runs.RestartResets | GameScene.swift:19-29 | A freshly loaded scene runs with 0 points, no obstacles and both timers at 0, and, when its two ground sprites are loaded one width apart, it satisfies the scene invariant. |
| Runs.StepKeepsInv | GameScene.swift:182-237 | Every event preserves the invariant: gap-free ground, `sinceTouch` ≥ 0, spawn timer in [0, 1.5 + 1/60), obstacles in band, and after game over the rotation is locked and the spin is 0. |
| Runs.RunKeepsInv | GameScene.swift:182-237 | Any event sequence preserves the invariant. |
| Runs.ReachableSatisfiesInv | GameScene.swift:19-237 | Every scene reachable from a freshly loaded one whose two ground sprites are loaded one width apart satisfies the invariant. |
| Runs.ObstaclesScrollWithGround | GameScene.swift:148-184 | In a running frame every obstacle's scene x decreases by exactly 160/60, the same distance the ground layer moves. |
| Runs.SpawnIsTimerDriven | GameScene.swift:164-179 | A running frame appends exactly one obstacle after the survivors exactly when the spawn timer has reached 1.5. Otherwise the obstacles are exactly the survivors. |
| Runs.TimerStep | GameScene.swift:164-237 | A running frame stays running and leaves the spawn timer at 1/60 more than it was, or at exactly 1/60 if the frame spawned. |
| Runs.SpawnCadence | GameScene.swift:164-237 | Starting from a timer holding k frames (k ≤ 90), exactly one of the next 91 - k frames spawns, the last one, and the timer then holds one frame. In exact arithmetic, a fresh scene first spawns on frame 91 and then every 90 frames, i.e. every 1.5 s. |
| Tuning.SpawnIntervalIsWholeFrames | GameScene.swift:164 | The 1.5 s spawn interval is exactly 90 frames of 1/60 s; the spawn cadence uses this to show that a frame starting with 90 frames on the timer spawns. |

## Left out

- The physics engine's integration of velocities into positions and angles between frames. Impulses are modelled as immediate velocity changes. Nothing integrates the spin into the orientation, so in the model the orientation changes only through the clamp.
- The heroDeath action (face-down pose and cleared collision mask), `removeAllActions`, the Shake action, the flap sound, the score label and the restart button. These are presentation only.
- Restart: reloading the scene file and presenting it is I/O. It is modelled as constructing `Initial(layout)`.
- The spinny-node touch visuals and `touchesMoved`/`touchesEnded`/`touchesCancelled`. They are decorative.
- `lastUpdateTime` and the frame's `currentTime`. They are assigned but never read.
- The runtime traps of the scene's force-unwraps and forced casts. The model assumes that all of the following succeed, so none of their crash paths is modelled:
  - every contact body has a node (GameScene.swift:70-71);
  - the protagonist has a physics body (GameScene.swift:229);
  - the "Shake" action loads (GameScene.swift:118);
  - every child of the obstacle layer is an `SKReferenceNode` (GameScene.swift:151);
  - the Obstacle.sks resource path exists (GameScene.swift:168);
  - the scroll layer has at least two children and both are sprites (GameScene.swift:185-186);
  - the scene has `scrollLayer` and `obstacleLayer` children (GameScene.swift:36-37). They are looked up without a cast, so a missing layer would trap only where the implicitly unwrapped field is read (GameScene.swift:148, 184);
  - the scene's `protagonist`, `buttonRestart` and `scoreLabel` nodes exist with the expected types (forced casts at GameScene.swift:35, 38-39; the fields are read at 80, 104 and in every protagonist access).

  The `Ground` and `Layout` records build these assumptions in. An unnamed node is represented by any name other than "goal".
- Floating-point rounding. Times and positions are exact reals, and pi is its double-precision value.
- Runs.SpawnCadence: the 90-frame cadence holds only in exact arithmetic. The source accumulates `spawnTimer` as a double, adding 1.0/60.0 each frame. Ninety such additions give 1.4999999999999996, which is below 1.5. So the program as written first spawns on frame 92 and then every 91 frames, about 1.517 s. The neglect threshold is unaffected: in both arithmetics the 7th frame after a touch is the first with `sinceTouch` > 0.1.
- Scene.DidBegin: `points` is an unbounded natural number. Swift's 64-bit `Int` would trap at 2^63 - 1, which no game reaches.
- Ground.ScrollKeepsContiguous: proved only for two segments of equal width placed exactly one width apart, which the model assumes the loaded scene provides. With unequal widths the source's "other x plus own width" placement would leave a gap or an overlap.

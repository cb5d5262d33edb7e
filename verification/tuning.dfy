/** The scene's tuning constants, as exact reals.

    `fixedDelta` and `scrollSpeed` are fields of the scene; the others are
    literals written inline in the frame update, the touch handler and the
    obstacle spawner. Floating-point rounding is not modelled. */
module Tuning {

  /** Simulated seconds per frame (60 frames per second). */
  const FixedDelta: real := 1.0 / 60.0

  /** Horizontal speed of the ground and obstacle layers, in points per second. */
  const ScrollSpeed: real := 160.0

  /** Upper bound on the protagonist's vertical velocity; there is no lower bound. */
  const MaxRiseSpeed: real := 400.0

  /** Seconds without a touch after which the nose-down torque kicks in. */
  const NeglectDelay: real := 0.1

  /** Angular impulse applied every frame once the player has neglected the protagonist. */
  const NeglectTorque: real := -20000.0 * FixedDelta

  /** Bound on the protagonist's angular velocity, in radians per second, both ways. */
  const MaxSpin: real := 2.0

  /** Upward impulse and angular impulse of one flap. */
  const FlapImpulse: real := 250.0
  const FlapSpin: real := 1.0

  /** Seconds of simulated time between two obstacle spawns. */
  const SpawnInterval: real := 1.5

  /** Band of scene heights a new obstacle is placed in. */
  const SpawnLow: real := -100.0
  const SpawnHigh: real := 200.0

  /** Pi at double precision, used by the degree-to-radian conversion. */
  const Pi: real := 3.141592653589793

  function Radians(degrees: real): real
  {
    degrees * Pi / 180.0
  }

  /** Orientation bounds of the protagonist: -20 and 30 degrees. */
  const MinRotation: real := Radians(-20.0)
  const MaxRotation: real := Radians(30.0)

  /** Number of frames in one spawn interval. */
  const SpawnFrames: nat := 90

  /** The spawn interval is a whole number of frames. */
  lemma SpawnIntervalIsWholeFrames()
    ensures SpawnFrames as real * FixedDelta == SpawnInterval
  {
  }

  /** Frame counts and the simulated time they add up to. */
  lemma FrameTime(k: nat)
    ensures (k + 1) as real * FixedDelta == k as real * FixedDelta + FixedDelta
    ensures k < SpawnFrames ==> k as real * FixedDelta < SpawnInterval
  {
  }
}

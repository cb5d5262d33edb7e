/** The protagonist's rigid body, reduced to the quantities the game rules
    read and write, with impulses and the saturating clamps of the frame
    update. How the engine integrates velocities between frames is not part
    of this model. */
module Physics {
  import opened Geometry

  /** Velocity, spin, orientation (radians) and the rotation lock of a body. */
  datatype Body = Body(velocity: Vec, angularVelocity: real, zRotation: real, allowsRotation: bool)

  /** The body's mass and moment of inertia, chosen by the engine from the
      sprite's shape; the game only relies on them being positive. */
  datatype Inertia = Inertia(mass: real, moment: real)
  {
    predicate Valid()
    {
      mass > 0.0 && moment > 0.0
    }
  }

  function Distance(a: real, b: real): real
  {
    if a <= b then b - a else a - b
  }

  /** Saturation of `x` into [lo, hi]: it lands in the interval and leaves
      values already there alone. */
  function Clamp(x: real, lo: real, hi: real): (r: real)
    requires lo <= hi
    ensures lo <= r <= hi
    ensures lo <= x <= hi ==> r == x
  {
    if x < lo then lo else if x > hi then hi else x
  }

  /** One-sided saturation into (-infinity, hi]. */
  function CapAbove(x: real, hi: real): (r: real)
    ensures r <= hi
    ensures x <= hi ==> r == x
  {
    if x > hi then hi else x
  }

  /** The saturations are nearest-point projections: no point of the
      target interval is closer to `x` than the clamped value. */
  lemma ClampIsNearest(x: real, lo: real, hi: real, y: real)
    requires lo <= hi
    ensures lo <= y <= hi ==> Distance(Clamp(x, lo, hi), x) <= Distance(y, x)
    ensures y <= hi ==> Distance(CapAbove(x, hi), x) <= Distance(y, x)
  {
  }

  /** Clamping twice is clamping once. */
  lemma ClampIdempotent(x: real, lo: real, hi: real)
    requires lo <= hi
    ensures Clamp(Clamp(x, lo, hi), lo, hi) == Clamp(x, lo, hi)
    ensures CapAbove(CapAbove(x, hi), hi) == CapAbove(x, hi)
  {
  }

  /** Clamping never reverses the order of two values. */
  lemma ClampMonotone(x: real, y: real, lo: real, hi: real)
    requires lo <= hi && x <= y
    ensures Clamp(x, lo, hi) <= Clamp(y, lo, hi)
  {
  }

  /** A linear impulse changes the momentum by exactly the impulse. */
  function ApplyImpulse(b: Body, m: Inertia, impulse: Vec): (r: Body)
    requires m.Valid()
    ensures (r.velocity.x - b.velocity.x) * m.mass == impulse.x
    ensures (r.velocity.y - b.velocity.y) * m.mass == impulse.y
    ensures r.(velocity := b.velocity) == b
  {
    b.(velocity := Vec(b.velocity.x + impulse.x / m.mass, b.velocity.y + impulse.y / m.mass))
  }

  /** An angular impulse changes the angular momentum by exactly the impulse,
      unless the body's rotation is locked, in which case it has no effect. */
  function ApplyAngularImpulse(b: Body, m: Inertia, impulse: real): (r: Body)
    requires m.Valid()
    ensures b.allowsRotation ==> (r.angularVelocity - b.angularVelocity) * m.moment == impulse
    ensures !b.allowsRotation ==> r == b
    ensures r.(angularVelocity := b.angularVelocity) == b
  {
    if b.allowsRotation then b.(angularVelocity := b.angularVelocity + impulse / m.moment) else b
  }
}

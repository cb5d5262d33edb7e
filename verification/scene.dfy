/** The scene's game rules as a state machine: a contact handler, a touch
    handler and a per-frame update over an immutable scene state. */
module Scene {
  import opened Tuning
  import opened Geometry
  import opened Physics
  import opened Contact
  import opened Ground
  import opened Obstacles

  datatype GameState = Active | GameOver

  /** What the host supplies: the screen width and the protagonist's inertia. */
  datatype Env = Env(screenWidth: real, inertia: Inertia)
  {
    predicate Valid()
    {
      screenWidth > 0.0 && inertia.Valid()
    }
  }

  /** What the scene file provides when it is loaded: the protagonist's body,
      the scroll layer with its two ground sprites, and the (empty) obstacle
      layer's offset. */
  datatype Layout = Layout(hero: Body, ground: Ground, obstacleLayer: Vec)

  /** The simulation state of the scene. */
  datatype Scene = Scene(
    gameState: GameState,
    points: nat,
    sinceTouch: real,
    hero: Body,
    ground: Ground,
    field: Field)

  /** The scene as loaded: running, no points, both timers at zero and no
      obstacles. Restarting presents a freshly loaded scene, so this is also
      the only way back from game over. */
  function Initial(layout: Layout): Scene
  {
    Scene(Active, 0, 0.0, layout.hero, layout.ground, Field(layout.obstacleLayer, [], 0.0))
  }

  /** The game-over transition: the rotation is locked and the spin stopped. */
  function Die(s: Scene): Scene
  {
    s.(gameState := GameOver, hero := s.hero.(allowsRotation := false, angularVelocity := 0.0))
  }

  /** Contact between two nodes. A goal scores one point in any state and
      nothing else changes; any other contact ends a running game and is
      ignored once the game is over. */
  function DidBegin(s: Scene, nameA: string, nameB: string): (r: Scene)
    ensures IsGoal(nameA, nameB) ==> r == s.(points := s.points + 1)
    ensures !IsGoal(nameA, nameB) && s.gameState == GameOver ==> r == s
    ensures !IsGoal(nameA, nameB) && s.gameState == Active ==>
      && r.gameState == GameOver
      && !r.hero.allowsRotation && r.hero.angularVelocity == 0.0
      && r.hero.velocity == s.hero.velocity && r.hero.zRotation == s.hero.zRotation
      && r.(gameState := s.gameState, hero := s.hero) == s
  {
    match Classify(s.gameState == Active, nameA, nameB)
    case Score => s.(points := s.points + 1)
    case Ignore => s
    case Lethal => Die(s)
  }

  /** A touch while running: the velocity is zeroed, then the flap impulse
      and the flap spin are applied and the neglect timer restarts. Ignored
      once the game is over. */
  function TouchesBegan(env: Env, s: Scene): (r: Scene)
    requires env.Valid()
    ensures s.gameState != Active ==> r == s
    ensures s.gameState == Active ==>
      && r.hero.velocity.x == 0.0
      && r.hero.velocity.y * env.inertia.mass == FlapImpulse
      && (s.hero.allowsRotation ==>
            (r.hero.angularVelocity - s.hero.angularVelocity) * env.inertia.moment == FlapSpin)
      && (!s.hero.allowsRotation ==> r.hero.angularVelocity == s.hero.angularVelocity)
      && r.hero.zRotation == s.hero.zRotation && r.hero.allowsRotation == s.hero.allowsRotation
      && r.sinceTouch == 0.0
      && r.(hero := s.hero, sinceTouch := s.sinceTouch) == s
  {
    if s.gameState != Active then s
    else
      var stopped := s.hero.(velocity := Vec(0.0, 0.0));
      var pushed := ApplyImpulse(stopped, env.inertia, Vec(0.0, FlapImpulse));
      s.(hero := ApplyAngularImpulse(pushed, env.inertia, FlapSpin), sinceTouch := 0.0)
  }

  /** The nose-down angular impulse of one frame: applied exactly when the
      player has not touched for longer than the neglect delay. */
  function NeglectImpulse(sinceTouch: real): (j: real)
    ensures j < 0.0 <==> sinceTouch > NeglectDelay
    ensures j == 0.0 || j == NeglectTorque
  {
    if sinceTouch > NeglectDelay then NeglectTorque else 0.0
  }

  /** The protagonist's part of a running frame: cap the rise speed, apply
      the neglect torque, then clamp the orientation and the spin. */
  function SteerHero(env: Env, hero: Body, sinceTouch: real): (r: Body)
    requires env.Valid()
    ensures r.velocity.y <= MaxRiseSpeed
    ensures r.velocity.y == CapAbove(hero.velocity.y, MaxRiseSpeed)
    ensures r.velocity.x == hero.velocity.x
    ensures MinRotation <= r.zRotation <= MaxRotation
    ensures r.zRotation == Clamp(hero.zRotation, MinRotation, MaxRotation)
    ensures -MaxSpin <= r.angularVelocity <= MaxSpin
    ensures r.angularVelocity ==
      Clamp(ApplyAngularImpulse(hero, env.inertia, NeglectImpulse(sinceTouch)).angularVelocity, -MaxSpin, MaxSpin)
    ensures r.allowsRotation == hero.allowsRotation
  {
    var capped := hero.(velocity := hero.velocity.(y := CapAbove(hero.velocity.y, MaxRiseSpeed)));
    var torqued := if sinceTouch > NeglectDelay then ApplyAngularImpulse(capped, env.inertia, NeglectTorque) else capped;
    torqued.(
      zRotation := Clamp(torqued.zRotation, MinRotation, MaxRotation),
      angularVelocity := Clamp(torqued.angularVelocity, -MaxSpin, MaxSpin))
  }

  /** One frame while running: steer the protagonist, advance the neglect
      timer, scroll the ground, update the obstacles and finally advance the
      spawn timer. A frame after game over changes nothing. */
  function Update(env: Env, s: Scene, spawnY: SpawnHeight): (r: Scene)
    requires env.Valid()
    ensures r.gameState == s.gameState && r.points == s.points
    ensures s.gameState != Active ==> r == s
    ensures s.gameState == Active ==>
      && r.hero == SteerHero(env, s.hero, s.sinceTouch)
      && r.hero.velocity.y <= MaxRiseSpeed
      && MinRotation <= r.hero.zRotation <= MaxRotation
      && -MaxSpin <= r.hero.angularVelocity <= MaxSpin
      && r.sinceTouch == s.sinceTouch + FixedDelta
      && r.ground == ScrollWorld(s.ground)
      && r.field.spawnTimer == (if s.field.spawnTimer >= SpawnInterval then 0.0 else s.field.spawnTimer) + FixedDelta
      && r.field == UpdateObstacles(s.field, env.screenWidth, spawnY).(spawnTimer := r.field.spawnTimer)
  {
    if s.gameState != Active then s
    else
      var field := UpdateObstacles(s.field, env.screenWidth, spawnY);
      s.(hero := SteerHero(env, s.hero, s.sinceTouch),
         sinceTouch := s.sinceTouch + FixedDelta,
         ground := ScrollWorld(s.ground),
         field := field.(spawnTimer := field.spawnTimer + FixedDelta))
  }
}

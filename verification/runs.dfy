/** Sequences of events delivered to the scene, and the properties that hold
    along any of them: the score counts goal contacts, game over is final,
    the scene invariant is kept, and obstacles spawn on a fixed cadence. */
module Runs {
  import opened Tuning
  import opened Geometry
  import opened Physics
  import opened Contact
  import opened Ground
  import opened Obstacles
  import opened Scene

  /** One call from the host: a contact, a touch, or a frame together with
      the height the random source would draw if the frame spawns. */
  datatype Event = ContactEvent(nameA: string, nameB: string) | TouchEvent | FrameEvent(spawnY: SpawnHeight)

  function Step(env: Env, s: Scene, e: Event): (r: Scene)
    requires env.Valid()
    ensures r.points == s.points + (if e.ContactEvent? && IsGoal(e.nameA, e.nameB) then 1 else 0)
    ensures s.gameState == GameOver ==> r.gameState == GameOver
  {
    match e
    case ContactEvent(a, b) => DidBegin(s, a, b)
    case TouchEvent => TouchesBegan(env, s)
    case FrameEvent(y) => Update(env, s, y)
  }

  function Run(env: Env, s: Scene, es: seq<Event>): Scene
    requires env.Valid()
    decreases |es|
  {
    if es == [] then s else Run(env, Step(env, s, es[0]), es[1..])
  }

  /** Number of contacts in `es` that involve a goal. */
  function GoalContacts(es: seq<Event>): nat
    decreases |es|
  {
    if es == [] then 0
    else (if es[0].ContactEvent? && IsGoal(es[0].nameA, es[0].nameB) then 1 else 0) + GoalContacts(es[1..])
  }

  /** Every goal contact scores exactly one point, in any state, and nothing
      else changes the score. */
  lemma {:induction false} ScoreCountsGoals(env: Env, s: Scene, es: seq<Event>)
    requires env.Valid()
    ensures Run(env, s, es).points == s.points + GoalContacts(es)
    decreases |es|
  {
    if es != [] {
      ScoreCountsGoals(env, Step(env, s, es[0]), es[1..]);
    }
  }

  /** Once the game is over, no event brings it back: touches and frames
      change nothing, non-goal contacts change nothing, and goal contacts
      only add points. */
  lemma {:induction false} GameOverIsFinal(env: Env, s: Scene, es: seq<Event>)
    requires env.Valid() && s.gameState == GameOver
    ensures Run(env, s, es) == s.(points := s.points + GoalContacts(es))
    decreases |es|
  {
    if es != [] {
      var t := Step(env, s, es[0]);
      assert t == s.(points := t.points);
      GameOverIsFinal(env, t, es[1..]);
    }
  }

  /** A lethal contact ends the game once; the same contact again does nothing more. */
  lemma NoDoubleGameOver(s: Scene, nameA: string, nameB: string)
    requires s.gameState == Active && !IsGoal(nameA, nameB)
    ensures DidBegin(s, nameA, nameB).gameState == GameOver
    ensures DidBegin(DidBegin(s, nameA, nameB), nameA, nameB) == DidBegin(s, nameA, nameB)
  {
  }

  /** What holds in every reachable scene: the ground has no gap, the timers
      are in range, every obstacle lies within the visible and spawn bands,
      and a finished game has its rotation locked and its spin stopped. */
  predicate Inv(env: Env, s: Scene)
  {
    && Contiguous(s.ground)
    && s.sinceTouch >= 0.0
    && 0.0 <= s.field.spawnTimer < SpawnInterval + FixedDelta
    && InBand(s.field, env.screenWidth)
    && (s.gameState == GameOver ==> !s.hero.allowsRotation && s.hero.angularVelocity == 0.0)
  }

  /** Restarting resets everything the player can see: no points, running,
      no obstacles, fresh timers; and the fresh scene satisfies the invariant. */
  lemma RestartResets(env: Env, layout: Layout)
    requires env.Valid() && Contiguous(layout.ground)
    ensures var s := Initial(layout);
      && s.gameState == Active && s.points == 0 && s.field.obstacles == []
      && s.sinceTouch == 0.0 && s.field.spawnTimer == 0.0 && s.hero == layout.hero
      && Inv(env, s)
  {
  }

  lemma StepKeepsInv(env: Env, s: Scene, e: Event)
    requires env.Valid() && Inv(env, s)
    ensures Inv(env, Step(env, s, e))
  {
    match e
    case ContactEvent(a, b) =>
    case TouchEvent =>
    case FrameEvent(y) =>
      if s.gameState == Active {
        ScrollKeepsContiguous(s.ground);
        UpdateKeepsInBand(s.field, env.screenWidth, y);
        var r := Update(env, s, y);
        var f := UpdateObstacles(s.field, env.screenWidth, y);
        assert r.field.layer == f.layer && r.field.obstacles == f.obstacles;
      }
  }

  lemma {:induction false} RunKeepsInv(env: Env, s: Scene, es: seq<Event>)
    requires env.Valid() && Inv(env, s)
    ensures Inv(env, Run(env, s, es))
    decreases |es|
  {
    if es != [] {
      StepKeepsInv(env, s, es[0]);
      RunKeepsInv(env, Step(env, s, es[0]), es[1..]);
    }
  }

  /** From a freshly loaded scene, any sequence of events leads to a scene
      satisfying the invariant. */
  lemma ReachableSatisfiesInv(env: Env, layout: Layout, es: seq<Event>)
    requires env.Valid() && Contiguous(layout.ground)
    ensures Inv(env, Run(env, Initial(layout), es))
  {
    RestartResets(env, layout);
    RunKeepsInv(env, Initial(layout), es);
  }

  /** Left alone for longer than the neglect delay, a rotating protagonist
      whose spin is in range never spins up: the nose-down torque can only
      lower the spin, and strictly lowers it unless it is already at the
      lower bound. */
  lemma NeglectTurnsNoseDown(env: Env, s: Scene, y: SpawnHeight)
    requires env.Valid() && s.gameState == Active && s.hero.allowsRotation
    requires s.sinceTouch > NeglectDelay
    requires -MaxSpin <= s.hero.angularVelocity <= MaxSpin
    ensures Update(env, s, y).hero.angularVelocity <= s.hero.angularVelocity
    ensures s.hero.angularVelocity > -MaxSpin ==> Update(env, s, y).hero.angularVelocity < s.hero.angularVelocity
  {
    var spun := ApplyAngularImpulse(s.hero, env.inertia, NeglectTorque);
    assert spun.angularVelocity < s.hero.angularVelocity;
    ClampMonotone(spun.angularVelocity, s.hero.angularVelocity, -MaxSpin, MaxSpin);
  }

  /** Within the neglect delay of the last touch the spin is only clamped. */
  lemma NoTorqueAfterTouch(env: Env, s: Scene, y: SpawnHeight)
    requires env.Valid() && s.gameState == Active
    requires s.sinceTouch <= NeglectDelay
    ensures Update(env, s, y).hero.angularVelocity == Clamp(s.hero.angularVelocity, -MaxSpin, MaxSpin)
  {
  }

  /** Every surviving obstacle's scene x moves left by exactly one frame of
      scroll, in step with the ground. */
  lemma ObstaclesScrollWithGround(env: Env, s: Scene, y: SpawnHeight, o: Vec)
    requires env.Valid() && s.gameState == Active
    ensures var r := Update(env, s, y);
      && ToScene(r.field.layer, o).x == ToScene(s.field.layer, o).x - ScrollSpeed * FixedDelta
      && r.field.layer.x - s.field.layer.x == r.ground.layer.x - s.ground.layer.x
  {
  }

  /** The frames of a run without other events. */
  function Frames(env: Env, s: Scene, ys: seq<SpawnHeight>): Scene
    requires env.Valid()
    decreases |ys|
  {
    if ys == [] then s else Frames(env, Update(env, s, ys[0]), ys[1..])
  }

  /** A frame of `s` adds an obstacle. */
  predicate SpawnsNow(s: Scene)
  {
    s.gameState == Active && s.field.spawnTimer >= SpawnInterval
  }

  /** A running frame adds exactly one obstacle after the survivors exactly
      when it spawns, and otherwise adds none. */
  lemma SpawnIsTimerDriven(env: Env, s: Scene, y: SpawnHeight)
    requires env.Valid() && s.gameState == Active
    ensures var r := Update(env, s, y);
      var kept := Despawn(r.field.layer, s.field.obstacles, env.screenWidth);
      && (SpawnsNow(s) <==> |r.field.obstacles| == |kept| + 1)
      && (!SpawnsNow(s) <==> r.field.obstacles == kept)
  {
  }

  /** Number of frames of a run that spawn an obstacle. */
  function Spawns(env: Env, s: Scene, ys: seq<SpawnHeight>): nat
    requires env.Valid()
    decreases |ys|
  {
    if ys == [] then 0
    else (if SpawnsNow(s) then 1 else 0) + Spawns(env, Update(env, s, ys[0]), ys[1..])
  }

  /** One running frame advances the spawn timer by a frame, from zero if it spawned. */
  lemma TimerStep(env: Env, s: Scene, y: SpawnHeight)
    requires env.Valid() && s.gameState == Active
    ensures Update(env, s, y).gameState == Active
    ensures Update(env, s, y).field.spawnTimer == (if SpawnsNow(s) then 0.0 else s.field.spawnTimer) + FixedDelta
  {
  }

  /** The spawn cadence in exact arithmetic: from a frame boundary where the
      spawn timer holds `k` frames, exactly one obstacle spawns in the next
      `91 - k` frames, on the last of them, after which the timer holds one
      frame. So a fresh scene spawns on frame 91 and then every 90 frames,
      i.e. every 1.5 simulated seconds. With double-precision accumulation
      the sum of 90 frame times falls just short of 1.5, which shifts this
      to frame 92 and every 91 frames. */
  lemma {:induction false} SpawnCadence(env: Env, s: Scene, ys: seq<SpawnHeight>, k: nat)
    requires env.Valid() && s.gameState == Active
    requires k <= SpawnFrames && s.field.spawnTimer == k as real * FixedDelta
    requires |ys| == SpawnFrames + 1 - k
    ensures Spawns(env, s, ys) == 1
    ensures Frames(env, s, ys).gameState == Active
    ensures Frames(env, s, ys).field.spawnTimer == FixedDelta
    decreases SpawnFrames - k
  {
    var t := Update(env, s, ys[0]);
    var rest := ys[1..];
    TimerStep(env, s, ys[0]);
    FrameTime(k);
    if k == SpawnFrames {
      SpawnIntervalIsWholeFrames();
      assert SpawnsNow(s);
      assert rest == [];
    } else {
      assert !SpawnsNow(s);
      assert t.field.spawnTimer == (k + 1) as real * FixedDelta;
      assert |rest| == SpawnFrames + 1 - (k + 1);
      SpawnCadence(env, t, rest, k + 1);
    }
    assert Frames(env, s, ys) == Frames(env, t, rest);
    assert Spawns(env, s, ys) == (if SpawnsNow(s) then 1 else 0) + Spawns(env, t, rest);
  }
}

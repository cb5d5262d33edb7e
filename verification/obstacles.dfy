/** The obstacle layer: obstacles scroll left with the layer, are removed
    once they leave the screen, and a new one appears at the right edge
    every spawn interval. */
module Obstacles {
  import opened Tuning
  import opened Geometry

  /** A height drawn from the spawn band; the random source is a parameter
      of the model and only its range is known. */
  type SpawnHeight = y: real | SpawnLow <= y <= SpawnHigh witness 0.0

  /** The obstacle layer's offset in the scene, the layer positions of its
      obstacles in child order, and the time since the last spawn. */
  datatype Field = Field(layer: Vec, obstacles: seq<Vec>, spawnTimer: real)

  /** An obstacle is still on screen while its scene x is right of minus half the screen width. */
  predicate OnScreen(layer: Vec, o: Vec, screenWidth: real)
  {
    ToScene(layer, o).x > -0.5 * screenWidth
  }

  /** The obstacles that survive the off-screen sweep, in their original order:
      exactly the on-screen ones, each as often as it occurred. */
  function Despawn(layer: Vec, obstacles: seq<Vec>, screenWidth: real): (kept: seq<Vec>)
    ensures |kept| <= |obstacles|
    ensures forall o :: o in kept ==> OnScreen(layer, o, screenWidth)
    ensures forall o :: OnScreen(layer, o, screenWidth) ==> multiset(kept)[o] == multiset(obstacles)[o]
    decreases |obstacles|
  {
    if obstacles == [] then []
    else
      var n := |obstacles| - 1;
      var rest := Despawn(layer, obstacles[..n], screenWidth);
      assert obstacles == obstacles[..n] + [obstacles[n]];
      if OnScreen(layer, obstacles[n], screenWidth) then rest + [obstacles[n]] else rest
  }

  /** Sweeping two runs of children is sweeping each and joining the results. */
  lemma {:induction false} DespawnAppend(layer: Vec, a: seq<Vec>, b: seq<Vec>, screenWidth: real)
    ensures Despawn(layer, a + b, screenWidth) == Despawn(layer, a, screenWidth) + Despawn(layer, b, screenWidth)
    decreases |b|
  {
    if b == [] {
      assert a + b == a;
    } else {
      var n := |b| - 1;
      assert (a + b)[..|a + b| - 1] == a + b[..n];
      DespawnAppend(layer, a, b[..n], screenWidth);
    }
  }

  /** A single child is kept exactly when it is on screen; with DespawnAppend
      this makes the sweep an order-preserving filter. */
  lemma DespawnSingleton(layer: Vec, o: Vec, screenWidth: real)
    ensures Despawn(layer, [o], screenWidth) == (if OnScreen(layer, o, screenWidth) then [o] else [])
  {
    assert [o][..0] == [];
  }

  /** The sweep as the scene performs it: one pass over a snapshot of the
      layer's children, dropping each one found off screen. */
  method RemoveOffscreen(layer: Vec, obstacles: seq<Vec>, screenWidth: real) returns (kept: seq<Vec>)
    ensures kept == Despawn(layer, obstacles, screenWidth)
  {
    kept := [];
    for i := 0 to |obstacles|
      invariant kept == Despawn(layer, obstacles[..i], screenWidth)
    {
      assert obstacles[..i + 1][..i] == obstacles[..i];
      if OnScreen(layer, obstacles[i], screenWidth) {
        kept := kept + [obstacles[i]];
      }
    }
    assert obstacles[..|obstacles|] == obstacles;
  }

  /** One frame of the obstacle field: shift the layer left, drop what left
      the screen, and, once the spawn timer has reached the interval, add one
      obstacle at the right edge of the screen at the drawn height and
      restart the timer. Advancing the timer is left to the caller. */
  function UpdateObstacles(f: Field, screenWidth: real, spawnY: SpawnHeight): (r: Field)
    ensures r.layer == Vec(f.layer.x - ScrollSpeed * FixedDelta, f.layer.y)
    ensures var kept := Despawn(r.layer, f.obstacles, screenWidth);
      && |kept| <= |r.obstacles|
      && r.obstacles[..|kept|] == kept
      && (f.spawnTimer >= SpawnInterval ==>
            && |r.obstacles| == |kept| + 1
            && ToScene(r.layer, r.obstacles[|kept|]) == Vec(0.5 * screenWidth, spawnY)
            && r.spawnTimer == 0.0)
      && (f.spawnTimer < SpawnInterval ==> r.obstacles == kept && r.spawnTimer == f.spawnTimer)
  {
    var layer := Vec(f.layer.x - ScrollSpeed * FixedDelta, f.layer.y);
    var kept := Despawn(layer, f.obstacles, screenWidth);
    if f.spawnTimer >= SpawnInterval then
      Field(layer, kept + [FromScene(layer, Vec(0.5 * screenWidth, spawnY))], 0.0)
    else
      Field(layer, kept, f.spawnTimer)
  }

  /** Every obstacle lies within the visible band of scene x, (-w/2, w/2],
      and the spawn band of scene y. */
  predicate InBand(f: Field, screenWidth: real)
  {
    forall o :: o in f.obstacles ==>
      && -0.5 * screenWidth < ToScene(f.layer, o).x <= 0.5 * screenWidth
      && SpawnLow <= ToScene(f.layer, o).y <= SpawnHigh
  }

  /** A frame keeps every obstacle inside the band: survivors only moved
      left and are still on screen, and a newcomer starts at the right edge. */
  lemma UpdateKeepsInBand(f: Field, screenWidth: real, spawnY: SpawnHeight)
    requires screenWidth > 0.0
    requires InBand(f, screenWidth)
    ensures InBand(UpdateObstacles(f, screenWidth, spawnY), screenWidth)
  {
    var r := UpdateObstacles(f, screenWidth, spawnY);
    var kept := Despawn(r.layer, f.obstacles, screenWidth);
    forall o | o in r.obstacles
      ensures -0.5 * screenWidth < ToScene(r.layer, o).x <= 0.5 * screenWidth
      ensures SpawnLow <= ToScene(r.layer, o).y <= SpawnHigh
    {
      if o in kept {
        assert multiset(kept)[o] > 0;
        assert o in f.obstacles;
      } else {
        assert f.spawnTimer >= SpawnInterval;
        assert r.obstacles == kept + [r.obstacles[|kept|]];
        assert o == r.obstacles[|kept|];
      }
    }
  }
}

/** Two ground sprites in the scroll layer, leap-frogging each other so that
    the ground appears to scroll forever. */
module Ground {
  import opened Tuning
  import opened Geometry

  /** A ground sprite: its position in the scroll layer and its width. */
  datatype Segment = Segment(pos: Vec, width: real)

  /** The scroll layer's offset in the scene and its two ground sprites. */
  datatype Ground = Ground(layer: Vec, seg1: Segment, seg2: Segment)

  function SceneX(layer: Vec, seg: Segment): real
  {
    ToScene(layer, seg.pos).x
  }

  /** A segment has scrolled off the left edge when its scene x is at most minus its width. */
  predicate PastLeftEdge(layer: Vec, seg: Segment)
  {
    SceneX(layer, seg) <= -seg.width
  }

  /** Moves `seg`, if it is past the left edge, to the scene x of `other` plus
      its own width, at its own scene y; otherwise leaves it alone. */
  function Reposition(layer: Vec, seg: Segment, other: Segment): (r: Segment)
    ensures r.width == seg.width
    ensures ToScene(layer, r.pos).y == ToScene(layer, seg.pos).y
    ensures !PastLeftEdge(layer, seg) ==> r == seg
    ensures PastLeftEdge(layer, seg) ==> SceneX(layer, r) == SceneX(layer, other) + seg.width
  {
    var here := ToScene(layer, seg.pos);
    if here.x <= -seg.width then
      seg.(pos := FromScene(layer, Vec(seg.width + ToScene(layer, other.pos).x, here.y)))
    else
      seg
  }

  /** One frame of ground scrolling: the layer moves left by one frame's
      worth of scroll, then segment 1 and, after it, segment 2 are wrapped
      around if they left the screen. Segment 2 is placed relative to
      segment 1's position as updated in the same frame. */
  function ScrollWorld(g: Ground): (r: Ground)
    ensures r.layer == Vec(g.layer.x - ScrollSpeed * FixedDelta, g.layer.y)
    ensures r.seg1.width == g.seg1.width && r.seg2.width == g.seg2.width
    ensures r.seg1.pos.y == g.seg1.pos.y && r.seg2.pos.y == g.seg2.pos.y
    ensures !PastLeftEdge(r.layer, g.seg1) ==> r.seg1 == g.seg1
    ensures PastLeftEdge(r.layer, g.seg1) ==> SceneX(r.layer, r.seg1) == SceneX(r.layer, g.seg2) + g.seg1.width
    ensures !PastLeftEdge(r.layer, g.seg2) ==> r.seg2 == g.seg2
    ensures PastLeftEdge(r.layer, g.seg2) ==> SceneX(r.layer, r.seg2) == SceneX(r.layer, r.seg1) + g.seg2.width
  {
    var layer := Vec(g.layer.x - ScrollSpeed * (1.0 / 60.0), g.layer.y);
    var seg1 := Reposition(layer, g.seg1, g.seg2);
    var seg2 := Reposition(layer, g.seg2, seg1);
    Ground(layer, seg1, seg2)
  }

  /** The two segments have the same width and sit exactly one width apart,
      in either order, so no gap shows between them. */
  predicate Contiguous(g: Ground)
  {
    && g.seg1.width == g.seg2.width
    && (g.seg2.pos.x - g.seg1.pos.x == g.seg1.width || g.seg1.pos.x - g.seg2.pos.x == g.seg1.width)
  }

  /** Scrolling and wrapping around never opens a gap between the segments. */
  lemma ScrollKeepsContiguous(g: Ground)
    requires Contiguous(g)
    ensures Contiguous(ScrollWorld(g))
  {
  }

  /** A segment that wraps around ends up directly to the right of the other
      one, within the layer, whichever of the two it is. */
  lemma WrappedSegmentTrails(g: Ground)
    requires Contiguous(g)
    ensures var r := ScrollWorld(g);
      && (PastLeftEdge(r.layer, g.seg1) && !PastLeftEdge(r.layer, g.seg2) ==> r.seg1.pos.x == g.seg2.pos.x + g.seg1.width)
      && (PastLeftEdge(r.layer, g.seg2) ==> r.seg2.pos.x == r.seg1.pos.x + g.seg2.width)
  {
  }

  /** The ground after `n` frames of scrolling. */
  function ScrollFrames(g: Ground, n: nat): Ground
    decreases n
  {
    if n == 0 then g else ScrollFrames(ScrollWorld(g), n - 1)
  }

  /** However long the world scrolls, the ground stays gap-free and the
      scroll layer has moved left by exactly `n` frames of scroll. */
  lemma {:induction false} GroundStaysContiguous(g: Ground, n: nat)
    requires Contiguous(g)
    ensures Contiguous(ScrollFrames(g, n))
    ensures ScrollFrames(g, n).layer == Vec(g.layer.x - n as real * (ScrollSpeed * FixedDelta), g.layer.y)
    decreases n
  {
    if n > 0 {
      ScrollKeepsContiguous(g);
      GroundStaysContiguous(ScrollWorld(g), n - 1);
    }
  }
}

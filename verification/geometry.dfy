/** Points and the translation between a layer's coordinates and the scene's. */
module Geometry {

  datatype Vec = Vec(x: real, y: real)

  /** Scene coordinates of a point `p` given in a layer whose origin sits at
      `layer` in the scene. Layers are neither rotated nor scaled, so the
      conversion is a pure translation. */
  function ToScene(layer: Vec, p: Vec): Vec
  {
    Vec(layer.x + p.x, layer.y + p.y)
  }

  /** Layer coordinates of the scene point `q`. */
  function FromScene(layer: Vec, q: Vec): Vec
  {
    Vec(q.x - layer.x, q.y - layer.y)
  }

  /** The two conversions are inverse to each other. */
  lemma ConversionRoundTrip(layer: Vec, p: Vec, q: Vec)
    ensures FromScene(layer, ToScene(layer, p)) == p
    ensures ToScene(layer, FromScene(layer, q)) == q
  {
  }
}

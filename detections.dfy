/** The display-ready detection both wrappers publish, and the pieces of
    Cinder geometry it is built from. Cinder's `Rectf`, `vec2` and
    `Colorf` are not part of this model: they are taken as plain values
    of exact reals. */
module Detections {

  /** The multiplier of the palette offset in both wrappers. */
  const PALETTE_STEP: int := 123457

  /** A Cinder `vec2`, used here only as a pair of scale factors. */
  datatype Vec2 = Vec2(x: real, y: real)

  /** A Cinder `Rectf`: upper-left `(x1, y1)`, lower-right `(x2, y2)`,
      stored as given (no canonicalisation). */
  datatype Rect = Rect(x1: real, y1: real, x2: real, y2: real)

  /** A Cinder `Colorf`. */
  datatype Colour = Colour(r: real, g: real, b: real)

  /** darknet's `get_color(channel, offset, classes)`, which neither
      wrapper defines: a parameter of every operation that needs it. */
  type ColourRamp = (int, int, int) -> real

  /** The `Detection` struct, declared identically by each wrapper
      (`name` is `mLabel`). */
  datatype Detection = Detection(rect: Rect, colour: Colour, name: string, probability: real)

  /** `Rectf::scale`: both x coordinates by `s.x`, both y coordinates by
      `s.y`. The factor (1, 1) changes nothing. */
  function ScaleRect(r: Rect, s: Vec2): (q: Rect)
    ensures s == Vec2(1.0, 1.0) ==> q == r
  {
    Rect(r.x1 * s.x, r.y1 * s.y, r.x2 * s.x, r.y2 * s.y)
  }

  /** A non-negative factor keeps each pair of corners in order. */
  lemma ScaleKeepsOrder(r: Rect, s: Vec2)
    requires s.x >= 0.0 && s.y >= 0.0
    ensures r.x1 <= r.x2 ==> ScaleRect(r, s).x1 <= ScaleRect(r, s).x2
    ensures r.y1 <= r.y2 ==> ScaleRect(r, s).y1 <= ScaleRect(r, s).y2
  {
    if r.x1 <= r.x2 {
      assert (r.x2 - r.x1) * s.x >= 0.0;
    }
    if r.y1 <= r.y2 {
      assert (r.y2 - r.y1) * s.y >= 0.0;
    }
  }

  /** The ratio of the popped frame's size to the network's input size,
      which maps network coordinates back onto the frame. */
  function FrameRatio(frameW: nat, frameH: nat, netW: int, netH: int): (s: Vec2)
    requires netW > 0 && netH > 0
    ensures s.x >= 0.0 && s.y >= 0.0
    ensures s.x * netW as real == frameW as real && s.y * netH as real == frameH as real
  {
    Vec2(frameW as real / netW as real, frameH as real / netH as real)
  }

  /** The three `get_color` calls of both wrappers: red from channel 2,
      green from channel 1, blue from channel 0, all at the same palette
      offset and class count. */
  function PaletteColour(ramp: ColourRamp, offset: int, classes: int): (c: Colour)
    ensures c.r == ramp(2, offset, classes)
    ensures c.g == ramp(1, offset, classes)
    ensures c.b == ramp(0, offset, classes)
  {
    Colour(ramp(2, offset, classes), ramp(1, offset, classes), ramp(0, offset, classes))
  }
}

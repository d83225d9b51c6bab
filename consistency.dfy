/** How the two wrappers relate where they compute the same thing. */
module Consistency {
  import Wrappers
  import Detections
  import Darknet
  import Yolo

  /** Both wrappers give a class the same palette offset as long as the
      product stays below 2^31, where neither the signed nor the unsigned
      evaluation wraps. */
  lemma PaletteOffsetsAgree(objId: Yolo.u32, classes: int)
    requires classes > 0 && objId * Detections.PALETTE_STEP <= Darknet.INT_MAX
    ensures Yolo.YoloOffset(objId, classes) == Darknet.PaletteOffset(objId, classes)
  {
  }

  /** A class whose palette product fits in an `int` is drawn in the same
      colour by both wrappers, whatever its box, frame or scale. */
  lemma SameClassSameColour(b: Darknet.Box, net: Darknet.Network, d: Yolo.BBox, scale: Detections.Vec2,
                            frameW: nat, frameH: nat, ramp: Detections.ColourRamp)
    requires net.w > 0 && net.h > 0
    requires 0 <= b.objId < net.classes && b.objId * Detections.PALETTE_STEP <= Darknet.INT_MAX
    requires d.objId == b.objId
    ensures Darknet.MakeDetection(b, net, Wrappers.None, frameW, frameH, ramp).colour
         == Yolo.MakeDetection(d, scale, net.classes, ramp).colour
  {
    PaletteOffsetsAgree(d.objId, net.classes);
  }

  /** Class 1 of 80 classes takes palette offset 17 in both wrappers. */
  lemma PaletteOffsetExample()
    ensures Darknet.PaletteOffset(1, 80) == 17 && Yolo.YoloOffset(1, 80) == 17
  {
  }
}

/** The worker pass of `CinderYolo`: after a frame has been popped, it is
    converted for the detector, and the published detections are replaced
    by one detection per element the detector returns, in the same order,
    with no filtering of its own. */
module Yolo {
  import opened Planar
  import opened Detections

  /** One more than the largest `unsigned int`. */
  const U32_LIMIT: int := 0x1_0000_0000

  /** A C `unsigned int`. */
  type u32 = x: int | 0 <= x < 0x1_0000_0000

  /** The detector as the pass reads it: `get_net_width`,
      `get_net_height` and `get_num_classes`. */
  datatype Detector = Detector(netWidth: int, netHeight: int, numClasses: int)

  /** A `bbox_t` returned by `Detector::detect`: an unsigned box, its
      probability and its unsigned class id. */
  datatype BBox = BBox(x: u32, y: u32, w: u32, h: u32, prob: real, objId: u32)

  /** Unsigned addition, which wraps around at 2^32. */
  function AddU32(a: u32, b: u32): (r: u32)
    ensures a + b < U32_LIMIT ==> r == a + b
    ensures a + b >= U32_LIMIT ==> r == a + b - U32_LIMIT
  {
    (a + b) % U32_LIMIT
  }

  /** `Rectf( d.x, d.y, d.x+d.w, d.y+d.h )`: upper left at the box's
      origin, lower right at origin plus extent unless the unsigned sum
      wraps around. */
  function BoxRect(d: BBox): (r: Rect)
    ensures r.x1 == d.x as real && r.y1 == d.y as real
    ensures d.x + d.w < U32_LIMIT ==> r.x2 == (d.x + d.w) as real
    ensures d.y + d.h < U32_LIMIT ==> r.y2 == (d.y + d.h) as real
    ensures d.x + d.w >= U32_LIMIT ==> r.x2 < r.x1
    ensures d.y + d.h >= U32_LIMIT ==> r.y2 < r.y1
  {
    Rect(d.x as real, d.y as real, AddU32(d.x, d.w) as real, AddU32(d.y, d.h) as real)
  }

  /** The scale factor of a pass: (1, 1) unless the frame's width or
      height differs from the network's, then the frame-to-network ratio.
      Either way it is that ratio, so it maps the network's extent onto the
      frame. */
  function YoloScale(frameW: nat, frameH: nat, netW: int, netH: int): (s: Vec2)
    requires netW > 0 && netH > 0
    ensures frameW == netW && frameH == netH ==> s == Vec2(1.0, 1.0)
    ensures s == FrameRatio(frameW, frameH, netW, netH)
  {
    if frameW != netW || frameH != netH then Vec2(frameW as real / netW as real, frameH as real / netH as real)
    else Vec2(1.0, 1.0)
  }

  /** `d.obj_id * 123457 % numClasses` evaluated in `unsigned int`: the
      product wraps around at 2^32 before the remainder. The offset lies
      in the class range. */
  function YoloOffset(objId: u32, numClasses: int): (r: int)
    requires numClasses > 0
    ensures 0 <= r < numClasses
  {
    objId * PALETTE_STEP % U32_LIMIT % numClasses
  }

  /** The detection built from one element of the detector's result: its
      rectangle scaled by the pass's factor (unchanged at (1, 1)), the
      palette colour at its offset (red, green, blue from ramp channels 2,
      1, 0), and, since the pass assigns neither, the declared defaults of
      an empty label and probability 0, whatever the element's own
      probability. */
  function MakeDetection(d: BBox, scale: Vec2, numClasses: int, ramp: ColourRamp): (det: Detection)
    requires numClasses > 0
    ensures det.rect == ScaleRect(BoxRect(d), scale)
    ensures scale == Vec2(1.0, 1.0) ==> det.rect == BoxRect(d)
    ensures var offset := YoloOffset(d.objId, numClasses);
      det.colour.r == ramp(2, offset, numClasses) &&
      det.colour.g == ramp(1, offset, numClasses) &&
      det.colour.b == ramp(0, offset, numClasses)
    ensures det.name == "" && det.probability == 0.0
  {
    Detection(ScaleRect(BoxRect(d), scale), PaletteColour(ramp, YoloOffset(d.objId, numClasses), numClasses), "", 0.0)
  }

  /** `CinderYolo`: the detector, the label table read at construction
      (which no pass reads), the threshold `runYolo` stores for the
      detector, and the published detections. */
  class CinderYolo {
    const detector: Detector
    const labels: seq<string>
    var threshold: real
    var detections: seq<Detection>

    /** The detector is loaded (a positive input size), the label table
        holds the lines of the labels file (empty when there is none), the
        threshold starts at 0.4 and nothing is published. */
    constructor (detector: Detector, labels: seq<string>)
      requires detector.netWidth > 0 && detector.netHeight > 0
      ensures this.detector == detector && this.labels == labels
      ensures threshold == 0.4 && detections == []
    {
      this.detector := detector;
      this.labels := labels;
      threshold := 0.4;
      detections := [];
    }

    /** `runYolo`: store the threshold the next pass hands to the
        detector. */
    method RunYolo(threshold: real)
      modifies this`threshold
      ensures this.threshold == threshold
    {
      this.threshold := threshold;
    }

    /** `getDetections`: a copy of the published detections. */
    method GetDetections() returns (ds: seq<Detection>)
      ensures ds == detections
    {
      ds := detections;
    }

    /** One pass of `networkProcessFn` after `frame` was popped. `resized`
        is what `ip::resizeCopy` returns for it, and `result` what
        `detect` returns for `input` and `detectThreshold`. Returns the
        image handed to the detector and the threshold handed with it,
        which is the one `RunYolo` stored last; the published detections
        are replaced by exactly one detection per element of `result`, in
        order, built with the pass's scale factor, and nothing published
        earlier remains. */
    method ProcessFrame(frame: Surface<real>, resized: Surface<real>, result: seq<BBox>, ramp: ColourRamp)
      returns (input: Image<real>, ghost detectThreshold: real)
      requires detector.netWidth > 0 && detector.netHeight > 0
      requires frame.WellFormed() && resized.WellFormed()
      requires result != [] ==> detector.numClasses > 0
      modifies this`detections
      ensures fresh(input.data)
      ensures IsPlanarOf(input, ConvertedSurface(frame, resized, detector.netWidth, detector.netHeight))
      ensures detectThreshold == threshold
      ensures |detections| == |result|
      ensures forall i :: 0 <= i < |result| ==>
        detections[i] == MakeDetection(result[i],
                                       YoloScale(frame.width, frame.height, detector.netWidth, detector.netHeight),
                                       detector.numClasses, ramp)
    {
      var surfaceCopy := DefaultSurface();
      var scale := Vec2(1.0, 1.0);
      if frame.width != detector.netWidth || frame.height != detector.netHeight {
        surfaceCopy := resized;
        scale := Vec2(frame.width as real / detector.netWidth as real,
                      frame.height as real / detector.netHeight as real);
      }
      ghost var writes;
      input, writes := SurfaceToPlanar(surfaceCopy, 0.0);
      detectThreshold := threshold;
      ReplaceDetections(result, scale, ramp);
    }

    /** Clear the published detections, then push back one per element
        of `result`. */
    method ReplaceDetections(result: seq<BBox>, scale: Vec2, ramp: ColourRamp)
      requires result != [] ==> detector.numClasses > 0
      modifies this`detections
      ensures |detections| == |result|
      ensures forall i :: 0 <= i < |result| ==>
        detections[i] == MakeDetection(result[i], scale, detector.numClasses, ramp)
    {
      detections := [];
      for i := 0 to |result|
        invariant |detections| == i
        invariant forall p :: 0 <= p < i ==>
          detections[p] == MakeDetection(result[p], scale, detector.numClasses, ramp)
      {
        var d := result[i];
        var rect := ScaleRect(BoxRect(d), scale);
        var numClasses := detector.numClasses;
        var offset := YoloOffset(d.objId, numClasses);
        var colour := PaletteColour(ramp, offset, numClasses);
        detections := detections + [Detection(rect, colour, "", 0.0)];
      }
    }
  }
}

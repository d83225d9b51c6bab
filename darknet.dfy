/** The worker pass of `CinderDarknet`: after a frame has been popped, it
    is converted for the network, and every box the network reports is
    filtered, clamped to the network's extent, scaled to the frame,
    coloured, labelled and appended to the detections queue. */
module Darknet {
  import opened Wrappers
  import opened Planar
  import opened Detections

  /** The largest value of a C `int`. */
  const INT_MAX: int := 0x7fff_ffff

  /** The loaded network as the pass reads it: input size `mNet->w`,
      `mNet->h`, and `classes` of its last layer. */
  datatype Network = Network(w: int, h: int, classes: int)

  /** A box's edges in network pixels, already truncated to `int` from
      `(box.x -/+ box.w / 2) * w` and `(box.y -/+ box.h / 2) * h`. */
  datatype Edges = Edges(left: int, right: int, top: int, bot: int)

  /** One entry of `get_network_boxes` as the per-box loop reads it: its
      edges, the class `max_index` picked, and that class's probability. */
  datatype Box = Box(edges: Edges, objId: int, prob: real)

  /** What `max_index(prob, classes)` returns: -1 when there are no
      classes, otherwise the index of one of them. */
  predicate IsMaxIndex(objId: int, classes: int) {
    if classes <= 0 then objId == -1 else 0 <= objId < classes
  }

  /** The per-box filter: a box is published only when its probability
      exceeds the threshold and a class was found. */
  predicate Accepts(b: Box, threshold: real) {
    b.prob > threshold && b.objId >= 0
  }

  /** What the pass relies on for one box: its class id comes from
      `max_index`; and, if the box is accepted, the palette product fits
      in an `int` and, when a label table is loaded, the class id indexes
      it (the source reads the table without a bounds check). */
  predicate BoxOk(b: Box, net: Network, labels: Option<seq<string>>, threshold: real) {
    && IsMaxIndex(b.objId, net.classes)
    && (Accepts(b, threshold) ==>
          && b.objId * PALETTE_STEP <= INT_MAX
          && (labels.Some? ==> b.objId < |labels.value|))
  }

  /** The one-sided clamp: left and top are raised to 0 when negative,
      right and bottom lowered to the last network column and row when
      beyond them. Nothing else moves. */
  function ClampEdges(e: Edges, net: Network): (r: Edges)
    ensures r.left >= 0 && r.top >= 0 && r.right <= net.w - 1 && r.bot <= net.h - 1
    ensures r.left >= e.left && r.top >= e.top && r.right <= e.right && r.bot <= e.bot
    ensures e.left >= 0 ==> r.left == e.left
    ensures e.top >= 0 ==> r.top == e.top
    ensures e.right <= net.w - 1 ==> r.right == e.right
    ensures e.bot <= net.h - 1 ==> r.bot == e.bot
    ensures e.left < 0 ==> r.left == 0
    ensures e.top < 0 ==> r.top == 0
    ensures e.right > net.w - 1 ==> r.right == net.w - 1
    ensures e.bot > net.h - 1 ==> r.bot == net.h - 1
  {
    Edges(if e.left < 0 then 0 else e.left,
          if e.right > net.w - 1 then net.w - 1 else e.right,
          if e.top < 0 then 0 else e.top,
          if e.bot > net.h - 1 then net.h - 1 else e.bot)
  }

  /** Clamping twice is clamping once. */
  lemma ClampIdempotent(e: Edges, net: Network)
    ensures ClampEdges(ClampEdges(e, net), net) == ClampEdges(e, net)
  {
  }

  /** `objId * 123457 % classes`: a palette offset inside the class range
      that depends on nothing but the class id and the class count. Both
      operands are non-negative, so C's `%` agrees with Dafny's. */
  function PaletteOffset(objId: int, classes: int): (r: int)
    requires classes > 0 && 0 <= objId && objId * PALETTE_STEP <= INT_MAX
    ensures 0 <= r < classes
  {
    objId * PALETTE_STEP % classes
  }

  /** `Rectf( vec2( left, top ), vec2( right, bot ) )`: the corners are
      the integer edges, converted exactly. */
  function RectOf(e: Edges): (r: Rect)
    ensures r.x1 == e.left as real && r.y1 == e.top as real
    ensures r.x2 == e.right as real && r.y2 == e.bot as real
  {
    Rect(e.left as real, e.top as real, e.right as real, e.bot as real)
  }

  /** The rectangle of some edges is ordered exactly when the edges are. */
  lemma RectOfKeepsOrder(e: Edges)
    ensures RectOf(e).x1 <= RectOf(e).x2 <==> e.left <= e.right
    ensures RectOf(e).y1 <= RectOf(e).y2 <==> e.top <= e.bot
  {
  }

  /** A non-negative factor does not move a value past a bound it already
      respects. */
  lemma ScaleBelow(lo: int, hi: int, bound: int, ratio: real, extent: nat)
    requires 0 <= lo && hi <= bound - 1 && bound > 0 && ratio >= 0.0
    requires ratio * bound as real == extent as real
    ensures lo as real * ratio >= 0.0
    ensures hi as real * ratio <= extent as real - ratio
  {
    assert hi as real * ratio <= (bound - 1) as real * ratio;
  }

  /** The detection built from an accepted box: the clamped box scaled to
      the frame, the palette colour at the box's offset (red, green, blue
      from ramp channels 2, 1, 0), the box's label when a table was loaded
      and the empty label otherwise, and the box's probability. */
  function MakeDetection(b: Box, net: Network, labels: Option<seq<string>>,
                         frameW: nat, frameH: nat, ramp: ColourRamp): (det: Detection)
    requires net.w > 0 && net.h > 0
    requires 0 <= b.objId < net.classes && b.objId * PALETTE_STEP <= INT_MAX
    requires labels.Some? ==> b.objId < |labels.value|
    ensures det.rect == ScaleRect(RectOf(ClampEdges(b.edges, net)), FrameRatio(frameW, frameH, net.w, net.h))
    ensures var offset := PaletteOffset(b.objId, net.classes);
      det.colour.r == ramp(2, offset, net.classes) &&
      det.colour.g == ramp(1, offset, net.classes) &&
      det.colour.b == ramp(0, offset, net.classes)
    ensures labels.None? ==> det.name == ""
    ensures labels.Some? ==> det.name == labels.value[b.objId]
    ensures det.probability == b.prob
  {
    var name := if labels.Some? then labels.value[b.objId] else "";
    Detection(ScaleRect(RectOf(ClampEdges(b.edges, net)), FrameRatio(frameW, frameH, net.w, net.h)),
              PaletteColour(ramp, PaletteOffset(b.objId, net.classes), net.classes), name, b.prob)
  }

  /** A published rectangle never has its upper left above or left of the
      frame, and its lower right never reaches past the frame's far
      edges, whatever box the network reports. */
  lemma DetectionInsideFrame(b: Box, net: Network, labels: Option<seq<string>>,
                             frameW: nat, frameH: nat, ramp: ColourRamp)
    requires net.w > 0 && net.h > 0
    requires 0 <= b.objId < net.classes && b.objId * PALETTE_STEP <= INT_MAX
    requires labels.Some? ==> b.objId < |labels.value|
    ensures var r := MakeDetection(b, net, labels, frameW, frameH, ramp).rect;
      && r.x1 >= 0.0 && r.y1 >= 0.0
      && (frameW > 0 ==> r.x2 < frameW as real)
      && (frameH > 0 ==> r.y2 < frameH as real)
  {
    var e := ClampEdges(b.edges, net);
    var s := FrameRatio(frameW, frameH, net.w, net.h);
    ScaleBelow(e.left, e.right, net.w, s.x, frameW);
    ScaleBelow(e.top, e.bot, net.h, s.y, frameH);
  }

  /** The indices of the accepted boxes, in increasing order: the
      reference against which the published detections are stated. */
  function AcceptedIndices(boxes: seq<Box>, threshold: real): (r: seq<nat>)
    ensures |r| <= |boxes|
    ensures forall p :: 0 <= p < |r| ==> r[p] < |boxes| && Accepts(boxes[r[p]], threshold)
    ensures forall p, q :: 0 <= p < q < |r| ==> r[p] < r[q]
    ensures forall i :: 0 <= i < |boxes| && Accepts(boxes[i], threshold) ==> i in r
  {
    if boxes == [] then []
    else
      var n := |boxes| - 1;
      AcceptedIndices(boxes[..n], threshold) + (if Accepts(boxes[n], threshold) then [n] else [])
  }

  /** The detections one pass appends, in the order the loop appends them:
      one per accepted box (`PublishedAt` says which), and nothing for a
      rejected box. */
  function Published(boxes: seq<Box>, net: Network, labels: Option<seq<string>>, threshold: real,
                     frameW: nat, frameH: nat, ramp: ColourRamp): (r: seq<Detection>)
    requires net.w > 0 && net.h > 0
    requires forall i :: 0 <= i < |boxes| ==> BoxOk(boxes[i], net, labels, threshold)
    ensures |r| == |AcceptedIndices(boxes, threshold)|
  {
    if boxes == [] then []
    else
      var n := |boxes| - 1;
      var b := boxes[n];
      var prefix := boxes[..n];
      assert BoxOk(b, net, labels, threshold);
      assert forall i :: 0 <= i < n ==> prefix[i] == boxes[i];
      Published(prefix, net, labels, threshold, frameW, frameH, ramp)
        + (if Accepts(b, threshold) then [MakeDetection(b, net, labels, frameW, frameH, ramp)] else [])
  }

  /** The `p`-th published detection is built from the `p`-th accepted
      box. */
  lemma {:induction false} PublishedAt(boxes: seq<Box>, p: nat, net: Network, labels: Option<seq<string>>,
                                       threshold: real, frameW: nat, frameH: nat, ramp: ColourRamp)
    requires net.w > 0 && net.h > 0
    requires forall i :: 0 <= i < |boxes| ==> BoxOk(boxes[i], net, labels, threshold)
    requires p < |AcceptedIndices(boxes, threshold)|
    ensures var i := AcceptedIndices(boxes, threshold)[p];
      && Accepts(boxes[i], threshold) && BoxOk(boxes[i], net, labels, threshold)
      && p < |Published(boxes, net, labels, threshold, frameW, frameH, ramp)|
      && Published(boxes, net, labels, threshold, frameW, frameH, ramp)[p]
         == MakeDetection(boxes[i], net, labels, frameW, frameH, ramp)
  {
    var n := |boxes| - 1;
    var prefix := boxes[..n];
    forall i | 0 <= i < n
      ensures BoxOk(prefix[i], net, labels, threshold)
    {
      assert prefix[i] == boxes[i];
    }
    var ai := AcceptedIndices(prefix, threshold);
    PublishedUnfold(boxes, net, labels, threshold, frameW, frameH, ramp);
    if p < |ai| {
      PublishedAt(prefix, p, net, labels, threshold, frameW, frameH, ramp);
      assert prefix[ai[p]] == boxes[ai[p]];
    }
  }

  /** The last box contributes its detection, if accepted, after those of
      the boxes before it; so does its index. */
  lemma PublishedUnfold(boxes: seq<Box>, net: Network, labels: Option<seq<string>>,
                        threshold: real, frameW: nat, frameH: nat, ramp: ColourRamp)
    requires net.w > 0 && net.h > 0 && boxes != []
    requires forall i :: 0 <= i < |boxes| ==> BoxOk(boxes[i], net, labels, threshold)
    ensures var n := |boxes| - 1;
      && AcceptedIndices(boxes, threshold)
         == AcceptedIndices(boxes[..n], threshold) + (if Accepts(boxes[n], threshold) then [n] else [])
      && Published(boxes, net, labels, threshold, frameW, frameH, ramp)
         == Published(boxes[..n], net, labels, threshold, frameW, frameH, ramp)
            + (if Accepts(boxes[n], threshold) then [MakeDetection(boxes[n], net, labels, frameW, frameH, ramp)] else [])
  {
    var n := |boxes| - 1;
    assert forall i :: 0 <= i < n ==> boxes[..n][i] == boxes[i];
  }

  /** A pass in which every box is rejected appends nothing. */
  lemma {:induction false} AllRejectedPublishesNothing(boxes: seq<Box>, net: Network, labels: Option<seq<string>>,
                                                       threshold: real, frameW: nat, frameH: nat, ramp: ColourRamp)
    requires net.w > 0 && net.h > 0
    requires forall i :: 0 <= i < |boxes| ==> BoxOk(boxes[i], net, labels, threshold)
    requires forall i :: 0 <= i < |boxes| ==> !Accepts(boxes[i], threshold)
    ensures Published(boxes, net, labels, threshold, frameW, frameH, ramp) == []
  {
    if boxes != [] {
      var n := |boxes| - 1;
      assert forall i :: 0 <= i < n ==> boxes[..n][i] == boxes[i];
      AllRejectedPublishesNothing(boxes[..n], net, labels, threshold, frameW, frameH, ramp);
    }
  }

  /** Extending the boxes by one appends at most that box's detection. */
  lemma PublishedSnoc(boxes: seq<Box>, i: nat, net: Network, labels: Option<seq<string>>,
                      threshold: real, frameW: nat, frameH: nat, ramp: ColourRamp)
    requires net.w > 0 && net.h > 0 && i < |boxes|
    requires forall i :: 0 <= i < |boxes| ==> BoxOk(boxes[i], net, labels, threshold)
    ensures Published(boxes[..i + 1], net, labels, threshold, frameW, frameH, ramp)
         == Published(boxes[..i], net, labels, threshold, frameW, frameH, ramp)
            + (if Accepts(boxes[i], threshold) then [MakeDetection(boxes[i], net, labels, frameW, frameH, ramp)] else [])
  {
    assert boxes[..i + 1][..i] == boxes[..i];
  }

  /** A box at the network's corner with a width of 1.2 (left and top
      truncated to -41, right and bottom to 457) on a 416 x 416 network,
      for an 832 x 832 frame: the box is clamped to the network and doubled
      onto the frame. */
  lemma OversizedBoxExample(ramp: ColourRamp)
    ensures MakeDetection(Box(Edges(-41, 457, -41, 457), 0, 0.9), Network(416, 416, 80), None, 832, 832, ramp).rect
         == Rect(0.0, 0.0, 830.0, 830.0)
  {
  }

  /** `CinderDarknet`: the loaded network and label table, the threshold
      `runYolo` stores, and the detections queue the worker appends to. */
  class CinderDarknet {
    const net: Network
    const labels: Option<seq<string>>
    var threshold: real
    var detectionsQueue: seq<Detection>

    /** The network is loaded (a positive input size), the label table is
        loaded only when a labels path was given, the threshold starts at
        0.4 and the queue is empty. */
    constructor (net: Network, labels: Option<seq<string>>)
      requires net.w > 0 && net.h > 0
      ensures this.net == net && this.labels == labels
      ensures threshold == 0.4 && detectionsQueue == []
    {
      this.net := net;
      this.labels := labels;
      threshold := 0.4;
      detectionsQueue := [];
    }

    /** `runYolo`: store the threshold the next pass reads. */
    method RunYolo(threshold: real)
      modifies this`threshold
      ensures this.threshold == threshold
    {
      this.threshold := threshold;
    }

    /** One pass of `networkProcessFn` after `frame` was popped. `resized`
        is what `ip::resizeCopy` returns for it, and `boxes` what
        `get_network_boxes` reports for `input` and `boxesThreshold`.
        Returns the image handed to the network and the threshold handed to
        `get_network_boxes`, which is the one `RunYolo` stored last;
        appends the accepted detections to the queue, which is never
        cleared. */
    method ProcessFrame(frame: Surface<real>, resized: Surface<real>, boxes: seq<Box>, ramp: ColourRamp)
      returns (input: Image<real>, ghost boxesThreshold: real)
      requires net.w > 0 && net.h > 0
      requires frame.WellFormed() && resized.WellFormed()
      requires forall i :: 0 <= i < |boxes| ==> BoxOk(boxes[i], net, labels, threshold)
      modifies this`detectionsQueue
      ensures fresh(input.data)
      ensures IsPlanarOf(input, ConvertedSurface(frame, resized, net.w, net.h))
      ensures boxesThreshold == threshold
      ensures detectionsQueue
           == old(detectionsQueue) + Published(boxes, net, labels, threshold, frame.width, frame.height, ramp)
    {
      var surfaceCopy := DefaultSurface();
      if frame.width != net.w || frame.height != net.h {
        surfaceCopy := resized;
      }
      ghost var writes;
      input, writes := SurfaceToPlanar(surfaceCopy, 0.0);
      boxesThreshold := threshold;
      PushDetections(boxes, frame.width, frame.height, ramp);
    }

    /** The per-box loop: filter, clamp, scale, colour, label, push. */
    method PushDetections(boxes: seq<Box>, frameW: nat, frameH: nat, ramp: ColourRamp)
      requires net.w > 0 && net.h > 0
      requires forall i :: 0 <= i < |boxes| ==> BoxOk(boxes[i], net, labels, threshold)
      modifies this`detectionsQueue
      ensures detectionsQueue == old(detectionsQueue) + Published(boxes, net, labels, threshold, frameW, frameH, ramp)
    {
      var i := 0;
      while i < |boxes|
        invariant 0 <= i <= |boxes|
        invariant detectionsQueue == old(detectionsQueue) + Published(boxes[..i], net, labels, threshold, frameW, frameH, ramp)
      {
        PublishedSnoc(boxes, i, net, labels, threshold, frameW, frameH, ramp);
        ProcessBox(boxes[i], frameW, frameH, ramp);
        i := i + 1;
      }
      assert boxes[..|boxes|] == boxes;
    }

    /** One iteration of the per-box loop: an accepted box is clamped,
        scaled, coloured, labelled and pushed; a rejected one changes
        nothing. */
    method ProcessBox(b: Box, frameW: nat, frameH: nat, ramp: ColourRamp)
      requires net.w > 0 && net.h > 0
      requires BoxOk(b, net, labels, threshold)
      modifies this`detectionsQueue
      ensures detectionsQueue == old(detectionsQueue)
        + (if Accepts(b, threshold) then [MakeDetection(b, net, labels, frameW, frameH, ramp)] else [])
    {
      if b.prob > threshold && b.objId >= 0 {
        var left, right, top, bot := b.edges.left, b.edges.right, b.edges.top, b.edges.bot;
        if left < 0 { left := 0; }
        if right > net.w - 1 { right := net.w - 1; }
        if top < 0 { top := 0; }
        if bot > net.h - 1 { bot := net.h - 1; }
        var rect := ScaleRect(Rect(left as real, top as real, right as real, bot as real),
                              FrameRatio(frameW, frameH, net.w, net.h));
        var offset := PaletteOffset(b.objId, net.classes);
        var colour := PaletteColour(ramp, offset, net.classes);
        var name := "";
        if labels.Some? {
          name := labels.value[b.objId];
        }
        assert Edges(left, right, top, bot) == ClampEdges(b.edges, net);
        detectionsQueue := detectionsQueue + [Detection(rect, colour, name, b.prob)];
      }
    }
  }
}

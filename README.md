# Cinder-Yolo detector wrappers: a Dafny model of the per-frame pass

Cinder-Yolo wraps two object detectors for the Cinder framework:
`CinderDarknet` (over darknet's C API) and `CinderYolo` (over the
`Detector` class of yolo_v2_class). Each owns a worker thread. That thread
pops a video frame, converts it into the planar layout the network reads,
runs the network, turns the network's boxes into display-ready
detections, and publishes them.

This project models the sequential logic of one such pass:

- `planar.dfy` (module `Planar`): the frame handed to the conversion and
  `surfaceToDarknetImage`. The conversion copies an interleaved
  `h x w x c` surface into a zeroed planar `c x h x w` image. The model
  proves the exact index mapping and that both index expressions stay in
  range. It also proves that both index maps are bijections onto
  `[0, w*h*c)`, and that every image cell is written exactly once (a ghost
  count of the writes per cell). Both wrappers hold the same routine, so
  it is modelled once.
- `detections.dfy` (module `Detections`): the `Detection` struct, which
  each wrapper declares identically, the palette multiplier, `Rectf::scale`, the frame-to-network scale ratio and
  the three palette `get_color` calls.
- `darknet.dfy` (module `Darknet`): the per-box loop of
  `CinderDarknet::networkProcessFn`. It covers the probability/class
  filter, the one-sided clamp, the rectangle, the palette offset, the
  label lookup, and the append to the detections queue. The queue is a
  field of class `CinderDarknet`; it only grows.
- `yolo.dfy` (module `Yolo`): the pass of `CinderYolo::networkProcessFn`.
  It covers the conditional scale factor, the unsigned box arithmetic and
  palette offset, and the replacement of `mDetections`. That field of
  class `CinderYolo` is cleared and then rebuilt with one detection per
  detector result.
- `consistency.dfy` (module `Consistency`): where the two wrappers agree.
- `wrappers.dfy` (module `Wrappers`): `Option`, for the label table that
  may not be loaded.

The code reproduces one quirk, and the model keeps it. In both wrappers
the surface handed to the conversion is `surfaceCopy`. That variable is
assigned only when the popped frame's size differs from the network's.
When the sizes match, the default-constructed, empty surface is converted
instead of the frame (`Planar.ConvertedSurface`,
`Planar.SameSizeFrameConvertsNothing`).

Behaviour the model keeps as written:

- The clamp is one-sided. Left and top are only raised to 0, and right and
  bottom are only lowered to `w-1` and `h-1`. A left edge beyond the last
  column stays where it is.
- `CinderDarknet` reads `mLabels[objId]` without a bounds check, so the
  model requires the class id to index a loaded table. The code has no
  "empty label when out of range" path.
- `CinderYolo` never sets a label or a probability. Every detection it
  publishes keeps the declared defaults: an empty label and probability 0.
- `CinderDarknet` appends to its queue and never replaces a set.
  `CinderYolo` replaces its vector on every pass.

The foreign calls become parameters. `ip::resizeCopy` becomes the
`resized` surface. `get_network_boxes`, `do_nms_sort` and `max_index`
become the `boxes` sequence, and `Detector::detect` becomes the `result`
sequence. `get_color` becomes a `ColourRamp` function. Pixel samples
(`float` in `Surface32f`) are `real` in the passes, and the conversion is
generic in the sample type.

## Model

| member | source | states |
|---|---|---|
| `Planar.ConvertedSurface` | src/cinder/darknet/CinderDarknet.cpp:64-70 | the converted surface is the resized frame exactly when the popped frame's width or height differs from the network's; otherwise it is the empty default surface |
| `Planar.SameSizeFrameConvertsNothing` | src/cinder/darknet/CinderYolo.cpp:57-66 | when the frame already has the network's size, the image handed to the network is 0 x 0 with no samples |
| `Planar.DefaultSurface` | src/cinder/darknet/CinderDarknet.cpp:65 | a default-constructed surface is well formed and has no pixels |
| `Planar.SrcIndexInRange` | src/cinder/darknet/CinderDarknet.cpp:123-127 | every read index `i*(w*c) + j*c + k` lies below `w*h*c` |
| `Planar.DstIndexInRange` | src/cinder/darknet/CinderDarknet.cpp:122-127 | every write index `k*w*h + i*w + j` lies below `w*h*c`, the size of the allocated image |
| `Planar.SrcIndexInjective` | src/cinder/darknet/CinderDarknet.cpp:124-127 | two different `(i, j, k)` never read the same surface cell |
| `Planar.DstIndexInjective` | src/cinder/darknet/CinderDarknet.cpp:124-127 | two different `(i, j, k)` never write the same image cell |
| `Planar.SrcIndexOnto` | src/cinder/darknet/CinderDarknet.cpp:124-127 | every one of the first `w*h*c` surface samples is read by some iteration |
| `Planar.DstIndexOnto` | src/cinder/darknet/CinderDarknet.cpp:124-127 | every image cell is written by some iteration, so the copy is a permutation |
| `Planar.MakeImage` | src/cinder/darknet/CinderYolo.cpp:91-102 | the image records `(w, h, c)` and holds exactly `w*h*c` cells, all zero |
| `Planar.SurfaceToPlanar` | src/cinder/darknet/CinderDarknet.cpp:116-132 | the result has the surface's dimensions and `out[k*w*h + i*w + j] == in[i*(w*c) + j*c + k]` for all `i < h`, `j < w`, `k < c`; each of the `w*h*c` cells is written exactly once |
| `Detections.FrameRatio` | src/cinder/darknet/CinderDarknet.cpp:94 | the ratio maps the network's width and height onto the frame's |
| `Detections.ScaleRect` | src/cinder/darknet/CinderDarknet.cpp:95 | `Rectf::scale` with factor (1, 1) leaves a rectangle unchanged |
| `Detections.ScaleKeepsOrder` | src/cinder/darknet/CinderYolo.cpp:74 | `Rectf::scale` with a non-negative factor keeps each pair of corners in order, so an ordered rectangle stays ordered |
| `Detections.PaletteColour` | src/cinder/darknet/CinderDarknet.cpp:98-101 | red, green and blue are the ramp's channels 2, 1 and 0, all at the same offset and class count |
| `Darknet.RectOf` | src/cinder/darknet/CinderDarknet.cpp:93 | the rectangle's corners are the clamped integer edges, converted exactly |
| `Darknet.RectOfKeepsOrder` | src/cinder/darknet/CinderDarknet.cpp:93 | the rectangle is ordered exactly when its edges are, in both directions of the equivalence |
| `Darknet.ClampEdges` | src/cinder/darknet/CinderDarknet.cpp:89-92 | afterwards `left >= 0`, `top >= 0`, `right <= w-1`, `bot <= h-1`; an edge within its bound is unchanged; left/top are never lowered and right/bot never raised; a clamped edge lands on its bound |
| `Darknet.ClampIdempotent` | src/cinder/darknet/CinderDarknet.cpp:89-92 | clamping a clamped box changes nothing |
| `Darknet.PaletteOffset` | src/cinder/darknet/CinderDarknet.cpp:97 | `objId * 123457 % classes` lies in `[0, classes)` for a class id from `max_index` |
| `Darknet.MakeDetection` | src/cinder/darknet/CinderDarknet.cpp:83-105 | the rectangle is the clamped box scaled by the frame-to-network ratio; the colour takes red, green, blue from ramp channels 2, 1, 0 at the palette offset; the label is `labels[objId]` when a table was loaded and empty otherwise; the probability is the box's |
| `Darknet.DetectionInsideFrame` | src/cinder/darknet/CinderDarknet.cpp:89-95 | a published rectangle's upper left is never negative and its lower right never reaches past a non-empty frame's right or bottom edge, whatever box the network reports |
| `Darknet.AcceptedIndices` | src/cinder/darknet/CinderDarknet.cpp:77-82 | the indices of the boxes passing the filter `Accepts` (`prob > threshold && objId >= 0`), strictly increasing, each one accepted and every accepted box present |
| `Darknet.Published` | src/cinder/darknet/CinderDarknet.cpp:77-108 | a pass yields exactly as many detections as there are accepted boxes |
| `Darknet.PublishedAt` | src/cinder/darknet/CinderDarknet.cpp:77-108 | the `p`-th detection of a pass is built from the `p`-th accepted box, so detections follow box order and rejected boxes contribute nothing |
| `Darknet.PublishedUnfold` | src/cinder/darknet/CinderDarknet.cpp:77-108 | the last box contributes its index and its detection after those of the boxes before it, and only when accepted |
| `Darknet.AllRejectedPublishesNothing` | src/cinder/darknet/CinderDarknet.cpp:82-108 | when no box passes the filter, the pass appends nothing |
| `Darknet.PublishedSnoc` | src/cinder/darknet/CinderDarknet.cpp:77-108 | one more loop iteration appends at most the detection of that box |
| `Darknet.OversizedBoxExample` | src/cinder/darknet/CinderDarknet.cpp:84-95 | an oversized box on a 416 x 416 network is clamped to `[0, 415]` and doubled onto an 832 x 832 frame |
| `Darknet.CinderDarknet.constructor` | src/cinder/darknet/CinderDarknet.cpp:22-41 | the label table is present only when one was loaded, the threshold starts at 0.4 and the detections queue is empty |
| `Darknet.CinderDarknet.RunYolo` | src/cinder/darknet/CinderDarknet.cpp:54-58 | the threshold read by the next pass is the one given |
| `Darknet.CinderDarknet.ProcessFrame` | src/cinder/darknet/CinderDarknet.cpp:60-114 | the network receives the planar copy of the converted surface, `get_network_boxes` receives the stored threshold, and the queue becomes its old contents followed by the pass's detections |
| `Darknet.CinderDarknet.PushDetections` | src/cinder/darknet/CinderDarknet.cpp:77-109 | the per-box loop appends exactly the pass's detections to the queue, keeping everything already in it |
| `Darknet.CinderDarknet.ProcessBox` | src/cinder/darknet/CinderDarknet.cpp:78-108 | an accepted box appends its detection, built by the imperative clamp, scale, palette and label steps, to the queue; a rejected box leaves the queue unchanged |
| `Yolo.AddU32` | src/cinder/darknet/CinderYolo.cpp:73 | unsigned addition equals the sum below 2^32 and wraps around above it |
| `Yolo.BoxRect` | src/cinder/darknet/CinderYolo.cpp:73 | the rectangle's upper left is `(x, y)` and its lower right `(x+w, y+h)` unless the unsigned sum wraps, which in exact arithmetic puts it left of or above the upper left |
| `Yolo.YoloScale` | src/cinder/darknet/CinderYolo.cpp:59-65 | the scale factor is (1, 1) when the frame has the network's size and always equals the frame-to-network ratio |
| `Yolo.YoloOffset` | src/cinder/darknet/CinderYolo.cpp:76 | the unsigned `obj_id * 123457 % numClasses` lies in `[0, numClasses)` |
| `Yolo.MakeDetection` | src/cinder/darknet/CinderYolo.cpp:72-80 | the rectangle is the box's rectangle scaled by the pass's factor, unchanged at (1, 1); red, green, blue come from ramp channels 2, 1, 0 at the palette offset; label and probability keep their defaults, empty and 0 |
| `Yolo.CinderYolo.constructor` | src/cinder/darknet/CinderYolo.cpp:10-32 | the label table holds the file's lines, the threshold starts at 0.4 and nothing is published |
| `Yolo.CinderYolo.RunYolo` | src/cinder/darknet/CinderYolo.cpp:47-51 | the stored threshold is the one given; the next `ProcessFrame` hands it to `detect` |
| `Yolo.CinderYolo.GetDetections` | src/cinder/darknet/CinderYolo.h:24 | the consumer receives a copy of the published detections |
| `Yolo.CinderYolo.ProcessFrame` | src/cinder/darknet/CinderYolo.cpp:53-86 | the detector receives the planar copy of the converted surface together with the stored threshold; afterwards exactly one detection per result element is published, entry `i` built from `result[i]`, and nothing from earlier passes remains |
| `Yolo.CinderYolo.ReplaceDetections` | src/cinder/darknet/CinderYolo.cpp:69-82 | clearing and pushing back leaves exactly `|result|` detections, in result order, with no filtering |
| `Consistency.PaletteOffsetsAgree` | src/cinder/darknet/CinderYolo.cpp:76 | the unsigned offset of `CinderYolo` equals the signed offset of `CinderDarknet` whenever the product fits in an `int` |
| `Consistency.SameClassSameColour` | src/cinder/darknet/CinderYolo.cpp:76-80 | the colour `CinderYolo` gives a class is the colour `CinderDarknet` gives it, whatever the box, frame or scale, whenever the palette product fits in an `int` |
| `Consistency.PaletteOffsetExample` | src/cinder/darknet/CinderDarknet.cpp:97 | class 1 of 80 takes palette offset 17 in both wrappers |

## Left out

- Threads, the `std::promise`/`std::future` termination loop, the
  `std::atomic` threshold and the `std::mutex`. Their point is
  concurrency, which a sequential model cannot check. The model starts
  each pass after a frame was popped and reads the threshold once per
  pass. `CinderDarknet` actually re-reads the atomic threshold for every
  box.
- `ConcurrentCircularBuffer` is not part of this model. That covers
  `runYolo`'s `tryPushFront` of the frame, the `isNotEmpty` and
  `tryPopBack` gate of the pass, `cancel`, and the capacity of 15. The
  detections queue of `CinderDarknet` is an unbounded append-only
  sequence, so a push into a full queue is not modelled.
- The destructors: signalling, joining, cancelling the queues and
  clearing `mDetections`.
- darknet and yolo_v2_class are not part of this model. This covers
  `load_network`, `network_predict`, `get_network_boxes`, `do_nms_sort`,
  `max_index`, `Detector::detect`, `get_color`, `make_image` and the
  `free_*` calls. Their results are parameters. `make_image` is taken to
  zero its cells, as `calloc` in `makeYoloImage` does. The empty image of
  the same-size quirk also feeds `get_network_boxes` a 0 x 0 size. Its
  effect on the boxes lies inside darknet.
- The float box arithmetic `(box.x -/+ box.w/2) * w` and its truncation
  to `int`. Boxes start from the truncated integer edges.
- `Darknet.MakeDetection`, `Yolo.YoloScale`, `Yolo.MakeDetection`: they
  compute the scale ratio and `Rectf::scale` in exact reals, not `float`,
  so rounding is not modelled.
- `Yolo.BoxRect`: the unsigned-to-`float` conversion of `Rectf( d.x, d.y,
  d.x+d.w, d.y+d.h )` is taken as exact. Near 2^32 `float` rounding can
  make a wrapped lower right equal to the upper left instead of less.
- The per-detection `CI_LOG_I` line is logging output. It changes no
  state of the wrapper.
- `Darknet.PaletteOffset` requires `objId * 123457` to fit in an `int`,
  because signed overflow is undefined in C. With more than 17395
  classes the source itself is undefined.
- `prob[objId]` is read before the `objId >= 0` test. When the network
  has no classes this reads `prob[-1]`. The model takes a box's
  probability as given.
- `ip::resizeCopy` is a library image operation. It is the `resized`
  parameter.
- Reading the labels file (`get_labels`, `std::ifstream`) is file I/O. The
  table is a constructor parameter. `CinderYolo`'s table is stored but no
  pass reads it.
- `getColorFromClassId` and `getLabelFromClassId` are declared in
  `CinderYolo.h` and defined nowhere, so the model leaves them out.
- Cinder's `Surface32f`, `Rectf`, `vec2` and `Colorf` are not part of
  this model. A surface is taken as unpadded rows of `w * c` samples, as
  the conversion's `widthStep` assumes. A default surface is 0 x 0 with
  no channels, and a rectangle stores its corners as given.
- 32-bit overflow of the index products for images of `2^31` samples or
  more.
- The sample apps: GL drawing, NDI video acquisition and keyboard
  threshold nudging.

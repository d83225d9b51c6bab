/** Conversion of an interleaved surface (rows of pixels, each pixel `c`
    consecutive samples) into the planar layout darknet reads (one
    `w * h` plane per channel). Both wrappers use the same routine. */
module Planar {

  /** A Cinder surface as the conversion reads it: `width * height` pixels
      of `pixelInc` samples each, row after row, with no row padding. */
  datatype Surface<T> = Surface(width: nat, height: nat, pixelInc: nat, data: seq<T>)
  {
    /** The buffer holds every sample the conversion reads. */
    predicate WellFormed() {
      |data| >= width * height * pixelInc
    }
  }

  /** A default-constructed surface: no pixels at all. */
  function DefaultSurface<T>(): (s: Surface<T>)
    ensures s.WellFormed() && s.width == 0 && s.height == 0
  {
    Surface(0, 0, 0, [])
  }

  /** The surface both wrappers hand to the conversion: `surfaceCopy`,
      which receives the resized frame only when the popped frame's size
      differs from the network's. When the sizes already match it is still
      default-constructed, so an empty surface is converted, not the
      frame. */
  function ConvertedSurface<T>(frame: Surface<T>, resized: Surface<T>, netW: int, netH: int): (s: Surface<T>)
    ensures frame.width != netW || frame.height != netH ==> s == resized
    ensures frame.width == netW && frame.height == netH ==> s.width == 0 && s.height == 0 && s.data == []
  {
    if frame.width != netW || frame.height != netH then resized else DefaultSurface()
  }

  /** darknet's `image` / yolo's `image_t`: the dimensions and the
      planar sample buffer. */
  datatype Image<T> = Image(w: nat, h: nat, c: nat, data: array<T>)

  /** Index of sample `k` of pixel `(i, j)` (row `i`, column `j`) in the
      interleaved surface buffer. */
  function SrcIndex(w: nat, c: nat, i: nat, j: nat, k: nat): (n: nat) {
    i * (w * c) + j * c + k
  }

  /** Index of the same sample in the planar image: plane `k`, row `i`,
      column `j`. */
  function DstIndex(w: nat, h: nat, i: nat, j: nat, k: nat): (n: nat) {
    k * w * h + i * w + j
  }

  /** A three-digit mixed-radix number: digit `x` has weight `ny * nz`,
      digit `y` weight `nz`. Both index maps are of this shape. */
  function Pack3(x: nat, y: nat, z: nat, ny: nat, nz: nat): (n: nat) {
    x * (ny * nz) + y * nz + z
  }

  lemma MulMono(a: nat, b: nat, m: nat)
    requires a <= b
    ensures a * m <= b * m
  {
  }

  lemma {:induction false} Pack3Bound(x: nat, y: nat, z: nat, nx: nat, ny: nat, nz: nat)
    requires x < nx && y < ny && z < nz
    ensures Pack3(x, y, z, ny, nz) < nx * ny * nz
  {
    MulMono(y + 1, ny, nz);
    assert y * nz + z < ny * nz;
    MulMono(x + 1, nx, ny * nz);
    assert nx * (ny * nz) == nx * ny * nz;
  }

  /** Quotient and remainder are unique. */
  lemma {:induction false} QuotRemUnique(q1: nat, r1: nat, q2: nat, r2: nat, m: nat)
    requires r1 < m && r2 < m
    requires q1 * m + r1 == q2 * m + r2
    ensures q1 == q2 && r1 == r2
  {
    if q1 < q2 {
      MulMono(q1 + 1, q2, m);
      assert false;
    } else if q2 < q1 {
      MulMono(q2 + 1, q1, m);
      assert false;
    }
  }

  lemma {:induction false} Pack3Injective(x1: nat, y1: nat, z1: nat, x2: nat, y2: nat, z2: nat, ny: nat, nz: nat)
    requires y1 < ny && z1 < nz && y2 < ny && z2 < nz
    requires Pack3(x1, y1, z1, ny, nz) == Pack3(x2, y2, z2, ny, nz)
    ensures x1 == x2 && y1 == y2 && z1 == z2
  {
    MulMono(y1 + 1, ny, nz);
    MulMono(y2 + 1, ny, nz);
    QuotRemUnique(x1, y1 * nz + z1, x2, y2 * nz + z2, ny * nz);
    QuotRemUnique(y1, z1, y2, z2, nz);
  }

  lemma {:induction false} Pack3Onto(n: nat, nx: nat, ny: nat, nz: nat) returns (x: nat, y: nat, z: nat)
    requires n < nx * ny * nz
    ensures x < nx && y < ny && z < nz
    ensures Pack3(x, y, z, ny, nz) == n
  {
    assert ny != 0 && nz != 0;
    var m := ny * nz;
    assert m > 0;
    x := n / m;
    var r := n % m;
    y := r / nz;
    z := r % nz;
    assert n == x * m + r;
    assert r == y * nz + z;
    assert nx * m == nx * ny * nz;
    if x >= nx {
      MulMono(nx, x, m);
      assert false;
    }
    if y >= ny {
      MulMono(ny, y, nz);
      assert false;
    }
  }

  /** Every sample the loop reads lies inside the surface buffer. */
  lemma SrcIndexInRange(w: nat, h: nat, c: nat, i: nat, j: nat, k: nat)
    requires i < h && j < w && k < c
    ensures SrcIndex(w, c, i, j, k) < w * h * c
  {
    Pack3Bound(i, j, k, h, w, c);
    assert h * w * c == w * h * c;
  }

  /** The planar index is the mixed-radix number with digits `(k, i, j)`. */
  lemma DstIndexIsPack3(w: nat, h: nat, i: nat, j: nat, k: nat)
    ensures DstIndex(w, h, i, j, k) == Pack3(k, i, j, h, w)
  {
    assert k * w * h == k * (w * h);
    assert w * h == h * w;
  }

  /** Every sample the loop writes lies inside the image buffer. */
  lemma DstIndexInRange(w: nat, h: nat, c: nat, i: nat, j: nat, k: nat)
    requires i < h && j < w && k < c
    ensures DstIndex(w, h, i, j, k) < w * h * c
  {
    Pack3Bound(k, i, j, c, h, w);
    DstIndexIsPack3(w, h, i, j, k);
    assert c * h * w == w * h * c;
  }

  /** No two samples of the surface are read from the same cell. */
  lemma SrcIndexInjective(w: nat, h: nat, c: nat, i1: nat, j1: nat, k1: nat, i2: nat, j2: nat, k2: nat)
    requires i1 < h && j1 < w && k1 < c && i2 < h && j2 < w && k2 < c
    requires SrcIndex(w, c, i1, j1, k1) == SrcIndex(w, c, i2, j2, k2)
    ensures i1 == i2 && j1 == j2 && k1 == k2
  {
    Pack3Injective(i1, j1, k1, i2, j2, k2, w, c);
  }

  /** No two samples are written to the same image cell. */
  lemma DstIndexInjective(w: nat, h: nat, c: nat, i1: nat, j1: nat, k1: nat, i2: nat, j2: nat, k2: nat)
    requires i1 < h && j1 < w && k1 < c && i2 < h && j2 < w && k2 < c
    requires DstIndex(w, h, i1, j1, k1) == DstIndex(w, h, i2, j2, k2)
    ensures i1 == i2 && j1 == j2 && k1 == k2
  {
    DstIndexIsPack3(w, h, i1, j1, k1);
    DstIndexIsPack3(w, h, i2, j2, k2);
    Pack3Injective(k1, i1, j1, k2, i2, j2, h, w);
  }

  /** Every cell of the surface buffer's first `w * h * c` samples is read
      by some iteration. */
  lemma SrcIndexOnto(w: nat, h: nat, c: nat, n: nat) returns (i: nat, j: nat, k: nat)
    requires n < w * h * c
    ensures i < h && j < w && k < c && SrcIndex(w, c, i, j, k) == n
  {
    assert w * h * c == h * w * c;
    i, j, k := Pack3Onto(n, h, w, c);
  }

  /** Every cell of the image buffer is written by some iteration. */
  lemma DstIndexOnto(w: nat, h: nat, c: nat, n: nat) returns (i: nat, j: nat, k: nat)
    requires n < w * h * c
    ensures i < h && j < w && k < c && DstIndex(w, h, i, j, k) == n
  {
    assert w * h * c == c * h * w;
    k, i, j := Pack3Onto(n, c, h, w);
    DstIndexIsPack3(w, h, i, j, k);
  }

  /** `img` holds the planar copy of `s`: its dimensions are the surface's
      and the sample at plane `k`, row `i`, column `j` is the surface's
      sample `k` of pixel `(i, j)`. */
  ghost predicate IsPlanarOf<T>(img: Image<T>, s: Surface<T>)
    reads img.data
  {
    && s.WellFormed()
    && img.w == s.width && img.h == s.height && img.c == s.pixelInc
    && img.data.Length == s.width * s.height * s.pixelInc
    && forall i: nat, j: nat, k: nat {:trigger DstIndex(s.width, s.height, i, j, k)}
         :: i < s.height && j < s.width && k < s.pixelInc ==>
              DstIndex(s.width, s.height, i, j, k) < img.data.Length &&
              SrcIndex(s.width, s.pixelInc, i, j, k) < |s.data| &&
              img.data[DstIndex(s.width, s.height, i, j, k)] == s.data[SrcIndex(s.width, s.pixelInc, i, j, k)]
  }

  /** When the popped frame already has the network's size, the image the
      network receives has no samples at all, whatever the frame holds. */
  lemma SameSizeFrameConvertsNothing<T>(img: Image<T>, frame: Surface<T>, resized: Surface<T>, netW: int, netH: int)
    requires frame.width == netW && frame.height == netH
    requires IsPlanarOf(img, ConvertedSurface(frame, resized, netW, netH))
    ensures img.w == 0 && img.h == 0 && img.data.Length == 0
  {
  }

  /** The image allocation (`calloc` of `h * w * c` samples): the image
      records its dimensions and every cell starts out as zero. */
  method MakeImage<T>(w: nat, h: nat, c: nat, zero: T) returns (img: Image<T>)
    ensures fresh(img.data)
    ensures img.w == w && img.h == h && img.c == c
    ensures img.data.Length == w * h * c
    ensures forall n :: 0 <= n < img.data.Length ==> img.data[n] == zero
  {
    var data := new T[w * h * c](_ => zero);
    img := Image(w, h, c, data);
  }

  /** `(i1, k1, j1)` comes before `(i, k, j)` in the loop's nesting order:
      rows outermost, then channels, then columns. */
  predicate Before(i1: nat, k1: nat, j1: nat, i: nat, k: nat, j: nat) {
    i1 < i || (i1 == i && (k1 < k || (k1 == k && j1 < j)))
  }

  /** surfaceToDarknetImage: allocate a zeroed `w * h * c` image and copy
      every sample from the interleaved surface into its plane. The ghost
      `writes` counts the assignments made to each image cell: every cell
      is written exactly once. */
  method SurfaceToPlanar<T>(s: Surface<T>, zero: T) returns (img: Image<T>, ghost writes: seq<nat>)
    requires s.WellFormed()
    ensures fresh(img.data)
    ensures IsPlanarOf(img, s)
    ensures |writes| == img.data.Length
    ensures forall n :: 0 <= n < |writes| ==> writes[n] == 1
  {
    var w, h, c := s.width, s.height, s.pixelInc;
    forall i1: nat, j1: nat, k1: nat | i1 < h && j1 < w && k1 < c
      ensures DstIndex(w, h, i1, j1, k1) < w * h * c && SrcIndex(w, c, i1, j1, k1) < w * h * c
    {
      DstIndexInRange(w, h, c, i1, j1, k1);
      SrcIndexInRange(w, h, c, i1, j1, k1);
    }
    img := MakeImage(w, h, c, zero);
    writes := seq(w * h * c, _ => 0);
    var i := 0;
    while i < h
      invariant 0 <= i <= h
      invariant img.w == w && img.h == h && img.c == c
      invariant img.data.Length == w * h * c == |writes|
      invariant forall i1: nat, j1: nat, k1: nat {:trigger DstIndex(w, h, i1, j1, k1)}
        :: i1 < h && j1 < w && k1 < c ==>
             writes[DstIndex(w, h, i1, j1, k1)] == (if Before(i1, k1, j1, i, 0, 0) then 1 else 0)
      invariant forall i1: nat, j1: nat, k1: nat {:trigger DstIndex(w, h, i1, j1, k1)}
        :: i1 < h && j1 < w && k1 < c && Before(i1, k1, j1, i, 0, 0) ==>
             img.data[DstIndex(w, h, i1, j1, k1)] == s.data[SrcIndex(w, c, i1, j1, k1)]
    {
      var k := 0;
      while k < c
        invariant 0 <= k <= c
        invariant img.data.Length == w * h * c == |writes|
        invariant forall i1: nat, j1: nat, k1: nat {:trigger DstIndex(w, h, i1, j1, k1)}
          :: i1 < h && j1 < w && k1 < c ==>
               writes[DstIndex(w, h, i1, j1, k1)] == (if Before(i1, k1, j1, i, k, 0) then 1 else 0)
        invariant forall i1: nat, j1: nat, k1: nat {:trigger DstIndex(w, h, i1, j1, k1)}
          :: i1 < h && j1 < w && k1 < c && Before(i1, k1, j1, i, k, 0) ==>
               img.data[DstIndex(w, h, i1, j1, k1)] == s.data[SrcIndex(w, c, i1, j1, k1)]
      {
        var j := 0;
        while j < w
          invariant 0 <= j <= w
          invariant img.data.Length == w * h * c == |writes|
          invariant forall i1: nat, j1: nat, k1: nat {:trigger DstIndex(w, h, i1, j1, k1)}
            :: i1 < h && j1 < w && k1 < c ==>
                 writes[DstIndex(w, h, i1, j1, k1)] == (if Before(i1, k1, j1, i, k, j) then 1 else 0)
          invariant forall i1: nat, j1: nat, k1: nat {:trigger DstIndex(w, h, i1, j1, k1)}
            :: i1 < h && j1 < w && k1 < c && Before(i1, k1, j1, i, k, j) ==>
                 img.data[DstIndex(w, h, i1, j1, k1)] == s.data[SrcIndex(w, c, i1, j1, k1)]
        {
          var d := DstIndex(w, h, i, j, k);
          forall i1: nat, j1: nat, k1: nat | i1 < h && j1 < w && k1 < c && DstIndex(w, h, i1, j1, k1) == d
            ensures i1 == i && j1 == j && k1 == k
          {
            DstIndexInjective(w, h, c, i1, j1, k1, i, j, k);
          }
          img.data[d] := s.data[SrcIndex(w, c, i, j, k)];
          writes := writes[d := writes[d] + 1];
          j := j + 1;
        }
        k := k + 1;
      }
      i := i + 1;
    }
    forall n | 0 <= n < |writes|
      ensures writes[n] == 1
    {
      var i1, j1, k1 := DstIndexOnto(w, h, c, n);
    }
  }
}

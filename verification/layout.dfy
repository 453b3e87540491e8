/** The layout step of `preprocessImage`: the resized image, an H x W grid
    of C-channel pixels in interleaved order, is copied into a flat
    channel-major buffer, channel c of pixel (h, w) going to offset
    `c*H*W + h*W + w`. Pixel values are left abstract (type `T`): decoding,
    resizing and the 1/255 scaling are not part of this model. */
module Layout {
  import opened Inference

  datatype Shape = Shape(channels: nat, height: nat, width: nat)

  /** The network input: 3 x 224 x 224. */
  const ImageShape := Shape(ImageChannels, ImageHeight, ImageWidth)

  /** A coordinate of the planar buffer: channel, row, column. */
  datatype Coord = Coord(c: nat, h: nat, w: nat)

  /** Number of values in one channel plane. */
  function Plane(d: Shape): nat {
    d.height * d.width
  }

  /** Number of values in the whole buffer. */
  function Volume(d: Shape): nat {
    d.channels * Plane(d)
  }

  predicate InBounds(d: Shape, c: nat, h: nat, w: nat) {
    c < d.channels && h < d.height && w < d.width
  }

  /** The image as `cv::Mat::at<cv::Vec3f>(h, w)[c]` sees it: `height` rows of
      `width` pixels of `channels` values each. */
  predicate WellShaped<T>(img: seq<seq<seq<T>>>, d: Shape) {
    && |img| == d.height
    && (forall h | 0 <= h < |img| :: |img[h]| == d.width)
    && (forall h, w | 0 <= h < |img| && 0 <= w < |img[h]| :: |img[h][w]| == d.channels)
  }

  /** The channel-major offset of channel `c` of pixel (`h`, `w`). */
  function Offset(d: Shape, c: nat, h: nat, w: nat): nat {
    c * Plane(d) + h * d.width + w
  }

  lemma MulMonotone(a: nat, b: nat, k: nat)
    requires a <= b
    ensures a * k <= b * k
  {
  }

  /** Quotient and remainder are determined by any decomposition. */
  lemma DivModUnique(x: nat, q: nat, r: nat, n: nat)
    requires 0 < n && r < n && x == q * n + r
    ensures x / n == q && x % n == r
  {
    var q', r' := x / n, x % n;
    assert x == q' * n + r';
    if q' < q {
      MulMonotone(q' + 1, q, n);
    } else if q < q' {
      MulMonotone(q + 1, q', n);
    }
  }

  /** Every in-range coordinate lands inside the buffer. */
  lemma OffsetInBounds(d: Shape, c: nat, h: nat, w: nat)
    requires InBounds(d, c, h, w)
    ensures Offset(d, c, h, w) < Volume(d)
  {
    MulMonotone(h + 1, d.height, d.width);
    MulMonotone(c + 1, d.channels, Plane(d));
  }

  /** The coordinate stored at offset `i`: the inverse of `Offset`. */
  function Coords(d: Shape, i: nat): (p: Coord)
    requires i < Volume(d)
    ensures InBounds(d, p.c, p.h, p.w)
    ensures Offset(d, p.c, p.h, p.w) == i
  {
    assert Plane(d) > 0 && d.width > 0;
    var r := i % Plane(d);
    var p := Coord(i / Plane(d), r / d.width, r % d.width);
    assert i == p.c * Plane(d) + r;
    assert r == p.h * d.width + p.w;
    assert p.c < d.channels by {
      if p.c >= d.channels {
        MulMonotone(d.channels, p.c, Plane(d));
      }
    }
    assert p.h < d.height by {
      if p.h >= d.height {
        MulMonotone(d.height, p.h, d.width);
      }
    }
    p
  }

  /** `Offset` is one-to-one on in-range coordinates: `Coords` undoes it. */
  lemma CoordsOfOffset(d: Shape, c: nat, h: nat, w: nat)
    requires InBounds(d, c, h, w)
    ensures Offset(d, c, h, w) < Volume(d)
    ensures Coords(d, Offset(d, c, h, w)) == Coord(c, h, w)
  {
    OffsetInBounds(d, c, h, w);
    var i := Offset(d, c, h, w);
    MulMonotone(h + 1, d.height, d.width);
    DivModUnique(i, c, h * d.width + w, Plane(d));
    DivModUnique(h * d.width + w, h, w, d.width);
  }

  /** `Offset` never sends two in-range coordinates to the same slot; with
      `Coords` (every slot has an in-range coordinate) it is a bijection
      onto `[0, Volume(d))`, so every slot of the buffer is written exactly
      once. */
  lemma OffsetInjective(d: Shape, c1: nat, h1: nat, w1: nat, c2: nat, h2: nat, w2: nat)
    requires InBounds(d, c1, h1, w1) && InBounds(d, c2, h2, w2)
    requires Offset(d, c1, h1, w1) == Offset(d, c2, h2, w2)
    ensures c1 == c2 && h1 == h2 && w1 == w2
  {
    CoordsOfOffset(d, c1, h1, w1);
    CoordsOfOffset(d, c2, h2, w2);
  }

  /** The source's index expression is the channel-major offset. */
  lemma SourceIndex(d: Shape, c: nat, h: nat, w: nat)
    ensures c * d.height * d.width + h * d.width + w == Offset(d, c, h, w)
  {
  }

  /** The end of a row is the start of the next one, the end of a plane the
      start of the next plane, and the end of the last plane the end of the
      buffer. */
  lemma OffsetCarries(d: Shape, c: nat, h: nat)
    ensures Offset(d, c, h, d.width) == Offset(d, c, h + 1, 0)
    ensures Offset(d, c, d.height, 0) == Offset(d, c + 1, 0, 0)
    ensures Offset(d, d.channels, 0, 0) == Volume(d)
  {
  }

  /** The value the planar buffer holds at offset `i`. */
  function Pixel<T>(img: seq<seq<seq<T>>>, d: Shape, i: nat): T
    requires WellShaped(img, d) && i < Volume(d)
  {
    var p := Coords(d, i);
    img[p.h][p.w][p.c]
  }

  /** The planar buffer described through the inverse map, slot by slot. */
  function Planar<T>(img: seq<seq<seq<T>>>, d: Shape): (out: seq<T>)
    requires WellShaped(img, d)
    ensures |out| == Volume(d)
  {
    seq(Volume(d), i requires 0 <= i < Volume(d) => Pixel(img, d, i))
  }

  /** The triple loop of `preprocessImage`, channel outermost: the buffer is
      allocated with `Volume(d)` default values and each iteration stores
      one image value at its channel-major offset. */
  method ToPlanar<T(0)>(img: seq<seq<seq<T>>>, d: Shape) returns (out: seq<T>)
    requires WellShaped(img, d)
    ensures |out| == Volume(d)
    ensures forall c: nat, h: nat, w: nat | InBounds(d, c, h, w) ::
      Offset(d, c, h, w) < |out| && out[Offset(d, c, h, w)] == img[h][w][c]
    ensures out == Planar(img, d)
  {
    var data := new T[Volume(d)];
    ghost var k: nat := 0;
    var c := 0;
    while c < d.channels
      invariant c <= d.channels
      invariant k == Offset(d, c, 0, 0) <= Volume(d)
      invariant forall i | 0 <= i < k :: data[i] == Pixel(img, d, i)
    {
      var h := 0;
      while h < d.height
        invariant h <= d.height
        invariant k == Offset(d, c, h, 0) <= Volume(d)
        invariant forall i | 0 <= i < k :: data[i] == Pixel(img, d, i)
      {
        var w := 0;
        while w < d.width
          invariant w <= d.width
          invariant k == Offset(d, c, h, w) <= Volume(d)
          invariant forall i | 0 <= i < k :: data[i] == Pixel(img, d, i)
        {
          CoordsOfOffset(d, c, h, w);
          SourceIndex(d, c, h, w);
          data[c * d.height * d.width + h * d.width + w] := img[h][w][c];
          k := k + 1;
          w := w + 1;
        }
        OffsetCarries(d, c, h);
        h := h + 1;
      }
      OffsetCarries(d, c, h);
      c := c + 1;
    }
    OffsetCarries(d, c, 0);
    out := data[..];
    forall c: nat, h: nat, w: nat | InBounds(d, c, h, w)
      ensures Offset(d, c, h, w) < |out| && out[Offset(d, c, h, w)] == img[h][w][c]
    {
      CoordsOfOffset(d, c, h, w);
    }
  }

  /** Once the image has the network's 224 x 224 x 3 shape, the buffer
      handed to the device holds 3 * 224 * 224 values. */
  lemma InputVolume<T(0)>(img: seq<seq<seq<T>>>)
    requires WellShaped(img, ImageShape)
    ensures |Planar(img, ImageShape)| == 150528
  {
  }
}

/** Scaling a cursor image down until it fits into 32 by 32 pixels: SocketParseCursor of
    host-ext/nacl_src/kiwi.cc. */
module Cursor {
  import opened Arithmetic

  type Pixel = nat

  const MAX_SIDE: nat := 32

  predicate Fits(width: nat, height: nat, scale: nat)
    requires 0 < scale
  {
    width / scale <= MAX_SIDE && height / scale <= MAX_SIDE
  }

  /** The position sampled for pixel (x, y) of the scaled image, w pixels wide. */
  function Sample(scale: nat, w: nat, x: nat, y: nat): nat {
    scale * y * scale * w + scale * x
  }

  /** The pixel in column scale*x of row scale*y, which is what nearest neighbour means. */
  function Nearest(scale: nat, width: nat, x: nat, y: nat): nat {
    scale * y * width + scale * x
  }

  // ---- Arithmetic ----

  lemma Regroup(scale: nat, w: nat, y: nat)
    ensures scale * y * scale * w == (scale * y) * (scale * w)
  {
  }

  lemma ScaledSide(side: nat, scale: nat, x: nat)
    requires 0 < scale && x < side / scale
    ensures scale * x < side
  {
    Quotient(side, scale);
    Product(scale, scale, x + 1, side / scale);
    assert scale * (x + 1) == scale * x + scale;
  }

  lemma Inside(row: nat, line: nat, off: nat, width: nat, height: nat)
    requires row < height && line <= width && off < width
    ensures row * line + off < width * height
  {
    Product(row, height - 1, line, width);
    assert (height - 1) * width + width == width * height;
  }

  /** Every sample lies inside the image. */
  lemma SampleInside(width: nat, height: nat, scale: nat, x: nat, y: nat)
    requires 0 < scale && x < width / scale && y < height / scale
    ensures Sample(scale, width / scale, x, y) < width * height
  {
    ScaledSide(width, scale, x);
    ScaledSide(height, scale, y);
    Quotient(width, scale);
    Regroup(scale, width / scale, y);
    Inside(scale * y, scale * (width / scale), scale * x, width, height);
  }

  /** A sample is the nearest pixel exactly if it is in the first row or the scale divides the width. */
  lemma SampleIsNearest(width: nat, scale: nat, x: nat, y: nat)
    requires 0 < scale
    ensures Sample(scale, width / scale, x, y) == Nearest(scale, width, x, y) <==> y == 0 || width % scale == 0
  {
    var w := width / scale;
    Quotient(width, scale);
    Regroup(scale, w, y);
    var row, off := scale * y, width - scale * w;
    assert row * width == row * (scale * w) + row * off;
    if y != 0 {
      Product(1, scale, 1, y);
      if off != 0 {
        Product(1, row, 1, off);
      }
    }
  }

  /** Pixel i of a scaled image, w pixels wide, is sampled from the original. */
  predicate Sampled(pixels: seq<Pixel>, scale: nat, w: nat, data: seq<Pixel>, i: nat)
    requires 0 < w && i < |data|
  {
    var from := Sample(scale, w, i % w, i / w);
    from < |pixels| && data[i] == pixels[from]
  }

  lemma SampledAt(pixels: seq<Pixel>, scale: nat, w: nat, data: seq<Pixel>, i: nat, x: nat, y: nat)
    requires x < w && i == y * w + x < |data|
    ensures Sampled(pixels, scale, w, data, i)
       <==> Sample(scale, w, x, y) < |pixels| && data[i] == pixels[Sample(scale, w, x, y)]
  {
    RowIndex(w, y + 1, x, y);
  }

  lemma TooLarge(side: nat, scale: nat)
    requires 0 < scale && MAX_SIDE < side / scale
    ensures 2 * scale <= side
  {
    Quotient(side, scale);
    Product(scale, scale, 2, side / scale);
  }

  // ---- The code ----

  /** The smallest power of two that makes the image fit. */
  method Scale(width: nat, height: nat) returns (scale: nat, ghost k: nat)
    ensures scale == Pow2(k) && Fits(width, height, scale)
    ensures 0 < k ==> !Fits(width, height, Pow2(k - 1))
  {
    scale, k := 1, 0;
    while width / scale > 32 || height / scale > 32
      invariant scale == Pow2(k)
      invariant 0 < k ==> !Fits(width, height, Pow2(k - 1))
      decreases width + height - scale
    {
      assert !Fits(width, height, scale);
      hide Fits;
      if width / scale > 32 {
        TooLarge(width, scale);
      } else {
        TooLarge(height, scale);
      }
      scale := scale * 2;
      k := k + 1;
    }
  }

  /** The first n pixels of a scaled image are. */
  predicate Filled(pixels: seq<Pixel>, scale: nat, w: nat, data: seq<Pixel>, n: nat) {
    0 < w ==> forall i :: 0 <= i < n && i < |data| ==> Sampled(pixels, scale, w, data, i)
  }

  /** The pixels of the scaled image, row by row. */
  method ScaleDown(pixels: seq<Pixel>, width: nat, height: nat) returns (scale: nat, data: array<Pixel>)
    requires |pixels| == width * height
    ensures 0 < scale && Fits(width, height, scale)
    ensures data.Length == (width / scale) * (height / scale)
    ensures Filled(pixels, scale, width / scale, data[..], data.Length)
  {
    ghost var k;
    scale, k := Scale(width, height);
    hide Fits, Filled;
    Quotient(width, scale);
    Quotient(height, scale);
    var w: nat, h: nat := width / scale, height / scale;
    Product(0, w, 0, h);
    data := new Pixel[w * h](_ => 0);
    NothingFilled(pixels, scale, w, data[..]);
    for y := 0 to h
      invariant Filled(pixels, scale, w, data[..], y * w)
    {
      FillRow(pixels, width, height, scale, w, data, y);
    }
    assert h * w == w * h;
  }

  lemma NothingFilled(pixels: seq<Pixel>, scale: nat, w: nat, data: seq<Pixel>)
    ensures Filled(pixels, scale, w, data, 0 * w)
  {
  }

  /** The inner loop. */
  method FillRow(pixels: seq<Pixel>, width: nat, height: nat, scale: nat, w: nat, data: array<Pixel>, y: nat)
    requires 0 < scale && |pixels| == width * height && w == width / scale && y < height / scale
    requires data.Length == w * (height / scale)
    requires Filled(pixels, scale, w, data[..], y * w)
    modifies data
    ensures Filled(pixels, scale, w, data[..], (y + 1) * w)
  {
    hide Sampled;
    for x := 0 to w
      invariant Filled(pixels, scale, w, data[..], y * w + x)
    {
      SampleInside(width, height, scale, x, y);
      RowIndex(w, height / scale, x, y);
      ghost var before := data[..];
      data[y * w + x] := pixels[scale * y * scale * w + scale * x];
      SampledAt(pixels, scale, w, data[..], y * w + x, x, y);
      forall i | 0 <= i < y * w + x ensures Sampled(pixels, scale, w, data[..], i) {
        SampledDepends(pixels, scale, w, before, data[..], i);
      }
    }
    assert (y + 1) * w == y * w + w;
  }

  lemma SampledDepends(pixels: seq<Pixel>, scale: nat, w: nat, before: seq<Pixel>, data: seq<Pixel>, i: nat)
    requires 0 < w && i < |before| == |data| && before[i] == data[i] && Sampled(pixels, scale, w, before, i)
    ensures Sampled(pixels, scale, w, data, i)
  {
  }

  /** What the client shows at (x, y) is the nearest pixel of the original, exactly if the row is
      the first one or the scale divides the width; otherwise it is the pixel that far along. */
  lemma ShownPixel(pixels: seq<Pixel>, width: nat, height: nat, scale: nat, data: seq<Pixel>, x: nat, y: nat)
    requires 0 < scale && |pixels| == width * height && x < width / scale && y < height / scale
    requires |data| == (width / scale) * (height / scale)
    requires Filled(pixels, scale, width / scale, data, |data|)
    ensures var w := width / scale;
            && y * w + x < |data|
            && Sample(scale, w, x, y) < |pixels|
            && data[y * w + x] == pixels[Sample(scale, w, x, y)]
            && (Sample(scale, w, x, y) == Nearest(scale, width, x, y) <==> y == 0 || width % scale == 0)
  {
    hide Sampled, Sample, Nearest;
    var w := width / scale;
    RowIndex(w, height / scale, x, y);
    SampleIsNearest(width, scale, x, y);
    SampledAt(pixels, scale, w, data, y * w + x, x, y);
  }

  /** A cursor that drifts: 65 by 4 pixels, numbered row by row, are shown as 32 by 2, and the
      second row begins with pixel 128, the one before the last of the original's second row. */
  lemma CursorDrifts(data: seq<Pixel>)
    requires |data| == 64 && Filled(seq(65 * 4, i => i), 2, 32, data, 64)
    ensures !Fits(65, 4, 1) && Fits(65, 4, 2)
    ensures data[32] == 128 && Nearest(2, 65, 0, 1) == 130
  {
    ShownPixel(seq(65 * 4, i => i), 65, 4, 2, data, 0, 1);
  }
}

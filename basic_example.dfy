/**
 * The example's synthetic depth map: a 64x64 16-bit raster filled in place,
 * pixel (x, y) getting `(x + y) * 10000 / (width + height - 2)` computed in
 * u32 and cast to u16, a diagonal gradient from 0 mm to 10000 mm.
 */
module BasicExample {
  import opened Raster
  import opened RangeFinder
  import opened Colorizer
  import opened DepthMap

  const Width: U32 := 64
  const Height: U32 := 64
  /** `(width + height - 2) as u32`. */
  const MaxDen: U32 := WrapU32(Width + Height - 2)

  /**
   * The value written at (x, y), with the source's u32 additions and
   * multiplication and its final `as u16` cast. On the 64x64 grid none of
   * them wraps, so the value is the exact floor of (x + y) * 10000 / 126,
   * and it never exceeds 10000.
   */
  function Gradient(x: U32, y: U32): (v: U16)
    ensures x < Width && y < Height ==> v == (x + y) * 10000 / 126 && 0 <= v <= 10000
  {
    assert MaxDen == 126;
    NoOverflow(x, y);
    TruncU16(WrapU32(WrapU32(x + y) * 10000) / MaxDen)
  }

  /**
   * On the grid, x + y <= 126, so the u32 product is at most 1260000 and
   * the quotient at most 10000: neither the u32 arithmetic nor the u16
   * cast changes a value.
   */
  lemma NoOverflow(x: nat, y: nat)
    ensures x < Width && y < Height ==>
              (x + y) * 10000 <= 1260000 && (x + y) * 10000 / 126 <= 10000
  {
    if x < Width && y < Height {
      DivMonotone((x + y) * 10000, 126 * 10000, 126);
    }
  }

  /** Along a row the gradient never decreases. */
  lemma MonotoneInX(x1: U32, x2: U32, y: U32)
    requires x1 <= x2 < Width && y < Height
    ensures Gradient(x1, y) <= Gradient(x2, y)
  {
    DivMonotone((x1 + y) * 10000, (x2 + y) * 10000, 126);
  }

  /** Down a column the gradient never decreases. */
  lemma MonotoneInY(x: U32, y1: U32, y2: U32)
    requires x < Width && y1 <= y2 < Height
    ensures Gradient(x, y1) <= Gradient(x, y2)
  {
    DivMonotone((x + y1) * 10000, (x + y2) * 10000, 126);
  }

  /** The value depends on x + y only: constant along each anti-diagonal. */
  lemma OnlyDiagonalMatters(x1: U32, y1: U32, x2: U32, y2: U32)
    requires x1 < Width && y1 < Height && x2 < Width && y2 < Height
    requires x1 + y1 == x2 + y2
    ensures Gradient(x1, y1) == Gradient(x2, y2)
  {
  }

  /** The corners: 0 at (0, 0), 10000 at (63, 63). */
  lemma Corners()
    ensures Gradient(0, 0) == 0 && Gradient(Width - 1, Height - 1) == 10000
  {
  }

  /** The generated raster as a value: every pixel of the 64x64 grid holds its gradient value. */
  function GradientRaster(): (img: Raster<U16>)
    ensures img.Valid() && img.width == Width && img.height == Height
    ensures forall x: nat, y: nat :: x < Width && y < Height ==> img.At(x, y) == Gradient(x, y)
  {
    GridDecomposes();
    Raster(Width, Height, seq(Width * Height, i requires 0 <= i < Width * Height => Gradient(i % Width, i / Width)))
  }

  lemma GridDecomposes()
    ensures forall x: nat, y: nat :: x < Width && y < Height ==>
              Index(x, y, Width) % Width == x && Index(x, y, Width) / Width == y
  {
    forall x: nat, y: nat | x < Width && y < Height
      ensures Index(x, y, Width) % Width == x && Index(x, y, Width) / Width == y
    {
      IndexDecompose(x, y, Width);
    }
  }

  /**
   * `generate_depth_map` without the save: allocates the 64x64 buffer and
   * overwrites every pixel, in row-major order, with its gradient value.
   */
  method GenerateDepthMap() returns (img: Raster<U16>)
    ensures img == GradientRaster()
  {
    var w: nat, h: nat := Width, Height;
    var buf := new U16[w * h];
    var y: nat, row: nat := 0, 0;
    while y < h
      invariant y <= h && row == y * w && row <= buf.Length
      invariant forall k :: 0 <= k < row ==> buf[k] == Gradient(k % w, k / w)
    {
      RowFits(y, w, h);
      var x: nat := 0;
      while x < w
        invariant x <= w
        invariant forall k :: 0 <= k < row + x ==> buf[k] == Gradient(k % w, k / w)
      {
        IndexDecompose(x, y, w);
        var i := row + x;  // Index(x, y, w)
        buf[i] := Gradient(x, y);
        x := x + 1;
      }
      y, row := y + 1, row + w;
    }
    assert buf[..] == GradientRaster().pixels;
    img := Raster(Width, Height, buf[..]);
  }

  /** Every generated sample lies in [0, 10000], and both ends occur. */
  lemma GeneratedBounds()
    ensures forall i :: 0 <= i < |GradientRaster().pixels| ==> 0 <= GradientRaster().pixels[i] <= 10000
    ensures 0 in GradientRaster().pixels && 10000 in GradientRaster().pixels
  {
    var img := GradientRaster();
    forall i | 0 <= i < |img.pixels| ensures img.pixels[i] <= 10000 {
      IndexSurjective(i, Width, Height);
    }
    assert img.At(0, 0) == 0;
    assert img.At(Width - 1, Height - 1) == 10000;
  }

  /** The range finder over the generated map gives (0, 10000). */
  lemma GeneratedRange()
    ensures RangeOf(GradientRaster().pixels) == Range(0, 10000)
  {
    var img := GradientRaster();
    GeneratedBounds();
    MinIsLeast(img.pixels, 0);
    MaxIsGreatest(img.pixels, 10000);
  }

  /**
   * Fed to the pipeline, the generated map is accepted with range
   * (0, 10000), its 64x64 dimensions and a sample depth of 0 m.
   */
  lemma GeneratedPipeline(cmap: Colormap)
    ensures Process(GradientRaster(), cmap).Ok?
    ensures Process(GradientRaster(), cmap).value.stats == DepthMapStats(64, 64, 0, 10000, 0.0)
  {
    GeneratedRange();
    assert GradientRaster().At(0, 0) == 0;
  }
}

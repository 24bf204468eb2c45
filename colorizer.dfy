/**
 * The colorizer: a fresh RGB raster of the 8-bit raster's dimensions, each
 * pixel the colormap's color for the 8-bit value at the same position,
 * with the colormap's alpha channel discarded.
 *
 * The colormap (the Turbo gradient) is a parameter: a function from the
 * 8-bit value v to an RGBA color. The source samples the gradient at
 * t = v / 255, which lies in [0, 1] for every v, so the value alone fixes
 * the color.
 */
module Colorizer {
  import opened Raster

  datatype Rgba = Rgba(r: U8, g: U8, b: U8, a: U8)
  datatype Rgb = Rgb(r: U8, g: U8, b: U8)

  /** `grad.at(v / 255).to_rgba8()`, indexed by the 8-bit value v. */
  type Colormap = U8 -> Rgba

  /**
   * The color of one 8-bit value: `Rgb([rgba[0], rgba[1], rgba[2]])` of the
   * colormap's RGBA color, keeping the color channels and dropping alpha.
   */
  function ColorOf(cmap: Colormap, v: U8): Rgb
  {
    var c := cmap(v);
    Rgb(c.r, c.g, c.b)
  }

  /** The RGB raster the colorizer produces, as a value. */
  function ColorizeRaster(gray: Raster<U8>, cmap: Colormap): (out: Raster<Rgb>)
    requires gray.Valid()
    ensures out.Valid() && out.width == gray.width && out.height == gray.height
    ensures forall x: nat, y: nat :: x < gray.width && y < gray.height ==>
              out.At(x, y) == ColorOf(cmap, gray.At(x, y))
  {
    AllIndicesInBounds(gray.width, gray.height);
    Raster(gray.width, gray.height,
           seq(|gray.pixels|, i requires 0 <= i < |gray.pixels| => ColorOf(cmap, gray.pixels[i])))
  }

  /**
   * The colorization loop: visits the 8-bit raster in row-major order and
   * `put_pixel`s each pixel's color into a newly allocated RGB buffer of the
   * same dimensions.
   */
  method Colorize(gray: Raster<U8>, cmap: Colormap) returns (out: Raster<Rgb>)
    requires gray.Valid()
    ensures out == ColorizeRaster(gray, cmap)
  {
    var w: nat, h: nat := gray.width, gray.height;
    var buf := new Rgb[|gray.pixels|];
    var y: nat, row: nat := 0, 0;
    while y < h
      invariant y <= h && row == y * w && row <= buf.Length
      invariant forall k :: 0 <= k < row ==> buf[k] == ColorOf(cmap, gray.pixels[k])
    {
      RowFits(y, w, h);
      var x: nat := 0;
      while x < w
        invariant x <= w
        invariant forall k :: 0 <= k < row + x ==> buf[k] == ColorOf(cmap, gray.pixels[k])
      {
        var i := row + x;  // Index(x, y, w)
        var rgba := cmap(gray.pixels[i]);
        buf[i] := Rgb(rgba.r, rgba.g, rgba.b);
        x := x + 1;
      }
      y, row := y + 1, row + w;
    }
    assert buf[..] == ColorizeRaster(gray, cmap).pixels;
    out := Raster(gray.width, gray.height, buf[..]);
  }

  /**
   * Each output color depends only on the 8-bit value at the same position:
   * two pixels, of the same raster or of two rasters, with equal values get
   * equal colors.
   */
  lemma PerPixel(g1: Raster<U8>, g2: Raster<U8>, cmap: Colormap, i: nat, j: nat)
    requires g1.Valid() && g2.Valid()
    requires i < |g1.pixels| && j < |g2.pixels| && g1.pixels[i] == g2.pixels[j]
    ensures ColorizeRaster(g1, cmap).pixels[i] == ColorizeRaster(g2, cmap).pixels[j]
  {
  }

  /**
   * Two colormaps that agree on every color channel (they may differ in
   * alpha) give the same RGB raster: alpha never reaches the output.
   */
  lemma AlphaIgnored(gray: Raster<U8>, c1: Colormap, c2: Colormap)
    requires gray.Valid()
    requires forall v: U8 :: c1(v).r == c2(v).r && c1(v).g == c2(v).g && c1(v).b == c2(v).b
    ensures ColorizeRaster(gray, c1) == ColorizeRaster(gray, c2)
  {
    assert ColorizeRaster(gray, c1).pixels == ColorizeRaster(gray, c2).pixels;
  }
}

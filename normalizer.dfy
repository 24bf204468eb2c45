/**
 * The normalizer: a fresh 8-bit raster of the input's width and height,
 * each pixel the input sample rescaled linearly from [min_val, max_val]
 * onto [0, 255], or 0 everywhere when the raster is flat.
 *
 * The source evaluates `((val - min) / range * 255.0) as u8` in f32. This
 * model uses the exact integer floor `(val - min) * 255 / (max - min)`,
 * which is what the truncating cast gives for the non-negative quotients
 * met here; f32 evaluation could in principle land one below the exact
 * value where the true quotient is an integer.
 */
module Normalizer {
  import opened Raster
  import opened RangeFinder

  /** `x as u8` for a float holding an integer value: saturates at both ends. */
  function SaturateU8(x: int): (r: U8)
    ensures 0 <= x < 0x100 ==> r == x
  {
    if x < 0 then 0 else if x > 0xFF then 0xFF else x
  }

  /**
   * One normalized sample. When the range is proper and the sample lies in
   * it, the result is the floor of (val - min) * 255 / (max - min), i.e. the
   * unique `r` with r * (max - min) <= (val - min) * 255 < (r + 1) * (max - min).
   * A flat range gives 0.
   */
  function NormValue(val: U16, rng: Range): (r: U8)
    requires rng.minVal <= rng.maxVal
    ensures rng.minVal == rng.maxVal ==> r == 0
    ensures rng.minVal < rng.maxVal && rng.minVal <= val <= rng.maxVal ==>
              r * (rng.maxVal - rng.minVal) <= (val - rng.minVal) * 255 < (r + 1) * (rng.maxVal - rng.minVal)
    ensures rng.minVal < rng.maxVal && rng.minVal == val ==> r == 0
    ensures rng.minVal < rng.maxVal && rng.maxVal == val ==> r == 255
  {
    if rng.maxVal > rng.minVal then
      FloorBounds(val - rng.minVal, rng.maxVal - rng.minVal);
      SaturateU8((val - rng.minVal) * 255 / (rng.maxVal - rng.minVal))
    else
      0
  }

  /**
   * Floor of n * 255 / d: for 0 <= n <= d it already lies in [0, 255], so
   * the saturating cast only matters outside the range.
   */
  lemma FloorBounds(n: int, d: int)
    requires d > 0
    ensures (n * 255 / d) * d <= n * 255 < (n * 255 / d + 1) * d
    ensures 0 <= n <= d ==> 0 <= n * 255 / d <= 255
    ensures n == 0 ==> n * 255 / d == 0
    ensures n == d ==> n * 255 / d == 255
  {
    var m := n * 255;
    var q := m / d;
    FloorOf(m, d);
    if 0 <= n <= d {
      assert m <= 255 * d;
      MulCancelLe(q, 255, d);
      MulCancelLt(-1, q, d);
    }
    if n == d {
      MulCancelLt(254, q, d);
    }
    if n == 0 {
      MulCancelLe(q, 0, d);
    }
  }

  /** The floor quotient q = m / d is the one with q * d <= m < (q + 1) * d. */
  lemma FloorOf(m: int, d: int)
    requires d > 0
    ensures (m / d) * d <= m < (m / d + 1) * d
  {
    var q, r := m / d, m % d;
    assert m == d * q + r && 0 <= r < d;
    assert (q + 1) * d == q * d + d;
  }

  lemma MulCancelLe(a: int, b: int, d: int)
    requires d > 0 && a * d <= b * d
    ensures a <= b
  {
    if a > b {
      MulMonotone(b + 1, a, d);
    }
  }

  lemma MulCancelLt(a: int, b: int, d: int)
    requires d > 0 && a * d < (b + 1) * d
    ensures a <= b
  {
    if a > b {
      MulMonotone(b + 1, a, d);
    }
  }

  /**
   * Normalization keeps the order of samples: a deeper sample never gets a
   * smaller 8-bit value than a shallower one.
   */
  lemma Monotone(a: U16, b: U16, rng: Range)
    requires rng.minVal <= rng.maxVal
    requires a <= b
    ensures NormValue(a, rng) <= NormValue(b, rng)
  {
    if rng.maxVal > rng.minVal {
      DivMonotone((a - rng.minVal) * 255, (b - rng.minVal) * 255, rng.maxVal - rng.minVal);
    }
  }

  /** The 8-bit raster the normalizer produces, as a value. */
  function NormalizeRaster(img: Raster<U16>, rng: Range): (out: Raster<U8>)
    requires img.Valid() && rng.minVal <= rng.maxVal
    ensures out.Valid() && out.width == img.width && out.height == img.height
    ensures forall x: nat, y: nat :: x < img.width && y < img.height ==>
              out.At(x, y) == NormValue(img.At(x, y), rng)
  {
    AllIndicesInBounds(img.width, img.height);
    Raster(img.width, img.height,
           seq(|img.pixels|, i requires 0 <= i < |img.pixels| => NormValue(img.pixels[i], rng)))
  }

  /**
   * The normalization loop: visits the input in row-major order and
   * `put_pixel`s each normalized value into a newly allocated 8-bit buffer
   * of the same dimensions.
   */
  method Normalize(img: Raster<U16>, rng: Range) returns (out: Raster<U8>)
    requires img.Valid() && rng.minVal <= rng.maxVal
    ensures out == NormalizeRaster(img, rng)
  {
    var w: nat, h: nat := img.width, img.height;
    var buf := new U8[|img.pixels|];
    var y: nat, row: nat := 0, 0;
    while y < h
      invariant y <= h && row == y * w && row <= buf.Length
      invariant forall k :: 0 <= k < row ==> buf[k] == NormValue(img.pixels[k], rng)
    {
      RowFits(y, w, h);
      var x: nat := 0;
      while x < w
        invariant x <= w
        invariant forall k :: 0 <= k < row + x ==> buf[k] == NormValue(img.pixels[k], rng)
      {
        var i := row + x;  // Index(x, y, w)
        buf[i] := NormValue(img.pixels[i], rng);
        x := x + 1;
      }
      y, row := y + 1, row + w;
    }
    assert buf[..] == NormalizeRaster(img, rng).pixels;
    out := Raster(img.width, img.height, buf[..]);
  }

  /**
   * Normalizing with the raster's own range keeps the pixel order: for any
   * two pixels, the one with the smaller sample gets the smaller (or equal)
   * 8-bit value.
   */
  lemma OrderPreserved(img: Raster<U16>, i: nat, j: nat)
    requires img.Valid() && img.pixels != []
    requires i < |img.pixels| && j < |img.pixels| && img.pixels[i] <= img.pixels[j]
    ensures NormalizeRaster(img, RangeOf(img.pixels)).pixels[i]
              <= NormalizeRaster(img, RangeOf(img.pixels)).pixels[j]
  {
    Monotone(img.pixels[i], img.pixels[j], RangeOf(img.pixels));
  }

  /**
   * With the raster's own range and at least two distinct samples, the
   * normalized raster spans exactly [0, 255]: the deepest samples become
   * 255, the shallowest 0, and every normalized value is the floor of the
   * linear rescale.
   */
  lemma FullSpan(img: Raster<U16>)
    requires img.Valid() && img.pixels != []
    requires RangeOf(img.pixels).minVal < RangeOf(img.pixels).maxVal
    ensures var rng := RangeOf(img.pixels);
            var out := NormalizeRaster(img, rng);
            && (forall i :: 0 <= i < |img.pixels| && img.pixels[i] == rng.minVal ==> out.pixels[i] == 0)
            && (forall i :: 0 <= i < |img.pixels| && img.pixels[i] == rng.maxVal ==> out.pixels[i] == 255)
            && 0 in out.pixels && 255 in out.pixels
            && (forall i :: 0 <= i < |img.pixels| ==>
                  out.pixels[i] * (rng.maxVal - rng.minVal)
                  <= (img.pixels[i] - rng.minVal) * 255
                  < (out.pixels[i] + 1) * (rng.maxVal - rng.minVal))
  {
    var rng := RangeOf(img.pixels);
    var out := NormalizeRaster(img, rng);
    var i :| 0 <= i < |img.pixels| && img.pixels[i] == rng.minVal;
    var j :| 0 <= j < |img.pixels| && img.pixels[j] == rng.maxVal;
    assert out.pixels[i] == 0 && out.pixels[j] == 255;
  }

  /** A flat raster, every sample the same `v`, normalizes to all zeros whatever `v` is. */
  lemma FlatRasterIsBlack(img: Raster<U16>, v: U16)
    requires img.Valid() && img.pixels != []
    requires forall i :: 0 <= i < |img.pixels| ==> img.pixels[i] == v
    ensures RangeOf(img.pixels) == Range(v, v)
    ensures forall i :: 0 <= i < |img.pixels| ==> NormalizeRaster(img, RangeOf(img.pixels)).pixels[i] == 0
  {
    assert img.pixels[0] == v;
    MinIsLeast(img.pixels, v);
    MaxIsGreatest(img.pixels, v);
  }

  /** An 8-bit raster read back as a 16-bit one. */
  function Widen(g: Raster<U8>): Raster<U16>
  {
    Raster(g.width, g.height, seq(|g.pixels|, i requires 0 <= i < |g.pixels| => g.pixels[i] as U16))
  }

  /**
   * Idempotence: an 8-bit raster that contains both 0 and 255, normalized
   * again as a 16-bit raster with its own range, comes back unchanged.
   */
  lemma Idempotent(g: Raster<U8>)
    requires g.Valid()
    requires 0 in g.pixels && 0xFF in g.pixels
    ensures RangeOf(Widen(g).pixels) == Range(0, 0xFF)
    ensures NormalizeRaster(Widen(g), RangeOf(Widen(g).pixels)).pixels == g.pixels
  {
    var wide := Widen(g);
    var i :| 0 <= i < |g.pixels| && g.pixels[i] == 0;
    var j :| 0 <= j < |g.pixels| && g.pixels[j] == 0xFF;
    assert wide.pixels[i] == 0 && wide.pixels[j] == 0xFF;
    MinIsLeast(wide.pixels, 0);
    MaxIsGreatest(wide.pixels, 0xFF);
    var out := NormalizeRaster(wide, Range(0, 0xFF));
    forall k | 0 <= k < |g.pixels| ensures out.pixels[k] == g.pixels[k] {
      var v := g.pixels[k];
      assert (v as int) * 255 / 255 == v;
    }
  }
}

/**
 * Sample types and the row-major raster shared by every stage of the
 * depth-map pipeline.  A raster of `width` columns and `height` rows keeps
 * pixel (x, y) at position `y * width + x` of its sample sequence, which is
 * the layout of the image crate's `ImageBuffer`.
 */
module Raster {

  /** Unsigned 8-, 16- and 32-bit integers, as the Rust types `u8`, `u16`, `u32`. */
  type U8 = x: int | 0 <= x < 0x100
  type U16 = x: int | 0 <= x < 0x1_0000
  type U32 = x: int | 0 <= x < 0x1_0000_0000

  const U16Max: U16 := 0xFFFF
  const U16Min: U16 := 0

  /**
   * Keeps the low 32 bits: `a as u32` for an unsigned value, and also a u32
   * `+` or `*` as a release build evaluates it (a debug build panics on
   * overflow instead). `BasicExample.NoOverflow` shows the generator never
   * overflows, so both builds agree there.
   */
  function WrapU32(a: nat): (r: U32)
    ensures a < 0x1_0000_0000 ==> r == a
  {
    a % 0x1_0000_0000
  }

  /** `a as u16` for an unsigned value: keeps the low 16 bits. */
  function TruncU16(a: nat): (r: U16)
    ensures a < 0x1_0000 ==> r == a
  {
    a % 0x1_0000
  }

  /** Position of pixel (x, y) in the sample sequence of a raster `width` wide. */
  function Index(x: nat, y: nat, width: nat): nat
  {
    y * width + x
  }

  /** Every pixel of the grid lies inside the sample sequence. */
  lemma IndexInBounds(x: nat, y: nat, width: nat, height: nat)
    requires x < width && y < height
    ensures Index(x, y, width) < width * height
  {
    calc {
      Index(x, y, width);
    <  y * width + width;
    == (y + 1) * width;
    <= { MulMonotone(y + 1, height, width); }
      height * width;
    }
  }

  /** Row y of a grid `w` wide starts at y * w, and the next row still fits the buffer. */
  lemma RowFits(y: nat, w: nat, h: nat)
    requires y < h
    ensures y * w + w == (y + 1) * w <= w * h
  {
    MulMonotone(y + 1, h, w);
  }

  /** `IndexInBounds` for the whole grid at once. */
  lemma AllIndicesInBounds(width: nat, height: nat)
    ensures forall x: nat, y: nat :: x < width && y < height ==> Index(x, y, width) < width * height
  {
    forall x: nat, y: nat | x < width && y < height
      ensures Index(x, y, width) < width * height
    {
      IndexInBounds(x, y, width, height);
    }
  }

  /** Distinct pixels of the grid occupy distinct positions. */
  lemma IndexInjective(x1: nat, y1: nat, x2: nat, y2: nat, width: nat)
    requires x1 < width && x2 < width
    requires Index(x1, y1, width) == Index(x2, y2, width)
    ensures x1 == x2 && y1 == y2
  {
    if y1 < y2 {
      MulMonotone(y1 + 1, y2, width);
      assert false;
    } else if y2 < y1 {
      MulMonotone(y2 + 1, y1, width);
      assert false;
    }
  }

  /** Every position of the sample sequence is the position of one pixel of the grid. */
  lemma IndexSurjective(i: nat, width: nat, height: nat)
    requires i < width * height
    ensures width > 0
    ensures i % width < width && i / width < height
    ensures Index(i % width, i / width, width) == i
  {
    if i / width >= height {
      MulMonotone(height, i / width, width);
      assert false;
    }
  }

  /** Column and row are recovered from a pixel's position by `%` and `/`. */
  lemma IndexDecompose(x: nat, y: nat, width: nat)
    requires x < width
    ensures Index(x, y, width) % width == x && Index(x, y, width) / width == y
  {
    var i := Index(x, y, width);
    var q, r := i / width, i % width;
    assert i == width * q + r;
    IndexInjective(r, q, x, y, width);
  }

  /** Floor division by a positive divisor is monotone in the dividend. */
  lemma DivMonotone(a: int, b: int, d: int)
    requires a <= b && d > 0
    ensures a / d <= b / d
  {
    var qa, qb := a / d, b / d;
    assert a == d * qa + a % d && b == d * qb + b % d;
    if qa > qb {
      MulMonotone(qb + 1, qa, d);
    }
  }

  lemma MulMonotone(a: int, b: int, c: nat)
    requires a <= b
    ensures a * c <= b * c
  {
  }

  /** A raster as the image crate lays it out. */
  datatype Raster<T> = Raster(width: U32, height: U32, pixels: seq<T>)
  {
    /** The sample sequence holds exactly one sample per pixel. */
    ghost predicate Valid()
    {
      |pixels| == width * height
    }

    /** `get_pixel(x, y)`. */
    function At(x: nat, y: nat): T
      requires Valid() && x < width && y < height
    {
      IndexInBounds(x, y, width, height);
      pixels[Index(x, y, width)]
    }
  }
}

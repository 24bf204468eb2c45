/**
 * `process_depth_map` without its file I/O: range finder, then normalizer,
 * then colorizer, over an already decoded 16-bit raster, returning the two
 * derived rasters and the run's statistics.
 */
module DepthMap {
  import opened Raster
  import opened RangeFinder
  import opened Normalizer
  import opened Colorizer

  /** The one failure left once decoding is out of the picture. */
  datatype Error =
    | ZeroArea  // pixel (0, 0) does not exist: `get_pixel(0, 0)` panics

  datatype Result<T> = Ok(value: T) | Err(error: Error)

  /**
   * `DepthMapStats`. The depth of pixel (0, 0) in meters is the raw sample,
   * taken as millimeters, divided by 1000 (exactly here, in f32 in the source).
   */
  datatype DepthMapStats = DepthMapStats(
    width: U32, height: U32, minVal: U16, maxVal: U16, sampleDepthM: real)

  /** What one run produces: the statistics and the two derived rasters. */
  datatype Processed = Processed(stats: DepthMapStats, gray: Raster<U8>, color: Raster<Rgb>)

  /**
   * The pipeline as a value. It fails exactly on a raster without pixels;
   * otherwise it reports the input's dimensions and exact sample range, and
   * the derived rasters are the input normalized with that range and the
   * normalized raster colored pixel by pixel.
   */
  function Process(img: Raster<U16>, cmap: Colormap): (res: Result<Processed>)
    requires img.Valid()
    ensures res.Err? <==> img.width == 0 || img.height == 0
    ensures res.Err? ==> res.error == ZeroArea
    ensures res.Ok? ==>
              var s := res.value.stats;
              && s.width == img.width && s.height == img.height
              && s.minVal <= s.maxVal
              && s.minVal in img.pixels && s.maxVal in img.pixels
              && (forall i :: 0 <= i < |img.pixels| ==> s.minVal <= img.pixels[i] <= s.maxVal)
              && s.sampleDepthM == img.At(0, 0) as real / 1000.0
    ensures res.Ok? ==>
              var s, gray, color := res.value.stats, res.value.gray, res.value.color;
              && gray.Valid() && gray.width == img.width && gray.height == img.height
              && color.Valid() && color.width == img.width && color.height == img.height
              && (forall x: nat, y: nat :: x < img.width && y < img.height ==>
                    gray.At(x, y) == NormValue(img.At(x, y), Range(s.minVal, s.maxVal)))
              && (forall x: nat, y: nat :: x < img.width && y < img.height ==>
                    color.At(x, y) == ColorOf(cmap, gray.At(x, y)))
  {
    if img.width == 0 || img.height == 0 then
      Err(ZeroArea)
    else
      var depth := img.At(0, 0) as real / 1000.0;
      var rng := RangeOf(img.pixels);
      var gray := NormalizeRaster(img, rng);
      Ok(Processed(DepthMapStats(img.width, img.height, rng.minVal, rng.maxVal, depth),
                   gray, ColorizeRaster(gray, cmap)))
  }

  /** `process_depth_map` on a decoded raster, running the two pixel loops. */
  method ProcessDepthMap(img: Raster<U16>, cmap: Colormap) returns (res: Result<Processed>)
    requires img.Valid()
    ensures res == Process(img, cmap)
  {
    if img.width == 0 || img.height == 0 {
      return Err(ZeroArea);
    }
    var depth := img.At(0, 0) as real / 1000.0;
    var rng := RangeOf(img.pixels);
    var gray := Normalize(img, rng);
    var color := Colorize(gray, cmap);
    res := Ok(Processed(DepthMapStats(img.width, img.height, rng.minVal, rng.maxVal, depth),
                        gray, color));
  }

  /**
   * A 2x2 raster [[0, 10000], [5000, 10000]] (millimeters) has range
   * (0, 10000), normalizes to [[0, 255], [127, 255]] (5000 * 255 / 10000 is
   * 127.5, truncated), and reports a depth of 0 m at pixel (0, 0).
   */
  lemma ExampleTwoByTwo(cmap: Colormap)
    ensures var res := Process(Raster(2, 2, [0, 10000, 5000, 10000]), cmap);
            && res.Ok?
            && res.value.stats == DepthMapStats(2, 2, 0, 10000, 0.0)
            && res.value.gray == Raster(2, 2, [0, 255, 127, 255])
  {
    var img: Raster<U16> := Raster(2, 2, [0, 10000, 5000, 10000]);
    assert img.At(0, 0) == 0;
    MinIsLeast(img.pixels, 0);
    MaxIsGreatest(img.pixels, 10000);
    var gray := NormalizeRaster(img, Range(0, 10000));
    assert gray.pixels == [0, 255, 127, 255];
  }

  /** A flat 2x2 raster of 7s has range (7, 7) and normalizes to zeros, with no division. */
  lemma ExampleFlat(cmap: Colormap)
    ensures var res := Process(Raster(2, 2, [7, 7, 7, 7]), cmap);
            && res.Ok?
            && res.value.stats.minVal == 7 && res.value.stats.maxVal == 7
            && res.value.gray == Raster(2, 2, [0, 0, 0, 0])
  {
    var img: Raster<U16> := Raster(2, 2, [7, 7, 7, 7]);
    FlatRasterIsBlack(img, 7);
    assert NormalizeRaster(img, Range(7, 7)).pixels == [0, 0, 0, 0];
  }
}

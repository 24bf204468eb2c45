# depth-map-processor in Dafny

A model of `process_depth_map` from the depth-map-processor crate, without
its file I/O. The function turns a single-channel 16-bit depth raster into
an 8-bit min-max-normalized grayscale raster and a false-color RGB raster.
The model also covers the example program's synthetic depth-map generator.

Rasters are row-major: pixel (x, y) of a raster `width` pixels wide sits at
position `y * width + x` (`Raster.Raster`, `Raster.Index`). The pipeline has
three stages:

1. **Range finder** (`RangeFinder`). A left fold over every sample, seeded
   with `(u16::MAX, u16::MIN)`. It is modelled as a recursive function, with
   lemmas that the result is the exact minimum and maximum and that both
   occur among the samples.
2. **Normalizer** (`Normalizer`). A loop that writes each pixel of a newly
   allocated 8-bit buffer. The value is `(val - min) * 255 / (max - min)`
   rounded down, or 0 for a flat raster. The loop is a method with
   invariants, proved equal to the function `NormalizeRaster`.
3. **Colorizer** (`Colorizer`). A loop that writes `Colormap(v)` into a new
   RGB buffer, dropping the alpha channel. The Turbo gradient is a
   parameter of type `U8 -> Rgba`.

`DepthMap.Process` composes the stages and builds `DepthMapStats`. Its
method counterpart is `DepthMap.ProcessDepthMap`. `BasicExample` models
`generate_depth_map`, the 64x64 gradient generator.

Two points where the model follows the code rather than the obvious reading:
- The coloured raster is always computed. Only saving it depends on
  whether a visualization path was given.
- Colormap input is never clamped. It needs no clamping, because t = v / 255
  always lies in [0, 1].

One point where the model departs from the code:
- A raster with no pixels makes the code panic, in its read of pixel
  (0, 0). The model tests for this case first and returns the value
  `Err(ZeroArea)`.

## Model

| member | source | states |
|---|---|---|
| `RangeFinder.Step` | src/lib.rs:41 | the fold's closure `(min.min(p), max.max(p))`; no contract of its own, `RangeFinder.FoldBounds` states what it promises |
| `RangeFinder.Fold` | src/lib.rs:40-42 | the `.fold` over the samples front to back; no contract of its own, `RangeFinder.FoldBounds` states what it promises |
| `RangeFinder.FoldBounds` | src/lib.rs:40-42 | the fold's minimum is at most the seed's minimum and every sample; its maximum is at least the seed's maximum and every sample; each component is the seed's or occurs among the samples |
| `RangeFinder.FoldFromSeed` | src/lib.rs:40-42 | from the seed `(u16::MAX, u16::MIN)`, both components of the fold occur among the samples whenever there is at least one; with no samples the seed comes back |
| `RangeFinder.RangeOf` | src/lib.rs:40-42 | for at least one sample, `min_val <= sample <= max_val` for every sample, both occur among the samples, and so `min_val <= max_val`; with no samples the result is the seed |
| `RangeFinder.MinIsLeast` | src/lib.rs:40-42 | a sample that is at most every sample is the fold's `min_val` |
| `RangeFinder.MaxIsGreatest` | src/lib.rs:40-42 | a sample that is at least every sample is the fold's `max_val` |
| `RangeFinder.OrderIndependent` | src/lib.rs:40-42 | two sample sequences with the same multiset of values have the same range: the visiting order does not matter |
| `RangeFinder.EmptyRangeUnderflows` | src/lib.rs:40-48 | over no samples the fold returns `(65535, 0)`, so `max_val - min_val` would be negative, which is why a raster needs at least one pixel |
| `Normalizer.SaturateU8` | src/lib.rs:53 | the `as u8` cast leaves values in [0, 255] unchanged |
| `Normalizer.NormValue` | src/lib.rs:48-56 | a flat range gives 0; for a proper range and a sample inside it the result `r` satisfies `r * (max - min) <= (val - min) * 255 < (r + 1) * (max - min)` (the truncated rescale); the minimum maps to 0 and the maximum to 255 |
| `Normalizer.FloorBounds` | src/lib.rs:53 | for a sample inside the range the rescaled quotient already lies in [0, 255], so the cast does not saturate; the two ends give 0 and 255 |
| `Normalizer.Monotone` | src/lib.rs:53 | `a <= b` implies `norm(a) <= norm(b)` for every range |
| `Normalizer.NormalizeRaster` | src/lib.rs:45-58 | the normalized raster has the input's width and height, and pixel (x, y) is the normalized value of input pixel (x, y) |
| `Normalizer.Normalize` | src/lib.rs:45-58 | the row-major loop that fills a new 8-bit buffer produces exactly `NormalizeRaster`: every pixel is written with its normalized value |
| `Normalizer.OrderPreserved` | src/lib.rs:40-58 | with the raster's own range, a pixel whose sample is no larger than another's gets a normalized value no larger than the other's |
| `Normalizer.FullSpan` | src/lib.rs:40-58 | with the raster's own range and two distinct samples, pixels equal to `min_val` become 0, pixels equal to `max_val` become 255, both values occur, and every pixel is the truncated rescale |
| `Normalizer.FlatRasterIsBlack` | src/lib.rs:40-56 | a raster whose samples all equal v has range (v, v) and normalizes to all zeros |
| `Normalizer.Idempotent` | src/lib.rs:40-58 | an 8-bit raster that contains both 0 and 255, normalized again as a 16-bit raster, has range (0, 255) and comes back unchanged |
| `Colorizer.ColorOf` | src/lib.rs:66-68 | one pixel's color: the colormap's RGBA color for the 8-bit value, with alpha dropped; no contract of its own, `Colorizer.PerPixel` and `Colorizer.AlphaIgnored` state what it promises |
| `Colorizer.ColorizeRaster` | src/lib.rs:61-69 | the colored raster has the 8-bit raster's width and height, and pixel (x, y) is the colormap's color for 8-bit pixel (x, y) |
| `Colorizer.Colorize` | src/lib.rs:62-69 | the row-major loop that fills a new RGB buffer produces exactly `ColorizeRaster` |
| `Colorizer.PerPixel` | src/lib.rs:64-68 | two pixels with equal 8-bit values, in the same raster or in two rasters, get equal colors |
| `Colorizer.AlphaIgnored` | src/lib.rs:67-68 | two colormaps that differ only in alpha produce the same RGB raster |
| `Raster.Raster.At` | src/lib.rs:35 | `get_pixel(x, y)`, sample `y * width + x`; no contract of its own, `Raster.IndexInBounds` shows the read stays inside the buffer |
| `Raster.WrapU32` | examples/basic.rs:8-11 | u32 arithmetic and `as u32`: a value below 2^32 is unchanged |
| `Raster.TruncU16` | examples/basic.rs:11 | the `as u16` cast: a value below 2^16 is unchanged |
| `Raster.IndexInBounds` | src/lib.rs:50-57 | every (x, y) of the grid addresses a position inside the `width * height` buffer |
| `Raster.IndexInjective` | src/lib.rs:50-57 | distinct pixels address distinct positions, so no position is written twice |
| `Raster.IndexSurjective` | src/lib.rs:50-57 | every buffer position is the address of one pixel of the grid, so every position is written |
| `Raster.IndexDecompose` | examples/basic.rs:10-12 | the column and row of a pixel come back from its position by `%` and `/` by the width |
| `DepthMap.Process` | src/lib.rs:32-85 | fails exactly when the raster has no pixels; otherwise the stats carry the input's width and height and the fold's exact `min_val`/`max_val` (with `min_val <= max_val`) and pixel (0, 0) divided by 1000, the gray raster is the input normalized with that range, and the color raster is the gray raster colored pixel by pixel |
| `DepthMap.ProcessDepthMap` | src/lib.rs:32-85 | running the two pixel loops gives exactly `Process` |
| `DepthMap.ExampleTwoByTwo` | src/lib.rs:40-58 | the 2x2 raster [[0, 10000], [5000, 10000]] gives range (0, 10000), gray [[0, 255], [127, 255]] and depth 0 m |
| `DepthMap.ExampleFlat` | src/lib.rs:40-58 | the flat 2x2 raster of 7s gives range (7, 7) and an all-zero gray raster |
| `BasicExample.Gradient` | examples/basic.rs:5-11 | on the 64x64 grid the u32 arithmetic and the `as u16` cast do not wrap, so the value is exactly `(x + y) * 10000 / 126`, and it lies in [0, 10000] |
| `BasicExample.NoOverflow` | examples/basic.rs:11 | on the grid `(x + y) * 10000` is at most 1260000, which fits in u32, and the quotient is at most 10000, which fits in u16 |
| `BasicExample.MonotoneInX` | examples/basic.rs:11 | for a fixed row, values do not decrease as x grows |
| `BasicExample.MonotoneInY` | examples/basic.rs:11 | for a fixed column, values do not decrease as y grows |
| `BasicExample.OnlyDiagonalMatters` | examples/basic.rs:11 | two pixels with the same x + y get the same value |
| `BasicExample.Corners` | examples/basic.rs:11 | pixel (0, 0) is 0 and pixel (63, 63) is 10000 |
| `BasicExample.GradientRaster` | examples/basic.rs:7-13 | the generated raster is 64x64, and every pixel (x, y) holds its gradient value |
| `BasicExample.GenerateDepthMap` | examples/basic.rs:7-13 | the row-major fill loop overwrites every one of the 64x64 pixels and produces exactly `GradientRaster` |
| `BasicExample.GeneratedBounds` | examples/basic.rs:11 | every generated sample lies in [0, 10000], and both 0 and 10000 occur |
| `BasicExample.GeneratedRange` | src/lib.rs:40-42 | the range finder over the generated map returns exactly (0, 10000) |
| `BasicExample.GeneratedPipeline` | examples/basic.rs:25-29 | fed to the pipeline, the generated map is accepted, and the stats report 64x64, range (0, 10000) and depth 0 m |

## Left out

- Image decoding and encoding are file I/O through the image crate. These
  are `image::open`, `into_luma16` and both `save` calls. The model starts
  from a decoded raster and ends with the two rasters in memory. So the
  open-error message, and the choice of whether to save the visualization,
  are not modelled.
- The Turbo gradient (`colorgrad::preset::turbo`, `grad.at`,
  `to_rgba8`) is float interpolation in a foreign crate. It is the
  `Colormap` parameter, indexed by the 8-bit value that fixes
  `t = v / 255`.
- f32 arithmetic is not modelled. The normalizer uses the exact integer
  floor `(val - min) * 255 / (max - min)`. The source computes
  `(val - min) / range * 255.0` in f32 and then truncates. That could, in
  principle, come out one lower where the exact quotient is an integer. The
  test `range > 0.0` is modelled as `max > min`, which is equivalent.
- `DepthMapStats.sampleDepthM` is pixel (0, 0) divided by 1000, computed
  as an exact `real` instead of an f32.
- `DepthMap.Process`: a raster with no pixels makes the source panic at its
  read of pixel (0, 0). The model returns the value `Err(ZeroArea)` instead
  and does not model the panic.
- `DepthMap.Process`: u16 subtraction `max_val - min_val` is never reached
  with `min_val > max_val`. The model shows this, but it does not model the
  panic or wrap-around that such a subtraction would cause.
- `Raster.Raster`: the buffer length `width * height` is an invariant of the
  image crate's buffers, so it is a precondition (`Valid`). Buffers larger
  than memory are not modelled.
- The command-line wrapper `src/main.rs` (argument parsing, printing the
  stats) is not part of this model.
- In `examples/basic.rs`, the `input.exists()` check and the `main` driver
  are filesystem logic. Only the generator and the pipeline call it makes
  are modelled.
- Error construction with `Box<dyn Error>` and `format!` messages is left
  out. The one remaining failure is the `ZeroArea` tag.

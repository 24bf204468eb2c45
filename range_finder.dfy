/**
 * The range finder: one left fold over every 16-bit sample, in row-major
 * order, from the seed (u16::MAX, u16::MIN), keeping the running minimum
 * and maximum.
 */
module RangeFinder {
  import opened Raster

  /** The (min_val, max_val) pair the fold carries and returns. */
  datatype Range = Range(minVal: U16, maxVal: U16)

  /** The fold's seed `(u16::MAX, u16::MIN)`. */
  const Seed: Range := Range(U16Max, U16Min)

  function Min(a: U16, b: U16): U16 { if a <= b then a else b }
  function Max(a: U16, b: U16): U16 { if a >= b then a else b }

  /** One step of the fold: `(min.min(p), max.max(p))`. */
  function Step(acc: Range, p: U16): Range
  {
    Range(Min(acc.minVal, p), Max(acc.maxVal, p))
  }

  /** `samples.fold(acc, Step)`, consuming the samples front to back. */
  function Fold(acc: Range, samples: seq<U16>): Range
    decreases |samples|
  {
    if samples == [] then acc else Fold(Step(acc, samples[0]), samples[1..])
  }

  /**
   * The fold's result bounds the accumulator and every sample, and each
   * component is either the accumulator's or one of the samples.
   */
  lemma {:induction false} FoldBounds(acc: Range, samples: seq<U16>)
    ensures Fold(acc, samples).minVal <= acc.minVal
    ensures Fold(acc, samples).maxVal >= acc.maxVal
    ensures forall i :: 0 <= i < |samples| ==>
              Fold(acc, samples).minVal <= samples[i] <= Fold(acc, samples).maxVal
    ensures Fold(acc, samples).minVal == acc.minVal || Fold(acc, samples).minVal in samples
    ensures Fold(acc, samples).maxVal == acc.maxVal || Fold(acc, samples).maxVal in samples
    decreases |samples|
  {
    if samples != [] {
      var rest := samples[1..];
      FoldBounds(Step(acc, samples[0]), rest);
      forall i | 0 <= i < |samples|
        ensures Fold(acc, samples).minVal <= samples[i] <= Fold(acc, samples).maxVal
      {
        if i > 0 {
          assert samples[i] == rest[i - 1];
        }
      }
      assert forall v :: v in rest ==> v in samples;
    }
  }

  /**
   * The range of a raster's samples. For at least one sample it is the
   * exact minimum and maximum, both of which occur among the samples; for
   * none it is the seed, whose minimum exceeds its maximum.
   */
  function RangeOf(samples: seq<U16>): (r: Range)
    ensures |samples| > 0 ==>
              (forall i :: 0 <= i < |samples| ==> r.minVal <= samples[i] <= r.maxVal) &&
              r.minVal in samples && r.maxVal in samples
    ensures |samples| > 0 ==> r.minVal <= r.maxVal
    ensures samples == [] ==> r == Seed
  {
    FoldFromSeed(samples);
    Fold(Seed, samples)
  }

  /**
   * From the seed, both components of the fold come from the samples: the
   * seed's minimum can only survive as a sample equal to it, and likewise
   * for its maximum.
   */
  lemma FoldFromSeed(samples: seq<U16>)
    ensures forall i :: 0 <= i < |samples| ==>
              Fold(Seed, samples).minVal <= samples[i] <= Fold(Seed, samples).maxVal
    ensures samples != [] ==>
              Fold(Seed, samples).minVal in samples && Fold(Seed, samples).maxVal in samples
    ensures samples == [] ==> Fold(Seed, samples) == Seed
  {
    FoldBounds(Seed, samples);
    if samples != [] {
      var r := Fold(Seed, samples);
      assert r.minVal <= samples[0] <= r.maxVal;
    }
  }

  /** The fold's minimum is the one sample that is at most every sample. */
  lemma MinIsLeast(samples: seq<U16>, v: U16)
    requires v in samples
    requires forall i :: 0 <= i < |samples| ==> v <= samples[i]
    ensures RangeOf(samples).minVal == v
  {
    var r := RangeOf(samples);
    var j :| 0 <= j < |samples| && samples[j] == r.minVal;
    assert v <= samples[j];
  }

  /** The fold's maximum is the one sample that is at least every sample. */
  lemma MaxIsGreatest(samples: seq<U16>, v: U16)
    requires v in samples
    requires forall i :: 0 <= i < |samples| ==> samples[i] <= v
    ensures RangeOf(samples).maxVal == v
  {
    var r := RangeOf(samples);
    var j :| 0 <= j < |samples| && samples[j] == r.maxVal;
    assert samples[j] <= v;
  }

  /** The range does not depend on the order in which the samples are visited. */
  lemma OrderIndependent(s: seq<U16>, t: seq<U16>)
    requires multiset(s) == multiset(t)
    ensures RangeOf(s) == RangeOf(t)
  {
    if |s| == 0 {
      assert |t| == |multiset(t)| == 0;
    } else {
      assert |t| == |multiset(t)| == |s|;
      var rs, rt := RangeOf(s), RangeOf(t);
      forall v | v in s ensures v in t {
        assert v in multiset(s);
      }
      forall v | v in t ensures v in s {
        assert v in multiset(t);
      }
      var i :| 0 <= i < |s| && s[i] == rt.minVal;
      var j :| 0 <= j < |t| && t[j] == rs.minVal;
      var k :| 0 <= k < |s| && s[k] == rt.maxVal;
      var l :| 0 <= l < |t| && t[l] == rs.maxVal;
    }
  }

  /**
   * A fold over no samples returns the seed, so `max_val - min_val` would
   * leave the u16 range: this is why the pipeline needs at least one pixel.
   */
  lemma EmptyRangeUnderflows()
    ensures RangeOf([]).maxVal - RangeOf([]).minVal == -0xFFFF
  {
  }
}

// The analysis part of autocrop: measure every sampled frame, then turn the
// per-frame measurements into one crop (left, top, right, bottom), each value
// chosen by get_crop_value and aligned by check_subsampling.

module AutoCrop {
  import opened FrameScan
  import opened CropValue
  import opened Subsampling

  /** Component k of a crop tuple (left, top, right, bottom). */
  function Component(c: Crop, k: nat): int
    requires k < 4
  {
    if k == 0 then c.left else if k == 1 then c.top else if k == 2 then c.right else c.bottom
  }

  /** Column k of the transposed measurements (zip(*crop_values)). */
  function Column(samples: seq<Crop>, k: nat): seq<int>
    requires k < 4
  {
    seq(|samples|, n requires 0 <= n < |samples| => Component(samples[n], k))
  }

  /** Components at even positions (left and right) are horizontal. */
  predicate IsHorizontal(k: nat)
  {
    k % 2 == 0
  }

  /** The final value of component k: the chosen sample, aligned to the colorspace. */
  ghost function FinalValue(samples: seq<Crop>, k: nat, colorspace: string, overcrop: bool): int
    requires 0 < |samples| && k < 4
  {
    CheckSubsampling(CropValueOf(Column(samples, k)), colorspace, IsHorizontal(k), overcrop)
  }

  /**
   * The loop over zip(*crop_values): one final value per component, in the
   * order left, top, right, bottom. zip of nothing is empty, so without
   * samples there are no final values.
   */
  method CombineCropValues(samples: seq<Crop>, colorspace: string, overcrop: bool) returns (final: seq<int>)
    ensures |samples| == 0 ==> final == []
    ensures |samples| > 0 ==> |final| == 4
    ensures |samples| > 0 ==> forall k :: 0 <= k < 4 ==> final[k] == FinalValue(samples, k, colorspace, overcrop)
  {
    final := [];
    var columns := if |samples| == 0 then 0 else 4;
    while |final| < columns
      invariant |final| <= columns
      invariant forall k :: 0 <= k < |final| ==> final[k] == FinalValue(samples, k, colorspace, overcrop)
      decreases columns - |final|
    {
      var value := GetCropValue(Column(samples, |final|));
      value := CheckSubsampling(value, colorspace, |final| % 2 == 0, overcrop);
      final := final + [value];
    }
  }

  /**
   * Lines 89-102 of autocrop: measure each sampled frame with autocrop_frame,
   * keeping the measurements in `crops`, then combine them.
   */
  method Autocrop(frames: seq<Frame>, tol: int, colorspace: string, overcrop: bool)
    returns (crops: seq<Crop>, final: seq<int>)
    requires forall n :: 0 <= n < |frames| ==> frames[n].Valid()
    ensures |crops| == |frames|
    ensures forall n :: 0 <= n < |frames| ==> IsFrameCrop(frames[n], tol, crops[n])
    ensures |frames| == 0 ==> final == []
    ensures |frames| > 0 ==> |final| == 4
    ensures |frames| > 0 ==> forall k :: 0 <= k < 4 ==> final[k] == FinalValue(crops, k, colorspace, overcrop)
  {
    crops := [];
    var n := 0;
    while n < |frames|
      invariant 0 <= n <= |frames|
      invariant |crops| == n
      invariant forall m :: 0 <= m < n ==> IsFrameCrop(frames[m], tol, crops[m])
    {
      var c := AutocropFrame(frames[n], tol);
      crops := crops + [c];
      n := n + 1;
    }
    final := CombineCropValues(crops, colorspace, overcrop);
  }

  /**
   * When every sampled frame measures the same crop, the result is that crop
   * with each value aligned to the colorspace.
   */
  lemma UnanimousSamples(samples: seq<Crop>, c: Crop, k: nat, colorspace: string, overcrop: bool)
    requires 0 < |samples| && k < 4
    requires forall n :: 0 <= n < |samples| ==> samples[n] == c
    ensures FinalValue(samples, k, colorspace, overcrop)
         == CheckSubsampling(Component(c, k), colorspace, IsHorizontal(k), overcrop)
  {
  }

  /**
   * Overcropping never crops less than the value chosen from the samples, and
   * not overcropping never crops more; the chosen value is always one that
   * some frame measured.
   */
  lemma FinalValueBounds(samples: seq<Crop>, k: nat, colorspace: string, overcrop: bool)
    requires 0 < |samples| && k < 4
    ensures CropValueOf(Column(samples, k)) in Column(samples, k)
    ensures overcrop ==> FinalValue(samples, k, colorspace, overcrop) >= CropValueOf(Column(samples, k))
    ensures !overcrop ==> FinalValue(samples, k, colorspace, overcrop) <= CropValueOf(Column(samples, k))
  {
  }
}

/**
 * Physical brightness-temperature thresholding (backend/modules/thresholding.py):
 * cold-cloud masks, masked statistics and a coarse convective-intensity label.
 */
module Thresholding {
  import opened Wrappers
  import opened Numeric
  import opened Grids

  /** Kelvin; deep convective cloud tops. */
  const BT_COLD_THRESHOLD: real := 218.0
  /** Kelvin; general cloud detection. */
  const BT_WARM_THRESHOLD: real := 250.0
  /** Kelvin; cirrus detection. */
  const BT_CIRRUS_THRESHOLD: real := 230.0

  /** `(bt_array < threshold).astype(uint8)`. */
  function ApplyBtThreshold(bt: Grid, threshold: real): (mask: Mask)
    ensures SameShape(mask, bt) && IsBinary(mask)
    ensures forall i, j :: 0 <= i < |bt| && 0 <= j < |bt[i]| ==>
      (mask[i][j] == 1 <==> bt[i][j] < threshold)
  {
    seq(|bt|, i requires 0 <= i < |bt| =>
      seq(|bt[i]|, j requires 0 <= j < |bt[i]| => if bt[i][j] < threshold then 1 else 0))
  }

  /** A raised threshold only adds pixels to the mask. */
  lemma ThresholdMonotone(bt: Grid, t1: real, t2: real, i: nat, j: nat)
    requires t1 <= t2 && i < |bt| && j < |bt[i]|
    ensures ApplyBtThreshold(bt, t1)[i][j] <= ApplyBtThreshold(bt, t2)[i][j]
  {
  }

  /**
   * `np.mean(primary_mask)`: the fraction of cold pixels, or None for an
   * empty array, where numpy yields NaN.
   */
  function ColdFraction(mask: Mask): (f: Option<real>)
    ensures f.None? <==> Size(mask) == 0
  {
    if Size(mask) == 0 then None else Some((MaskSum(mask) as real) / (Size(mask) as real))
  }

  /**
   * The primary mask unless its cold fraction is below `minColdFraction`,
   * in which case the secondary-threshold mask. A NaN fraction (empty grid)
   * compares false, so the primary mask is kept.
   */
  function CreateColdCloudMask(bt: Grid, primary: real, secondary: real, minColdFraction: real): (mask: Mask)
    ensures SameShape(mask, bt) && IsBinary(mask)
    ensures var f := ColdFraction(ApplyBtThreshold(bt, primary));
      var t := if f.Some? && f.value < minColdFraction then secondary else primary;
      forall i, j :: 0 <= i < |bt| && 0 <= j < |bt[i]| ==> (mask[i][j] == 1 <==> bt[i][j] < t)
  {
    var primaryMask := ApplyBtThreshold(bt, primary);
    var fraction := ColdFraction(primaryMask);
    if fraction.Some? && fraction.value < minColdFraction then ApplyBtThreshold(bt, secondary)
    else primaryMask
  }

  /**
   * With the secondary threshold at least the primary one (218 K / 250 K by
   * default), every pixel of the primary mask stays set whichever mask is chosen.
   */
  lemma ColdCloudMaskCoversPrimary(bt: Grid, primary: real, secondary: real, minColdFraction: real, i: nat, j: nat)
    requires primary <= secondary && i < |bt| && j < |bt[i]|
    requires bt[i][j] < primary
    ensures CreateColdCloudMask(bt, primary, secondary, minColdFraction)[i][j] == 1
  {
  }

  /** The statistics dictionary; the standard deviation is not modelled. */
  datatype BtStats = BtStats(minBt: Option<real>, maxBt: Option<real>, meanBt: Option<real>, pixelCount: nat)

  /** The values a statistics call looks at: masked pixels, or the whole grid. */
  function StatValues(bt: Grid, mask: Option<Mask>): seq<real>
    requires mask.Some? ==> SameShape(bt, mask.value)
  {
    match mask
    case Some(m) => Select(bt, m)
    case None => Flatten(bt)
  }

  lemma StatValuesCount(bt: Grid, mask: Option<Mask>)
    requires mask.Some? ==> SameShape(bt, mask.value)
    ensures mask.Some? ==> |StatValues(bt, mask)| == CountOnes(mask.value)
    ensures mask.None? ==> |StatValues(bt, mask)| == Size(bt)
  {
    if mask.Some? {
      SelectLength(bt, mask.value);
    }
  }

  function GetBtStatistics(bt: Grid, mask: Option<Mask>): (r: BtStats)
    requires mask.Some? ==> SameShape(bt, mask.value)
    ensures mask.Some? ==> r.pixelCount == CountOnes(mask.value)
    ensures mask.None? ==> r.pixelCount == Size(bt)
    ensures r.pixelCount == 0 <==> r == BtStats(None, None, None, 0)
    ensures r.pixelCount > 0 ==>
      && r.minBt.Some? && r.maxBt.Some? && r.meanBt.Some?
      && r.minBt.value <= r.meanBt.value <= r.maxBt.value
      && r.minBt.value in StatValues(bt, mask) && r.maxBt.value in StatValues(bt, mask)
      && forall k :: 0 <= k < |StatValues(bt, mask)| ==>
           r.minBt.value <= StatValues(bt, mask)[k] <= r.maxBt.value
  {
    var values := StatValues(bt, mask);
    StatValuesCount(bt, mask);
    if |values| == 0 then BtStats(None, None, None, 0)
    else
      MeanBetweenMinMax(values);
      BtStats(Some(Min(values)), Some(Max(values)), Some(Mean(values)), |values|)
  }

  /**
   * "none" for an all-zero mask; otherwise a label from the minimum BT under
   * the mask, with "weak" for everything at or above 210 K.
   */
  function EstimateConvectiveIntensity(bt: Grid, mask: Mask): (r: string)
    requires SameShape(bt, mask) && IsBinary(mask)
    ensures r == "none" <==> CountOnes(mask) == 0
    ensures CountOnes(mask) > 0 ==> Select(bt, mask) != [] && r == LabelOfMin(Min(Select(bt, mask)))
  {
    BinarySumCountsOnes(mask);
    SelectLength(bt, mask);
    if MaskSum(mask) == 0 then "none"
    else LabelOfMin(Min(Select(bt, mask)))
  }

  /** The 190/200/210 K ladder of `estimate_convective_intensity`. */
  function LabelOfMin(minBt: real): (r: string)
    ensures r in {"extreme", "strong", "moderate", "weak"}
    ensures r == "extreme" <==> minBt < 190.0
    ensures r == "strong" <==> 190.0 <= minBt < 200.0
    ensures r == "moderate" <==> 200.0 <= minBt < 210.0
    ensures r == "weak" <==> minBt >= 210.0
  {
    if minBt < 190.0 then "extreme"
    else if minBt < 200.0 then "strong"
    else if minBt < 210.0 then "moderate"
    else "weak"
  }

  /** The values the module's own test checks at 218 K: 200 -> 1, 220 -> 0, 215 -> 1. */
  lemma ThresholdExample()
    ensures ApplyBtThreshold([[200.0, 220.0, 250.0], [180.0, 300.0, 215.0]], 218.0)
      == [[1, 0, 0], [1, 0, 1]]
  {
    var bt := [[200.0, 220.0, 250.0], [180.0, 300.0, 215.0]];
    var m := ApplyBtThreshold(bt, 218.0);
    assert m[0] == [1, 0, 0];
    assert m[1] == [1, 0, 1];
  }
}

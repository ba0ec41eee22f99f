/**
 * Post-processing of the segmentation network's output (backend/modules/segmentation.py):
 * binarising the probability map, combining it with the BT mask, and
 * confidence statistics. The network itself is not part of this model.
 */
module Segmentation {
  import opened Wrappers
  import opened Numeric
  import opened Grids

  const DEFAULT_THRESHOLD: real := 0.5
  /** Probability above which a positive pixel counts as high-confidence. */
  const HIGH_CONFIDENCE: real := 0.8

  /** `(prob_map > DEFAULT_THRESHOLD).astype(uint8)`: strictly above 0.5. */
  function Binarize(prob: Grid): (mask: Mask)
    ensures SameShape(mask, prob) && IsBinary(mask)
    ensures forall i, j :: 0 <= i < |prob| && 0 <= j < |prob[i]| ==>
      (mask[i][j] == 1 <==> prob[i][j] > DEFAULT_THRESHOLD)
  {
    seq(|prob|, i requires 0 <= i < |prob| =>
      seq(|prob[i]|, j requires 0 <= j < |prob[i]| => if prob[i][j] > DEFAULT_THRESHOLD then 1 else 0))
  }

  /** A probability of exactly 0.5 is background. */
  lemma BinarizeIsStrict()
    ensures Binarize([[0.5, 0.50001]]) == [[0, 1]]
  {
    var m := Binarize([[0.5, 0.50001]]);
    assert m[0] == [0, 1];
  }

  function Pow2(n: nat): (p: nat)
    ensures p >= 1
  {
    if n == 0 then 1 else 2 * Pow2(n - 1)
  }

  /** Bitwise `&` on unsigned integers, bit by bit from the lowest. */
  function BitAnd(a: nat, b: nat): (r: nat)
    ensures r <= a && r <= b
  {
    if a == 0 || b == 0 then 0
    else 2 * BitAnd(a / 2, b / 2) + (if a % 2 == 1 && b % 2 == 1 then 1 else 0)
  }

  /** Bitwise `|` on unsigned integers, bit by bit from the lowest. */
  function BitOr(a: nat, b: nat): (r: nat)
    ensures r >= a && r >= b
  {
    if a == 0 then b
    else if b == 0 then a
    else 2 * BitOr(a / 2, b / 2) + (if a % 2 == 1 || b % 2 == 1 then 1 else 0)
  }

  /** `|` of two values below 2^n stays below 2^n: it never leaves the byte. */
  lemma {:induction false} BitOrBound(a: nat, b: nat, n: nat)
    requires a < Pow2(n) && b < Pow2(n)
    ensures BitOr(a, b) < Pow2(n)
  {
    if a != 0 && b != 0 {
      assert n > 0;
      BitOrBound(a / 2, b / 2, n - 1);
    }
  }

  function AndByte(a: Byte, b: Byte): Byte
  {
    BitAnd(a, b)
  }

  function OrByte(a: Byte, b: Byte): Byte
  {
    BitOrBound(a, b, 8);
    BitOr(a, b)
  }

  /** `uint8 * uint8` in numpy wraps modulo 256. */
  function MulByte(a: Byte, b: Byte): Byte
  {
    (a * b) % 256
  }

  /** Cell-by-cell combination of two masks of the same shape. */
  function Combine(a: Mask, b: Mask, op: (Byte, Byte) -> Byte): (r: Mask)
    requires SameShape(a, b)
    ensures SameShape(r, a)
    ensures forall i, j :: 0 <= i < |a| && 0 <= j < |a[i]| ==> r[i][j] == op(a[i][j], b[i][j])
  {
    seq(|a|, i requires 0 <= i < |a| =>
      seq(|a[i]|, j requires 0 <= j < |a[i]| => op(a[i][j], b[i][j])))
  }

  /**
   * `ensemble_with_threshold`: "intersection" is `&`, "union" is `|`,
   * "unet_refined" is the uint8 product; any other mode raises ValueError.
   */
  function EnsembleWithThreshold(unetMask: Mask, btMask: Mask, mode: string): (r: Result<Mask, string>)
    requires SameShape(unetMask, btMask)
    ensures r.Err? <==> mode !in {"intersection", "union", "unet_refined"}
    ensures r.Ok? ==> SameShape(r.value, unetMask)
  {
    if mode == "intersection" then Ok(Combine(unetMask, btMask, AndByte))
    else if mode == "union" then Ok(Combine(unetMask, btMask, OrByte))
    else if mode == "unet_refined" then Ok(Combine(unetMask, btMask, MulByte))
    else Err("Unknown ensemble mode: " + mode)
  }

  /** The intersection never exceeds either input; the union is never below either. */
  lemma EnsembleBounds(unetMask: Mask, btMask: Mask, i: nat, j: nat)
    requires SameShape(unetMask, btMask) && i < |unetMask| && j < |unetMask[i]|
    ensures var r := EnsembleWithThreshold(unetMask, btMask, "intersection").value;
      r[i][j] <= unetMask[i][j] && r[i][j] <= btMask[i][j]
    ensures var r := EnsembleWithThreshold(unetMask, btMask, "union").value;
      r[i][j] >= unetMask[i][j] && r[i][j] >= btMask[i][j]
  {
  }

  /** On 0/1 masks: intersection is 1 iff both are 1, union iff either is 1. */
  lemma EnsembleOnBinary(unetMask: Mask, btMask: Mask, i: nat, j: nat)
    requires SameShape(unetMask, btMask) && IsBinary(unetMask) && IsBinary(btMask)
    requires i < |unetMask| && j < |unetMask[i]|
    ensures var r := EnsembleWithThreshold(unetMask, btMask, "intersection").value;
      r[i][j] == 1 <==> unetMask[i][j] == 1 && btMask[i][j] == 1
    ensures var r := EnsembleWithThreshold(unetMask, btMask, "union").value;
      r[i][j] == 1 <==> unetMask[i][j] == 1 || btMask[i][j] == 1
  {
    var a, b := unetMask[i][j], btMask[i][j];
    assert a <= 1 && b <= 1;
  }

  /** On 0/1 masks the uint8 product is the intersection, cell for cell. */
  lemma RefinedIsIntersectionOnBinary(unetMask: Mask, btMask: Mask)
    requires SameShape(unetMask, btMask) && IsBinary(unetMask) && IsBinary(btMask)
    ensures EnsembleWithThreshold(unetMask, btMask, "unet_refined")
         == EnsembleWithThreshold(unetMask, btMask, "intersection")
  {
    var p := Combine(unetMask, btMask, MulByte);
    var q := Combine(unetMask, btMask, AndByte);
    forall i | 0 <= i < |p|
      ensures p[i] == q[i]
    {
      forall j | 0 <= j < |p[i]|
        ensures p[i][j] == q[i][j]
      {
        assert unetMask[i][j] <= 1 && btMask[i][j] <= 1;
        assert BitAnd(1, 1) == 1;
      }
    }
    assert p == q;
  }

  /** Outside 0/1 masks the product and the intersection part ways: 16 * 16 wraps to 0. */
  lemma RefinedDiffersOffBinary()
    ensures MulByte(16, 16) == 0 && AndByte(16, 16) == 16
  {
    assert BitAnd(16, 16) == 2 * BitAnd(8, 8);
    assert BitAnd(8, 8) == 2 * BitAnd(4, 4);
    assert BitAnd(4, 4) == 2 * BitAnd(2, 2);
    assert BitAnd(2, 2) == 2 * BitAnd(1, 1);
  }

  datatype Confidence = Confidence(
    meanConfidence: real,
    minConfidence: real,
    maxConfidence: real,
    highConfidenceFraction: real)

  /** Number of elements strictly above `t`. */
  function CountAbove(s: seq<real>, t: real): (c: nat)
    ensures c <= |s|
  {
    if s == [] then 0 else (if s[0] > t then 1 else 0) + CountAbove(s[1..], t)
  }

  /**
   * All four metrics 0.0 for an empty mask; otherwise the mean, min, max and
   * share above 0.8 of the probabilities under the mask.
   */
  function GetPredictionConfidence(prob: Grid, mask: Mask): (r: Confidence)
    requires SameShape(prob, mask)
    ensures MaskSum(mask) == 0 ==> r == Confidence(0.0, 0.0, 0.0, 0.0)
  {
    if MaskSum(mask) == 0 then Confidence(0.0, 0.0, 0.0, 0.0)
    else
      var positive := Select(prob, mask);
      if positive == [] then
        // np.min of an empty selection raises ValueError; unreachable on 0/1 masks
        Confidence(0.0, 0.0, 0.0, 0.0)
      else
        Confidence(Mean(positive), Min(positive), Max(positive),
          CountAbove(positive, HIGH_CONFIDENCE) as real / |positive| as real)
  }

  /** On a 0/1 mask with at least one positive pixel the metrics are ordered and in range. */
  lemma PredictionConfidenceBounds(prob: Grid, mask: Mask)
    requires SameShape(prob, mask) && IsBinary(mask) && CountOnes(mask) > 0
    ensures GetPredictionConfidence(prob, mask).minConfidence <= GetPredictionConfidence(prob, mask).meanConfidence
    ensures GetPredictionConfidence(prob, mask).meanConfidence <= GetPredictionConfidence(prob, mask).maxConfidence
    ensures GetPredictionConfidence(prob, mask).minConfidence in Select(prob, mask)
    ensures GetPredictionConfidence(prob, mask).maxConfidence in Select(prob, mask)
    ensures 0.0 <= GetPredictionConfidence(prob, mask).highConfidenceFraction <= 1.0
    ensures GetPredictionConfidence(prob, mask).highConfidenceFraction
         == CountAbove(Select(prob, mask), HIGH_CONFIDENCE) as real / CountOnes(mask) as real
  {
    BinarySumCountsOnes(mask);
    SelectLength(prob, mask);
    var positive := Select(prob, mask);
    var r := GetPredictionConfidence(prob, mask);
    assert r == Confidence(Mean(positive), Min(positive), Max(positive),
      CountAbove(positive, HIGH_CONFIDENCE) as real / |positive| as real);
    MeanBetweenMinMax(positive);
    var k := CountAbove(positive, HIGH_CONFIDENCE);
    FractionFacts(k, CountOnes(mask));
  }

  lemma FractionFacts(k: nat, n: nat)
    requires 0 < n && k <= n
    ensures 0.0 <= k as real / n as real <= 1.0
  {
    DivBounds(k as real, n as real, 0.0, 1.0);
  }

  /** On a 0/1 mask the all-zero result means exactly: no positive pixel. */
  lemma PredictionConfidenceEmpty(prob: Grid, mask: Mask)
    requires SameShape(prob, mask) && IsBinary(mask)
    ensures CountOnes(mask) == 0 ==> GetPredictionConfidence(prob, mask) == Confidence(0.0, 0.0, 0.0, 0.0)
  {
    BinarySumCountsOnes(mask);
  }
}

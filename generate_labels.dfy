/**
 * The stand-alone training-mask generator (training/generate_labels.py):
 * cold pixels below 218 K, grouped by DBSCAN, and every non-noise cluster of
 * at least 34800 km^2 painted into a fresh mask. DBSCAN's labels are an
 * input, one per cold pixel in row-major order.
 */
module GenerateLabels {
  import opened Grids
  import Thresholding
  import Clustering

  const BT_THRESHOLD: real := 218.0
  const PIXEL_AREA_KM2: real := 16.0
  const MIN_AREA_KM2: real := 34800.0

  /** `np.where(bt_array < BT_THRESHOLD)`, stacked: the cold pixels in row-major order. */
  function ColdPixels(bt: Grid): (r: seq<Clustering.Pixel>)
    ensures |r| == CountOnes(Thresholding.ApplyBtThreshold(bt, BT_THRESHOLD))
    ensures Clustering.RowMajor(r)
    ensures forall k :: 0 <= k < |r| ==> r[k].0 < |bt| && r[k].1 < |bt[r[k].0]| && bt[r[k].0][r[k].1] < BT_THRESHOLD
  {
    var m := Thresholding.ApplyBtThreshold(bt, BT_THRESHOLD);
    var r := Clustering.CloudPixels(m);
    assert forall k :: 0 <= k < |r| ==> m[r[k].0][r[k].1] == 1;
    r
  }

  /** `np.sum(labels == lbl)`. */
  function LabelCount(labels: seq<int>, lbl: int): (n: nat)
    ensures n <= |labels|
    ensures n == 0 <==> lbl !in labels
  {
    if labels == [] then 0
    else (if labels[0] == lbl then 1 else 0) + LabelCount(labels[1..], lbl)
  }

  /** The cluster labelled `lbl` covers at least the minimum area. */
  predicate LargeEnough(labels: seq<int>, lbl: int)
  {
    LabelCount(labels, lbl) as real * PIXEL_AREA_KM2 >= MIN_AREA_KM2
  }

  /** 34800 km^2 of 16 km^2 pixels: a cluster is large enough exactly from 2175 pixels on. */
  lemma LargeEnoughPixels(labels: seq<int>, lbl: int)
    ensures LargeEnough(labels, lbl) <==> LabelCount(labels, lbl) >= 2175
  {
  }

  /**
   * Pixel `p` is painted once the labels in `done` have been visited: some
   * cold pixel at `p` carries a label in `done` whose cluster is large enough.
   */
  predicate PaintedAmong(coords: seq<Clustering.Pixel>, labels: seq<int>, done: seq<int>, p: Clustering.Pixel)
    requires |labels| == |coords|
  {
    exists k :: 0 <= k < |coords| && coords[k] == p && labels[k] in done && LargeEnough(labels, labels[k])
  }

  /** What `generate_mask` paints: a cold pixel whose label is not noise and whose cluster is large enough. */
  predicate Painted(coords: seq<Clustering.Pixel>, labels: seq<int>, p: Clustering.Pixel)
    requires |labels| == |coords|
  {
    exists k :: 0 <= k < |coords| && coords[k] == p && labels[k] != Clustering.NOISE && LargeEnough(labels, labels[k])
  }

  /**
   * `generate_mask`. With no cold pixel the result is the all-zero mask;
   * otherwise each label of `set(labels) - {-1}` whose pixel count times
   * 16 km^2 reaches 34800 km^2 has all its pixels set to 1.
   */
  method GenerateMask(bt: Grid, labels: seq<int>) returns (mask: array2<Byte>)
    requires IsRect(bt)
    requires |labels| == CountOnes(Thresholding.ApplyBtThreshold(bt, BT_THRESHOLD))
    ensures fresh(mask)
    ensures mask.Length0 == |bt| && mask.Length1 == Width(bt)
    ensures forall i, j :: 0 <= i < mask.Length0 && 0 <= j < mask.Length1 ==>
      mask[i, j] == if Painted(ColdPixels(bt), labels, (i, j)) then 1 else 0
  {
    var coords := ColdPixels(bt);
    mask := ZeroMask(|bt|, Width(bt));
    if |coords| == 0 {
      return;
    }
    ColdPixelsInside(bt);
    PaintLabels(mask, coords, labels);
  }

  /** `np.zeros((h, w), dtype=np.uint8)`. */
  method ZeroMask(h: nat, w: nat) returns (mask: array2<Byte>)
    ensures fresh(mask)
    ensures mask.Length0 == h && mask.Length1 == w
    ensures forall i, j :: 0 <= i < h && 0 <= j < w ==> mask[i, j] == 0
  {
    mask := new Byte[h, w]((i, j) => 0);
  }

  /** The label loop: every non-noise label in turn, on a mask that starts all zero. */
  method PaintLabels(mask: array2<Byte>, coords: seq<Clustering.Pixel>, labels: seq<int>)
    requires |labels| == |coords|
    requires forall k :: 0 <= k < |coords| ==> coords[k].0 < mask.Length0 && coords[k].1 < mask.Length1
    requires forall i, j :: 0 <= i < mask.Length0 && 0 <= j < mask.Length1 ==> mask[i, j] == 0
    modifies mask
    ensures forall i, j :: 0 <= i < mask.Length0 && 0 <= j < mask.Length1 ==>
      mask[i, j] == if Painted(coords, labels, (i, j)) then 1 else 0
  {
    var ids := Clustering.LabelIds(labels);
    var n := 0;
    while n < |ids|
      invariant 0 <= n <= |ids|
      invariant forall i, j :: 0 <= i < mask.Length0 && 0 <= j < mask.Length1 ==>
        mask[i, j] == if PaintedAmong(coords, labels, ids[..n], (i, j)) then 1 else 0
    {
      PaintLabel(mask, coords, labels, ids, n);
      n := n + 1;
    }
    assert ids[..n] == ids;
    PaintedAmongAllLabels(coords, labels, ids);
  }

  lemma ColdPixelsInside(bt: Grid)
    requires IsRect(bt)
    ensures forall k :: 0 <= k < |ColdPixels(bt)| ==> ColdPixels(bt)[k].0 < |bt| && ColdPixels(bt)[k].1 < Width(bt)
  {
    var coords := ColdPixels(bt);
    forall k | 0 <= k < |coords| ensures coords[k].0 < |bt| && coords[k].1 < Width(bt) {
      assert |bt[coords[k].0]| == Width(bt);
    }
  }

  /** Visiting every non-noise label paints exactly what `Painted` describes. */
  lemma PaintedAmongAllLabels(coords: seq<Clustering.Pixel>, labels: seq<int>, ids: seq<int>)
    requires |labels| == |coords|
    requires forall l :: l in ids <==> l in labels && l != Clustering.NOISE
    ensures forall p :: PaintedAmong(coords, labels, ids, p) <==> Painted(coords, labels, p)
  {
    forall p ensures PaintedAmong(coords, labels, ids, p) <==> Painted(coords, labels, p) {
      if Painted(coords, labels, p) {
        var k :| 0 <= k < |coords| && coords[k] == p && labels[k] != Clustering.NOISE && LargeEnough(labels, labels[k]);
        assert labels[k] in labels;
      }
    }
  }

  /** One turn of the label loop: paints label `ids[n]` in full when its cluster is large enough. */
  method PaintLabel(mask: array2<Byte>, coords: seq<Clustering.Pixel>, labels: seq<int>, ids: seq<int>, n: nat)
    requires |labels| == |coords| && n < |ids|
    requires forall k :: 0 <= k < |coords| ==> coords[k].0 < mask.Length0 && coords[k].1 < mask.Length1
    requires forall i, j :: 0 <= i < mask.Length0 && 0 <= j < mask.Length1 ==>
      mask[i, j] == if PaintedAmong(coords, labels, ids[..n], (i, j)) then 1 else 0
    modifies mask
    ensures forall i, j :: 0 <= i < mask.Length0 && 0 <= j < mask.Length1 ==>
      mask[i, j] == if PaintedAmong(coords, labels, ids[..n + 1], (i, j)) then 1 else 0
  {
    var lbl := ids[n];
    assert ids[..n + 1] == ids[..n] + [lbl];
    PaintedAmongSnoc(coords, labels, ids[..n], lbl);
    var pixelCount := LabelCount(labels, lbl);
    if pixelCount as real * PIXEL_AREA_KM2 >= MIN_AREA_KM2 {
      PaintPixels(mask, coords, labels, ids[..n], lbl);
    }
  }

  /** Adding label `lbl` to the visited ones adds its pixels, when its cluster is large enough. */
  lemma PaintedAmongSnoc(coords: seq<Clustering.Pixel>, labels: seq<int>, done: seq<int>, lbl: int)
    requires |labels| == |coords|
    ensures forall p :: PaintedAmong(coords, labels, done + [lbl], p) <==>
      PaintedAmong(coords, labels, done, p) || (LargeEnough(labels, lbl) && LabelAt(coords, labels, lbl, p))
  {
    forall p ensures PaintedAmong(coords, labels, done + [lbl], p) <==>
      PaintedAmong(coords, labels, done, p) || (LargeEnough(labels, lbl) && LabelAt(coords, labels, lbl, p))
    {
      if PaintedAmong(coords, labels, done + [lbl], p) {
        var k :| 0 <= k < |coords| && coords[k] == p && labels[k] in done + [lbl] && LargeEnough(labels, labels[k]);
        if labels[k] !in done {
          assert LabelAt(coords, labels, lbl, p);
        }
      }
    }
  }

  /** The pixel loop: every pixel labelled `lbl` is set to 1, nothing else changes. */
  method PaintPixels(mask: array2<Byte>, coords: seq<Clustering.Pixel>, labels: seq<int>, ghost done: seq<int>, lbl: int)
    requires |labels| == |coords|
    requires forall k :: 0 <= k < |coords| ==> coords[k].0 < mask.Length0 && coords[k].1 < mask.Length1
    requires forall i, j :: 0 <= i < mask.Length0 && 0 <= j < mask.Length1 ==>
      mask[i, j] == if PaintedAmong(coords, labels, done, (i, j)) then 1 else 0
    modifies mask
    ensures forall i, j :: 0 <= i < mask.Length0 && 0 <= j < mask.Length1 ==>
      mask[i, j] == if PaintedAmong(coords, labels, done, (i, j)) || LabelAt(coords, labels, lbl, (i, j)) then 1 else 0
  {
    var k := 0;
    while k < |coords|
      invariant 0 <= k <= |coords|
      invariant forall i, j :: 0 <= i < mask.Length0 && 0 <= j < mask.Length1 ==>
        mask[i, j] == if PaintedAmong(coords, labels, done, (i, j)) || LabelAt(coords[..k], labels[..k], lbl, (i, j)) then 1 else 0
    {
      assert coords[..k + 1] == coords[..k] + [coords[k]];
      assert labels[..k + 1] == labels[..k] + [labels[k]];
      LabelAtSnoc(coords[..k], labels[..k], coords[k], labels[k], lbl);
      if labels[k] == lbl {
        mask[coords[k].0, coords[k].1] := 1;
      }
      k := k + 1;
    }
    assert coords[..k] == coords && labels[..k] == labels;
  }

  /** Some pixel at `p` carries label `lbl`. */
  predicate LabelAt(coords: seq<Clustering.Pixel>, labels: seq<int>, lbl: int, p: Clustering.Pixel)
    requires |labels| == |coords|
  {
    exists k :: 0 <= k < |coords| && coords[k] == p && labels[k] == lbl
  }

  lemma LabelAtSnoc(coords: seq<Clustering.Pixel>, labels: seq<int>, c: Clustering.Pixel, l: int, lbl: int)
    requires |labels| == |coords|
    ensures forall p :: LabelAt(coords + [c], labels + [l], lbl, p) <==> LabelAt(coords, labels, lbl, p) || (c == p && l == lbl)
  {
    forall p ensures LabelAt(coords + [c], labels + [l], lbl, p) <==> LabelAt(coords, labels, lbl, p) || (c == p && l == lbl) {
      if LabelAt(coords, labels, lbl, p) {
        var k :| 0 <= k < |coords| && coords[k] == p && labels[k] == lbl;
        assert (coords + [c])[k] == p && (labels + [l])[k] == lbl;
      }
      if c == p && l == lbl {
        assert (coords + [c])[|coords|] == p && (labels + [l])[|coords|] == lbl;
      }
    }
  }

  /** Every painted pixel is colder than 218 K: the result lies inside the threshold mask. */
  lemma PaintedIsCold(bt: Grid, labels: seq<int>, p: Clustering.Pixel)
    requires |labels| == CountOnes(Thresholding.ApplyBtThreshold(bt, BT_THRESHOLD))
    requires Painted(ColdPixels(bt), labels, p)
    ensures p.0 < |bt| && p.1 < |bt[p.0]| && bt[p.0][p.1] < BT_THRESHOLD
  {
    var coords := ColdPixels(bt);
    var k :| 0 <= k < |coords| && coords[k] == p && labels[k] != Clustering.NOISE && LargeEnough(labels, labels[k]);
  }

  /** A row-major pixel list holds each pixel at one index only. */
  lemma RowMajorDistinct(coords: seq<Clustering.Pixel>, k: nat)
    requires Clustering.RowMajor(coords) && k < |coords|
    ensures forall k2 :: 0 <= k2 < |coords| && k2 != k ==> coords[k2] != coords[k]
  {
    forall k2 | 0 <= k2 < |coords| && k2 != k ensures coords[k2] != coords[k] {
      if k < k2 {
        assert coords[k].0 < coords[k2].0 || (coords[k].0 == coords[k2].0 && coords[k].1 < coords[k2].1);
      } else {
        assert coords[k2].0 < coords[k].0 || (coords[k2].0 == coords[k].0 && coords[k2].1 < coords[k].1);
      }
    }
  }

  /** A cold pixel that DBSCAN calls noise is never painted. */
  lemma NoiseNeverPainted(bt: Grid, labels: seq<int>, k: nat)
    requires |labels| == CountOnes(Thresholding.ApplyBtThreshold(bt, BT_THRESHOLD))
    requires k < |labels| && labels[k] == Clustering.NOISE
    ensures !Painted(ColdPixels(bt), labels, ColdPixels(bt)[k])
  {
    RowMajorDistinct(ColdPixels(bt), k);
  }

  /**
   * All or nothing: every pixel of a non-noise cluster is painted when the
   * cluster is large enough, and none of them otherwise.
   */
  lemma ClusterAllOrNothing(bt: Grid, labels: seq<int>, k: nat)
    requires |labels| == CountOnes(Thresholding.ApplyBtThreshold(bt, BT_THRESHOLD))
    requires k < |labels| && labels[k] != Clustering.NOISE
    ensures Painted(ColdPixels(bt), labels, ColdPixels(bt)[k]) <==> LargeEnough(labels, labels[k])
  {
    RowMajorDistinct(ColdPixels(bt), k);
  }

  /** Without a pixel below 218 K nothing is painted, so the mask is all zero. */
  lemma NoColdPixelNoMask(bt: Grid, labels: seq<int>, p: Clustering.Pixel)
    requires forall i, j :: 0 <= i < |bt| && 0 <= j < |bt[i]| ==> bt[i][j] >= BT_THRESHOLD
    requires |labels| == CountOnes(Thresholding.ApplyBtThreshold(bt, BT_THRESHOLD))
    ensures !Painted(ColdPixels(bt), labels, p)
  {
  }
}

/**
 * Per-cluster features: size, brightness-temperature statistics, cloud-top
 * height, shape, geographic extent, intensity class, and the evolution of a
 * cluster between two frames (backend/modules/feature_extraction.py).
 * `cv2.fitEllipse` and the great-circle distance are parameters; square
 * roots are avoided by keeping squares (`radiusSq`, `varianceBt`,
 * `eccentricitySq`).
 */
module FeatureExtraction {
  import opened Wrappers
  import opened Numeric
  import opened Grids
  import Thresholding
  import Clustering

  const PIXEL_AREA_KM2: real := 16.0
  const TROPOPAUSE_HEIGHT_KM: real := 16.0
  const TROPOPAUSE_TEMP_K: real := 190.0
  const SURFACE_TEMP_K: real := 300.0
  const SURFACE_HEIGHT_KM: real := 0.0
  /** Below this many pixels no ellipse is fitted. */
  const MIN_ELLIPSE_POINTS: nat := 5
  /** The guard `max(axis, 1e-6)` against division by zero. */
  const AXIS_EPSILON: real := 0.000001
  /** The guard `max(time_delta_hours, 0.01)`. */
  const MIN_TIME_DELTA_HOURS: real := 0.01

  /** What `cv2.fitEllipse` returns: centre, the two axes as reported, and the angle in degrees. */
  datatype Ellipse = Ellipse(centerX: real, centerY: real, minorAxis: real, majorAxis: real, angle: real)

  datatype Shape = Shape(aspectRatio: real, orientationDeg: real, eccentricitySq: real)

  datatype Extent = Extent(latExtent: real, lonExtent: real, latMin: real, latMax: real, lonMin: real, lonMax: real)

  /**
   * The feature dictionary. Keys that `_empty_features` sets to None are
   * `Option`s; the three shape keys are `None` together, as are the two
   * extent keys.
   */
  datatype Features = Features(
    clusterId: int,
    centroidLat: Option<real>,
    centroidLon: Option<real>,
    centroidY: Option<real>,
    centroidX: Option<real>,
    pixelCount: nat,
    areaKm2: real,
    radiusSq: real,
    minBt: Option<real>,
    maxBt: Option<real>,
    meanBt: Option<real>,
    varianceBt: Option<real>,
    cloudTopHeightKm: Option<real>,
    shape: Option<Shape>,
    extent: Option<Extent>,
    intensity: string)

  /** A coordinate pair `(y, x)` as given, possibly out of the grid. */
  type Coord = (int, int)

  /** The `valid_mask` test: the coordinate lies inside an `h` by `w` grid. */
  predicate Inside(c: Coord, h: nat, w: nat)
  {
    0 <= c.0 < h && 0 <= c.1 < w
  }

  /** How many of the coordinates lie inside the grid: `np.sum(valid_mask)`. */
  function InsideCount(coords: seq<Coord>, h: nat, w: nat): (n: nat)
    ensures n <= |coords|
  {
    if coords == [] then 0
    else InsideCount(coords[..|coords| - 1], h, w) + (if Inside(coords[|coords| - 1], h, w) then 1 else 0)
  }

  /**
   * The coordinates that survive `valid_mask`, in their original order and
   * with repetitions kept, as grid positions: one pixel per inside
   * coordinate, each pixel as often as its coordinate occurs.
   */
  function ValidPixels(coords: seq<Coord>, h: nat, w: nat): (r: seq<Clustering.Pixel>)
    ensures |r| <= |coords|
    ensures forall p :: p in r ==> p.0 < h && p.1 < w
    ensures forall p: Clustering.Pixel :: p in r <==> p.0 < h && p.1 < w && (p.0 as int, p.1 as int) in coords
    ensures forall p: Clustering.Pixel :: multiset(r)[p] == if p.0 < h && p.1 < w then multiset(coords)[(p.0 as int, p.1 as int)] else 0
  {
    if coords == [] then []
    else
      var c := coords[0];
      var rest := ValidPixels(coords[1..], h, w);
      assert coords == [c] + coords[1..];
      assert forall q :: q in coords <==> q == c || q in coords[1..];
      if Inside(c, h, w) then [(c.0 as nat, c.1 as nat)] + rest else rest
  }

  /** The filter keeps order: filtering a concatenation concatenates the filtered parts. */
  lemma {:induction false} ValidPixelsAppend(a: seq<Coord>, b: seq<Coord>, h: nat, w: nat)
    ensures ValidPixels(a + b, h, w) == ValidPixels(a, h, w) + ValidPixels(b, h, w)
  {
    if a == [] {
      assert a + b == b;
    } else {
      assert (a + b)[0] == a[0] && (a + b)[1..] == a[1..] + b;
      ValidPixelsAppend(a[1..], b, h, w);
    }
  }

  /** One pixel per coordinate inside the grid: `pixel_count` is the number of in-bounds coordinates. */
  lemma {:induction false} ValidPixelsCount(coords: seq<Coord>, h: nat, w: nat)
    ensures |ValidPixels(coords, h, w)| == InsideCount(coords, h, w)
  {
    if coords != [] {
      var init := coords[..|coords| - 1];
      var last := coords[|coords| - 1];
      assert coords == init + [last];
      ValidPixelsAppend(init, [last], h, w);
      ValidPixelsCount(init, h, w);
    }
  }

  /** Every coordinate inside an `h` by `w` grid survives the filter. */
  lemma {:induction false} ValidPixelsAllInside(coords: seq<Coord>, h: nat, w: nat)
    requires forall k :: 0 <= k < |coords| ==> 0 <= coords[k].0 < h && 0 <= coords[k].1 < w
    ensures |ValidPixels(coords, h, w)| == |coords|
  {
    if coords != [] {
      ValidPixelsAllInside(coords[1..], h, w);
    }
  }

  /** `_empty_features`: the record for a cluster with no in-bounds pixel. */
  function EmptyFeatures(clusterId: int): (r: Features)
    ensures r.clusterId == clusterId && r.pixelCount == 0 && r.areaKm2 == 0.0 && r.radiusSq == 0.0
    ensures r.intensity == "none"
    ensures r.minBt.None? && r.maxBt.None? && r.meanBt.None? && r.cloudTopHeightKm.None?
    ensures r.centroidLat.None? && r.centroidLon.None? && r.shape.None? && r.extent.None?
  {
    Features(clusterId, None, None, None, None, 0, 0.0, 0.0, None, None, None, None, None, None, None, "none")
  }

  /**
   * `estimate_cloud_top_height`: the surface height at or above 300 K, the
   * tropopause height at or below 190 K, linear in between.
   */
  function CloudTopHeight(minBt: real): (h: real)
  {
    if minBt >= SURFACE_TEMP_K then SURFACE_HEIGHT_KM
    else if minBt <= TROPOPAUSE_TEMP_K then TROPOPAUSE_HEIGHT_KM
    else
      var fraction := (SURFACE_TEMP_K - minBt) / (SURFACE_TEMP_K - TROPOPAUSE_TEMP_K);
      SURFACE_HEIGHT_KM + fraction * (TROPOPAUSE_HEIGHT_KM - SURFACE_HEIGHT_KM)
  }

  /** The height always lies between the surface and the tropopause. */
  lemma CloudTopHeightBounds(minBt: real)
    ensures 0.0 <= CloudTopHeight(minBt) <= 16.0
    ensures CloudTopHeight(minBt) == 0.0 <==> minBt >= 300.0
    ensures CloudTopHeight(minBt) == 16.0 <==> minBt <= 190.0
  {
  }

  /** A colder minimum never gives a lower cloud top. */
  lemma CloudTopHeightAntitone(a: real, b: real)
    requires a <= b
    ensures CloudTopHeight(a) >= CloudTopHeight(b)
  {
  }

  /** The height is the linear interpolation between (190 K, 16 km) and (300 K, 0 km). */
  lemma CloudTopHeightInterpolates(minBt: real)
    requires 190.0 <= minBt <= 300.0
    ensures CloudTopHeight(minBt) * 110.0 == (300.0 - minBt) * 16.0
  {
  }

  /** The module's own check: a 190 K top is higher than a 250 K one. */
  lemma CloudTopHeightExample()
    ensures CloudTopHeight(190.0) == 16.0
    ensures CloudTopHeight(190.0) > CloudTopHeight(250.0)
  {
  }

  /** `_classify_intensity`: a strict `<` at each of 190, 200, 210 and 218 K. */
  function ClassifyIntensity(minBt: real): (r: string)
  {
    if minBt < 190.0 then "extreme"
    else if minBt < 200.0 then "strong"
    else if minBt < 210.0 then "moderate"
    else if minBt < 218.0 then "weak"
    else "none"
  }

  /** How strong a class is: "none" 0 up to "extreme" 4. */
  function Rank(intensity: string): nat
  {
    if intensity == "extreme" then 4
    else if intensity == "strong" then 3
    else if intensity == "moderate" then 2
    else if intensity == "weak" then 1
    else 0
  }

  /**
   * The class is "none" exactly at or above the 218 K cold-cloud threshold,
   * and below it agrees with the whole-mask ladder of the thresholding stage.
   */
  lemma ClassifyIntensityAgreesWithThresholding(minBt: real)
    ensures ClassifyIntensity(minBt) == "none" <==> minBt >= Thresholding.BT_COLD_THRESHOLD
    ensures minBt < Thresholding.BT_COLD_THRESHOLD ==> ClassifyIntensity(minBt) == Thresholding.LabelOfMin(minBt)
  {
  }

  /** A colder minimum never gives a weaker class, and the boundaries are exactly the listed temperatures. */
  lemma ClassifyIntensityMonotone(a: real, b: real)
    requires a <= b
    ensures Rank(ClassifyIntensity(a)) >= Rank(ClassifyIntensity(b))
  {
  }

  lemma ClassifyIntensityBoundaries()
    ensures ClassifyIntensity(189.9) == "extreme" && ClassifyIntensity(190.0) == "strong"
    ensures ClassifyIntensity(200.0) == "moderate" && ClassifyIntensity(210.0) == "weak"
    ensures ClassifyIntensity(217.9) == "weak" && ClassifyIntensity(218.0) == "none"
  {
  }

  /** `_compute_geographic_extent` over non-empty latitude and longitude lists. */
  function GeographicExtent(lats: seq<real>, lons: seq<real>): (e: Extent)
    requires lats != [] && lons != []
    ensures e.latExtent >= 0.0 && e.lonExtent >= 0.0
    ensures e.latMin in lats && e.latMax in lats && e.lonMin in lons && e.lonMax in lons
    ensures forall k :: 0 <= k < |lats| ==> e.latMin <= lats[k] <= e.latMax
    ensures forall k :: 0 <= k < |lons| ==> e.lonMin <= lons[k] <= e.lonMax
    ensures e.latExtent == e.latMax - e.latMin && e.lonExtent == e.lonMax - e.lonMin
  {
    var latMin, latMax, lonMin, lonMax := Min(lats), Max(lats), Min(lons), Max(lons);
    assert latMin <= lats[0] <= latMax && lonMin <= lons[0] <= lonMax;
    Extent(latMax - latMin, lonMax - lonMin, latMin, latMax, lonMin, lonMax)
  }

  /**
   * Python's float `% 180`: the result lies in [0, 180) and differs from `x`
   * by a whole multiple of 180.
   */
  function Mod180(x: real): (r: real)
    ensures 0.0 <= r < 180.0
    ensures ((x - r) / 180.0).Floor as real == (x - r) / 180.0
  {
    var q := (x / 180.0).Floor;
    x - q as real * 180.0
  }

  /** An angle already in [0, 180) is its own remainder. */
  lemma Mod180OfInRange(x: real)
    requires 0.0 <= x < 180.0
    ensures Mod180(x) == x
  {
  }

  /** Turning by a half turn does not change the remainder. */
  lemma Mod180Periodic(x: real)
    ensures Mod180(x + 180.0) == Mod180(x)
  {
  }

  const DEFAULT_SHAPE: Shape := Shape(1.0, 0.0, 0.0)

  /**
   * `_compute_shape_metrics`: the default shape below five points or when the
   * fit fails (`None` from `fit`); otherwise the axes are put in order (the
   * angle turning by 90 degrees modulo 180 when they are swapped) and the
   * aspect ratio and squared eccentricity computed with the 1e-6 guards.
   */
  function ShapeMetrics(pixels: seq<Clustering.Pixel>, fit: seq<Clustering.Pixel> -> Option<Ellipse>): (s: Shape)
  {
    if |pixels| < MIN_ELLIPSE_POINTS then DEFAULT_SHAPE
    else match fit(pixels)
      case None => DEFAULT_SHAPE
      case Some(e) =>
        var swap := e.minorAxis > e.majorAxis;
        var major := if swap then e.minorAxis else e.majorAxis;
        var minor := if swap then e.majorAxis else e.minorAxis;
        var angle := if swap then Mod180(e.angle + 90.0) else e.angle;
        var ratio := minor / MaxReal(major, AXIS_EPSILON);
        Shape(major / MaxReal(minor, AXIS_EPSILON), angle, 1.0 - ratio * ratio)
  }

  /** Fewer than five pixels always yield aspect ratio 1, orientation 0 and eccentricity 0. */
  lemma ShapeMetricsFewPixels(pixels: seq<Clustering.Pixel>, fit: seq<Clustering.Pixel> -> Option<Ellipse>)
    requires |pixels| < 5
    ensures ShapeMetrics(pixels, fit) == Shape(1.0, 0.0, 0.0)
  {
  }

  /**
   * For a fitted ellipse with non-negative axes, the larger of which is not
   * degenerate: the aspect ratio is at least 1 when the smaller axis is above
   * the guard, and the squared eccentricity lies in [0, 1].
   */
  lemma ShapeMetricsBounds(pixels: seq<Clustering.Pixel>, fit: seq<Clustering.Pixel> -> Option<Ellipse>)
    requires |pixels| >= 5 && fit(pixels).Some?
    requires var e := fit(pixels).value;
      e.minorAxis >= 0.0 && e.majorAxis >= 0.0 && (e.minorAxis >= AXIS_EPSILON || e.majorAxis >= AXIS_EPSILON)
    ensures var s := ShapeMetrics(pixels, fit);
      0.0 <= s.eccentricitySq <= 1.0
    ensures var e := fit(pixels).value;
      e.minorAxis >= AXIS_EPSILON && e.majorAxis >= AXIS_EPSILON ==> ShapeMetrics(pixels, fit).aspectRatio >= 1.0
    ensures var e := fit(pixels).value;
      e.minorAxis > e.majorAxis ==> 0.0 <= ShapeMetrics(pixels, fit).orientationDeg < 180.0
  {
    var e := fit(pixels).value;
    var swap := e.minorAxis > e.majorAxis;
    var major := if swap then e.minorAxis else e.majorAxis;
    var minor := if swap then e.majorAxis else e.minorAxis;
    assert 0.0 <= minor <= major && major >= AXIS_EPSILON;
    RatioInUnit(minor, major);
    if minor >= AXIS_EPSILON {
      RatioAtLeastOne(major, minor);
    }
  }

  lemma RatioInUnit(minor: real, major: real)
    requires 0.0 <= minor <= major && major > 0.0
    ensures var q := minor / MaxReal(major, AXIS_EPSILON); 0.0 <= q <= 1.0 && 0.0 <= 1.0 - q * q <= 1.0
  {
    var d := MaxReal(major, AXIS_EPSILON);
    var q := minor / d;
    assert d >= major;
    DivBounds(minor, d, 0.0, 1.0);
    assert q * q <= q;
  }

  lemma RatioAtLeastOne(major: real, minor: real)
    requires major >= minor > 0.0 && minor >= AXIS_EPSILON
    ensures major / MaxReal(minor, AXIS_EPSILON) >= 1.0
  {
    DivBounds(major, minor, 1.0, major / minor);
  }

  /** The squared deviations of the values from `m`. */
  function SquaredDeviations(s: seq<real>, m: real): (d: seq<real>)
    ensures |d| == |s|
    ensures forall k :: 0 <= k < |d| ==> d[k] == (s[k] - m) * (s[k] - m) && d[k] >= 0.0
  {
    if s == [] then []
    else
      var rest := SquaredDeviations(s[1..], m);
      SquareNonNegative(s[0] - m);
      assert forall k :: 0 <= k < |rest| ==> s[1..][k] == s[k + 1];
      [(s[0] - m) * (s[0] - m)] + rest
  }

  /** `np.var`: the mean squared deviation from the mean (`std_bt` is its square root). */
  function Variance(s: seq<real>): (v: real)
    requires s != []
  {
    Mean(SquaredDeviations(s, Mean(s)))
  }

  lemma VarianceNonNegative(s: seq<real>)
    requires s != []
    ensures Variance(s) >= 0.0
  {
    var d := SquaredDeviations(s, Mean(s));
    SumBounds(d, 0.0, Max(d));
    assert Sum(d) >= 0.0;
  }

  lemma SquareNonNegative(x: real)
    ensures x * x >= 0.0
  {
    if x < 0.0 {
      assert x * x == (-x) * (-x);
    }
  }

  /**
   * `compute_cluster_features`. Coordinates outside the grid are dropped
   * first; with none left the result is the empty record.
   */
  function ComputeClusterFeatures(
    coords: seq<Coord>, bt: Grid, latGrid: Grid, lonGrid: Grid, clusterId: int,
    fit: seq<Clustering.Pixel> -> Option<Ellipse>): (r: Features)
    requires IsRect(bt) && SameShape(latGrid, bt) && SameShape(lonGrid, bt)
    ensures r.pixelCount == |ValidPixels(coords, |bt|, Width(bt))| == InsideCount(coords, |bt|, Width(bt))
    ensures r.pixelCount == 0 <==> r == EmptyFeatures(clusterId)
    ensures r.pixelCount > 0 ==>
      r == ClusterFeatures(ValidPixels(coords, |bt|, Width(bt)), bt, latGrid, lonGrid, clusterId, fit)
  {
    ValidPixelsCount(coords, |bt|, Width(bt));
    var pixels := ValidPixels(coords, |bt|, Width(bt));
    if pixels == [] then EmptyFeatures(clusterId)
    else
      assert Clustering.InGrid(pixels, bt) && Clustering.InGrid(pixels, latGrid) && Clustering.InGrid(pixels, lonGrid) by {
        forall p | p in pixels ensures p.0 < |bt| && p.1 < |bt[p.0]| {
          assert p.1 < Width(bt);
        }
      }
      ClusterFeatures(pixels, bt, latGrid, lonGrid, clusterId, fit)
  }

  /**
   * The record for a non-empty list of in-grid pixels. Its statistics are
   * those of the brightness temperatures at the pixels: min <= mean <= max,
   * the minimum is attained, every pixel lies between the two, the spread is
   * non-negative, and the height and the intensity class are the functions
   * above applied to the minimum.
   */
  function ClusterFeatures(
    pixels: seq<Clustering.Pixel>, bt: Grid, latGrid: Grid, lonGrid: Grid, clusterId: int,
    fit: seq<Clustering.Pixel> -> Option<Ellipse>): (r: Features)
    requires pixels != []
    requires Clustering.InGrid(pixels, bt) && Clustering.InGrid(pixels, latGrid) && Clustering.InGrid(pixels, lonGrid)
    ensures r.clusterId == clusterId && r.pixelCount == |pixels|
    ensures r.areaKm2 == |pixels| as real * PIXEL_AREA_KM2 && r.radiusSq * Clustering.PI == r.areaKm2
    ensures r.minBt.Some? && r.maxBt.Some? && r.meanBt.Some? && r.varianceBt.Some?
    ensures r.minBt.value <= r.meanBt.value <= r.maxBt.value && r.varianceBt.value >= 0.0
    ensures exists p :: p in pixels && bt[p.0][p.1] == r.minBt.value
    ensures forall p :: p in pixels ==> r.minBt.value <= bt[p.0][p.1] <= r.maxBt.value
    ensures r.cloudTopHeightKm == Some(CloudTopHeight(r.minBt.value))
    ensures r.intensity == ClassifyIntensity(r.minBt.value)
    ensures r.shape == Some(ShapeMetrics(pixels, fit))
    ensures r.extent.Some? && r.extent.value.latExtent >= 0.0 && r.extent.value.lonExtent >= 0.0
  {
    var bts := Clustering.ValuesAt(bt, pixels);
    var lats := Clustering.ValuesAt(latGrid, pixels);
    var lons := Clustering.ValuesAt(lonGrid, pixels);
    ValuesRange(bt, pixels);
    MeanBetweenMinMax(bts);
    VarianceNonNegative(bts);
    var area := |pixels| as real * PIXEL_AREA_KM2;
    var minBt := Min(bts);
    Features(
      clusterId,
      Some(Mean(lats)), Some(Mean(lons)),
      Some(Mean(Clustering.Ys(pixels))), Some(Mean(Clustering.Xs(pixels))),
      |pixels|, area, area / Clustering.PI,
      Some(minBt), Some(Max(bts)), Some(Mean(bts)), Some(Variance(bts)),
      Some(CloudTopHeight(minBt)),
      Some(ShapeMetrics(pixels, fit)),
      Some(GeographicExtent(lats, lons)),
      ClassifyIntensity(minBt))
  }

  /** The least and greatest grid values at the pixels are attained at, and bound, every pixel. */
  lemma ValuesRange(g: Grid, pixels: seq<Clustering.Pixel>)
    requires pixels != [] && Clustering.InGrid(pixels, g)
    ensures var v := Clustering.ValuesAt(g, pixels);
      (exists p :: p in pixels && g[p.0][p.1] == Min(v)) &&
      forall p :: p in pixels ==> Min(v) <= g[p.0][p.1] <= Max(v)
  {
    var v := Clustering.ValuesAt(g, pixels);
    var k :| 0 <= k < |v| && v[k] == Min(v);
    assert pixels[k] in pixels;
    forall p | p in pixels ensures Min(v) <= g[p.0][p.1] <= Max(v) {
      var i :| 0 <= i < |pixels| && pixels[i] == p;
      assert v[i] == g[p.0][p.1];
    }
  }

  /** The evolution metrics between two frames; the movement direction (an `arctan2`) is not modelled. */
  datatype Evolution = Evolution(
    areaChangeRateKm2h: real,
    btChangePerHour: real,
    movementSpeedKmh: real,
    isIntensifying: bool,
    isExpanding: bool)

  /**
   * `compute_cluster_evolution`. An absent record (`{}`) on either side gives
   * `Ok(None)`; a record without mean BT or centroid (the empty record) makes
   * the subtraction fail, `Err`. Rates divide by `max(dt, 0.01)`.
   */
  function ComputeClusterEvolution(
    current: Option<Features>, previous: Option<Features>, timeDeltaHours: real,
    distance: (real, real, real, real) -> real): (r: Result<Option<Evolution>, string>)
    ensures current.None? || previous.None? <==> r == Ok(None)
  {
    if previous.None? || current.None? then Ok(None)
    else
      var cur, prev := current.value, previous.value;
      if cur.meanBt.None? || prev.meanBt.None? || cur.centroidLat.None? || cur.centroidLon.None?
        || prev.centroidLat.None? || prev.centroidLon.None?
      then Err("TypeError: unsupported operand type(s) for -")
      else
        var dt := MaxReal(timeDeltaHours, MIN_TIME_DELTA_HOURS);
        var areaChange := cur.areaKm2 - prev.areaKm2;
        var btChange := cur.meanBt.value - prev.meanBt.value;
        var km := distance(prev.centroidLat.value, prev.centroidLon.value, cur.centroidLat.value, cur.centroidLon.value);
        Ok(Some(Evolution(areaChange / dt, btChange / dt, km / dt, btChange < 0.0, areaChange > 0.0)))
  }

  /**
   * When both records are present and complete: intensifying exactly when the
   * mean BT fell, expanding exactly when the area grew, each rate times the
   * guarded elapsed time is the change, and the area rate is positive exactly
   * when the cluster expands.
   */
  lemma EvolutionMeaning(
    cur: Features, prev: Features, timeDeltaHours: real, distance: (real, real, real, real) -> real)
    requires cur.meanBt.Some? && prev.meanBt.Some?
    requires cur.centroidLat.Some? && cur.centroidLon.Some? && prev.centroidLat.Some? && prev.centroidLon.Some?
    ensures var r := ComputeClusterEvolution(Some(cur), Some(prev), timeDeltaHours, distance);
      r.Ok? && r.value.Some? &&
      var e := r.value.value;
      var dt := MaxReal(timeDeltaHours, 0.01);
      (e.isIntensifying <==> cur.meanBt.value < prev.meanBt.value) &&
      (e.isExpanding <==> cur.areaKm2 > prev.areaKm2) &&
      e.areaChangeRateKm2h * dt == cur.areaKm2 - prev.areaKm2 &&
      e.btChangePerHour * dt == cur.meanBt.value - prev.meanBt.value &&
      (e.areaChangeRateKm2h > 0.0 <==> e.isExpanding) &&
      (e.btChangePerHour < 0.0 <==> e.isIntensifying)
  {
    var dt := MaxReal(timeDeltaHours, 0.01);
    var a := cur.areaKm2 - prev.areaKm2;
    var b := cur.meanBt.value - prev.meanBt.value;
    assert dt > 0.0;
    SignOfQuotient(a, dt);
    SignOfQuotient(b, dt);
  }

  lemma SignOfQuotient(x: real, d: real)
    requires d > 0.0
    ensures (x / d) * d == x
    ensures x / d > 0.0 <==> x > 0.0
    ensures x / d < 0.0 <==> x < 0.0
  {
  }

  /** The empty record on either side cannot be compared: the subtraction of None fails. */
  lemma EvolutionOfEmptyFails(
    cur: Features, clusterId: int, timeDeltaHours: real, distance: (real, real, real, real) -> real)
    ensures ComputeClusterEvolution(Some(cur), Some(EmptyFeatures(clusterId)), timeDeltaHours, distance).Err?
    ensures ComputeClusterEvolution(Some(EmptyFeatures(clusterId)), Some(cur), timeDeltaHours, distance).Err?
  {
  }
}

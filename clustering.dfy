/**
 * Grouping of cold-cloud pixels into clusters and the geophysical filter
 * with its greedy minimum-separation pass (backend/modules/clustering.py).
 * DBSCAN's labels are an input, one per cloud pixel in row-major order;
 * the great-circle distance is a parameter.
 */
module Clustering {
  import opened Numeric
  import opened Grids
  import opened Sorting

  const MIN_AREA_KM2: real := 34800.0
  const MIN_RADIUS_KM: real := 111.0
  const MIN_CENTROID_SEPARATION_KM: real := 1200.0
  const PIXEL_AREA_KM2: real := 16.0
  /** `np.pi` as a double. */
  const PI: real := 3.141592653589793
  /** DBSCAN's label for noise points. */
  const NOISE: int := -1

  /** A pixel position `(y, x)`. */
  type Pixel = (nat, nat)

  /**
   * A detected cluster. The equivalent radius `sqrt(area / pi)` is kept as
   * its square, `radiusSq`, so that no square root is needed.
   */
  datatype CloudCluster = CloudCluster(
    clusterId: int,
    pixelCoords: seq<Pixel>,
    centroidY: real,
    centroidX: real,
    centroidLat: real,
    centroidLon: real,
    areaKm2: real,
    radiusSq: real,
    pixelCount: nat)

  /** Strictly increasing in row-major order, so no pixel occurs twice. */
  predicate RowMajor(r: seq<Pixel>)
  {
    forall a, b :: 0 <= a < b < |r| ==> r[a].0 < r[b].0 || (r[a].0 == r[b].0 && r[a].1 < r[b].1)
  }

  /** The 1-pixels of row `row`, numbered `i`, from column `j0` on. */
  function RowPixels(row: seq<Byte>, i: nat, j0: nat): (r: seq<Pixel>)
    ensures |r| == CountOnesRow(row)
    ensures forall k :: 0 <= k < |r| ==> r[k].0 == i && j0 <= r[k].1 < j0 + |row| && row[r[k].1 - j0] == 1
    ensures RowMajor(r)
  {
    if row == [] then []
    else (if row[0] == 1 then [(i, j0)] else []) + RowPixels(row[1..], i, j0 + 1)
  }

  /** Pixel `r[k]` lies on a 1-cell of the rows `m`, the first of which is numbered `i0`. */
  predicate OnOnes(r: seq<Pixel>, m: Mask, i0: nat)
  {
    forall k :: 0 <= k < |r| ==>
      i0 <= r[k].0 < i0 + |m| && r[k].1 < |m[r[k].0 - i0]| && m[r[k].0 - i0][r[k].1] == 1
  }

  /** The 1-pixels of the rows `m`, the first of which is numbered `i0`, in row-major order. */
  function PixelsFrom(m: Mask, i0: nat): (r: seq<Pixel>)
    ensures |r| == CountOnes(m)
    ensures OnOnes(r, m, i0)
    ensures RowMajor(r)
  {
    if m == [] then []
    else
      var first := RowPixels(m[0], i0, 0);
      var rest := PixelsFrom(m[1..], i0 + 1);
      PixelsJoinInside(m, i0, first, rest);
      RowMajorJoin(first, rest, i0);
      first + rest
  }

  /** A row's pixels followed by those of later rows all lie on 1-cells of the mask. */
  lemma PixelsJoinInside(m: Mask, i0: nat, first: seq<Pixel>, rest: seq<Pixel>)
    requires m != []
    requires forall k :: 0 <= k < |first| ==> first[k].0 == i0 && first[k].1 < |m[0]| && m[0][first[k].1] == 1
    requires OnOnes(rest, m[1..], i0 + 1)
    ensures OnOnes(first + rest, m, i0)
  {
    var r := first + rest;
    forall k | 0 <= k < |r|
      ensures i0 <= r[k].0 < i0 + |m| && r[k].1 < |m[r[k].0 - i0]| && m[r[k].0 - i0][r[k].1] == 1
    {
      if k < |first| {
        assert r[k] == first[k];
      } else {
        var q := rest[k - |first|];
        assert r[k] == q;
        assert m[q.0 - i0] == m[1..][q.0 - (i0 + 1)];
      }
    }
  }

  /** A row's pixels followed by those of later rows stay in row-major order. */
  lemma RowMajorJoin(first: seq<Pixel>, rest: seq<Pixel>, i0: nat)
    requires RowMajor(first) && RowMajor(rest)
    requires forall k :: 0 <= k < |first| ==> first[k].0 == i0
    requires forall k :: 0 <= k < |rest| ==> rest[k].0 > i0
    ensures RowMajor(first + rest)
  {
    var r := first + rest;
    forall a, b | 0 <= a < b < |r|
      ensures r[a].0 < r[b].0 || (r[a].0 == r[b].0 && r[a].1 < r[b].1)
    {
      if b < |first| {
        assert r[a] == first[a] && r[b] == first[b];
      } else if a < |first| {
        assert r[a] == first[a] && r[b] == rest[b - |first|];
      } else {
        assert r[a] == rest[a - |first|] && r[b] == rest[b - |first|];
      }
    }
  }

  /** `np.where(mask == 1)`: the cloud pixels in row-major order. */
  function CloudPixels(mask: Mask): (r: seq<Pixel>)
    ensures |r| == CountOnes(mask)
    ensures forall k :: 0 <= k < |r| ==>
      r[k].0 < |mask| && r[k].1 < |mask[r[k].0]| && mask[r[k].0][r[k].1] == 1
    ensures RowMajor(r)
  {
    PixelsFrom(mask, 0)
  }

  predicate StrictlyIncreasing(t: seq<int>)
  {
    forall i, j :: 0 <= i < j < |t| ==> t[i] < t[j]
  }

  function InsertAscending(t: seq<int>, x: int): (r: seq<int>)
    requires StrictlyIncreasing(t)
    ensures StrictlyIncreasing(r)
    ensures forall y :: y in r <==> y in t || y == x
  {
    if t == [] then [x]
    else if x < t[0] then
      HeadLeast(t);
      ConsIncreasing(x, t);
      [x] + t
    else if x == t[0] then t
    else
      var rest := InsertAscending(t[1..], x);
      HeadLeast(t);
      ConsIncreasing(t[0], rest);
      [t[0]] + rest
  }

  /** In an increasing list the head is the least element, and the tail lies above it. */
  lemma HeadLeast(t: seq<int>)
    requires StrictlyIncreasing(t) && t != []
    ensures forall y :: y in t <==> y == t[0] || y in t[1..]
    ensures forall y :: y in t[1..] ==> y > t[0]
  {
    forall y | y in t[1..] ensures y > t[0] {
      var k :| 0 <= k < |t[1..]| && t[1..][k] == y;
      assert t[k + 1] == y;
    }
    assert t == [t[0]] + t[1..];
  }

  /** A value below every element of an increasing list extends it at the front. */
  lemma ConsIncreasing(h: int, rest: seq<int>)
    requires StrictlyIncreasing(rest) && forall y :: y in rest ==> y > h
    ensures StrictlyIncreasing([h] + rest)
  {
    var r := [h] + rest;
    forall i, j | 0 <= i < j < |r| ensures r[i] < r[j] {
      assert r[j] == rest[j - 1] && rest[j - 1] in rest;
      if i > 0 {
        assert r[i] == rest[i - 1];
      }
    }
  }

  /**
   * `set(labels)` without -1, in the order the loop visits it: ascending,
   * as CPython iterates a set of small non-negative integers.
   */
  function LabelIds(labels: seq<int>): (ids: seq<int>)
    ensures StrictlyIncreasing(ids)
    ensures forall y :: y in ids <==> y in labels && y != NOISE
  {
    if labels == [] then []
    else
      var t := LabelIds(labels[..|labels| - 1]);
      var x := labels[|labels| - 1];
      assert forall y :: y in labels <==> y in labels[..|labels| - 1] || y == x;
      if x == NOISE then t else InsertAscending(t, x)
  }

  /** `coords[labels == id]`: the pixels carrying label `id`, in order. */
  function Members(pixels: seq<Pixel>, labels: seq<int>, id: int): (r: seq<Pixel>)
    requires |labels| == |pixels|
    ensures forall p :: p in r ==> p in pixels
    ensures id in labels ==> r != []
    ensures |r| == multiset(labels)[id]
  {
    if pixels == [] then []
    else
      assert labels == [labels[0]] + labels[1..];
      (if labels[0] == id then [pixels[0]] else []) + Members(pixels[1..], labels[1..], id)
  }

  /** Members keep their order: the members of a concatenation are the parts' members, concatenated. */
  lemma {:induction false} MembersAppend(a: seq<Pixel>, la: seq<int>, b: seq<Pixel>, lb: seq<int>, id: int)
    requires |la| == |a| && |lb| == |b|
    ensures Members(a + b, la + lb, id) == Members(a, la, id) + Members(b, lb, id)
  {
    if a == [] {
      assert a + b == b && la + lb == lb;
    } else {
      var ab, lab := a + b, la + lb;
      assert ab[0] == a[0] && lab[0] == la[0];
      assert ab[1..] == a[1..] + b && lab[1..] == la[1..] + lb;
      var head := if la[0] == id then [a[0]] else [];
      calc {
        Members(ab, lab, id);
        head + Members(a[1..] + b, la[1..] + lb, id);
        { MembersAppend(a[1..], la[1..], b, lb, id); }
        head + (Members(a[1..], la[1..], id) + Members(b, lb, id));
        (head + Members(a[1..], la[1..], id)) + Members(b, lb, id);
      }
    }
  }

  /** Exactly the pixels whose label is `id` are members. */
  lemma {:induction false} MembersExactly(pixels: seq<Pixel>, labels: seq<int>, id: int)
    requires |labels| == |pixels|
    ensures forall k :: 0 <= k < |pixels| && labels[k] == id ==> pixels[k] in Members(pixels, labels, id)
    ensures forall p :: p in Members(pixels, labels, id) ==> exists k :: 0 <= k < |pixels| && pixels[k] == p && labels[k] == id
  {
    if pixels != [] {
      var tp, tl := pixels[1..], labels[1..];
      MembersExactly(tp, tl, id);
      var r := Members(pixels, labels, id);
      var rest := Members(tp, tl, id);
      assert r == (if labels[0] == id then [pixels[0]] else []) + rest;
      forall k | 0 <= k < |pixels| && labels[k] == id
        ensures pixels[k] in r
      {
        if k > 0 {
          assert tp[k - 1] == pixels[k] && tl[k - 1] == id;
        }
      }
      forall p | p in r
        ensures exists k :: 0 <= k < |pixels| && pixels[k] == p && labels[k] == id
      {
        if labels[0] == id && p == pixels[0] {
          assert pixels[0] == p && labels[0] == id;
        } else {
          assert p in rest;
          var k :| 0 <= k < |tp| && tp[k] == p && tl[k] == id;
          assert pixels[k + 1] == p && labels[k + 1] == id;
        }
      }
    }
  }

  /** Every pixel lies inside the grid. */
  predicate InGrid(pixels: seq<Pixel>, g: Grid)
  {
    forall p :: p in pixels ==> p.0 < |g| && p.1 < |g[p.0]|
  }

  /** The grid values at the given pixels (`grid[y_coords, x_coords]`). */
  function ValuesAt(g: Grid, pixels: seq<Pixel>): (r: seq<real>)
    requires InGrid(pixels, g)
    ensures |r| == |pixels|
    ensures forall k :: 0 <= k < |r| ==> r[k] == g[pixels[k].0][pixels[k].1]
  {
    seq(|pixels|, k requires 0 <= k < |pixels| => g[pixels[k].0][pixels[k].1])
  }

  function Ys(pixels: seq<Pixel>): seq<real>
  {
    seq(|pixels|, k requires 0 <= k < |pixels| => pixels[k].0 as real)
  }

  function Xs(pixels: seq<Pixel>): seq<real>
  {
    seq(|pixels|, k requires 0 <= k < |pixels| => pixels[k].1 as real)
  }

  /**
   * `_create_cluster`: mean pixel and geographic centroid, 16 km² per
   * pixel, and the radius of the circle of that area.
   */
  function CreateCluster(clusterId: int, members: seq<Pixel>, latGrid: Grid, lonGrid: Grid): (c: CloudCluster)
    requires members != [] && InGrid(members, latGrid) && InGrid(members, lonGrid)
    ensures c.clusterId == clusterId && c.pixelCoords == members
    ensures c.pixelCount == |members| && c.areaKm2 == (|members| as real) * PIXEL_AREA_KM2
    ensures c.radiusSq * PI == c.areaKm2 && c.radiusSq > 0.0
    ensures Min(ValuesAt(latGrid, members)) <= c.centroidLat <= Max(ValuesAt(latGrid, members))
    ensures Min(ValuesAt(lonGrid, members)) <= c.centroidLon <= Max(ValuesAt(lonGrid, members))
  {
    var lats := ValuesAt(latGrid, members);
    var lons := ValuesAt(lonGrid, members);
    MeanBetweenMinMax(lats);
    MeanBetweenMinMax(lons);
    var area := (|members| as real) * PIXEL_AREA_KM2;
    CloudCluster(clusterId, members, Mean(Ys(members)), Mean(Xs(members)), Mean(lats), Mean(lons),
      area, area / PI, |members|)
  }

  /** The clusters `cluster_clouds` builds, one per non-noise label in ascending order. */
  function ClustersOf(pixels: seq<Pixel>, labels: seq<int>, latGrid: Grid, lonGrid: Grid): (r: seq<CloudCluster>)
    requires |labels| == |pixels| && InGrid(pixels, latGrid) && InGrid(pixels, lonGrid)
    ensures |r| == |LabelIds(labels)|
    ensures forall k :: 0 <= k < |r| ==>
      r[k] == CreateCluster(LabelIds(labels)[k], Members(pixels, labels, LabelIds(labels)[k]), latGrid, lonGrid)
  {
    var ids := LabelIds(labels);
    seq(|ids|, k requires 0 <= k < |ids| =>
      MembersInGrid(pixels, labels, ids[k], latGrid);
      MembersInGrid(pixels, labels, ids[k], lonGrid);
      CreateCluster(ids[k], Members(pixels, labels, ids[k]), latGrid, lonGrid))
  }

  lemma MembersInGrid(pixels: seq<Pixel>, labels: seq<int>, id: int, g: Grid)
    requires |labels| == |pixels| && InGrid(pixels, g)
    ensures InGrid(Members(pixels, labels, id), g)
  {
  }

  lemma CloudPixelsInGrid(mask: Mask, g: Grid)
    requires SameShape(g, mask)
    ensures InGrid(CloudPixels(mask), g)
  {
    var r := CloudPixels(mask);
    forall p | p in r
      ensures p.0 < |g| && p.1 < |g[p.0]|
    {
      var k :| 0 <= k < |r| && r[k] == p;
    }
  }

  /** The clusters of a mask's cloud pixels under the given labels. */
  function MaskClusters(mask: Mask, latGrid: Grid, lonGrid: Grid, labels: seq<int>): (r: seq<CloudCluster>)
    requires SameShape(latGrid, mask) && SameShape(lonGrid, mask)
    requires |labels| == CountOnes(mask)
    ensures CountOnes(mask) == 0 ==> r == []
  {
    CloudPixelsInGrid(mask, latGrid);
    CloudPixelsInGrid(mask, lonGrid);
    ClustersOf(CloudPixels(mask), labels, latGrid, lonGrid)
  }

  /** `cluster_clouds` with DBSCAN's labels given. */
  method ClusterClouds(mask: Mask, latGrid: Grid, lonGrid: Grid, labels: seq<int>) returns (clusters: seq<CloudCluster>)
    requires SameShape(latGrid, mask) && SameShape(lonGrid, mask)
    requires |labels| == CountOnes(mask)
    ensures clusters == MaskClusters(mask, latGrid, lonGrid, labels)
  {
    var pixels := CloudPixels(mask);
    CloudPixelsInGrid(mask, latGrid);
    CloudPixelsInGrid(mask, lonGrid);
    if |pixels| == 0 {
      return [];
    }
    clusters := BuildClusters(pixels, labels, latGrid, lonGrid);
  }

  /** The label loop of `cluster_clouds`: one cluster per label of `LabelIds`, in that order. */
  method BuildClusters(pixels: seq<Pixel>, labels: seq<int>, latGrid: Grid, lonGrid: Grid) returns (clusters: seq<CloudCluster>)
    requires |labels| == |pixels| && InGrid(pixels, latGrid) && InGrid(pixels, lonGrid)
    ensures clusters == ClustersOf(pixels, labels, latGrid, lonGrid)
  {
    ghost var all := ClustersOf(pixels, labels, latGrid, lonGrid);
    var ids := LabelIds(labels);
    clusters := [];
    var i := 0;
    while i < |ids|
      invariant 0 <= i <= |ids|
      invariant clusters == all[..i]
    {
      var members := Members(pixels, labels, ids[i]);
      MembersInGrid(pixels, labels, ids[i], latGrid);
      MembersInGrid(pixels, labels, ids[i], lonGrid);
      var cluster := CreateCluster(ids[i], members, latGrid, lonGrid);
      assert all[..i + 1] == all[..i] + [cluster];
      clusters := clusters + [cluster];
      i := i + 1;
    }
    assert all[..i] == all;
  }

  /**
   * One cluster per distinct label other than -1, in ascending label order
   * (so no two clusters share an id), each holding at least one pixel.
   */
  lemma ClusterIdsAreLabels(pixels: seq<Pixel>, labels: seq<int>, latGrid: Grid, lonGrid: Grid, id: int)
    requires |labels| == |pixels| && InGrid(pixels, latGrid) && InGrid(pixels, lonGrid)
    ensures var r := ClustersOf(pixels, labels, latGrid, lonGrid);
      && (id in labels && id != NOISE <==> exists k :: 0 <= k < |r| && r[k].clusterId == id)
      && (forall i, j :: 0 <= i < j < |r| ==> r[i].clusterId < r[j].clusterId)
      && (forall k :: 0 <= k < |r| ==> r[k].pixelCount >= 1 && r[k].clusterId != NOISE)
  {
    var r := ClustersOf(pixels, labels, latGrid, lonGrid);
    var ids := LabelIds(labels);
    forall k | 0 <= k < |r|
      ensures r[k].clusterId == ids[k] && r[k].pixelCount >= 1 && ids[k] in labels && ids[k] != NOISE
    {
      assert ids[k] in ids;
    }
    if id in labels && id != NOISE {
      var k :| 0 <= k < |ids| && ids[k] == id;
      assert r[k].clusterId == id;
    }
  }

  /** The equivalent radius reaches `minRadius`. The comparison is made on squares. */
  predicate RadiusAtLeast(c: CloudCluster, minRadius: real)
  {
    minRadius <= 0.0 || c.radiusSq >= minRadius * minRadius
  }

  /** The area-and-radius condition of the first filtering step. */
  predicate Passes(c: CloudCluster, minArea: real, minRadius: real)
  {
    c.areaKm2 >= minArea && RadiusAtLeast(c, minRadius)
  }

  /** `[c for c in clusters if c.area_km2 >= min_area_km2 and c.radius_km >= min_radius_km]`. */
  function FilterPassing(clusters: seq<CloudCluster>, minArea: real, minRadius: real): (r: seq<CloudCluster>)
    ensures multiset(r) <= multiset(clusters)
    ensures forall c :: c in r <==> c in clusters && Passes(c, minArea, minRadius)
  {
    if clusters == [] then []
    else
      var rest := FilterPassing(clusters[1..], minArea, minRadius);
      assert clusters == [clusters[0]] + clusters[1..];
      (if Passes(clusters[0], minArea, minRadius) then [clusters[0]] else []) + rest
  }

  /**
   * With the default thresholds a built cluster passes iff it has at least
   * 2420 pixels: the radius test (area at least pi * 111²) is the binding one.
   */
  lemma DefaultFilterThreshold(clusterId: int, members: seq<Pixel>, latGrid: Grid, lonGrid: Grid)
    requires members != [] && InGrid(members, latGrid) && InGrid(members, lonGrid)
    ensures Passes(CreateCluster(clusterId, members, latGrid, lonGrid), MIN_AREA_KM2, MIN_RADIUS_KM)
        <==> |members| >= 2420
  {
    var c := CreateCluster(clusterId, members, latGrid, lonGrid);
    var n := |members| as real;
    assert c.radiusSq * PI == n * 16.0;
    if |members| >= 2420 {
      assert c.radiusSq * PI >= 38720.0;
      assert 12321.0 * PI < 38720.0;
      MulMonotone(PI, 12321.0, c.radiusSq);
    } else {
      assert n <= 2419.0;
      assert c.radiusSq * PI <= 38704.0;
      assert 12321.0 * PI > 38704.0;
      MulMonotone(PI, c.radiusSq, 12321.0);
    }
  }

  lemma MulMonotone(k: real, a: real, b: real)
    requires k > 0.0 && a * k < b * k
    ensures a < b
  {
  }

  /** Larger areas come first (`sorted(..., key=area, reverse=True)`, which keeps ties in order). */
  predicate AreaBefore(a: CloudCluster, b: CloudCluster)
  {
    a.areaKm2 >= b.areaKm2
  }

  function SortByAreaDesc(clusters: seq<CloudCluster>): (r: seq<CloudCluster>)
    ensures multiset(r) == multiset(clusters)
  {
    SortBy(clusters, AreaBefore)
  }

  /** No earlier cluster has a smaller area than a later one. */
  predicate DescendingArea(s: seq<CloudCluster>)
  {
    forall i, j :: 0 <= i < j < |s| ==> s[i].areaKm2 >= s[j].areaKm2
  }

  lemma {:induction false} SortedIsDescending(s: seq<CloudCluster>)
    requires Sorted(s, AreaBefore)
    ensures DescendingArea(s)
  {
    if |s| > 1 {
      var init := s[..|s| - 1];
      assert Sorted(init, AreaBefore);
      SortedIsDescending(init);
      forall i, j | 0 <= i < j < |s|
        ensures s[i].areaKm2 >= s[j].areaKm2
      {
        if j < |s| - 1 {
          assert s[i] == init[i] && s[j] == init[j];
        } else {
          assert AreaBefore(s[j - 1], s[j]);
          if i < j - 1 {
            assert s[i] == init[i] && s[j - 1] == init[j - 1];
          }
        }
      }
    }
  }

  lemma SortByAreaDescending(clusters: seq<CloudCluster>)
    ensures DescendingArea(SortByAreaDesc(clusters))
  {
    assert Total(AreaBefore);
    SortBySorted(clusters, AreaBefore);
    SortedIsDescending(SortByAreaDesc(clusters));
  }

  /** `c` lies at least `minSep` from every cluster of `kept` (distance measured from `c`). */
  predicate FarFromAll(c: CloudCluster, kept: seq<CloudCluster>, minSep: real,
                       distance: (real, real, real, real) -> real)
  {
    forall k :: 0 <= k < |kept| ==>
      distance(c.centroidLat, c.centroidLon, kept[k].centroidLat, kept[k].centroidLon) >= minSep
  }

  /** The greedy pass over clusters in the given order: keep each one far from all kept so far. */
  function Greedy(s: seq<CloudCluster>, minSep: real, distance: (real, real, real, real) -> real): (r: seq<CloudCluster>)
    ensures multiset(r) <= multiset(s)
    ensures |r| <= |s|
  {
    if s == [] then []
    else
      var kept := Greedy(s[..|s| - 1], minSep, distance);
      var c := s[|s| - 1];
      assert s == s[..|s| - 1] + [c];
      if FarFromAll(c, kept, minSep, distance) then kept + [c] else kept
  }

  /** Each cluster is at least `minSep` from every cluster before it (distance measured from the later one). */
  predicate Separated(r: seq<CloudCluster>, minSep: real, distance: (real, real, real, real) -> real)
  {
    forall i, j :: 0 <= i < j < |r| ==>
      distance(r[j].centroidLat, r[j].centroidLon, r[i].centroidLat, r[i].centroidLon) >= minSep
  }

  lemma SeparatedSnoc(kept: seq<CloudCluster>, c: CloudCluster, minSep: real, distance: (real, real, real, real) -> real)
    requires Separated(kept, minSep, distance) && FarFromAll(c, kept, minSep, distance)
    ensures Separated(kept + [c], minSep, distance)
  {
    var r := kept + [c];
    forall i, j | 0 <= i < j < |r|
      ensures distance(r[j].centroidLat, r[j].centroidLon, r[i].centroidLat, r[i].centroidLon) >= minSep
    {
      assert r[i] == kept[i];
      if j < |kept| {
        assert r[j] == kept[j];
      } else {
        assert r[j] == c;
        assert distance(c.centroidLat, c.centroidLon, kept[i].centroidLat, kept[i].centroidLon) >= minSep;
      }
    }
  }

  /** Every kept cluster is at least `minSep` from each cluster kept before it. */
  lemma {:induction false} GreedySeparated(s: seq<CloudCluster>, minSep: real, distance: (real, real, real, real) -> real)
    ensures Separated(Greedy(s, minSep, distance), minSep, distance)
  {
    if s != [] {
      var init := s[..|s| - 1];
      var c := s[|s| - 1];
      GreedySeparated(init, minSep, distance);
      var kept := Greedy(init, minSep, distance);
      if FarFromAll(c, kept, minSep, distance) {
        SeparatedSnoc(kept, c, minSep, distance);
      }
    }
  }

  /** The first cluster in the given order is always kept, in first place. */
  lemma {:induction false} GreedyKeepsFirst(s: seq<CloudCluster>, minSep: real, distance: (real, real, real, real) -> real)
    requires s != []
    ensures Greedy(s, minSep, distance) != [] && Greedy(s, minSep, distance)[0] == s[0]
  {
    if |s| > 1 {
      var init := s[..|s| - 1];
      GreedyKeepsFirst(init, minSep, distance);
      assert init[0] == s[0];
    }
  }

  /** Keeping a sub-collection of a descending list keeps it descending. */
  lemma {:induction false} GreedyDescending(s: seq<CloudCluster>, minSep: real, distance: (real, real, real, real) -> real)
    requires DescendingArea(s)
    ensures DescendingArea(Greedy(s, minSep, distance))
  {
    if s != [] {
      var init := s[..|s| - 1];
      var c := s[|s| - 1];
      GreedyDescending(init, minSep, distance);
      var kept := Greedy(init, minSep, distance);
      forall x | x in kept
        ensures x.areaKm2 >= c.areaKm2
      {
        assert x in multiset(kept);
        assert x in multiset(init);
        var i :| 0 <= i < |init| && init[i] == x;
        assert s[i] == x && s[|s| - 1] == c;
      }
      if FarFromAll(c, kept, minSep, distance) {
        DescendingSnoc(kept, c);
      }
    }
  }

  /** A cluster no larger than every member extends a descending list at the back. */
  lemma DescendingSnoc(kept: seq<CloudCluster>, c: CloudCluster)
    requires DescendingArea(kept) && forall x :: x in kept ==> x.areaKm2 >= c.areaKm2
    ensures DescendingArea(kept + [c])
  {
    var r := kept + [c];
    forall i, j | 0 <= i < j < |r|
      ensures r[i].areaKm2 >= r[j].areaKm2
    {
      assert r[i] == kept[i];
      if j == |kept| {
        assert r[i] in kept;
      } else {
        assert r[j] == kept[j];
      }
    }
  }

  /** The inner loop of `_apply_separation_constraint`: stops at the first kept cluster that is too close. */
  method CheckSeparation(cluster: CloudCluster, result: seq<CloudCluster>, minSep: real,
                         distance: (real, real, real, real) -> real)
    returns (isValid: bool)
    ensures isValid <==> FarFromAll(cluster, result, minSep, distance)
  {
    isValid := true;
    var j := 0;
    while j < |result|
      invariant 0 <= j <= |result|
      invariant forall k :: 0 <= k < j ==>
        distance(cluster.centroidLat, cluster.centroidLon, result[k].centroidLat, result[k].centroidLon) >= minSep
    {
      var d := distance(cluster.centroidLat, cluster.centroidLon, result[j].centroidLat, result[j].centroidLon);
      if d < minSep {
        isValid := false;
        break;
      }
      j := j + 1;
    }
  }

  /** One more cluster of the ordered list: kept exactly when far from all kept so far. */
  lemma GreedyStep(s: seq<CloudCluster>, i: nat, minSep: real, distance: (real, real, real, real) -> real)
    requires i < |s|
    ensures var kept := Greedy(s[..i], minSep, distance);
      Greedy(s[..i + 1], minSep, distance) == if FarFromAll(s[i], kept, minSep, distance) then kept + [s[i]] else kept
  {
    assert s[..i + 1][..i] == s[..i];
  }

  /** `_apply_separation_constraint`: sort by area, then keep greedily. */
  method ApplySeparationConstraint(clusters: seq<CloudCluster>, minSep: real,
                                   distance: (real, real, real, real) -> real)
    returns (result: seq<CloudCluster>)
    ensures result == Greedy(SortByAreaDesc(clusters), minSep, distance)
  {
    var sortedClusters := SortByAreaDesc(clusters);
    result := [];
    var i := 0;
    while i < |sortedClusters|
      invariant 0 <= i <= |sortedClusters|
      invariant result == Greedy(sortedClusters[..i], minSep, distance)
    {
      var cluster := sortedClusters[i];
      var isValid := CheckSeparation(cluster, result, minSep, distance);
      GreedyStep(sortedClusters, i, minSep, distance);
      if isValid {
        result := result + [cluster];
      }
      i := i + 1;
    }
    assert sortedClusters[..i] == sortedClusters;
  }

  /** `apply_geophysical_constraints` as a value: filter, then separate when two or more pass. */
  function Geophysical(clusters: seq<CloudCluster>, minArea: real, minRadius: real, minSep: real,
                       distance: (real, real, real, real) -> real): (r: seq<CloudCluster>)
    ensures clusters == [] ==> r == []
    ensures |FilterPassing(clusters, minArea, minRadius)| <= 1 ==> r == FilterPassing(clusters, minArea, minRadius)
  {
    if clusters == [] then []
    else
      var filtered := FilterPassing(clusters, minArea, minRadius);
      if |filtered| <= 1 then filtered
      else Greedy(SortByAreaDesc(filtered), minSep, distance)
  }

  /** `apply_geophysical_constraints`. */
  method ApplyGeophysicalConstraints(clusters: seq<CloudCluster>, minArea: real, minRadius: real, minSep: real,
                                     distance: (real, real, real, real) -> real)
    returns (r: seq<CloudCluster>)
    ensures r == Geophysical(clusters, minArea, minRadius, minSep, distance)
  {
    if |clusters| == 0 {
      return [];
    }
    var filtered := FilterPassing(clusters, minArea, minRadius);
    if |filtered| <= 1 {
      return filtered;
    }
    r := ApplySeparationConstraint(filtered, minSep, distance);
  }

  /** Every kept cluster is an input cluster that passes the area and radius test. */
  lemma GeophysicalSubset(clusters: seq<CloudCluster>, minArea: real, minRadius: real, minSep: real,
                          distance: (real, real, real, real) -> real)
    ensures var r := Geophysical(clusters, minArea, minRadius, minSep, distance);
      && multiset(r) <= multiset(clusters)
      && (forall c :: c in r ==> Passes(c, minArea, minRadius))
  {
    var r := Geophysical(clusters, minArea, minRadius, minSep, distance);
    var filtered := FilterPassing(clusters, minArea, minRadius);
    forall c | c in r
      ensures Passes(c, minArea, minRadius)
    {
      assert c in multiset(r);
      assert c in multiset(filtered);
    }
  }

  /** Kept clusters are pairwise at least `minSep` apart. */
  lemma GeophysicalSeparated(clusters: seq<CloudCluster>, minArea: real, minRadius: real, minSep: real,
                             distance: (real, real, real, real) -> real)
    ensures Separated(Geophysical(clusters, minArea, minRadius, minSep, distance), minSep, distance)
  {
    var filtered := FilterPassing(clusters, minArea, minRadius);
    if clusters != [] && |filtered| > 1 {
      GreedySeparated(SortByAreaDesc(filtered), minSep, distance);
    }
  }

  /** Kept clusters come largest first. */
  lemma GeophysicalOrdered(clusters: seq<CloudCluster>, minArea: real, minRadius: real, minSep: real,
                           distance: (real, real, real, real) -> real)
    ensures DescendingArea(Geophysical(clusters, minArea, minRadius, minSep, distance))
  {
    var filtered := FilterPassing(clusters, minArea, minRadius);
    if clusters != [] && |filtered| > 1 {
      SortByAreaDescending(filtered);
      GreedyDescending(SortByAreaDesc(filtered), minSep, distance);
    }
  }

  /** The largest passing cluster is kept, in first place. */
  lemma GeophysicalKeepsLargest(clusters: seq<CloudCluster>, minArea: real, minRadius: real, minSep: real,
                                distance: (real, real, real, real) -> real)
    requires FilterPassing(clusters, minArea, minRadius) != []
    ensures var r := Geophysical(clusters, minArea, minRadius, minSep, distance);
      r != [] && forall c :: c in clusters && Passes(c, minArea, minRadius) ==> c.areaKm2 <= r[0].areaKm2
  {
    var filtered := FilterPassing(clusters, minArea, minRadius);
    var r := Geophysical(clusters, minArea, minRadius, minSep, distance);
    if |filtered| > 1 {
      var sorted := SortByAreaDesc(filtered);
      assert r == Greedy(sorted, minSep, distance);
      SortByAreaDescending(filtered);
      GreedyKeepsFirst(sorted, minSep, distance);
      HeadIsLargest(sorted);
      forall c | c in filtered ensures c in sorted {
        assert c in multiset(filtered);
      }
    } else {
      assert |filtered| == 1 && r == filtered;
      HeadIsLargest(filtered);
    }
  }

  /** The head of a list sorted largest first is at least as large as every member. */
  lemma HeadIsLargest(s: seq<CloudCluster>)
    requires s != [] && DescendingArea(s)
    ensures forall c :: c in s ==> c.areaKm2 <= s[0].areaKm2
  {
    forall c | c in s ensures c.areaKm2 <= s[0].areaKm2 {
      var i :| 0 <= i < |s| && s[i] == c;
      if i > 0 {
        assert s[0].areaKm2 >= s[i].areaKm2;
      }
    }
  }
}

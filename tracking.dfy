/**
 * Multi-object tracking of cloud clusters (backend/modules/tracking.py):
 * one `KalmanTrack` per tracked cluster, and a `TCCTracker` that keeps the
 * registry of tracks, matches each frame's clusters to them one-to-one
 * under a distance gate, spawns tracks for the unmatched clusters and drops
 * lost ones.
 *
 * The Kalman filter's state vector [lat, lon, v_lat, v_lon] is exact under
 * the constant-velocity transition; its covariance is kept as an opaque
 * list of numbers propagated by `propagate`, and the measurement update is
 * the function `correct`. The great-circle distance and the assignment
 * solver are also parameters.
 */
module Tracking {
  import opened Wrappers

  const MAX_TRACK_DISTANCE_KM: real := 200.0
  /** A track missing more frames than this is lost. */
  const TRACK_LOST_THRESHOLD: nat := 3
  /** Degrees to kilometres (one degree taken as 111 km), squared. */
  const KM_PER_DEGREE_SQ: real := 12321.0

  /** The filter's posterior state and covariance. */
  datatype FilterState = FilterState(lat: real, lon: real, vLat: real, vLon: real, cov: seq<real>)

  /** A detected cluster as the tracker reads it. */
  datatype Cluster = Cluster(clusterId: int, centroidLat: real, centroidLon: real)

  /** One `history` entry: an observed position and the cluster it came from. */
  datatype HistoryEntry = HistoryEntry(lat: real, lon: real, isPredicted: bool, data: Option<Cluster>)

  /**
   * One `predict_future` entry. The speed is kept as its square in
   * (km/h)^2; the movement direction (an `arctan2`) is not modelled.
   */
  datatype Prediction = Prediction(step: nat, hoursAhead: real, predictedLat: real, predictedLon: real,
                                   speedKmhSq: real, confidence: real)

  /** A cluster tagged by `TCCTracker.update`. */
  datatype TrackedCluster = TrackedCluster(cluster: Cluster, trackId: int, timestamp: string, isPredicted: bool, trackLength: nat)

  /** The covariance `cv2.KalmanFilter(4, 2)` starts from: all zero. */
  const INITIAL_COV: seq<real> := [0.0, 0.0, 0.0, 0.0, 0.0, 0.0, 0.0, 0.0, 0.0, 0.0, 0.0, 0.0, 0.0, 0.0, 0.0, 0.0]

  /** `kf.predict()`: the constant-velocity transition, which OpenCV also copies into the posterior. */
  function PredictState(f: FilterState, propagate: seq<real> -> seq<real>): (g: FilterState)
  {
    FilterState(f.lat + f.vLat, f.lon + f.vLon, f.vLat, f.vLon, propagate(f.cov))
  }

  /** Predicting `n` times moves the position `n` velocity steps and leaves the velocity alone. */
  function PredictTimes(f: FilterState, propagate: seq<real> -> seq<real>, n: nat): FilterState
    decreases n
  {
    if n == 0 then f else PredictTimes(PredictState(f, propagate), propagate, n - 1)
  }

  lemma {:induction false} PredictTimesPosition(f: FilterState, propagate: seq<real> -> seq<real>, n: nat)
    decreases n
    ensures var g := PredictTimes(f, propagate, n);
      g.lat == f.lat + n as real * f.vLat && g.lon == f.lon + n as real * f.vLon &&
      g.vLat == f.vLat && g.vLon == f.vLon
  {
    if n > 0 {
      PredictTimesPosition(PredictState(f, propagate), propagate, n - 1);
    }
  }

  /** `max(0.3, 1.0 - step * 0.1)`. */
  function Confidence(step: int): (c: real)
  {
    var d := 1.0 - step as real * 0.1;
    if d >= 0.3 then d else 0.3
  }

  /** Confidence falls with the horizon and never drops below 0.3. */
  lemma ConfidenceBounds(a: int, b: int)
    requires 1 <= a <= b
    ensures 0.3 <= Confidence(b) <= Confidence(a) <= 0.9
    ensures a >= 7 ==> Confidence(a) == 0.3
  {
  }

  /**
   * What `predict_future(steps, time_interval_hours)` lists for a filter in
   * state `f`: steps 1..steps along the current velocity.
   */
  function FuturePredictions(f: FilterState, steps: int, interval: real): (r: seq<Prediction>)
    ensures |r| == if steps <= 0 then 0 else steps
  {
    var n := if steps <= 0 then 0 else steps;
    seq(n, k requires 0 <= k < n => FutureStep(f, k + 1, interval))
  }

  function FutureStep(f: FilterState, step: nat, interval: real): Prediction
  {
    Prediction(step, step as real * interval,
      f.lat + f.vLat * step as real, f.lon + f.vLon * step as real,
      (f.vLat * f.vLat + f.vLon * f.vLon) * KM_PER_DEGREE_SQ,
      Confidence(step))
  }

  /**
   * Entry `k` is step `k + 1`: the position after `k + 1` constant-velocity
   * predictions, `k + 1` intervals ahead, with the decreasing confidence.
   */
  lemma FuturePredictionsMeaning(f: FilterState, steps: int, interval: real, propagate: seq<real> -> seq<real>, k: nat)
    requires k < |FuturePredictions(f, steps, interval)|
    ensures var p := FuturePredictions(f, steps, interval)[k];
      var g := PredictTimes(f, propagate, k + 1);
      p.step == k + 1 && p.predictedLat == g.lat && p.predictedLon == g.lon &&
      p.hoursAhead == (k + 1) as real * interval &&
      p.confidence == (if 1.0 - (k + 1) as real * 0.1 >= 0.3 then 1.0 - (k + 1) as real * 0.1 else 0.3) &&
      0.3 <= p.confidence <= 0.9
  {
    PredictTimesPosition(f, propagate, k + 1);
    ConfidenceBounds(k + 1, k + 1);
  }

  class KalmanTrack {
    const trackId: int
    const initialLat: real
    const initialLon: real
    const propagate: seq<real> -> seq<real>
    const correct: (FilterState, real, real) -> FilterState
    var filter: FilterState
    var framesSinceUpdate: nat
    var totalObservations: nat
    var history: seq<HistoryEntry>

    /** A new track sits at its first position with zero velocity and one observation. */
    constructor(trackId: int, lat: real, lon: real,
                propagate: seq<real> -> seq<real>, correct: (FilterState, real, real) -> FilterState)
      ensures this.trackId == trackId && initialLat == lat && initialLon == lon
      ensures this.propagate == propagate && this.correct == correct
      ensures filter == FilterState(lat, lon, 0.0, 0.0, INITIAL_COV)
      ensures framesSinceUpdate == 0 && totalObservations == 1
      ensures history == [HistoryEntry(lat, lon, false, None)]
    {
      this.trackId := trackId;
      initialLat := lat;
      initialLon := lon;
      this.propagate := propagate;
      this.correct := correct;
      filter := FilterState(lat, lon, 0.0, 0.0, INITIAL_COV);
      framesSinceUpdate := 0;
      totalObservations := 1;
      history := [HistoryEntry(lat, lon, false, None)];
    }

    /** The track's state as a value. */
    function State(): TrackState
      reads this
    {
      TrackState(filter, framesSinceUpdate, totalObservations, history)
    }

    /** The `position` property: the posterior latitude and longitude. */
    function Position(): (real, real)
      reads this
    {
      (filter.lat, filter.lon)
    }

    /** One more frame without an update; the position moves one velocity step. */
    method Predict() returns (lat: real, lon: real)
      modifies this
      ensures filter == PredictState(old(filter), propagate)
      ensures framesSinceUpdate == old(framesSinceUpdate) + 1
      ensures totalObservations == old(totalObservations) && history == old(history)
      ensures (lat, lon) == Position()
    {
      filter := PredictState(filter, propagate);
      framesSinceUpdate := framesSinceUpdate + 1;
      lat, lon := filter.lat, filter.lon;
    }

    /** An observation: the filter is corrected, the miss counter reset and one history entry added. */
    method Update(lat: real, lon: real, data: Option<Cluster>)
      modifies this
      ensures filter == correct(old(filter), lat, lon)
      ensures framesSinceUpdate == 0
      ensures totalObservations == old(totalObservations) + 1
      ensures history == old(history) + [HistoryEntry(lat, lon, false, data)]
    {
      filter := correct(filter, lat, lon);
      framesSinceUpdate := 0;
      totalObservations := totalObservations + 1;
      history := history + [HistoryEntry(lat, lon, false, data)];
    }

    /** Not lost: at most `TRACK_LOST_THRESHOLD` frames since the last update. */
    predicate IsActive()
      reads this
    {
      framesSinceUpdate <= TRACK_LOST_THRESHOLD
    }

    /** `predict_future`: extrapolates the current state one step at a time. */
    method PredictFuture(steps: int, interval: real) returns (predictions: seq<Prediction>)
      ensures predictions == FuturePredictions(filter, steps, interval)
    {
      predictions := [];
      var step := 1;
      while step <= steps
        invariant 1 <= step <= if steps >= 1 then steps + 1 else 1
        invariant predictions == FuturePredictions(filter, step - 1, interval)
      {
        assert FuturePredictions(filter, step, interval)
          == FuturePredictions(filter, step - 1, interval) + [FutureStep(filter, step, interval)];
        predictions := predictions + [FutureStep(filter, step, interval)];
        step := step + 1;
      }
      assert FuturePredictions(filter, steps, interval) == FuturePredictions(filter, step - 1, interval);
    }
  }

  /** No element occurs twice. */
  predicate Distinct<T(==)>(s: seq<T>)
  {
    forall a, b :: 0 <= a < b < |s| ==> s[a] != s[b]
  }

  /** `s` without the element `x`, order kept. */
  function Without(s: seq<int>, x: int): (r: seq<int>)
    ensures forall y :: y in r <==> y in s && y != x
    ensures Distinct(s) ==> Distinct(r)
    ensures Distinct(s) && x in s ==> |r| == |s| - 1
    ensures x !in s ==> r == s
  {
    if s == [] then []
    else
      var rest := Without(s[1..], x);
      assert forall y :: y in s <==> y == s[0] || y in s[1..];
      if s[0] == x then rest
      else
        assert Distinct(s) ==> s[0] !in s[1..];
        [s[0]] + rest
  }

  /** `s` with every element of `removed` taken out, one deletion at a time. */
  function WithoutAll(s: seq<int>, removed: seq<int>): (r: seq<int>)
    ensures forall y :: y in r <==> y in s && y !in removed
    ensures Distinct(s) ==> Distinct(r)
  {
    if removed == [] then s
    else
      var init := removed[..|removed| - 1];
      assert forall y :: y in removed <==> y in init || y == removed[|removed| - 1];
      Without(WithoutAll(s, init), removed[|removed| - 1])
  }

  /**
   * What `linear_sum_assignment` promises for an `n` by `m` cost matrix:
   * (row, column) pairs in range, rows strictly increasing, columns distinct.
   */
  predicate AssignmentShape(pairs: seq<(nat, nat)>, n: nat, m: nat)
  {
    (forall k :: 0 <= k < |pairs| ==> pairs[k].0 < n && pairs[k].1 < m) &&
    (forall a, b :: 0 <= a < b < |pairs| ==> pairs[a].0 < pairs[b].0 && pairs[a].1 != pairs[b].1)
  }

  /** Every row of the matrix has `m` entries. */
  predicate Rows(cost: seq<seq<real>>, m: nat)
  {
    forall i :: 0 <= i < |cost| ==> |cost[i]| == m
  }

  /** The assignment solver keeps the promise on every non-empty rectangular matrix. */
  ghost predicate SolverContract(solver: seq<seq<real>> -> seq<(nat, nat)>)
  {
    forall cost: seq<seq<real>>, m: nat :: cost != [] && m > 0 && Rows(cost, m) ==> AssignmentShape(solver(cost), |cost|, m)
  }

  /** Some pair of `assign` matches cluster `i`. */
  predicate Claimed(assign: seq<(nat, int)>, i: nat)
  {
    exists k :: 0 <= k < |assign| && assign[k].0 == i
  }

  /**
   * The indices below `n` that no pair of `assign` claims, in ascending order
   * (the iteration order of a set of small integers).
   */
  function Unmatched(n: nat, assign: seq<(nat, int)>): (r: seq<nat>)
    ensures forall i: nat :: i in r <==> i < n && !Claimed(assign, i)
    ensures forall k :: 0 <= k < |r| ==> r[k] < n
    ensures forall a, b :: 0 <= a < b < |r| ==> r[a] < r[b]
  {
    if n == 0 then []
    else
      var init := Unmatched(n - 1, assign);
      assert forall a :: 0 <= a < |init| ==> init[a] in init && init[a] < n - 1;
      if Claimed(assign, n - 1) then init else init + [n - 1]
  }

  /** The pairs' cluster indices are below `n` and strictly increasing, and their track ids are distinct. */
  predicate OneToOne(assign: seq<(nat, int)>, n: nat)
  {
    (forall k :: 0 <= k < |assign| ==> assign[k].0 < n) &&
    (forall a, b :: 0 <= a < b < |assign| ==> assign[a].0 < assign[b].0 && assign[a].1 != assign[b].1)
  }

  /** The cluster index behind each output record: the matched ones in pair order, then the unmatched ones. */
  function Sources(n: nat, assign: seq<(nat, int)>): (r: seq<int>)
    ensures |r| == |assign| + |Unmatched(n, assign)|
    ensures OneToOne(assign, n) ==> forall k :: 0 <= k < |r| ==> 0 <= r[k] < n
  {
    seq(|assign|, k requires 0 <= k < |assign| => assign[k].0 as int) + seq(|Unmatched(n, assign)|, k requires 0 <= k < |Unmatched(n, assign)| => Unmatched(n, assign)[k] as int)
  }

  /**
   * Matched and unmatched clusters together are all of them, each once:
   * `update` emits exactly one record per input cluster.
   */
  lemma SourcesArePermutation(n: nat, assign: seq<(nat, int)>)
    requires OneToOne(assign, n)
    ensures Distinct(Sources(n, assign))
    ensures forall i :: i in Sources(n, assign) <==> 0 <= i < n
    ensures |Sources(n, assign)| == n == |assign| + |Unmatched(n, assign)|
  {
    SourcesDistinct(n, assign);
    SourcesCover(n, assign);
    DistinctRangeLength(Sources(n, assign), n);
  }

  /** No cluster index is the source of two records. */
  lemma SourcesDistinct(n: nat, assign: seq<(nat, int)>)
    requires OneToOne(assign, n)
    ensures Distinct(Sources(n, assign))
  {
    var u := Unmatched(n, assign);
    var src := Sources(n, assign);
    forall a, b | 0 <= a < b < |src| ensures src[a] != src[b] {
      if b < |assign| {
      } else if a >= |assign| {
        assert src[a] == u[a - |assign|] && src[b] == u[b - |assign|];
      } else {
        assert src[b] == u[b - |assign|];
        assert u[b - |assign|] in u;
        assert src[a] == assign[a].0;
      }
    }
  }

  /** Every cluster index below `n`, and nothing else, is the source of a record. */
  lemma SourcesCover(n: nat, assign: seq<(nat, int)>)
    requires OneToOne(assign, n)
    ensures forall i :: i in Sources(n, assign) <==> 0 <= i < n
  {
    var u := Unmatched(n, assign);
    var src := Sources(n, assign);
    forall i | 0 <= i < n ensures i in src {
      if Claimed(assign, i as nat) {
        var k :| 0 <= k < |assign| && assign[k].0 == i as nat;
        assert src[k] == i;
      } else {
        assert i as nat in u;
        var k :| 0 <= k < |u| && u[k] == i as nat;
        assert src[|assign| + k] == i;
      }
    }
  }

  /** An element of a non-empty list. */
  lemma SomeMember(s: seq<int>) returns (x: int)
    ensures s != [] ==> x in s
  {
    x := if s != [] then s[0] else 0;
  }

  /** A list without repeats whose elements are exactly 0..n-1 has length n. */
  lemma {:induction false} DistinctRangeLength(s: seq<int>, n: nat)
    requires Distinct(s) && forall i :: i in s <==> 0 <= i < n
    ensures |s| == n
    decreases n
  {
    if n == 0 {
      var x := SomeMember(s);
    } else {
      var t := Without(s, n - 1);
      assert n - 1 in s;
      DistinctRangeLength(t, n - 1);
    }
  }

  /** The part of a track the tracker reads and changes. */
  datatype TrackState = TrackState(filter: FilterState, framesSinceUpdate: nat, totalObservations: nat, history: seq<HistoryEntry>)

  /** A track as `KalmanTrack.__post_init__` leaves it. */
  function NewTrack(lat: real, lon: real): TrackState
  {
    TrackState(FilterState(lat, lon, 0.0, 0.0, INITIAL_COV), 0, 1, [HistoryEntry(lat, lon, false, None)])
  }

  /** `KalmanTrack.predict` on the track's state. */
  function PredictTrack(t: TrackState, propagate: seq<real> -> seq<real>): TrackState
  {
    TrackState(PredictState(t.filter, propagate), t.framesSinceUpdate + 1, t.totalObservations, t.history)
  }

  /** `KalmanTrack.update` on the track's state. */
  function CorrectTrack(t: TrackState, lat: real, lon: real, data: Option<Cluster>,
                        correct: (FilterState, real, real) -> FilterState): TrackState
  {
    TrackState(correct(t.filter, lat, lon), 0, t.totalObservations + 1, t.history + [HistoryEntry(lat, lon, false, data)])
  }

  /** `is_active`. */
  predicate Active(t: TrackState)
  {
    t.framesSinceUpdate <= TRACK_LOST_THRESHOLD
  }

  /** The tracker's fixed ingredients: the gate, the distance, the solver and the filter's algebra. */
  datatype Params = Params(maxDistance: real, distance: (real, real, real, real) -> real,
                           solver: seq<seq<real>> -> seq<(nat, nat)>,
                           propagate: seq<real> -> seq<real>, correct: (FilterState, real, real) -> FilterState)

  /** The tracker's state as a value: the track registry, its insertion order and the counters. */
  datatype Tracker = Tracker(tracks: map<int, TrackState>, order: seq<int>, nextTrackId: int, frameCount: nat)

  /**
   * Ids are below `nextTrackId` (so a fresh id is never in use) and the
   * insertion order lists each registered id exactly once.
   */
  predicate WellFormed(m: Tracker)
  {
    m.nextTrackId >= 1 &&
    (forall id :: id in m.tracks ==> 1 <= id < m.nextTrackId) &&
    Distinct(m.order) && (forall j :: 0 <= j < |m.order| ==> m.order[j] in m.tracks) && (forall id :: id in m.tracks ==> id in m.order)
  }

  /** Changing track states, but not which ids are registered or their order, keeps a registry well formed. */
  lemma WellFormedSameShape(m: Tracker, r: Tracker)
    requires WellFormed(m) && r.tracks.Keys == m.tracks.Keys && r.order == m.order && r.nextTrackId == m.nextTrackId
    ensures WellFormed(r)
  {
    assert forall id :: id in r.tracks <==> id in m.tracks;
  }

  /** Registering one more track under the next id, at the end of the insertion order, keeps a registry well formed. */
  lemma AddedWellFormed(m: Tracker, t: TrackState)
    requires WellFormed(m)
    ensures WellFormed(Tracker(m.tracks[m.nextTrackId := t], m.order + [m.nextTrackId], m.nextTrackId + 1, m.frameCount))
  {
    var r := Tracker(m.tracks[m.nextTrackId := t], m.order + [m.nextTrackId], m.nextTrackId + 1, m.frameCount);
    assert m.nextTrackId !in m.order;
    forall j | 0 <= j < |r.order| ensures r.order[j] in r.tracks {
      if j < |m.order| {
        assert r.order[j] == m.order[j];
      }
    }
  }

  /** No registered track is lost. */
  predicate AllActive(m: Tracker)
  {
    forall id :: id in m.tracks ==> Active(m.tracks[id])
  }

  /** A registry with a track has a non-empty insertion order. */
  lemma NonEmptyOrder(m: Tracker)
    requires WellFormed(m)
    ensures |m.tracks| > 0 ==> |m.order| > 0
  {
    if |m.order| == 0 {
      assert m.order == [];
      assert forall id :: id !in m.tracks.Keys;
      assert m.tracks.Keys == {};
    }
  }

  /** Every track takes one prediction step. */
  function PredictAllTracks(m: Tracker, propagate: seq<real> -> seq<real>): (r: Tracker)
    ensures r.tracks.Keys == m.tracks.Keys && r.order == m.order && r.nextTrackId == m.nextTrackId && r.frameCount == m.frameCount
  {
    m.(tracks := map id | id in m.tracks :: PredictTrack(m.tracks[id], propagate))
  }

  /** The registry part way through the prediction pass: the tracks listed in `done` have taken their step. */
  function PredictedAmong(m: map<int, TrackState>, done: seq<int>, propagate: seq<real> -> seq<real>): (r: map<int, TrackState>)
    ensures r.Keys == m.Keys
  {
    map id | id in m :: if id in done then PredictTrack(m[id], propagate) else m[id]
  }

  /** Predicting one more track, not predicted before, moves that track alone. */
  lemma PredictedSnoc(m: map<int, TrackState>, done: seq<int>, id: int, propagate: seq<real> -> seq<real>)
    requires id in m && id !in done
    ensures PredictedAmong(m, done, propagate)[id] == m[id]
    ensures PredictedAmong(m, done + [id], propagate) ==
      PredictedAmong(m, done, propagate)[id := PredictTrack(m[id], propagate)]
  {
    var l := PredictedAmong(m, done + [id], propagate);
    var r := PredictedAmong(m, done, propagate)[id := PredictTrack(m[id], propagate)];
    assert l.Keys == r.Keys;
    forall x | x in l ensures l[x] == r[x] {
      assert x in done + [id] <==> x in done || x == id;
    }
  }

  /** Once every registered track is listed, the pass has predicted them all. */
  lemma PredictedAmongAll(m: map<int, TrackState>, done: seq<int>, propagate: seq<real> -> seq<real>)
    requires forall id :: id in m ==> id in done
    ensures PredictedAmong(m, done, propagate) == map id | id in m :: PredictTrack(m[id], propagate)
  {
    var l := PredictedAmong(m, done, propagate);
    var r := map id | id in m :: PredictTrack(m[id], propagate);
    assert l.Keys == r.Keys;
    forall x | x in l ensures l[x] == r[x] {
      assert x in done;
    }
  }

  /** The tracks' positions in insertion order: the cost matrix's columns. */
  function Positions(m: Tracker): (r: seq<(real, real)>)
    requires WellFormed(m)
    ensures |r| == |m.order|
    ensures forall j :: 0 <= j < |r| ==> m.order[j] in m.tracks && r[j] == (m.tracks[m.order[j]].filter.lat, m.tracks[m.order[j]].filter.lon)
  {
    seq(|m.order|, j requires 0 <= j < |m.order| =>
      (m.tracks[m.order[j]].filter.lat, m.tracks[m.order[j]].filter.lon))
  }

  /** One row of the cost matrix: the cluster's distance to each track position. */
  function CostRow(c: Cluster, positions: seq<(real, real)>, distance: (real, real, real, real) -> real): (r: seq<real>)
    ensures |r| == |positions|
  {
    seq(|positions|, j requires 0 <= j < |positions| => distance(c.centroidLat, c.centroidLon, positions[j].0, positions[j].1))
  }

  /** The clusters-by-tracks cost matrix. */
  function CostMatrix(clusters: seq<Cluster>, positions: seq<(real, real)>, distance: (real, real, real, real) -> real): (r: seq<seq<real>>)
    ensures |r| == |clusters| && Rows(r, |positions|)
  {
    seq(|clusters|, i requires 0 <= i < |clusters| => CostRow(clusters[i], positions, distance))
  }

  /**
   * The solver's pairs whose cost is strictly under the gate, each column
   * mapped back to its track id: exactly those, in the solver's order.
   */
  function Gated(pairs: seq<(nat, nat)>, cost: seq<seq<real>>, ids: seq<int>, maxDistance: real): (r: seq<(nat, int)>)
    requires forall t :: 0 <= t < |pairs| ==> pairs[t].0 < |cost| && pairs[t].1 < |ids| && pairs[t].1 < |cost[pairs[t].0]|
    ensures |r| <= |pairs|
    decreases |pairs|
  {
    if pairs == [] then []
    else
      var init := Gated(pairs[..|pairs| - 1], cost, ids, maxDistance);
      var last := pairs[|pairs| - 1];
      assert forall t :: 0 <= t < |pairs| - 1 ==> pairs[..|pairs| - 1][t] == pairs[t];
      if cost[last.0][last.1] < maxDistance then init + [(last.0, ids[last.1])] else init
  }

  /**
   * A pair is kept exactly when its cost is under the gate: every kept pair
   * comes from such a solver pair, and every such solver pair is kept.
   */
  lemma {:induction false} GatedSources(pairs: seq<(nat, nat)>, cost: seq<seq<real>>, ids: seq<int>, maxDistance: real)
    requires forall t :: 0 <= t < |pairs| ==> pairs[t].0 < |cost| && pairs[t].1 < |ids| && pairs[t].1 < |cost[pairs[t].0]|
    ensures var r := Gated(pairs, cost, ids, maxDistance);
      (forall k :: 0 <= k < |r| ==> exists t :: 0 <= t < |pairs| && r[k] == (pairs[t].0, ids[pairs[t].1]) && cost[pairs[t].0][pairs[t].1] < maxDistance) &&
      (forall t :: 0 <= t < |pairs| && cost[pairs[t].0][pairs[t].1] < maxDistance ==> (pairs[t].0, ids[pairs[t].1]) in r)
    decreases |pairs|
  {
    if pairs != [] {
      var front := pairs[..|pairs| - 1];
      var last := pairs[|pairs| - 1];
      assert forall t :: 0 <= t < |front| ==> front[t] == pairs[t];
      GatedSources(front, cost, ids, maxDistance);
      var init := Gated(front, cost, ids, maxDistance);
      var r := Gated(pairs, cost, ids, maxDistance);
      forall k | 0 <= k < |r|
        ensures exists t :: 0 <= t < |pairs| && r[k] == (pairs[t].0, ids[pairs[t].1]) && cost[pairs[t].0][pairs[t].1] < maxDistance
      {
        if k < |init| {
          var t :| 0 <= t < |front| && init[k] == (front[t].0, ids[front[t].1]) && cost[front[t].0][front[t].1] < maxDistance;
          assert r[k] == init[k] && front[t] == pairs[t];
        } else {
          assert r[k] == (pairs[|pairs| - 1].0, ids[pairs[|pairs| - 1].1]);
        }
      }
      forall t | 0 <= t < |pairs| && cost[pairs[t].0][pairs[t].1] < maxDistance
        ensures (pairs[t].0, ids[pairs[t].1]) in r
      {
        if t < |front| {
          assert front[t] == pairs[t];
          assert (front[t].0, ids[front[t].1]) in init;
        } else {
          assert r[|r| - 1] == (last.0, ids[last.1]);
        }
      }
    }
  }

  /** Gating a one-to-one assignment over distinct track ids keeps it one-to-one. */
  lemma {:induction false} GatedOneToOne(pairs: seq<(nat, nat)>, cost: seq<seq<real>>, ids: seq<int>, maxDistance: real, n: nat)
    requires AssignmentShape(pairs, n, |ids|) && Distinct(ids) && |cost| == n && Rows(cost, |ids|)
    ensures OneToOne(Gated(pairs, cost, ids, maxDistance), n)
    decreases |pairs|
  {
    if pairs != [] {
      var front := pairs[..|pairs| - 1];
      var last := pairs[|pairs| - 1];
      assert AssignmentShape(front, n, |ids|) by {
        assert forall t :: 0 <= t < |front| ==> front[t] == pairs[t];
      }
      GatedOneToOne(front, cost, ids, maxDistance, n);
      if cost[last.0][last.1] < maxDistance {
        var init := Gated(front, cost, ids, maxDistance);
        var x := (last.0, ids[last.1]);
        assert Gated(pairs, cost, ids, maxDistance) == init + [x];
        assert forall t :: 0 <= t < |front| ==> front[t].0 < last.0 && front[t].1 != last.1 by {
          assert forall t :: 0 <= t < |front| ==> front[t] == pairs[t];
        }
        GatedBeforeLast(front, last, cost, ids, maxDistance, n);
        OneToOneSnoc(init, x, n);
      }
    }
  }

  /** Every gated pair of the earlier rows precedes the last pair's row and names another track. */
  lemma GatedBeforeLast(front: seq<(nat, nat)>, last: (nat, nat), cost: seq<seq<real>>, ids: seq<int>, maxDistance: real, n: nat)
    requires AssignmentShape(front, n, |ids|) && Distinct(ids) && |cost| == n && Rows(cost, |ids|) && last.1 < |ids|
    requires forall t :: 0 <= t < |front| ==> front[t].0 < last.0 && front[t].1 != last.1
    ensures forall k :: 0 <= k < |Gated(front, cost, ids, maxDistance)| ==>
      Gated(front, cost, ids, maxDistance)[k].0 < last.0 && Gated(front, cost, ids, maxDistance)[k].1 != ids[last.1]
  {
    var init := Gated(front, cost, ids, maxDistance);
    GatedSources(front, cost, ids, maxDistance);
    forall k | 0 <= k < |init|
      ensures init[k].0 < last.0 && init[k].1 != ids[last.1]
    {
      var t :| 0 <= t < |front| && init[k] == (front[t].0, ids[front[t].1]) && cost[front[t].0][front[t].1] < maxDistance;
    }
  }

  /** Appending a pair past every row and onto an unused track keeps an assignment one-to-one. */
  lemma OneToOneSnoc(assign: seq<(nat, int)>, x: (nat, int), n: nat)
    requires OneToOne(assign, n) && x.0 < n
    requires forall k :: 0 <= k < |assign| ==> assign[k].0 < x.0 && assign[k].1 != x.1
    ensures OneToOne(assign + [x], n)
  {
    var r := assign + [x];
    forall a, b | 0 <= a < b < |r|
      ensures r[a].0 < r[b].0 && r[a].1 != r[b].1
    {
      if b < |assign| {
        assert r[a] == assign[a] && r[b] == assign[b];
      } else {
        assert r[a] == assign[a] && r[b] == x;
      }
    }
  }

  /** Cluster `c` lies strictly within the gate of a track in state `t`. */
  predicate WithinGate(p: Params, c: Cluster, t: TrackState)
  {
    p.distance(c.centroidLat, c.centroidLon, t.filter.lat, t.filter.lon) < p.maxDistance
  }

  /** The cost matrix of the clusters against the registry's tracks. */
  function CostOf(m: Tracker, clusters: seq<Cluster>, p: Params): (r: seq<seq<real>>)
    requires WellFormed(m)
    ensures |r| == |clusters| && Rows(r, |m.order|)
  {
    CostMatrix(clusters, Positions(m), p.distance)
  }

  /** With a track and a cluster, the solver's pairs index the cost matrix. */
  lemma SolverPairsShape(m: Tracker, clusters: seq<Cluster>, p: Params)
    requires WellFormed(m) && SolverContract(p.solver) && |m.tracks| > 0 && clusters != []
    ensures AssignmentShape(p.solver(CostOf(m, clusters, p)), |clusters|, |m.order|)
  {
    NonEmptyOrder(m);
    var cost := CostOf(m, clusters, p);
    assert cost != [] && |m.order| > 0 && Rows(cost, |m.order|);
  }

  /** Every gated pair names a registered track within the gate of its cluster. */
  lemma GatedWithinGate(m: Tracker, clusters: seq<Cluster>, p: Params, pairs: seq<(nat, nat)>, r: seq<(nat, int)>)
    requires WellFormed(m) && AssignmentShape(pairs, |clusters|, |m.order|)
    requires r == Gated(pairs, CostOf(m, clusters, p), m.order, p.maxDistance)
    ensures forall k :: 0 <= k < |r| ==> r[k].0 < |clusters| && r[k].1 in m.tracks && WithinGate(p, clusters[r[k].0], m.tracks[r[k].1])
  {
    var cost := CostOf(m, clusters, p);
    var positions := Positions(m);
    GatedSources(pairs, cost, m.order, p.maxDistance);
    forall k | 0 <= k < |r|
      ensures r[k].0 < |clusters| && r[k].1 in m.tracks && WithinGate(p, clusters[r[k].0], m.tracks[r[k].1])
    {
      var t :| 0 <= t < |pairs| && r[k] == (pairs[t].0, m.order[pairs[t].1]) && cost[pairs[t].0][pairs[t].1] < p.maxDistance;
      var i, j := pairs[t].0, pairs[t].1;
      assert cost[i] == CostRow(clusters[i], positions, p.distance);
      assert cost[i][j] == p.distance(clusters[i].centroidLat, clusters[i].centroidLon, positions[j].0, positions[j].1);
    }
  }

  /**
   * `_assign_clusters_to_tracks` on the registry `m`: empty without tracks
   * or clusters; otherwise the solver's pairs on the distance matrix, kept
   * when strictly under the gate. The result is a one-to-one partial map
   * from cluster index to registered track id, every pair within the gate.
   */
  function AssignmentOf(m: Tracker, clusters: seq<Cluster>, p: Params): (r: seq<(nat, int)>)
    requires WellFormed(m) && SolverContract(p.solver)
    ensures OneToOne(r, |clusters|)
    ensures forall k :: 0 <= k < |r| ==> r[k].1 in m.tracks && WithinGate(p, clusters[r[k].0], m.tracks[r[k].1])
    ensures |m.tracks| == 0 || clusters == [] ==> r == []
  {
    if |m.tracks| == 0 || clusters == [] then []
    else
      var cost := CostOf(m, clusters, p);
      var pairs := p.solver(cost);
      SolverPairsShape(m, clusters, p);
      GatedOneToOne(pairs, cost, m.order, p.maxDistance, |clusters|);
      var r := Gated(pairs, cost, m.order, p.maxDistance);
      GatedWithinGate(m, clusters, p, pairs, r);
      r
  }

  /** Track `id` is the target of some pair. */
  predicate Matched(assign: seq<(nat, int)>, id: int)
  {
    exists k :: 0 <= k < |assign| && assign[k].1 == id
  }

  /** The matched tracks are corrected with their clusters' centroids, one pair at a time. */
  function ApplyMatched(m: Tracker, clusters: seq<Cluster>, assign: seq<(nat, int)>,
                        correct: (FilterState, real, real) -> FilterState): (r: Tracker)
    requires forall k :: 0 <= k < |assign| ==> assign[k].0 < |clusters| && assign[k].1 in m.tracks
    ensures r.tracks.Keys == m.tracks.Keys && r.order == m.order && r.nextTrackId == m.nextTrackId && r.frameCount == m.frameCount
    decreases |assign|
  {
    if assign == [] then m
    else
      var front := assign[..|assign| - 1];
      assert forall k :: 0 <= k < |front| ==> front[k] == assign[k];
      var init := ApplyMatched(m, clusters, front, correct);
      var last := assign[|assign| - 1];
      var c := clusters[last.0];
      init.(tracks := init.tracks[last.1 := CorrectTrack(init.tracks[last.1], c.centroidLat, c.centroidLon, Some(c), correct)])
  }

  /**
   * Under a one-to-one assignment each matched track is corrected exactly
   * once, with its own cluster, and every other track is left as it was.
   */
  lemma {:induction false} ApplyMatchedEffect(m: Tracker, clusters: seq<Cluster>, assign: seq<(nat, int)>,
                                              correct: (FilterState, real, real) -> FilterState)
    requires forall k :: 0 <= k < |assign| ==> assign[k].0 < |clusters| && assign[k].1 in m.tracks
    requires OneToOne(assign, |clusters|)
    ensures var r := ApplyMatched(m, clusters, assign, correct);
      (forall k :: 0 <= k < |assign| ==>
        var c := clusters[assign[k].0];
        r.tracks[assign[k].1] == CorrectTrack(m.tracks[assign[k].1], c.centroidLat, c.centroidLon, Some(c), correct)) &&
      (forall id :: id in m.tracks && !Matched(assign, id) ==> r.tracks[id] == m.tracks[id])
    decreases |assign|
  {
    if assign != [] {
      var front := assign[..|assign| - 1];
      assert forall k :: 0 <= k < |front| ==> front[k] == assign[k];
      ApplyMatchedEffect(m, clusters, front, correct);
      var last := assign[|assign| - 1];
      assert !Matched(front, last.1);
    }
  }

  /** The records of the matched clusters: the frame's timestamp, observed, and the track's new observation count. */
  function MatchedRecords(m: Tracker, clusters: seq<Cluster>, assign: seq<(nat, int)>, timestamp: string): (r: seq<TrackedCluster>)
    requires forall k :: 0 <= k < |assign| ==> assign[k].0 < |clusters| && assign[k].1 in m.tracks
    ensures |r| == |assign|
    decreases |assign|
  {
    if assign == [] then []
    else
      var front := assign[..|assign| - 1];
      assert forall k :: 0 <= k < |front| ==> front[k] == assign[k];
      var last := assign[|assign| - 1];
      MatchedRecords(m, clusters, front, timestamp) +
        [TrackedCluster(clusters[last.0], last.1, timestamp, false, m.tracks[last.1].totalObservations + 1)]
  }

  /** Record `k` is the `k`-th pair's: its cluster, its track's id, and that track's observation count plus one. */
  lemma {:induction false} MatchedRecordsAt(m: Tracker, clusters: seq<Cluster>, assign: seq<(nat, int)>, timestamp: string)
    requires forall k :: 0 <= k < |assign| ==> assign[k].0 < |clusters| && assign[k].1 in m.tracks
    ensures var r := MatchedRecords(m, clusters, assign, timestamp);
      forall k :: 0 <= k < |r| ==>
        r[k] == TrackedCluster(clusters[assign[k].0], assign[k].1, timestamp, false, m.tracks[assign[k].1].totalObservations + 1)
    decreases |assign|
  {
    if assign != [] {
      var front := assign[..|assign| - 1];
      assert forall k :: 0 <= k < |front| ==> front[k] == assign[k];
      MatchedRecordsAt(m, clusters, front, timestamp);
    }
  }

  /**
   * One more pair: its track, still as `m` had it (the assignment is one to
   * one), is corrected with the pair's cluster, and one record is appended.
   */
  lemma MatchedStep(m: Tracker, clusters: seq<Cluster>, assign: seq<(nat, int)>, k: nat,
                    correct: (FilterState, real, real) -> FilterState, timestamp: string)
    requires k < |assign| && OneToOne(assign, |clusters|) && forall j :: 0 <= j < |assign| ==> assign[j].1 in m.tracks
    ensures var init := ApplyMatched(m, clusters, assign[..k], correct);
      var c := clusters[assign[k].0];
      var id := assign[k].1;
      id in init.tracks && init.tracks[id] == m.tracks[id] &&
      ApplyMatched(m, clusters, assign[..k + 1], correct) ==
        init.(tracks := init.tracks[id := CorrectTrack(m.tracks[id], c.centroidLat, c.centroidLon, Some(c), correct)]) &&
      MatchedRecords(m, clusters, assign[..k + 1], timestamp) ==
        MatchedRecords(m, clusters, assign[..k], timestamp) + [TrackedCluster(c, id, timestamp, false, m.tracks[id].totalObservations + 1)]
  {
    assert assign[..k + 1][..k] == assign[..k];
    ApplyMatchedEffect(m, clusters, assign[..k], correct);
    assert !Matched(assign[..k], assign[k].1);
  }

  /** The ids `start`, `start + 1`, ..., `start + n - 1`. */
  function NewIds(start: int, n: nat): (r: seq<int>)
    ensures |r| == n && forall k :: 0 <= k < n ==> r[k] == start + k
  {
    seq(n, k requires 0 <= k < n => start + k)
  }

  /** Track `start + k` is registered and is the new track of the `k`-th listed cluster. */
  predicate SpawnedAt(r: Tracker, start: int, clusters: seq<Cluster>, idx: seq<nat>)
  {
    forall k :: 0 <= k < |idx| ==>
      idx[k] < |clusters| && start + k in r.tracks &&
      r.tracks[start + k] == NewTrack(clusters[idx[k]].centroidLat, clusters[idx[k]].centroidLon)
  }

  /** One new track per listed cluster, with consecutive fresh ids. */
  function Spawned(m: Tracker, clusters: seq<Cluster>, idx: seq<nat>): (r: Tracker)
    requires forall k :: 0 <= k < |idx| ==> idx[k] < |clusters|
    ensures r.nextTrackId == m.nextTrackId + |idx| && r.frameCount == m.frameCount
    decreases |idx|
  {
    if idx == [] then m
    else
      var front := idx[..|idx| - 1];
      assert forall k :: 0 <= k < |front| ==> front[k] == idx[k];
      var init := Spawned(m, clusters, front);
      var c := clusters[idx[|idx| - 1]];
      var id := init.nextTrackId;
      Tracker(init.tracks[id := NewTrack(c.centroidLat, c.centroidLon)], init.order + [id], id + 1, init.frameCount)
  }

  /** The new tracks' ids are appended to the insertion order in the order of `idx`. */
  lemma {:induction false} SpawnedOrder(m: Tracker, clusters: seq<Cluster>, idx: seq<nat>)
    requires forall k :: 0 <= k < |idx| ==> idx[k] < |clusters|
    ensures Spawned(m, clusters, idx).order == m.order + NewIds(m.nextTrackId, |idx|)
    decreases |idx|
  {
    if idx == [] {
      assert m.order + NewIds(m.nextTrackId, 0) == m.order;
    } else {
      var front := idx[..|idx| - 1];
      assert forall k :: 0 <= k < |front| ==> front[k] == idx[k];
      SpawnedOrder(m, clusters, front);
      var id := Spawned(m, clusters, front).nextTrackId;
      assert m.order + NewIds(m.nextTrackId, |front|) + [id] == m.order + NewIds(m.nextTrackId, |idx|);
    }
  }

  /**
   * Exactly the ids from `nextTrackId` on are added, and every track
   * registered before under an older id is kept as it was.
   */
  lemma {:induction false} SpawnedKeys(m: Tracker, clusters: seq<Cluster>, idx: seq<nat>)
    requires forall k :: 0 <= k < |idx| ==> idx[k] < |clusters|
    ensures var r := Spawned(m, clusters, idx);
      (forall id :: id in r.tracks <==> id in m.tracks || m.nextTrackId <= id < r.nextTrackId) &&
      (forall id :: id in m.tracks && id < m.nextTrackId ==> r.tracks[id] == m.tracks[id])
    decreases |idx|
  {
    if idx != [] {
      var front := idx[..|idx| - 1];
      assert forall k :: 0 <= k < |front| ==> front[k] == idx[k];
      SpawnedKeys(m, clusters, front);
    }
  }

  /** Track `nextTrackId + k` is the new track of the `k`-th listed cluster. */
  lemma {:induction false} SpawnedNew(m: Tracker, clusters: seq<Cluster>, idx: seq<nat>)
    requires forall k :: 0 <= k < |idx| ==> idx[k] < |clusters|
    ensures SpawnedAt(Spawned(m, clusters, idx), m.nextTrackId, clusters, idx)
    decreases |idx|
  {
    if idx != [] {
      var front := idx[..|idx| - 1];
      assert forall k :: 0 <= k < |front| ==> front[k] == idx[k];
      SpawnedNew(m, clusters, front);
      var r := Spawned(m, clusters, idx);
      var init := Spawned(m, clusters, front);
      forall k | 0 <= k < |idx|
        ensures idx[k] < |clusters| && m.nextTrackId + k in r.tracks &&
          r.tracks[m.nextTrackId + k] == NewTrack(clusters[idx[k]].centroidLat, clusters[idx[k]].centroidLon)
      {
        if k < |front| {
          assert front[k] == idx[k];
        }
      }
    }
  }

  /** Spawning keeps a registry well formed: each new id is fresh and appended once. */
  lemma SpawnedWellFormed(m: Tracker, clusters: seq<Cluster>, idx: seq<nat>)
    requires WellFormed(m) && forall k :: 0 <= k < |idx| ==> idx[k] < |clusters|
    ensures WellFormed(Spawned(m, clusters, idx))
  {
    var r := Spawned(m, clusters, idx);
    SpawnedOrder(m, clusters, idx);
    SpawnedKeys(m, clusters, idx);
    AppendedIdsWellFormed(m, r);
  }

  /**
   * A registry that gains exactly the ids from `nextTrackId` on, appended in
   * ascending order, stays well formed.
   */
  lemma AppendedIdsWellFormed(m: Tracker, r: Tracker)
    requires WellFormed(m) && r.nextTrackId >= m.nextTrackId
    requires r.order == m.order + NewIds(m.nextTrackId, r.nextTrackId - m.nextTrackId)
    requires forall id :: id in r.tracks <==> id in m.tracks || m.nextTrackId <= id < r.nextTrackId
    ensures WellFormed(r)
  {
    var ids := NewIds(m.nextTrackId, r.nextTrackId - m.nextTrackId);
    forall a, b | 0 <= a < b < |r.order| ensures r.order[a] != r.order[b] {
      if b >= |m.order| && a < |m.order| {
        assert m.order[a] in m.tracks;
      }
    }
    forall j | 0 <= j < |r.order| ensures r.order[j] in r.tracks {
      if j < |m.order| {
        assert r.order[j] == m.order[j] && m.order[j] in m.tracks;
      } else {
        assert r.order[j] == ids[j - |m.order|] == m.nextTrackId + (j - |m.order|);
      }
    }
    forall id | id in r.tracks ensures id in r.order {
      if id in m.tracks {
        assert id in m.order;
        var j :| 0 <= j < |m.order| && m.order[j] == id;
        assert r.order[j] == id;
      } else {
        assert r.order[|m.order| + (id - m.nextTrackId)] == id;
      }
    }
  }

  /** The records of the new tracks: consecutive ids from `start`, each with one observation. */
  function NewRecords(start: int, clusters: seq<Cluster>, idx: seq<nat>, timestamp: string): (r: seq<TrackedCluster>)
    requires forall k :: 0 <= k < |idx| ==> idx[k] < |clusters|
    ensures |r| == |idx|
    ensures forall k :: 0 <= k < |r| ==> r[k] == TrackedCluster(clusters[idx[k]], start + k, timestamp, false, 1)
    decreases |idx|
  {
    if idx == [] then []
    else
      var front := idx[..|idx| - 1];
      assert forall k :: 0 <= k < |front| ==> front[k] == idx[k];
      NewRecords(start, clusters, front, timestamp) +
        [TrackedCluster(clusters[idx[|idx| - 1]], start + |idx| - 1, timestamp, false, 1)]
  }

  /** One more listed cluster: one more track under the next id, and one more record at the end. */
  lemma SpawnStep(m: Tracker, clusters: seq<Cluster>, idx: seq<nat>, k: nat, timestamp: string)
    requires k < |idx| && forall j :: 0 <= j < |idx| ==> idx[j] < |clusters|
    ensures var init := Spawned(m, clusters, idx[..k]);
      var c := clusters[idx[k]];
      init.nextTrackId == m.nextTrackId + k &&
      Spawned(m, clusters, idx[..k + 1]) ==
        Tracker(init.tracks[init.nextTrackId := NewTrack(c.centroidLat, c.centroidLon)], init.order + [init.nextTrackId],
                init.nextTrackId + 1, init.frameCount) &&
      NewRecords(m.nextTrackId, clusters, idx[..k + 1], timestamp) ==
        NewRecords(m.nextTrackId, clusters, idx[..k], timestamp) + [TrackedCluster(c, m.nextTrackId + k, timestamp, false, 1)]
  {
    assert idx[..k + 1][..k] == idx[..k];
  }

  /** The registered ids, in insertion order, of the tracks that are no longer active. */
  function LostIds(order: seq<int>, tracks: map<int, TrackState>): (r: seq<int>)
    ensures forall id :: id in r <==> id in order && id in tracks && !Active(tracks[id])
  {
    if order == [] then []
    else
      var front := order[..|order| - 1];
      var id := order[|order| - 1];
      assert forall x :: x in order <==> x in front || x == id;
      if id in tracks && !Active(tracks[id]) then LostIds(front, tracks) + [id] else LostIds(front, tracks)
  }

  /** One more id of the insertion order: it is appended to the lost ids when its track is lost. */
  lemma LostIdsSnoc(order: seq<int>, i: nat, tracks: map<int, TrackState>)
    requires i < |order|
    ensures var id := order[i];
      LostIds(order[..i + 1], tracks) ==
        if id in tracks && !Active(tracks[id]) then LostIds(order[..i], tracks) + [id] else LostIds(order[..i], tracks)
  {
    assert order[..i + 1][..i] == order[..i];
  }

  /**
   * `_cleanup_lost_tracks`: the lost ids are deleted from the registry and
   * from the insertion order. What remains is exactly the active tracks,
   * unchanged.
   */
  function WithoutLost(m: Tracker): (r: Tracker)
    ensures r.nextTrackId == m.nextTrackId && r.frameCount == m.frameCount
    ensures forall id :: id in r.tracks <==> id in m.tracks && Active(m.tracks[id])
    ensures forall id :: id in r.tracks ==> r.tracks[id] == m.tracks[id]
  {
    m.(tracks := map id | id in m.tracks && Active(m.tracks[id]) :: m.tracks[id],
       order := WithoutAll(m.order, LostIds(m.order, m.tracks)))
  }

  /** Deleting the lost ids from a well-formed registry keeps exactly its active tracks. */
  lemma RemovingLostIds(m: Tracker, lost: seq<int>)
    requires WellFormed(m) && lost == LostIds(m.order, m.tracks)
    ensures (map id | id in m.tracks && id !in lost :: m.tracks[id]) == WithoutLost(m).tracks
  {
    forall id | id in m.tracks
      ensures id in lost <==> !Active(m.tracks[id])
    {
      assert id in m.order;
    }
  }

  /** The cleanup leaves a well-formed registry in which every track is active. */
  lemma WithoutLostWellFormed(m: Tracker)
    requires WellFormed(m)
    ensures WellFormed(WithoutLost(m)) && AllActive(WithoutLost(m))
  {
    var r := WithoutLost(m);
    var lost := LostIds(m.order, m.tracks);
    forall j | 0 <= j < |r.order| ensures r.order[j] in r.tracks {
      assert r.order[j] in r.order;
    }
    forall id | id in r.tracks ensures id in r.order {
      assert id in m.order && id !in lost;
    }
  }

  /** The frame's start: the frame counter advances and every track predicts. */
  function Predicted(m: Tracker, p: Params): (r: Tracker)
    ensures WellFormed(m) ==> WellFormed(r)
    ensures r.tracks.Keys == m.tracks.Keys && r.order == m.order && r.nextTrackId == m.nextTrackId
    ensures r.frameCount == m.frameCount + 1
    ensures forall id :: id in m.tracks ==> r.tracks[id] == PredictTrack(m.tracks[id], p.propagate)
  {
    PredictAllTracks(m.(frameCount := m.frameCount + 1), p.propagate)
  }

  /** The frame's assignment (none when the frame has no clusters). */
  function FrameAssignment(m: Tracker, clusters: seq<Cluster>, p: Params): (r: seq<(nat, int)>)
    requires WellFormed(m) && SolverContract(p.solver)
    ensures OneToOne(r, |clusters|)
    ensures forall k :: 0 <= k < |r| ==> r[k].1 in m.tracks
  {
    if clusters == [] then [] else AssignmentOf(Predicted(m, p), clusters, p)
  }

  /** The matched tracks corrected, then one new track per unmatched cluster. */
  function AfterMatching(q: Tracker, clusters: seq<Cluster>, a: seq<(nat, int)>, p: Params): (r: Tracker)
    requires OneToOne(a, |clusters|) && forall k :: 0 <= k < |a| ==> a[k].1 in q.tracks
  {
    Spawned(ApplyMatched(q, clusters, a, p.correct), clusters, Unmatched(|clusters|, a))
  }

  /**
   * `TCCTracker.update` on the registry `m`: count the frame, predict every
   * track; then, unless the frame has no clusters, correct the matched
   * tracks and create one track per unmatched cluster; finally drop the
   * lost tracks.
   */
  function FrameStep(m: Tracker, clusters: seq<Cluster>, p: Params): (r: Tracker)
    requires WellFormed(m) && SolverContract(p.solver)
  {
    var q := Predicted(m, p);
    if clusters == [] then WithoutLost(q)
    else WithoutLost(AfterMatching(q, clusters, AssignmentOf(q, clusters, p), p))
  }

  /** What `TCCTracker.update` returns: the matched clusters' records, then the new tracks' records. */
  function FrameOutput(m: Tracker, clusters: seq<Cluster>, timestamp: string, p: Params): (r: seq<TrackedCluster>)
    requires WellFormed(m) && SolverContract(p.solver)
  {
    if clusters == [] then []
    else
      var q := Predicted(m, p);
      var a := AssignmentOf(q, clusters, p);
      MatchedRecords(q, clusters, a, timestamp) + NewRecords(q.nextTrackId, clusters, Unmatched(|clusters|, a), timestamp)
  }

  /**
   * Matching on a well-formed registry: each matched track is corrected
   * with its cluster, every other track is kept as it was, and the
   * unmatched clusters' tracks take the consecutive ids from `nextTrackId`.
   */
  lemma AfterMatchingEffect(q: Tracker, clusters: seq<Cluster>, a: seq<(nat, int)>, p: Params)
    requires WellFormed(q) && OneToOne(a, |clusters|) && forall k :: 0 <= k < |a| ==> a[k].1 in q.tracks
    ensures var r := AfterMatching(q, clusters, a, p);
      var u := Unmatched(|clusters|, a);
      WellFormed(r) && r.frameCount == q.frameCount && r.nextTrackId == q.nextTrackId + |u| &&
      (forall k :: 0 <= k < |a| ==>
        var c := clusters[a[k].0];
        a[k].1 in r.tracks && r.tracks[a[k].1] == CorrectTrack(q.tracks[a[k].1], c.centroidLat, c.centroidLon, Some(c), p.correct)) &&
      (forall id :: id in q.tracks && !Matched(a, id) ==> id in r.tracks && r.tracks[id] == q.tracks[id]) &&
      SpawnedAt(r, q.nextTrackId, clusters, u) &&
      (forall id :: id in r.tracks ==> id in q.tracks || q.nextTrackId <= id < r.nextTrackId)
  {
    var ap := ApplyMatched(q, clusters, a, p.correct);
    var u := Unmatched(|clusters|, a);
    ApplyMatchedEffect(q, clusters, a, p.correct);
    assert WellFormed(ap);
    SpawnedKeys(ap, clusters, u);
    SpawnedNew(ap, clusters, u);
    SpawnedWellFormed(ap, clusters, u);
  }

  /**
   * The fate of the tracks registered before the frame: a matched track is
   * corrected with its cluster (so its miss counter is 0 and it has one more
   * observation) and kept; an unmatched one has predicted once more and is
   * removed exactly when its miss counter now exceeds the threshold.
   */
  lemma FrameStepExistingTracks(m: Tracker, clusters: seq<Cluster>, p: Params)
    requires WellFormed(m) && SolverContract(p.solver)
    ensures var a := FrameAssignment(m, clusters, p);
      var r := FrameStep(m, clusters, p);
      (forall k :: 0 <= k < |a| ==>
        var c := clusters[a[k].0];
        a[k].1 in r.tracks &&
        r.tracks[a[k].1] == CorrectTrack(PredictTrack(m.tracks[a[k].1], p.propagate), c.centroidLat, c.centroidLon, Some(c), p.correct)) &&
      (forall id :: id in m.tracks && !Matched(a, id) ==>
        (id in r.tracks <==> m.tracks[id].framesSinceUpdate + 1 <= TRACK_LOST_THRESHOLD) &&
        (id in r.tracks ==> r.tracks[id] == PredictTrack(m.tracks[id], p.propagate)))
  {
    var q := Predicted(m, p);
    if clusters != [] {
      var a := AssignmentOf(q, clusters, p);
      AfterMatchingEffect(q, clusters, a, p);
    }
  }

  /**
   * After a frame the registry is well formed and holds no lost track, the
   * frame counter has advanced by one, and `nextTrackId` has advanced by
   * the number of unmatched clusters.
   */
  lemma FrameStepCounters(m: Tracker, clusters: seq<Cluster>, p: Params)
    requires WellFormed(m) && SolverContract(p.solver)
    ensures var a := FrameAssignment(m, clusters, p);
      var r := FrameStep(m, clusters, p);
      WellFormed(r) && AllActive(r) && r.frameCount == m.frameCount + 1 &&
      r.nextTrackId == m.nextTrackId + (|clusters| - |a|)
  {
    var q := Predicted(m, p);
    var a := FrameAssignment(m, clusters, p);
    SourcesArePermutation(|clusters|, a);
    if clusters == [] {
      WithoutLostWellFormed(q);
    } else {
      AfterMatchingEffect(q, clusters, a, p);
      WithoutLostWellFormed(AfterMatching(q, clusters, a, p));
    }
  }

  /**
   * The unmatched clusters' tracks got the consecutive ids from
   * `nextTrackId` and are registered after the frame; every newly
   * registered id is one of those; and an id that was free before the frame
   * and below `nextTrackId` (a removed track's) stays free: ids are never
   * reused.
   */
  lemma FrameStepNewTracks(m: Tracker, clusters: seq<Cluster>, p: Params)
    requires WellFormed(m) && SolverContract(p.solver)
    ensures SpawnedAt(FrameStep(m, clusters, p), m.nextTrackId, clusters, Unmatched(|clusters|, FrameAssignment(m, clusters, p)))
    ensures var r := FrameStep(m, clusters, p);
      forall id :: id in r.tracks && id !in m.tracks ==> m.nextTrackId <= id < r.nextTrackId
    ensures var r := FrameStep(m, clusters, p);
      forall id :: id !in m.tracks && id < m.nextTrackId ==> id !in r.tracks
  {
    var q := Predicted(m, p);
    var a := FrameAssignment(m, clusters, p);
    if clusters == [] {
      assert Unmatched(|clusters|, a) == Unmatched(0, a) == [];
    } else {
      FrameStepAfterMatching(m, clusters, p);
      NewTracksRegistered(q, clusters, a, p);
    }
  }

  /** With clusters, the frame is the cleanup of the matching on the predicted registry. */
  lemma FrameStepAfterMatching(m: Tracker, clusters: seq<Cluster>, p: Params)
    requires WellFormed(m) && SolverContract(p.solver) && clusters != []
    ensures FrameStep(m, clusters, p) == WithoutLost(AfterMatching(Predicted(m, p), clusters, FrameAssignment(m, clusters, p), p))
  {
  }

  /** The unmatched clusters' new tracks are active, so they survive the cleanup; nothing else is new. */
  lemma NewTracksRegistered(q: Tracker, clusters: seq<Cluster>, a: seq<(nat, int)>, p: Params)
    requires WellFormed(q) && OneToOne(a, |clusters|) && forall k :: 0 <= k < |a| ==> a[k].1 in q.tracks
    ensures var r := WithoutLost(AfterMatching(q, clusters, a, p));
      SpawnedAt(r, q.nextTrackId, clusters, Unmatched(|clusters|, a)) &&
      (forall id :: id in r.tracks ==> id in q.tracks || q.nextTrackId <= id < r.nextTrackId)
  {
    AfterMatchingEffect(q, clusters, a, p);
    SpawnedSurvive(AfterMatching(q, clusters, a, p), q.nextTrackId, clusters, Unmatched(|clusters|, a));
  }

  /** A new track is active, so the cleanup keeps it. */
  lemma SpawnedSurvive(s: Tracker, start: int, clusters: seq<Cluster>, idx: seq<nat>)
    requires SpawnedAt(s, start, clusters, idx)
    ensures SpawnedAt(WithoutLost(s), start, clusters, idx)
  {
    forall k | 0 <= k < |idx|
      ensures idx[k] < |clusters| && start + k in WithoutLost(s).tracks
    {
      var c := clusters[idx[k]];
      assert s.tracks[start + k] == NewTrack(c.centroidLat, c.centroidLon);
    }
  }

  /** The first `|a|` records are the pairs' records: cluster, track id and the count after one more observation. */
  predicate MatchedPrefix(out: seq<TrackedCluster>, clusters: seq<Cluster>, a: seq<(nat, int)>,
                          tracks: map<int, TrackState>, timestamp: string)
  {
    forall k :: 0 <= k < |a| ==>
      k < |out| && a[k].0 < |clusters| && a[k].1 in tracks &&
      out[k] == TrackedCluster(clusters[a[k].0], a[k].1, timestamp, false, tracks[a[k].1].totalObservations + 1)
  }

  /** From `offset` on, the records of new tracks with consecutive ids from `start`, one observation each. */
  predicate NewSuffix(out: seq<TrackedCluster>, offset: nat, start: int, clusters: seq<Cluster>, u: seq<nat>, timestamp: string)
  {
    forall k :: 0 <= k < |u| ==>
      offset + k < |out| && u[k] < |clusters| &&
      out[offset + k] == TrackedCluster(clusters[u[k]], start + k, timestamp, false, 1)
  }

  /**
   * The records `update` emits: first one per pair, with the cluster, its
   * track's id and that track's observation count after the correction;
   * then one per unmatched cluster, with the consecutive fresh ids and an
   * observation count of 1. All carry the frame's timestamp and are observed.
   */
  lemma FrameOutputRecords(m: Tracker, clusters: seq<Cluster>, timestamp: string, p: Params)
    requires WellFormed(m) && SolverContract(p.solver)
    ensures var a := FrameAssignment(m, clusters, p);
      var u := Unmatched(|clusters|, a);
      var out := FrameOutput(m, clusters, timestamp, p);
      |out| == |a| + |u| && MatchedPrefix(out, clusters, a, m.tracks, timestamp) &&
      NewSuffix(out, |a|, m.nextTrackId, clusters, u, timestamp)
  {
    var a := FrameAssignment(m, clusters, p);
    var u := Unmatched(|clusters|, a);
    if clusters != [] {
      var q := Predicted(m, p);
      assert FrameOutput(m, clusters, timestamp, p) ==
        MatchedRecords(q, clusters, a, timestamp) + NewRecords(q.nextTrackId, clusters, u, timestamp);
      RecordsJoin(m, q, clusters, a, u, timestamp);
    }
  }

  /** The pairs' records followed by the new tracks' records, read off position by position. */
  lemma RecordsJoin(m: Tracker, q: Tracker, clusters: seq<Cluster>, a: seq<(nat, int)>, u: seq<nat>, timestamp: string)
    requires forall k :: 0 <= k < |a| ==> a[k].0 < |clusters| && a[k].1 in m.tracks
    requires forall k :: 0 <= k < |u| ==> u[k] < |clusters|
    requires q.tracks.Keys == m.tracks.Keys
    requires forall id :: id in m.tracks ==> q.tracks[id].totalObservations == m.tracks[id].totalObservations
    ensures var out := MatchedRecords(q, clusters, a, timestamp) + NewRecords(q.nextTrackId, clusters, u, timestamp);
      |out| == |a| + |u| && MatchedPrefix(out, clusters, a, m.tracks, timestamp) &&
      NewSuffix(out, |a|, q.nextTrackId, clusters, u, timestamp)
  {
    var mr := MatchedRecords(q, clusters, a, timestamp);
    var nr := NewRecords(q.nextTrackId, clusters, u, timestamp);
    assert MatchedPrefix(mr + nr, clusters, a, m.tracks, timestamp) by {
      PrefixOfJoin(mr, nr, clusters, a, q, m, timestamp);
    }
    assert NewSuffix(mr + nr, |a|, q.nextTrackId, clusters, u, timestamp) by {
      SuffixOfJoin(mr, nr, |a|, q.nextTrackId, clusters, u, timestamp);
    }
  }

  /** The pair records keep their places when the new-track records are appended. */
  lemma PrefixOfJoin(mr: seq<TrackedCluster>, nr: seq<TrackedCluster>, clusters: seq<Cluster>,
                     a: seq<(nat, int)>, q: Tracker, m: Tracker, timestamp: string)
    requires forall k :: 0 <= k < |a| ==> a[k].0 < |clusters| && a[k].1 in m.tracks
    requires q.tracks.Keys == m.tracks.Keys
    requires forall id :: id in m.tracks ==> q.tracks[id].totalObservations == m.tracks[id].totalObservations
    requires mr == MatchedRecords(q, clusters, a, timestamp)
    ensures MatchedPrefix(mr + nr, clusters, a, m.tracks, timestamp)
  {
    MatchedRecordsAt(q, clusters, a, timestamp);
    forall k | 0 <= k < |a|
      ensures (mr + nr)[k] == TrackedCluster(clusters[a[k].0], a[k].1, timestamp, false, m.tracks[a[k].1].totalObservations + 1)
    {
      assert (mr + nr)[k] == mr[k];
    }
  }

  /** The new-track records sit after the `offset` pair records. */
  lemma SuffixOfJoin(mr: seq<TrackedCluster>, nr: seq<TrackedCluster>, offset: nat, start: int,
                     clusters: seq<Cluster>, u: seq<nat>, timestamp: string)
    requires forall k :: 0 <= k < |u| ==> u[k] < |clusters|
    requires |mr| == offset && nr == NewRecords(start, clusters, u, timestamp)
    ensures NewSuffix(mr + nr, offset, start, clusters, u, timestamp)
  {
    forall k | 0 <= k < |u|
      ensures (mr + nr)[offset + k] == TrackedCluster(clusters[u[k]], start + k, timestamp, false, 1)
    {
      assert (mr + nr)[offset + k] == nr[k];
    }
  }

  /**
   * `update` emits one record per input cluster, each cluster once: the
   * matched ones in pair order, then the unmatched ones ascending.
   */
  lemma FrameOutputCoversClusters(m: Tracker, clusters: seq<Cluster>, timestamp: string, p: Params)
    requires WellFormed(m) && SolverContract(p.solver)
    ensures var a := FrameAssignment(m, clusters, p);
      var out := FrameOutput(m, clusters, timestamp, p);
      |out| == |clusters| &&
      forall k :: 0 <= k < |out| ==>
        out[k].cluster == clusters[Sources(|clusters|, a)[k]] && out[k].timestamp == timestamp && !out[k].isPredicted
  {
    var a := FrameAssignment(m, clusters, p);
    FrameOutputRecords(m, clusters, timestamp, p);
    RecordsCoverClusters(FrameOutput(m, clusters, timestamp, p), clusters, a, m.tracks, m.nextTrackId, timestamp);
  }

  /** Pair records then new-track records, with the unmatched indices, cover each cluster once in `Sources` order. */
  lemma RecordsCoverClusters(out: seq<TrackedCluster>, clusters: seq<Cluster>, a: seq<(nat, int)>,
                             tracks: map<int, TrackState>, start: int, timestamp: string)
    requires OneToOne(a, |clusters|)
    requires |out| == |a| + |Unmatched(|clusters|, a)| && MatchedPrefix(out, clusters, a, tracks, timestamp)
    requires NewSuffix(out, |a|, start, clusters, Unmatched(|clusters|, a), timestamp)
    ensures |out| == |clusters|
    ensures forall k :: 0 <= k < |out| ==>
      out[k].cluster == clusters[Sources(|clusters|, a)[k]] && out[k].timestamp == timestamp && !out[k].isPredicted
  {
    var u := Unmatched(|clusters|, a);
    assert |a| + |u| == |clusters| by {
      SourcesArePermutation(|clusters|, a);
    }
    forall k | |a| <= k < |out|
      ensures out[k].cluster == clusters[Sources(|clusters|, a)[k]] && out[k].timestamp == timestamp && !out[k].isPredicted
    {
      var j := k - |a|;
      assert out[|a| + j] == out[k];
      assert Sources(|clusters|, a)[k] == u[j];
    }
  }


  /**
   * The records' track ids: a matched record carries its pair's track id,
   * the new ones the consecutive ids from `nextTrackId`, and no two records
   * share an id.
   */
  lemma FrameOutputTrackIds(m: Tracker, clusters: seq<Cluster>, timestamp: string, p: Params)
    requires WellFormed(m) && SolverContract(p.solver)
    ensures var a := FrameAssignment(m, clusters, p);
      var out := FrameOutput(m, clusters, timestamp, p);
      (forall k :: 0 <= k < |a| ==> out[k].trackId == a[k].1) &&
      (forall k :: |a| <= k < |out| ==> out[k].trackId == m.nextTrackId + (k - |a|)) &&
      (forall x, y :: 0 <= x < y < |out| ==> out[x].trackId != out[y].trackId)
  {
    var a := FrameAssignment(m, clusters, p);
    FrameOutputRecords(m, clusters, timestamp, p);
    RecordsTrackIds(FrameOutput(m, clusters, timestamp, p), clusters, a, Unmatched(|clusters|, a), m.tracks, m.nextTrackId, timestamp);
  }

  /**
   * Pair records carry their pairs' distinct registered ids, and new-track
   * records the consecutive ids from `start`, which lies above every
   * registered id: no id is used twice.
   */
  lemma RecordsTrackIds(out: seq<TrackedCluster>, clusters: seq<Cluster>, a: seq<(nat, int)>, u: seq<nat>,
                        tracks: map<int, TrackState>, start: int, timestamp: string)
    requires |out| == |a| + |u| && MatchedPrefix(out, clusters, a, tracks, timestamp)
    requires NewSuffix(out, |a|, start, clusters, u, timestamp)
    requires forall id :: id in tracks ==> id < start
    requires forall x, y :: 0 <= x < y < |a| ==> a[x].1 != a[y].1
    ensures forall k :: 0 <= k < |a| ==> out[k].trackId == a[k].1
    ensures forall k :: |a| <= k < |out| ==> out[k].trackId == start + (k - |a|)
    ensures forall x, y :: 0 <= x < y < |out| ==> out[x].trackId != out[y].trackId
  {
    forall k | |a| <= k < |out|
      ensures out[k].trackId == start + (k - |a|)
    {
      var j := k - |a|;
      assert out[|a| + j] == TrackedCluster(clusters[u[j]], start + j, timestamp, false, 1);
    }
    forall x, y | 0 <= x < y < |out|
      ensures out[x].trackId != out[y].trackId
    {
      if y < |a| {
        assert out[x].trackId == a[x].1 && out[y].trackId == a[y].1;
      } else if x < |a| {
        assert out[x].trackId == a[x].1 && a[x].1 in tracks;
        assert out[y].trackId == start + (y - |a|);
      } else {
        assert out[x].trackId == start + (x - |a|) && out[y].trackId == start + (y - |a|);
      }
    }
  }

  /**
   * Each record names a track still registered after the frame, and its
   * `track_length` is that track's observation count.
   */
  lemma FrameOutputRegistered(m: Tracker, clusters: seq<Cluster>, timestamp: string, p: Params)
    requires WellFormed(m) && SolverContract(p.solver)
    ensures var r := FrameStep(m, clusters, p);
      var out := FrameOutput(m, clusters, timestamp, p);
      forall k :: 0 <= k < |out| ==>
        out[k].trackId in r.tracks && out[k].trackLength == r.tracks[out[k].trackId].totalObservations
  {
    var a := FrameAssignment(m, clusters, p);
    var u := Unmatched(|clusters|, a);
    var r := FrameStep(m, clusters, p);
    FrameOutputRecords(m, clusters, timestamp, p);
    FrameStepExistingTracks(m, clusters, p);
    FrameStepNewTracks(m, clusters, p);
    RecordsRegistered(FrameOutput(m, clusters, timestamp, p), clusters, a, u, m.tracks, r, m.nextTrackId, timestamp);
  }

  /**
   * When each pair's track is registered in `r` with one more observation
   * and the new tracks are there too, every record names a track of `r`
   * and carries its observation count.
   */
  lemma RecordsRegistered(out: seq<TrackedCluster>, clusters: seq<Cluster>, a: seq<(nat, int)>, u: seq<nat>,
                          tracks: map<int, TrackState>, r: Tracker, start: int, timestamp: string)
    requires |out| == |a| + |u| && MatchedPrefix(out, clusters, a, tracks, timestamp)
    requires NewSuffix(out, |a|, start, clusters, u, timestamp)
    requires forall k :: 0 <= k < |a| ==>
      a[k].1 in tracks && a[k].1 in r.tracks && r.tracks[a[k].1].totalObservations == tracks[a[k].1].totalObservations + 1
    requires SpawnedAt(r, start, clusters, u)
    ensures forall k :: 0 <= k < |out| ==>
      out[k].trackId in r.tracks && out[k].trackLength == r.tracks[out[k].trackId].totalObservations
  {
    forall k | |a| <= k < |out|
      ensures out[k].trackId in r.tracks && out[k].trackLength == r.tracks[out[k].trackId].totalObservations
    {
      var j := k - |a|;
      assert out[|a| + j] == out[k];
      assert u[j] < |clusters|;
    }
  }


  /** A frame without clusters emits nothing and matches nothing. */
  lemma FrameWithoutClusters(m: Tracker, timestamp: string, p: Params)
    requires WellFormed(m) && SolverContract(p.solver)
    ensures FrameOutput(m, [], timestamp, p) == [] && FrameAssignment(m, [], p) == []
    ensures FrameStep(m, [], p).nextTrackId == m.nextTrackId
  {
  }

  /** The default spacing of `predict_future`, in hours. */
  const DEFAULT_INTERVAL_HOURS: real := 0.5

  class TCCTracker {
    var tracks: map<int, KalmanTrack>
    /** The dictionary's insertion order of the track ids. */
    var order: seq<int>
    var nextTrackId: int
    var frameCount: nat
    const params: Params

    /** The registered tracks' states, by id. */
    ghost function States(): map<int, TrackState>
      reads this, tracks.Values
    {
      map id | id in tracks :: tracks[id].State()
    }

    /** The tracker as a value. */
    ghost function Model(): Tracker
      reads this, tracks.Values
    {
      Tracker(States(), order, nextTrackId, frameCount)
    }

    /** Each registered track carries its own id (so distinct ids are distinct objects) and this tracker's filter. */
    ghost predicate Registry()
      reads this
    {
      forall id :: id in tracks ==> tracks[id].trackId == id && tracks[id].propagate == params.propagate && tracks[id].correct == params.correct
    }

    /** Within a frame: the registry is consistent, though some tracks may be lost. */
    ghost predicate Consistent()
      reads this, tracks.Values
    {
      Registry() && WellFormed(Model()) && SolverContract(params.solver)
    }

    /** Between frames: consistent, and every registered track is active. */
    ghost predicate Valid()
      reads this, tracks.Values
    {
      Consistent() && AllActive(Model())
    }

    /** An empty registry, ids starting at 1, no frame seen. */
    constructor(params: Params)
      requires SolverContract(params.solver)
      ensures Valid()
      ensures this.params == params
      ensures Model() == Tracker(map[], [], 1, 0)
    {
      this.params := params;
      tracks := map[];
      order := [];
      nextTrackId := 1;
      frameCount := 0;
    }

    /** `reset`: an empty registry, ids restarting at 1, no frames seen. */
    method Reset()
      requires Consistent()
      modifies this
      ensures Valid()
      ensures Model() == Tracker(map[], [], 1, 0)
    {
      tracks := map[];
      order := [];
      nextTrackId := 1;
      frameCount := 0;
    }

    /** Every registered track predicts once, in insertion order. */
    method PredictAll()
      requires Consistent()
      modifies tracks.Values
      ensures Consistent()
      ensures Model() == PredictAllTracks(old(Model()), params.propagate)
    {
      ghost var m0 := Model();
      var i := 0;
      while i < |order|
        invariant 0 <= i <= |order|
        invariant States() == PredictedAmong(m0.tracks, order[..i], params.propagate)
      {
        var id := order[i];
        assert id in m0.tracks && id !in order[..i];
        assert order[..i + 1] == order[..i] + [id];
        PredictedSnoc(m0.tracks, order[..i], id, params.propagate);
        PredictTrackAt(id);
        i := i + 1;
      }
      assert order[..i] == order;
      PredictedAmongAll(m0.tracks, order, params.propagate);
    }

    /** `track.predict` on the registered track `id`: only that track's state moves. */
    method PredictTrackAt(id: int)
      requires Registry() && id in tracks
      modifies tracks[id]
      ensures States() == old(States())[id := PredictTrack(old(States())[id], params.propagate)]
    {
      var t := tracks[id];
      ghost var before := States();
      assert forall j :: j in tracks && j != id ==> tracks[j] != t;
      var _, _ := t.Predict();
      assert States() == before[id := t.State()];
    }

    /** One row of the cost matrix, column by column. */
    method CostRowOf(c: Cluster) returns (row: seq<real>)
      requires Consistent()
      ensures row == CostRow(c, Positions(Model()), params.distance)
    {
      var positions := Positions(Model());
      row := [];
      var j := 0;
      while j < |order|
        invariant 0 <= j <= |order|
        invariant row == CostRow(c, positions[..j], params.distance)
      {
        assert order[j] in States();
        var pos := tracks[order[j]].Position();
        assert Model().tracks[order[j]] == tracks[order[j]].State();
        assert positions[j] == (Model().tracks[order[j]].filter.lat, Model().tracks[order[j]].filter.lon);
        assert pos == positions[j];
        assert CostRow(c, positions[..j + 1], params.distance) == row + [params.distance(c.centroidLat, c.centroidLon, pos.0, pos.1)];
        row := row + [params.distance(c.centroidLat, c.centroidLon, pos.0, pos.1)];
        j := j + 1;
      }
      assert positions[..j] == positions;
    }

    /** The clusters-by-tracks distance matrix, row by row. */
    method BuildCostMatrix(clusters: seq<Cluster>) returns (cost: seq<seq<real>>)
      requires Consistent()
      ensures cost == CostMatrix(clusters, Positions(Model()), params.distance)
    {
      cost := [];
      var i := 0;
      while i < |clusters|
        invariant 0 <= i <= |clusters|
        invariant cost == CostMatrix(clusters[..i], Positions(Model()), params.distance)
      {
        var row := CostRowOf(clusters[i]);
        cost := cost + [row];
        i := i + 1;
      }
      assert clusters[..i] == clusters;
    }

    /** `_assign_clusters_to_tracks`: the solver on the distance matrix, then the gate. */
    method AssignClustersToTracks(clusters: seq<Cluster>) returns (assign: seq<(nat, int)>)
      requires Consistent()
      ensures assign == AssignmentOf(Model(), clusters, params)
    {
      assert States().Keys == tracks.Keys;
      if |tracks| == 0 || clusters == [] {
        return [];
      }
      NonEmptyOrder(Model());
      var cost := BuildCostMatrix(clusters);
      var pairs := params.solver(cost);
      assert AssignmentShape(pairs, |clusters|, |order|);
      assign := [];
      var k := 0;
      while k < |pairs|
        invariant 0 <= k <= |pairs|
        invariant assign == Gated(pairs[..k], cost, order, params.maxDistance)
      {
        assert pairs[..k + 1][..k] == pairs[..k];
        var pair := pairs[k];
        if cost[pair.0][pair.1] < params.maxDistance {
          assign := assign + [(pair.0, order[pair.1])];
        }
        k := k + 1;
      }
      assert pairs[..k] == pairs;
    }

    /** The matched tracks are updated with their clusters, and each gets its record. */
    method UpdateMatched(clusters: seq<Cluster>, assign: seq<(nat, int)>, timestamp: string) returns (out: seq<TrackedCluster>)
      requires Registry() && WellFormed(Model())
      requires OneToOne(assign, |clusters|) && forall k :: 0 <= k < |assign| ==> assign[k].1 in tracks
      modifies tracks.Values
      ensures Model() == ApplyMatched(old(Model()), clusters, assign, params.correct)
      ensures out == MatchedRecords(old(Model()), clusters, assign, timestamp)
    {
      ghost var m0 := Model();
      out := [];
      var k := 0;
      while k < |assign|
        invariant 0 <= k <= |assign|
        invariant Model() == ApplyMatched(m0, clusters, assign[..k], params.correct)
        invariant out == MatchedRecords(m0, clusters, assign[..k], timestamp)
      {
        var id := assign[k].1;
        var c := clusters[assign[k].0];
        MatchedStep(m0, clusters, assign, k, params.correct, timestamp);
        var observations := UpdateTrack(id, c);
        out := out + [TrackedCluster(c, id, timestamp, false, observations)];
        k := k + 1;
      }
      assert assign[..k] == assign;
    }

    /** `track.update` on the registered track `id` with the cluster's centroid; returns its new observation count. */
    method UpdateTrack(id: int, c: Cluster) returns (observations: nat)
      requires Registry() && id in tracks
      modifies tracks[id]
      ensures id in old(States())
      ensures States() == old(States())[id := CorrectTrack(old(States())[id], c.centroidLat, c.centroidLon, Some(c), params.correct)]
      ensures observations == old(States())[id].totalObservations + 1
    {
      var t := tracks[id];
      ghost var before := States();
      assert forall j :: j in tracks && j != id ==> tracks[j] != t;
      t.Update(c.centroidLat, c.centroidLon, Some(c));
      assert States() == before[id := t.State()];
      observations := t.totalObservations;
    }

    /** `_create_track`: registers a new track under the next id and returns the id. */
    method CreateTrack(lat: real, lon: real) returns (id: int)
      requires Consistent()
      modifies this
      ensures Consistent()
      ensures id == old(nextTrackId) && id !in old(tracks)
      ensures Model() == Tracker(old(Model()).tracks[id := NewTrack(lat, lon)], old(order) + [id], id + 1, old(frameCount))
      ensures id in tracks && tracks == old(tracks)[id := tracks[id]] && fresh(tracks[id])
    {
      ghost var m0 := Model();
      id := nextTrackId;
      assert id !in States();
      nextTrackId := nextTrackId + 1;
      var t := new KalmanTrack(id, lat, lon, params.propagate, params.correct);
      ghost var before := States();
      tracks := tracks[id := t];
      order := order + [id];
      assert States() == before[id := NewTrack(lat, lon)];
      assert WellFormed(Model()) by {
        AddedWellFormed(m0, NewTrack(lat, lon));
      }
    }

    /** A new track for each listed cluster, in order, each with its record. */
    method CreateTracks(clusters: seq<Cluster>, idx: seq<nat>, timestamp: string) returns (out: seq<TrackedCluster>)
      requires Consistent()
      requires forall k :: 0 <= k < |idx| ==> idx[k] < |clusters|
      modifies this
      ensures Consistent()
      ensures Model() == Spawned(old(Model()), clusters, idx)
      ensures out == NewRecords(old(nextTrackId), clusters, idx, timestamp)
      ensures forall id :: id in old(tracks) ==> id in tracks && tracks[id] == old(tracks[id])
      ensures forall id :: id in tracks && id !in old(tracks) ==> fresh(tracks[id])
    {
      ghost var m0 := Model();
      out := [];
      var k := 0;
      while k < |idx|
        invariant 0 <= k <= |idx|
        invariant Registry()
        invariant Model() == Spawned(m0, clusters, idx[..k])
        invariant out == NewRecords(m0.nextTrackId, clusters, idx[..k], timestamp)
        invariant forall id :: id in old(tracks) ==> id in tracks && tracks[id] == old(tracks[id])
        invariant forall id :: id in tracks && id !in old(tracks) ==> fresh(tracks[id])
      {
        var rec := SpawnNext(m0, clusters, idx, k, timestamp);
        out := out + [rec];
        k := k + 1;
      }
      assert idx[..k] == idx;
      SpawnedWellFormed(m0, clusters, idx);
    }

    /** The `k`-th step of `CreateTracks`: the track of the `k`-th listed cluster and its record. */
    method SpawnNext(ghost m0: Tracker, clusters: seq<Cluster>, idx: seq<nat>, k: nat, timestamp: string) returns (rec: TrackedCluster)
      requires WellFormed(m0) && Registry() && k < |idx| && forall j :: 0 <= j < |idx| ==> idx[j] < |clusters|
      requires SolverContract(params.solver) && Model() == Spawned(m0, clusters, idx[..k])
      modifies this
      ensures Registry() && Model() == Spawned(m0, clusters, idx[..k + 1])
      ensures NewRecords(m0.nextTrackId, clusters, idx[..k], timestamp) + [rec] == NewRecords(m0.nextTrackId, clusters, idx[..k + 1], timestamp)
      ensures forall id :: id in old(tracks) ==> id in tracks && tracks[id] == old(tracks[id])
      ensures forall id :: id in tracks && id !in old(tracks) ==> fresh(tracks[id])
    {
      var c := clusters[idx[k]];
      SpawnStep(m0, clusters, idx, k, timestamp);
      assert Consistent() by {
        SpawnedWellFormed(m0, clusters, idx[..k]);
      }
      var id := CreateTrack(c.centroidLat, c.centroidLon);
      rec := TrackedCluster(c, id, timestamp, false, 1);
    }

    /** The first pass of `_cleanup_lost_tracks`: the ids of the inactive tracks, in insertion order. */
    method LostTrackIds() returns (lost: seq<int>)
      requires Consistent()
      ensures lost == LostIds(order, States())
      ensures forall id :: id in lost <==> id in tracks && !Active(States()[id])
    {
      ghost var st := States();
      lost := [];
      var i := 0;
      while i < |order|
        invariant 0 <= i <= |order|
        invariant lost == LostIds(order[..i], st)
      {
        var id := order[i];
        assert id in st && st[id] == tracks[id].State();
        LostIdsSnoc(order, i, st);
        if !tracks[id].IsActive() {
          lost := lost + [id];
        }
        i := i + 1;
      }
      assert order[..i] == order;
    }

    /** `_cleanup_lost_tracks`: collect the lost ids in insertion order, then delete them one by one. */
    method CleanupLostTracks()
      requires Consistent()
      modifies this
      ensures Valid()
      ensures Model() == WithoutLost(old(Model()))
      ensures forall id :: id in tracks ==> id in old(tracks) && tracks[id] == old(tracks[id])
    {
      ghost var m0 := Model();
      var lost := LostTrackIds();
      DeleteTracks(lost);
      assert Model() == WithoutLost(m0) by {
        RemovingLostIds(m0, lost);
      }
      WithoutLostWellFormed(m0);
    }

    /** The second pass of `_cleanup_lost_tracks`: each listed id leaves the registry and the insertion order. */
    method DeleteTracks(lost: seq<int>)
      modifies this
      ensures tracks == map id | id in old(tracks) && id !in lost :: old(tracks)[id]
      ensures order == WithoutAll(old(order), lost)
      ensures nextTrackId == old(nextTrackId) && frameCount == old(frameCount)
      ensures States() == map id | id in old(States()) && id !in lost :: old(States())[id]
    {
      ghost var t0, o0 := tracks, order;
      var k := 0;
      while k < |lost|
        invariant 0 <= k <= |lost|
        invariant tracks == map id | id in t0 && id !in lost[..k] :: t0[id]
        invariant order == WithoutAll(o0, lost[..k])
        invariant nextTrackId == old(nextTrackId) && frameCount == old(frameCount)
      {
        RestrictedSnoc(t0, lost, k);
        assert lost[..k + 1][..k] == lost[..k];
        tracks := tracks - {lost[k]};
        order := Without(order, lost[k]);
        k := k + 1;
      }
      assert lost[..k] == lost;
      StatesRestricted(lost);
    }

    /** Leaving out one more listed id leaves out one more map entry. */
    static lemma RestrictedSnoc<V>(m: map<int, V>, lost: seq<int>, k: nat)
      requires k < |lost|
      ensures (map id | id in m && id !in lost[..k + 1] :: m[id]) == (map id | id in m && id !in lost[..k] :: m[id]) - {lost[k]}
    {
      assert forall x :: x in lost[..k + 1] <==> x in lost[..k] || x == lost[k];
    }

    /** Deleting registry entries, with no track object touched, deletes the same entries from the state view. */
    twostate lemma StatesRestricted(lost: seq<int>)
      requires tracks == map id | id in old(tracks) && id !in lost :: old(tracks)[id]
      requires forall id :: id in old(tracks) ==> unchanged(old(tracks)[id])
      ensures States() == map id | id in old(States()) && id !in lost :: old(States())[id]
    {
      forall id | id in tracks ensures tracks[id].State() == old(States())[id] {
        assert id in old(tracks);
      }
    }

    /**
     * `update`: one frame. The registry moves as `FrameStep` says and the
     * records are `FrameOutput`; the lemmas beside those functions state
     * what that means for each track and each record.
     */
    method Update(clusters: seq<Cluster>, timestamp: string) returns (out: seq<TrackedCluster>)
      requires Valid()
      modifies this, tracks.Values
      ensures Valid()
      ensures Model() == FrameStep(old(Model()), clusters, params)
      ensures out == FrameOutput(old(Model()), clusters, timestamp, params)
      ensures forall id :: id in tracks && id !in old(tracks) ==> fresh(tracks[id])
    {
      StartFrame();
      if clusters == [] {
        CleanupLostTracks();
        return [];
      }
      out := MatchFrame(clusters, timestamp);
      CleanupLostTracks();
    }

    /** The start of `update`: the frame is counted and every track predicted. */
    method StartFrame()
      requires Consistent()
      modifies this, tracks.Values
      ensures Consistent() && tracks == old(tracks)
      ensures Model() == Predicted(old(Model()), params)
    {
      ghost var m0 := Model();
      frameCount := frameCount + 1;
      assert Model() == m0.(frameCount := m0.frameCount + 1) by {
        StatesKept();
      }
      PredictAll();
    }

    /** Changing only the tracker's own counters leaves every track's state as it was. */
    twostate lemma StatesKept()
      requires tracks == old(tracks)
      requires forall id :: id in tracks ==> unchanged(tracks[id])
      ensures States() == old(States())
    {
      forall id | id in tracks ensures tracks[id].State() == old(States())[id] {
      }
    }

    /** The matching part of `update`: assignment, corrections of the matched tracks, new tracks for the rest. */
    method MatchFrame(clusters: seq<Cluster>, timestamp: string) returns (out: seq<TrackedCluster>)
      requires Consistent() && clusters != []
      modifies this, tracks.Values
      ensures Consistent()
      ensures var a := AssignmentOf(old(Model()), clusters, params);
        Model() == AfterMatching(old(Model()), clusters, a, params) &&
        out == MatchedRecords(old(Model()), clusters, a, timestamp) +
               NewRecords(old(nextTrackId), clusters, Unmatched(|clusters|, a), timestamp)
      ensures forall id :: id in tracks && id !in old(tracks) ==> fresh(tracks[id])
    {
      var assign, matched := MatchExisting(clusters, timestamp);
      var created := CreateTracks(clusters, Unmatched(|clusters|, assign), timestamp);
      out := matched + created;
    }

    /** The assignment and the corrections of the matched tracks; the registry itself is not touched. */
    method MatchExisting(clusters: seq<Cluster>, timestamp: string) returns (assign: seq<(nat, int)>, matched: seq<TrackedCluster>)
      requires Consistent()
      modifies tracks.Values
      ensures Consistent() && tracks == old(tracks) && nextTrackId == old(nextTrackId)
      ensures assign == AssignmentOf(old(Model()), clusters, params)
      ensures Model() == ApplyMatched(old(Model()), clusters, assign, params.correct)
      ensures matched == MatchedRecords(old(Model()), clusters, assign, timestamp)
    {
      ghost var m0 := Model();
      assign := AssignClustersToTracks(clusters);
      assert Model() == m0;
      assert forall k :: 0 <= k < |assign| ==> assign[k].1 in tracks;
      matched := UpdateMatched(clusters, assign, timestamp);
      assert WellFormed(Model()) by {
        WellFormedSameShape(m0, Model());
      }
    }

    /** `get_all_predictions`: the future track of every track with at least two observations. */
    method GetAllPredictions(steps: int) returns (r: map<int, seq<Prediction>>)
      requires Consistent()
      ensures forall id :: id in r <==> id in tracks && tracks[id].totalObservations >= 2
      ensures forall id :: id in r ==> r[id] == FuturePredictions(tracks[id].filter, steps, DEFAULT_INTERVAL_HOURS)
    {
      r := map[];
      var i := 0;
      while i < |order|
        invariant 0 <= i <= |order|
        invariant forall id :: id in r <==> id in order[..i] && id in tracks && tracks[id].totalObservations >= 2
        invariant forall id :: id in r ==> id in tracks && r[id] == FuturePredictions(tracks[id].filter, steps, DEFAULT_INTERVAL_HOURS)
      {
        var id := order[i];
        assert id in States();
        assert forall x :: x in order[..i + 1] <==> x in order[..i] || x == id;
        var t := tracks[id];
        if t.totalObservations >= 2 {
          var predictions := t.PredictFuture(steps, DEFAULT_INTERVAL_HOURS);
          r := r[id := predictions];
        }
        i := i + 1;
      }
      assert order[..i] == order;
    }
  }
}

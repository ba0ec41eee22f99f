/**
 * The single-target gated tracker of training/track_kalman.py: one
 * `CycloneTracker` smooths the centroid of the largest detected cloud
 * region, frame after frame, with a constant-velocity Kalman filter. A
 * frame without a detection keeps the prediction; a detection farther than
 * the gate from the prediction is rejected as a jump.
 *
 * The filter's state vector [x, y, dx, dy] is exact under the
 * constant-velocity transition; the covariance is an opaque list of numbers
 * propagated by `propagate`, and the measurement update is the function
 * `correct`. The trajectory loop of `main` takes the frames' detections as
 * its input, already ordered by timestamp.
 */
module TrackKalman {
  import opened Wrappers

  /** `GATING_THRESHOLD`, in pixels: a jump larger than this is rejected. */
  const GATING_THRESHOLD: real := 60.0

  /** A position in pixel coordinates. */
  datatype Point = Point(x: real, y: real)

  /** The filter's posterior state and covariance. */
  datatype KFilter = KFilter(x: real, y: real, dx: real, dy: real, cov: seq<real>)

  /** The tracker as a value: its filter and whether it is still waiting for its first detection. */
  datatype Cyclone = Cyclone(filter: KFilter, firstFrame: bool)

  /** What `update` returns: the filtered position (`None` before the first detection) and `is_predicted`. */
  datatype Filtered = Filtered(pos: Option<Point>, isPredicted: bool)

  /** One trajectory row of `main`: timestamp, smoothed position, `is_predicted` and the raw detection. */
  datatype Row = Row(timestamp: string, smooth: Point, isPredicted: bool, raw: Option<Point>)

  /** One input frame: its timestamp and the detected centroid, if any. */
  datatype Frame = Frame(timestamp: string, centroid: Option<Point>)

  /** `cv2.KalmanFilter(4, 2)` starts from an all-zero state and covariance. */
  const INITIAL_COV: seq<real> := [0.0, 0.0, 0.0, 0.0, 0.0, 0.0, 0.0, 0.0, 0.0, 0.0, 0.0, 0.0, 0.0, 0.0, 0.0, 0.0]
  const INITIAL_FILTER: KFilter := KFilter(0.0, 0.0, 0.0, 0.0, INITIAL_COV)

  /** `kf.predict()` with the transition matrix of the constructor; OpenCV also copies it into the posterior. */
  function Predict(f: KFilter, propagate: seq<real> -> seq<real>): (g: KFilter)
  {
    KFilter(f.x + f.dx, f.y + f.dy, f.dx, f.dy, propagate(f.cov))
  }

  /** `(mx - pred_x)**2 + (my - pred_y)**2`: the squared distance from the prediction. */
  function DistanceSq(p: KFilter, m: Point): (d: real)
    ensures d >= 0.0
  {
    (m.x - p.x) * (m.x - p.x) + (m.y - p.y) * (m.y - p.y)
  }

  /** The gate `dist > GATING_THRESHOLD`, compared on squares (both sides are non-negative). */
  predicate Rejected(p: KFilter, m: Point)
  {
    DistanceSq(p, m) > GATING_THRESHOLD * GATING_THRESHOLD
  }

  /** Comparing squares decides the gate as `np.sqrt` would: for the distance `d`, rejected iff `d > 60`. */
  lemma RejectedIffFar(p: KFilter, m: Point, d: real)
    requires d >= 0.0 && d * d == DistanceSq(p, m)
    ensures Rejected(p, m) <==> d > GATING_THRESHOLD
  {
    if d > 60.0 {
      assert d * d > 60.0 * d > 3600.0;
    } else {
      assert d * d <= 60.0 * d <= 3600.0;
    }
  }

  /**
   * `CycloneTracker.update` as a value: the new tracker and what the call
   * returns. The prediction runs first on every branch.
   */
  function Step(s: Cyclone, m: Option<Point>, propagate: seq<real> -> seq<real>,
                correct: (KFilter, Point) -> KFilter): (Cyclone, Filtered)
  {
    var p := Predict(s.filter, propagate);
    if s.firstFrame then
      if m.Some? then (Cyclone(KFilter(m.value.x, m.value.y, 0.0, 0.0, p.cov), false), Filtered(m, false))
      else (Cyclone(p, true), Filtered(None, true))
    else if m.None? || Rejected(p, m.value) then
      (Cyclone(p, false), Filtered(Some(Point(p.x, p.y)), true))
    else
      var c := correct(p, m.value);
      (Cyclone(c, false), Filtered(Some(Point(c.x, c.y)), false))
  }

  /**
   * Before the first detection: a missing one returns `(None, True)` and the
   * tracker keeps waiting; a detection becomes the state (x, y, 0, 0), comes
   * back unchanged and unpredicted, and ends the waiting.
   */
  lemma FirstFrameBehaviour(s: Cyclone, m: Option<Point>, propagate: seq<real> -> seq<real>,
                            correct: (KFilter, Point) -> KFilter)
    requires s.firstFrame
    ensures var (t, out) := Step(s, m, propagate, correct);
      (m.None? ==> out == Filtered(None, true) && t.firstFrame) &&
      (m.Some? ==>
         out == Filtered(m, false) && !t.firstFrame &&
         t.filter.x == m.value.x && t.filter.y == m.value.y && t.filter.dx == 0.0 && t.filter.dy == 0.0)
  {
  }

  /**
   * After the first detection the tracker always returns a position and
   * never waits again. A missing or rejected detection returns the
   * prediction, flagged predicted, with no correction; an accepted one
   * returns the corrected state, unflagged.
   */
  lemma InitialisedBehaviour(s: Cyclone, m: Option<Point>, propagate: seq<real> -> seq<real>,
                             correct: (KFilter, Point) -> KFilter)
    requires !s.firstFrame
    ensures var (t, out) := Step(s, m, propagate, correct);
      var p := Predict(s.filter, propagate);
      !t.firstFrame && out.pos.Some? &&
      (out.isPredicted <==> m.None? || Rejected(p, m.value)) &&
      (out.isPredicted ==> t.filter == p && out.pos.value == Point(p.x, p.y)) &&
      (!out.isPredicted ==> t.filter == correct(p, m.value) && out.pos.value == Point(t.filter.x, t.filter.y))
  {
  }

  /** The tracker state after `update` on each of the detections in turn. */
  function Run(s: Cyclone, frames: seq<Frame>, propagate: seq<real> -> seq<real>,
               correct: (KFilter, Point) -> KFilter): (t: Cyclone)
  {
    if frames == [] then s
    else Step(Run(s, frames[..|frames| - 1], propagate, correct), frames[|frames| - 1].centroid, propagate, correct).0
  }

  /** The rows `main` appends: one for each frame whose filtered position is not `None`. */
  function Rows(s: Cyclone, frames: seq<Frame>, propagate: seq<real> -> seq<real>,
                correct: (KFilter, Point) -> KFilter): (r: seq<Row>)
  {
    if frames == [] then []
    else
      var init := frames[..|frames| - 1];
      var f := frames[|frames| - 1];
      var out := Step(Run(s, init, propagate, correct), f.centroid, propagate, correct).1;
      Rows(s, init, propagate, correct) +
        (if out.pos.Some? then [Row(f.timestamp, out.pos.value, out.isPredicted, f.centroid)] else [])
  }

  /** The number of frames before the first detection. */
  function LeadingMisses(frames: seq<Frame>): (n: nat)
    ensures n <= |frames|
    ensures forall k :: 0 <= k < n ==> frames[k].centroid.None?
    ensures n < |frames| ==> frames[n].centroid.Some?
  {
    if frames == [] || frames[0].centroid.Some? then 0 else 1 + LeadingMisses(frames[1..])
  }

  lemma {:induction false} LeadingMissesSnoc(frames: seq<Frame>, f: Frame)
    ensures LeadingMisses(frames + [f]) ==
      if LeadingMisses(frames) == |frames| && f.centroid.None? then |frames| + 1 else LeadingMisses(frames)
  {
    if frames != [] {
      assert (frames + [f])[1..] == frames[1..] + [f];
      if frames[0].centroid.None? {
        LeadingMissesSnoc(frames[1..], f);
      }
    }
  }

  /** From a waiting tracker, it is still waiting exactly when no frame so far had a detection. */
  lemma {:induction false} RunWaiting(s: Cyclone, frames: seq<Frame>, propagate: seq<real> -> seq<real>,
                                      correct: (KFilter, Point) -> KFilter)
    requires s.firstFrame
    ensures Run(s, frames, propagate, correct).firstFrame <==> LeadingMisses(frames) == |frames|
  {
    if frames != [] {
      var init := frames[..|frames| - 1];
      assert frames == init + [frames[|frames| - 1]];
      RunWaiting(s, init, propagate, correct);
      LeadingMissesSnoc(init, frames[|frames| - 1]);
    }
  }

  /**
   * From a fresh tracker, every frame from the first detection on yields a
   * row and no earlier frame does: the trajectory has one row per frame
   * after the leading misses.
   */
  lemma {:induction false} RowsCount(s: Cyclone, frames: seq<Frame>, propagate: seq<real> -> seq<real>,
                                     correct: (KFilter, Point) -> KFilter)
    requires s.firstFrame
    ensures |Rows(s, frames, propagate, correct)| == |frames| - LeadingMisses(frames)
  {
    if frames != [] {
      var init := frames[..|frames| - 1];
      var f := frames[|frames| - 1];
      assert frames == init + [f];
      RowsCount(s, init, propagate, correct);
      RunWaiting(s, init, propagate, correct);
      LeadingMissesSnoc(init, f);
    }
  }

  /** Each row carries its frame's timestamp and raw detection, in frame order. */
  lemma {:induction false} RowsFromFrames(s: Cyclone, frames: seq<Frame>, propagate: seq<real> -> seq<real>,
                                          correct: (KFilter, Point) -> KFilter)
    ensures forall r :: r in Rows(s, frames, propagate, correct) ==>
      exists k :: 0 <= k < |frames| && r.timestamp == frames[k].timestamp && r.raw == frames[k].centroid
  {
    if frames != [] {
      var init := frames[..|frames| - 1];
      RowsFromFrames(s, init, propagate, correct);
      forall r | r in Rows(s, frames, propagate, correct)
        ensures exists k :: 0 <= k < |frames| && r.timestamp == frames[k].timestamp && r.raw == frames[k].centroid
      {
        if r in Rows(s, init, propagate, correct) {
          var k :| 0 <= k < |init| && r.timestamp == init[k].timestamp && r.raw == init[k].centroid;
          assert frames[k] == init[k];
        } else {
          assert r.timestamp == frames[|frames| - 1].timestamp;
        }
      }
    }
  }

  /**
   * `CycloneTracker`. `predictions` counts the calls of `kf.predict()`; it
   * is not part of the source and exists only to state that each `update`
   * predicts exactly once.
   */
  class CycloneTracker {
    const propagate: seq<real> -> seq<real>
    const correct: (KFilter, Point) -> KFilter
    var kf: KFilter
    var firstFrame: bool
    ghost var predictions: nat

    /** A new tracker: zero state, waiting for its first detection. */
    constructor(propagate: seq<real> -> seq<real>, correct: (KFilter, Point) -> KFilter)
      ensures this.propagate == propagate && this.correct == correct
      ensures Model() == Cyclone(INITIAL_FILTER, true) && predictions == 0
    {
      this.propagate := propagate;
      this.correct := correct;
      kf := INITIAL_FILTER;
      firstFrame := true;
      predictions := 0;
    }

    /** The tracker as a value. */
    function Model(): Cyclone
      reads this
    {
      Cyclone(kf, firstFrame)
    }

    /** `kf.predict()`: advances the state one constant-velocity step and returns it. */
    method PredictStep() returns (p: KFilter)
      modifies this
      ensures p == Predict(old(kf), propagate) && kf == p
      ensures firstFrame == old(firstFrame) && predictions == old(predictions) + 1
    {
      kf := Predict(kf, propagate);
      predictions := predictions + 1;
      p := kf;
    }

    /** `update(measured_point)`: one prediction, then the branch the detection selects. */
    method Update(m: Option<Point>) returns (out: Filtered)
      modifies this
      ensures (Model(), out) == Step(old(Model()), m, propagate, correct)
      ensures predictions == old(predictions) + 1
    {
      var p := PredictStep();
      if firstFrame {
        if m.Some? {
          kf := KFilter(m.value.x, m.value.y, 0.0, 0.0, kf.cov);
          firstFrame := false;
          return Filtered(m, false);
        } else {
          return Filtered(None, true);
        }
      }
      if m.None? {
        return Filtered(Some(Point(p.x, p.y)), true);
      }
      var mx, my := m.value.x, m.value.y;
      var distSq := DistanceSq(p, m.value);
      if distSq > GATING_THRESHOLD * GATING_THRESHOLD {
        return Filtered(Some(Point(p.x, p.y)), true);
      } else {
        kf := correct(kf, Point(mx, my));
        return Filtered(Some(Point(kf.x, kf.y)), false);
      }
    }

    /** The trajectory loop of `main`: updates on every frame and keeps a row whenever a position came back. */
    method Track(frames: seq<Frame>) returns (rows: seq<Row>)
      modifies this
      ensures rows == Rows(old(Model()), frames, propagate, correct)
      ensures Model() == Run(old(Model()), frames, propagate, correct)
      ensures predictions == old(predictions) + |frames|
    {
      ghost var s0 := Model();
      rows := [];
      var i := 0;
      while i < |frames|
        invariant 0 <= i <= |frames|
        invariant Model() == Run(s0, frames[..i], propagate, correct)
        invariant rows == Rows(s0, frames[..i], propagate, correct)
        invariant predictions == old(predictions) + i
      {
        assert frames[..i + 1][..i] == frames[..i];
        var f := frames[i];
        var out := Update(f.centroid);
        if out.pos.Some? {
          rows := rows + [Row(f.timestamp, out.pos.value, out.isPredicted, f.centroid)];
        }
        i := i + 1;
      }
      assert frames[..i] == frames;
    }
  }
}

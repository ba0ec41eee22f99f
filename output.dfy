/**
 * The data-shaping parts of the export module (backend/modules/output.py):
 * the grouping of tracked observations into per-track summaries behind
 * `generate_trajectory_json`, the column order of `export_to_csv`, and the
 * per-observation encodings of `export_to_netcdf`. Observations are Python
 * dicts, modelled as their `(key, value)` entries in insertion order. File
 * writing, the clock (`generated_at`) and numpy's float types are outside
 * the model: the time stamp is a parameter and floats are exact reals.
 */
module Output {
  import opened Wrappers
  import opened Text
  import opened Sorting
  import Numeric

  /** A field value of an observation record. */
  datatype Value = Null | Bool(b: bool) | Int(i: int) | Real(r: real) | Str(s: string)

  /** An observation record: its entries in insertion order, as a Python dict. */
  type Obs = seq<(string, Value)>

  /** The keys of a record, in insertion order. */
  function Keys(o: Obs): (r: seq<string>)
    ensures |r| == |o| && forall i :: 0 <= i < |o| ==> r[i] == o[i].0
  {
    if o == [] then [] else Keys(o[..|o| - 1]) + [o[|o| - 1].0]
  }

  /** `obs.get(k)`: the value under `k`, if any (the later entry wins should a key repeat). */
  function Get(o: Obs, k: string): (v: Option<Value>)
    ensures v.Some? <==> k in Keys(o)
    ensures v.Some? ==> (k, v.value) in o
  {
    if o == [] then None
    else
      var init := o[..|o| - 1];
      assert Keys(o) == Keys(init) + [o[|o| - 1].0];
      if o[|o| - 1].0 == k then Some(o[|o| - 1].1) else Get(init, k)
  }

  /** `obs.get(k, d)`. */
  function GetOr(o: Obs, k: string, d: Value): Value
  {
    if Get(o, k).Some? then Get(o, k).value else d
  }

  /** Python truthiness: `None`, `False`, zero and the empty string are false. */
  predicate Truthy(v: Value)
  {
    match v
    case Null => false
    case Bool(b) => b
    case Int(i) => i != 0
    case Real(r) => r != 0.0
    case Str(s) => s != []
  }

  /** `if obs.get(k):` */
  predicate TruthyField(o: Obs, k: string)
  {
    Get(o, k).Some? && Truthy(Get(o, k).value)
  }

  /** A number as numpy reads it (`True` is 1); any other value is not a number. */
  function AsReal(v: Value): Option<real>
  {
    match v
    case Bool(b) => Some(if b then 1.0 else 0.0)
    case Int(i) => Some(i as real)
    case Real(r) => Some(r)
    case _ => None
  }

  // ---------------------------------------------------------------------
  // Distinct elements in order of first appearance

  predicate NoDup<T(==)>(s: seq<T>)
  {
    forall i, j :: 0 <= i < j < |s| ==> s[i] != s[j]
  }

  /** The distinct elements of `s`, each where it first appears. */
  function Distinct<T(==, !new)>(s: seq<T>): (r: seq<T>)
    ensures forall x :: x in r <==> x in s
    ensures NoDup(r)
  {
    if s == [] then []
    else
      var init := s[..|s| - 1];
      var x := s[|s| - 1];
      assert s == init + [x];
      var d := Distinct(init);
      if x in d then d else d + [x]
  }

  /** The position where `x` first occurs in `s`. */
  function FirstIndex<T(==)>(s: seq<T>, x: T): (k: nat)
    requires x in s
    ensures k < |s| && s[k] == x && x !in s[..k]
  {
    if s[0] == x then 0 else 1 + FirstIndex(s[1..], x)
  }

  /** The elements of `r` occur in `s` and first occur there in the order of `r`. */
  predicate InOrderOf<T(==)>(r: seq<T>, s: seq<T>)
  {
    (forall i :: 0 <= i < |r| ==> r[i] in s) &&
    forall i, j :: 0 <= i < j < |r| ==> FirstIndex(s, r[i]) < FirstIndex(s, r[j])
  }

  lemma {:induction false} FirstIndexSnoc<T>(s: seq<T>, y: T, x: T)
    requires x in s
    ensures FirstIndex(s + [y], x) == FirstIndex(s, x)
  {
    if s[0] != x {
      assert (s + [y])[1..] == s[1..] + [y];
      FirstIndexSnoc(s[1..], y, x);
    }
  }

  /** The distinct elements come in the order in which they first appear. */
  lemma {:induction false} DistinctFirstAppearance<T(!new)>(s: seq<T>)
    ensures InOrderOf(Distinct(s), s)
  {
    if s != [] {
      var init := s[..|s| - 1];
      var x := s[|s| - 1];
      assert s == init + [x];
      DistinctFirstAppearance(init);
      var d := Distinct(init);
      var r := Distinct(s);
      assert x !in d ==> FirstIndex(s, x) == |init| by {
        if x !in d {
          assert s[..|init|] == init;
        }
      }
      forall i, j | 0 <= i < j < |r| ensures FirstIndex(s, r[i]) < FirstIndex(s, r[j]) {
        assert r[i] == d[i];
        FirstIndexSnoc(init, x, d[i]);
        if j < |d| {
          assert r[j] == d[j];
          FirstIndexSnoc(init, x, d[j]);
          assert FirstIndex(init, d[i]) < FirstIndex(init, d[j]);
        } else {
          assert r[j] == x;
        }
      }
    }
  }

  // ---------------------------------------------------------------------
  // Grouping by track (`generate_trajectory_json`)

  /** `obs.get('track_id', 0)`. */
  function TrackIdOf(o: Obs): Value
  {
    GetOr(o, "track_id", Int(0))
  }

  /** The track id of every observation, in input order. */
  function TrackIds(data: seq<Obs>): (r: seq<Value>)
    ensures |r| == |data|
  {
    if data == [] then [] else TrackIds(data[..|data| - 1]) + [TrackIdOf(data[|data| - 1])]
  }

  lemma {:induction false} TrackIdsAt(data: seq<Obs>, k: nat)
    requires k < |data|
    ensures TrackIds(data)[k] == TrackIdOf(data[k])
  {
    if k < |data| - 1 {
      TrackIdsAt(data[..|data| - 1], k);
    }
  }

  /** One entry of `tracks`: the id, its observations, first and last truthy timestamps, and the count. */
  datatype Group = Group(trackId: Value, observations: seq<Obs>, startTimestamp: Option<Value>,
                         endTimestamp: Option<Value>, totalObservations: nat)

  /** The entry created the first time a track id is seen. */
  function NewGroup(id: Value): Group
  {
    Group(id, [], None, None, 0)
  }

  /** The loop body for one observation of the group's track. */
  function AddObs(g: Group, o: Obs): Group
  {
    var g1 := g.(observations := g.observations + [o], totalObservations := g.totalObservations + 1);
    if TruthyField(o, "timestamp") then
      g1.(startTimestamp := if g.startTimestamp.None? then Get(o, "timestamp") else g.startTimestamp,
          endTimestamp := Get(o, "timestamp"))
    else g1
  }

  /** The `tracks` dict: its keys in insertion order and the entries. */
  datatype Grouping = Grouping(order: seq<Value>, groups: map<Value, Group>)

  /** The `tracks` dict after the grouping loop has seen all of `data`. */
  function GroupAll(data: seq<Obs>): (r: Grouping)
    ensures forall id :: id in r.order <==> id in r.groups
  {
    if data == [] then Grouping([], map[])
    else
      GroupStep(GroupAll(data[..|data| - 1]), data[|data| - 1])
  }

  /** The grouping of one more observation is one more step. */
  lemma GroupAllSnoc(data: seq<Obs>, i: nat)
    requires i < |data|
    ensures GroupAll(data[..i + 1]) == GroupStep(GroupAll(data[..i]), data[i])
  {
    assert data[..i + 1][..i] == data[..i];
  }

  /** One pass of the grouping loop: a new key for an unseen track id, then the observation added to its entry. */
  function GroupStep(gr: Grouping, o: Obs): (r: Grouping)
    requires forall id :: id in gr.order <==> id in gr.groups
    ensures forall id :: id in r.order <==> id in r.groups
  {
    var id := TrackIdOf(o);
    var g := if id in gr.groups then gr.groups[id] else NewGroup(id);
    Grouping(if id in gr.groups then gr.order else gr.order + [id], gr.groups[id := AddObs(g, o)])
  }

  /** The observations of track `id`, in input order. */
  function ObsOf(data: seq<Obs>, id: Value): (r: seq<Obs>)
    ensures |r| <= |data|
  {
    if data == [] then []
    else
      var o := data[|data| - 1];
      ObsOf(data[..|data| - 1], id) + (if TrackIdOf(o) == id then [o] else [])
  }

  /** A track id that never occurs has no observations. */
  lemma {:induction false} ObsOfAbsent(data: seq<Obs>, id: Value)
    requires id !in TrackIds(data)
    ensures ObsOf(data, id) == []
  {
    if data != [] {
      var init := data[..|data| - 1];
      assert TrackIds(data) == TrackIds(init) + [TrackIdOf(data[|data| - 1])];
      ObsOfAbsent(init, id);
    }
  }

  /** Each observation of `ObsOf(data, id)` is an input observation of that track. */
  lemma {:induction false} ObsOfMembers(data: seq<Obs>, id: Value)
    ensures forall o :: o in ObsOf(data, id) ==> o in data && TrackIdOf(o) == id
  {
    if data != [] {
      var init := data[..|data| - 1];
      ObsOfMembers(init, id);
      assert data == init + [data[|data| - 1]];
    }
  }

  /** The timestamp of the first observation that has a truthy one. */
  function FirstTimestamp(obs: seq<Obs>): Option<Value>
  {
    if obs == [] then None
    else if TruthyField(obs[0], "timestamp") then Get(obs[0], "timestamp")
    else FirstTimestamp(obs[1..])
  }

  /** The timestamp of the last observation that has a truthy one. */
  function LastTimestamp(obs: seq<Obs>): Option<Value>
  {
    if obs == [] then None
    else if TruthyField(obs[|obs| - 1], "timestamp") then Get(obs[|obs| - 1], "timestamp")
    else LastTimestamp(obs[..|obs| - 1])
  }

  lemma {:induction false} FirstTimestampSnoc(obs: seq<Obs>, o: Obs)
    ensures FirstTimestamp(obs + [o]) ==
      if FirstTimestamp(obs).Some? then FirstTimestamp(obs)
      else if TruthyField(o, "timestamp") then Get(o, "timestamp") else None
  {
    if obs != [] {
      assert (obs + [o])[1..] == obs[1..] + [o];
      FirstTimestampSnoc(obs[1..], o);
    }
  }

  /** What the grouping keeps for track `id`, stated without the loop. */
  function ExpectedGroup(data: seq<Obs>, id: Value): Group
  {
    var obs := ObsOf(data, id);
    Group(id, obs, FirstTimestamp(obs), LastTimestamp(obs), |obs|)
  }

  lemma AddObsExpected(init: seq<Obs>, o: Obs)
    ensures AddObs(ExpectedGroup(init, TrackIdOf(o)), o) == ExpectedGroup(init + [o], TrackIdOf(o))
  {
    var id := TrackIdOf(o);
    var obs := ObsOf(init, id);
    assert (init + [o])[..|init|] == init;
    assert ObsOf(init + [o], id) == obs + [o];
    FirstTimestampSnoc(obs, o);
    assert (obs + [o])[..|obs|] == obs;
  }

  /**
   * The grouping: the tracks are the distinct track ids in order of first
   * appearance (a missing id counting as 0), and each track holds exactly
   * its observations in input order, its first and last truthy timestamps
   * and their count.
   */
  lemma {:induction false} GroupAllMeaning(data: seq<Obs>)
    ensures var gr := GroupAll(data);
      gr.order == Distinct(TrackIds(data)) &&
      (forall id :: id in gr.groups <==> id in TrackIds(data)) &&
      (forall id :: id in gr.groups ==> gr.groups[id] == ExpectedGroup(data, id))
  {
    if data != [] {
      var init := data[..|data| - 1];
      var o := data[|data| - 1];
      var id := TrackIdOf(o);
      assert data == init + [o];
      assert TrackIds(data) == TrackIds(init) + [id];
      GroupAllMeaning(init);
      var gr0 := GroupAll(init);
      var gr := GroupAll(data);
      assert id !in gr0.groups ==> ExpectedGroup(init, id) == NewGroup(id) by {
        if id !in gr0.groups {
          ObsOfAbsent(init, id);
        }
      }
      AddObsExpected(init, o);
      forall j | j in gr.groups ensures gr.groups[j] == ExpectedGroup(data, j) {
        if j != id {
          assert ObsOf(data, j) == ObsOf(init, j);
        }
      }
    }
  }

  /** The entries of `tracks.values()`, in insertion order. */
  function Tracks(gr: Grouping): (gs: seq<Group>)
    requires forall id :: id in gr.order ==> id in gr.groups
    ensures |gs| == |gr.order|
  {
    seq(|gr.order|, i requires 0 <= i < |gr.order| => gr.groups[gr.order[i]])
  }

  /** The number of observations of the listed tracks, added up. */
  function CountOf(ids: seq<Value>, data: seq<Obs>): nat
  {
    if ids == [] then 0 else CountOf(ids[..|ids| - 1], data) + |ObsOf(data, ids[|ids| - 1])|
  }

  lemma {:induction false} CountOfSnocData(ids: seq<Value>, init: seq<Obs>, o: Obs)
    requires NoDup(ids)
    ensures CountOf(ids, init + [o]) == CountOf(ids, init) + if TrackIdOf(o) in ids then 1 else 0
  {
    if ids != [] {
      var front := ids[..|ids| - 1];
      assert ids == front + [ids[|ids| - 1]];
      CountOfSnocData(front, init, o);
      assert (init + [o])[..|init|] == init;
    }
  }

  /** Counting the observations of every distinct track counts every observation once. */
  lemma {:induction false} CountOfAllTracks(data: seq<Obs>)
    ensures CountOf(Distinct(TrackIds(data)), data) == |data|
  {
    if data != [] {
      var init := data[..|data| - 1];
      var o := data[|data| - 1];
      var id := TrackIdOf(o);
      assert data == init + [o];
      assert TrackIds(data) == TrackIds(init) + [id];
      CountOfAllTracks(init);
      var ids0 := Distinct(TrackIds(init));
      CountOfSnocData(ids0, init, o);
      if id !in ids0 {
        var ids := ids0 + [id];
        assert ids[..|ids| - 1] == ids0;
        ObsOfAbsent(init, id);
        assert ObsOf(data, id) == [o];
      }
    }
  }

  /** The `total_observations` of the groups, added up. */
  function TotalOf(gs: seq<Group>): nat
  {
    if gs == [] then 0 else TotalOf(gs[..|gs| - 1]) + gs[|gs| - 1].totalObservations
  }

  lemma {:induction false} TotalOfCounts(gs: seq<Group>, ids: seq<Value>, data: seq<Obs>)
    requires |gs| == |ids|
    requires forall i :: 0 <= i < |gs| ==> gs[i].totalObservations == |ObsOf(data, ids[i])|
    ensures TotalOf(gs) == CountOf(ids, data)
  {
    if gs != [] {
      TotalOfCounts(gs[..|gs| - 1], ids[..|ids| - 1], data);
    }
  }

  /** The per-track counts of the grouping add up to the number of observations. */
  lemma TracksTotal(data: seq<Obs>)
    ensures TotalOf(Tracks(GroupAll(data))) == |data|
  {
    var gr := GroupAll(data);
    var gs := Tracks(gr);
    assert gr.order == Distinct(TrackIds(data)) &&
      forall i :: 0 <= i < |gs| ==> gs[i].totalObservations == |ObsOf(data, gr.order[i])|
    by {
      GroupAllMeaning(data);
      forall i | 0 <= i < |gs| ensures gs[i].totalObservations == |ObsOf(data, gr.order[i])| {
        assert gs[i] == gr.groups[gr.order[i]];
      }
    }
    TotalOfCounts(gs, gr.order, data);
    CountOfAllTracks(data);
  }

  // ---------------------------------------------------------------------
  // Per-track statistics

  /** Why `generate_trajectory_json` raises: a non-number in a statistic, or `min()` of nothing. */
  datatype JsonError = NotANumber(field: string) | NoMinBt(trackId: Value)

  /** The values as numbers, when every one of them is a number. */
  function Numbers(vs: seq<Value>): (r: Option<seq<real>>)
    ensures r.Some? <==> forall i :: 0 <= i < |vs| ==> AsReal(vs[i]).Some?
    ensures r.Some? ==> |r.value| == |vs| && forall i :: 0 <= i < |vs| ==> AsReal(vs[i]) == Some(r.value[i])
  {
    if vs == [] then Some([])
    else
      var init := Numbers(vs[..|vs| - 1]);
      var last := AsReal(vs[|vs| - 1]);
      if init.Some? && last.Some? then Some(init.value + [last.value]) else None
  }

  /** `[o.get('area_km2', 0) for o in observations]`. */
  function AreaValues(obs: seq<Obs>): (r: seq<Value>)
    ensures |r| == |obs|
  {
    seq(|obs|, i requires 0 <= i < |obs| => GetOr(obs[i], "area_km2", Int(0)))
  }

  /** `[o.get(k) for o in observations if o.get(k)]`. */
  function TruthyValues(obs: seq<Obs>, k: string): (r: seq<Value>)
    ensures forall v :: v in r ==> Truthy(v)
  {
    if obs == [] then []
    else
      var o := obs[|obs| - 1];
      TruthyValues(obs[..|obs| - 1], k) + if TruthyField(o, k) then [Get(o, k).value] else []
  }

  /** The statistics `generate_trajectory_json` adds to a track with observations. */
  datatype Stats = Stats(meanAreaKm2: real, meanBt: Option<real>, minBtOverall: real)

  /** A track of the JSON response: the grouped entry and, when it has observations, its statistics. */
  datatype TrackSummary = TrackSummary(group: Group, stats: Option<Stats>)

  /**
   * The statistics loop for one track: the mean area (missing as 0), the mean
   * of the truthy `mean_bt` values (`None` standing for numpy's NaN when
   * there are none) and the least truthy `min_bt`, which raises when there
   * is none.
   */
  function Summarise(g: Group): Result<TrackSummary, JsonError>
  {
    if g.observations == [] then Ok(TrackSummary(g, None))
    else
      var areas := Numbers(AreaValues(g.observations));
      var bts := Numbers(TruthyValues(g.observations, "mean_bt"));
      var mins := Numbers(TruthyValues(g.observations, "min_bt"));
      if areas.None? then Err(NotANumber("area_km2"))
      else if bts.None? then Err(NotANumber("mean_bt"))
      else if mins.None? then Err(NotANumber("min_bt"))
      else if mins.value == [] then Err(NoMinBt(g.trackId))
      else
        Ok(TrackSummary(g, Some(Stats(Numeric.Mean(areas.value),
                                      if bts.value == [] then None else Some(Numeric.Mean(bts.value)),
                                      Numeric.Min(mins.value)))))
  }

  /**
   * The statistics of a track with observations: the mean area lies between
   * the least and greatest area, the mean BT between the least and greatest
   * truthy `mean_bt`, and `min_bt_overall` is one of the truthy `min_bt`
   * values and no greater than any of them. It raises exactly when a
   * statistic meets a non-number or no observation has a truthy `min_bt`.
   */
  lemma SummariseMeaning(g: Group)
    requires g.observations != []
    ensures var areas := Numbers(AreaValues(g.observations));
      var bts := Numbers(TruthyValues(g.observations, "mean_bt"));
      var mins := Numbers(TruthyValues(g.observations, "min_bt"));
      (Summarise(g).Ok? <==> areas.Some? && bts.Some? && mins.Some? && mins.value != []) &&
      (Summarise(g).Ok? ==>
        var s := Summarise(g).value.stats;
        s.Some? &&
        Numeric.Min(areas.value) <= s.value.meanAreaKm2 <= Numeric.Max(areas.value) &&
        (s.value.meanBt.Some? <==> TruthyValues(g.observations, "mean_bt") != []) &&
        (s.value.meanBt.Some? ==> Numeric.Min(bts.value) <= s.value.meanBt.value <= Numeric.Max(bts.value)) &&
        s.value.minBtOverall in mins.value &&
        forall i :: 0 <= i < |mins.value| ==> s.value.minBtOverall <= mins.value[i])
  {
    var areas := Numbers(AreaValues(g.observations));
    var bts := Numbers(TruthyValues(g.observations, "mean_bt"));
    if areas.Some? {
      Numeric.MeanBetweenMinMax(areas.value);
    }
    if bts.Some? && bts.value != [] {
      Numeric.MeanBetweenMinMax(bts.value);
    }
  }

  /** The statistics of the tracks in order; the first track that raises ends the call. */
  function SummariseAll(gs: seq<Group>): (r: Result<seq<TrackSummary>, JsonError>)
    ensures r.Ok? ==> |r.value| == |gs| && forall i :: 0 <= i < |gs| ==> r.value[i].group == gs[i]
  {
    if gs == [] then Ok([])
    else
      match Summarise(gs[0])
      case Err(e) => Err(e)
      case Ok(s) =>
        match SummariseAll(gs[1..])
        case Err(e) => Err(e)
        case Ok(rest) => Ok([s] + rest)
  }

  /** The JSON response of `generate_trajectory_json`. */
  datatype Report = Report(tracks: seq<TrackSummary>, totalTracks: nat, totalObservations: nat,
                           generatedAt: string, metadata: Option<Obs>)

  /**
   * `generate_trajectory_json(trajectory_data, metadata)` with the clock
   * reading `generatedAt`: the grouped tracks with their statistics, the
   * counts, and the metadata when it is a non-empty dict.
   */
  function TrajectoryJson(data: seq<Obs>, metadata: Option<Obs>, generatedAt: string): Result<Report, JsonError>
  {
    var gr := GroupAll(data);
    match SummariseAll(Tracks(gr))
    case Err(e) => Err(e)
    case Ok(ts) =>
      Ok(Report(ts, |gr.order|, |data|, generatedAt,
                if metadata.Some? && metadata.value != [] then metadata else None))
  }

  /**
   * The response lists one track per distinct track id, in order of first
   * appearance; `total_tracks` is their number and `total_observations` the
   * number of records, which the per-track counts add up to; each track
   * carries exactly its own observations, timestamps and count.
   */
  lemma TrajectoryJsonMeaning(data: seq<Obs>, metadata: Option<Obs>, generatedAt: string)
    requires TrajectoryJson(data, metadata, generatedAt).Ok?
    ensures var rep := TrajectoryJson(data, metadata, generatedAt).value;
      var ids := Distinct(TrackIds(data));
      rep.totalTracks == |ids| == |rep.tracks| &&
      rep.totalObservations == |data| &&
      (forall i :: 0 <= i < |ids| ==> rep.tracks[i].group == ExpectedGroup(data, ids[i])) &&
      TotalOf(Tracks(GroupAll(data))) == |data| &&
      (rep.metadata.Some? <==> metadata.Some? && metadata.value != [])
  {
    var gr := GroupAll(data);
    var gs := Tracks(gr);
    var ids := Distinct(TrackIds(data));
    assert gr.order == ids && forall i :: 0 <= i < |ids| ==> gs[i] == ExpectedGroup(data, ids[i]) by {
      GroupAllMeaning(data);
      forall i | 0 <= i < |ids| ensures gs[i] == ExpectedGroup(data, ids[i]) {
        assert gs[i] == gr.groups[gr.order[i]];
      }
    }
    assert TotalOf(gs) == |data| by {
      TracksTotal(data);
    }
  }

  /** Every track the grouping lists has at least one observation, so it always gets its statistics. */
  lemma GroupsNonEmpty(data: seq<Obs>, id: Value)
    requires id in GroupAll(data).groups
    ensures GroupAll(data).groups[id].observations != []
  {
    GroupAllMeaning(data);
    var k := FirstIndex(TrackIds(data), id);
    TrackIdsAt(data, k);
    ObsOfContains(data, id, k);
  }

  lemma {:induction false} ObsOfContains(data: seq<Obs>, id: Value, k: nat)
    requires k < |data| && TrackIdOf(data[k]) == id
    ensures data[k] in ObsOf(data, id)
  {
    var init := data[..|data| - 1];
    if k < |data| - 1 {
      ObsOfContains(init, id, k);
    }
  }

  /** The grouping loop of `generate_trajectory_json`, updating the `tracks` dict in place. */
  method GroupTracks(data: seq<Obs>) returns (order: seq<Value>, tracks: map<Value, Group>)
    ensures Grouping(order, tracks) == GroupAll(data)
  {
    order, tracks := [], map[];
    var i := 0;
    while i < |data|
      invariant 0 <= i <= |data|
      invariant Grouping(order, tracks) == GroupAll(data[..i])
    {
      GroupAllSnoc(data, i);
      var o := data[i];
      var id := TrackIdOf(o);
      var g := if id in tracks then tracks[id] else NewGroup(id);
      if id !in tracks {
        order := order + [id];
      }
      tracks := tracks[id := AddObs(g, o)];
      i := i + 1;
    }
    assert data[..i] == data;
  }

  /** `generate_trajectory_json`: the grouping loop, then the statistics and the response. */
  method GenerateTrajectoryJson(data: seq<Obs>, metadata: Option<Obs>, generatedAt: string)
    returns (r: Result<Report, JsonError>)
    ensures r == TrajectoryJson(data, metadata, generatedAt)
  {
    var order, tracks := GroupTracks(data);
    var gr := Grouping(order, tracks);
    var summaries := SummariseAll(Tracks(gr));
    if summaries.Err? {
      return Err(summaries.error);
    }
    var meta := if metadata.Some? && metadata.value != [] then metadata else None;
    r := Ok(Report(summaries.value, |order|, |data|, generatedAt, meta));
  }

  // ---------------------------------------------------------------------
  // CSV columns (`export_to_csv`)

  /** The header of an empty export, and the columns when not all fields are wanted. */
  const BASIC_FIELDS: seq<string> :=
    ["track_id", "timestamp", "centroid_lat", "centroid_lon", "area_km2", "radius_km", "mean_bt", "min_bt"]

  /** The columns that come first, in this order, when present. */
  const PRIORITY_FIELDS: seq<string> := BASIC_FIELDS + ["max_bt", "cloud_top_height_km", "intensity", "is_predicted"]

  /** Every key of every record, with repeats. */
  function AllKeys(data: seq<Obs>): (r: seq<string>)
    ensures forall k :: k in r <==> exists i :: 0 <= i < |data| && k in Keys(data[i])
  {
    if data == [] then []
    else
      var init := data[..|data| - 1];
      var r := AllKeys(init) + Keys(data[|data| - 1]);
      assert forall i :: 0 <= i < |init| ==> init[i] == data[i];
      r
  }

  /** The elements of `s` that are in `keys`, in their order in `s`. */
  function KeepIn(s: seq<string>, keys: seq<string>): (r: seq<string>)
    ensures forall x :: x in r <==> x in s && x in keys
  {
    if s == [] then []
    else
      var init := s[..|s| - 1];
      assert s == init + [s[|s| - 1]];
      KeepIn(init, keys) + if s[|s| - 1] in keys then [s[|s| - 1]] else []
  }

  /** The elements of `s` that are not in `fields`, in their order in `s`. */
  function DropIn(s: seq<string>, fields: seq<string>): (r: seq<string>)
    ensures forall x :: x in r <==> x in s && x !in fields
  {
    if s == [] then []
    else
      var init := s[..|s| - 1];
      assert s == init + [s[|s| - 1]];
      DropIn(init, fields) + if s[|s| - 1] !in fields then [s[|s| - 1]] else []
  }

  /** Keeping some elements of a sequence keeps their relative order. */
  lemma {:induction false} KeepInOrder(s: seq<string>, keys: seq<string>)
    requires NoDup(s)
    ensures InOrderOf(KeepIn(s, keys), s)
  {
    if s != [] {
      var init := s[..|s| - 1];
      var x := s[|s| - 1];
      assert s == init + [x];
      assert NoDup(init);
      KeepInOrder(init, keys);
      var d := KeepIn(init, keys);
      var r := KeepIn(s, keys);
      assert x !in init;
      assert FirstIndex(s, x) == |init| by {
        assert s[..|init|] == init;
      }
      forall i, j | 0 <= i < j < |r| ensures FirstIndex(s, r[i]) < FirstIndex(s, r[j]) {
        assert r[i] == d[i];
        FirstIndexSnoc(init, x, d[i]);
        if j < |d| {
          assert r[j] == d[j];
          FirstIndexSnoc(init, x, d[j]);
          assert FirstIndex(init, d[i]) < FirstIndex(init, d[j]);
        } else {
          assert r[j] == x;
        }
      }
    }
  }

  /**
   * `export_to_csv`'s columns. Without records the header is the basic
   * eight; with `include_all_fields` False too. Otherwise: the priority
   * fields present in some record, in their fixed order, then the other
   * keys sorted.
   */
  function CsvFields(data: seq<Obs>, includeAll: bool): (r: seq<string>)
    ensures data == [] || !includeAll ==> r == BASIC_FIELDS && |r| == 8
  {
    if data == [] || !includeAll then BASIC_FIELDS
    else
      var keys := AllKeys(data);
      var present := KeepIn(PRIORITY_FIELDS, keys);
      present + SortBy(Distinct(DropIn(keys, present)), StrLe)
  }

  lemma StrLeIsTotal()
    ensures Total(StrLe)
  {
    forall a: string, b: string ensures StrLe(a, b) || StrLe(b, a) {
      StrLeTotal(a, b);
    }
  }

  /** A repeat in `t` gives its value a count of at least two. */
  lemma RepeatCount<T>(t: seq<T>, i: nat, j: nat)
    requires i < j < |t| && t[i] == t[j]
    ensures multiset(t)[t[i]] >= 2
  {
    assert t == t[..i] + [t[i]] + t[i + 1..j] + [t[j]] + t[j + 1..];
  }

  /** Without repeats every value occurs at most once. */
  lemma {:induction false} NoDupCount<T>(s: seq<T>, x: T)
    requires NoDup(s)
    ensures multiset(s)[x] <= 1
  {
    if s != [] {
      var init := s[..|s| - 1];
      assert s == init + [s[|s| - 1]];
      NoDupCount(init, x);
      if x == s[|s| - 1] {
        assert x !in init;
      }
    }
  }

  /** A permutation of a sequence without repeats has none. */
  lemma NoDupPermutation<T>(s: seq<T>, t: seq<T>)
    requires NoDup(s) && multiset(s) == multiset(t)
    ensures NoDup(t)
  {
    forall i, j | 0 <= i < j < |t| ensures t[i] != t[j] {
      if t[i] == t[j] {
        RepeatCount(t, i, j);
        NoDupCount(s, t[i]);
      }
    }
  }

  lemma PriorityNoDup()
    ensures NoDup(PRIORITY_FIELDS)
  {
  }

  /** Sorting distinct names keeps them distinct and the same names, now in order. */
  lemma SortedNames(d: seq<string>)
    requires NoDup(d)
    ensures var rest := SortBy(d, StrLe);
      Sorted(rest, StrLe) && NoDup(rest) && forall x :: x in rest <==> x in d
  {
    var rest := SortBy(d, StrLe);
    StrLeIsTotal();
    SortBySorted(d, StrLe);
    forall x ensures x in rest <==> x in d {
      assert x in rest <==> x in multiset(rest);
      assert x in d <==> x in multiset(d);
    }
    NoDupPermutation(d, rest);
  }

  /** The present priority fields keep the fixed order, so none repeats. */
  lemma PresentOrdered(keys: seq<string>)
    ensures var present := KeepIn(PRIORITY_FIELDS, keys);
      NoDup(present) && InOrderOf(present, PRIORITY_FIELDS)
  {
    PriorityNoDup();
    KeepInOrder(PRIORITY_FIELDS, keys);
  }

  /** Two sequences without repeats and without common elements join into one without repeats. */
  lemma NoDupJoin(a: seq<string>, b: seq<string>)
    requires NoDup(a) && NoDup(b) && forall x :: x in b ==> x !in a
    ensures NoDup(a + b)
  {
    var r := a + b;
    forall i, j | 0 <= i < j < |r| ensures r[i] != r[j] {
      if j < |a| {
        assert r[i] == a[i] && r[j] == a[j];
      } else if i < |a| {
        assert r[i] == a[i] && r[j] == b[j - |a|];
        assert r[j] in b;
      } else {
        assert r[i] == b[i - |a|] && r[j] == b[j - |a|];
      }
    }
  }

  /**
   * With records and all fields wanted, the columns are every key of every
   * record, each once: first the priority fields present, in their fixed
   * order, then the rest sorted, none of them a priority field.
   */
  lemma CsvFieldsMeaning(data: seq<Obs>)
    requires data != []
    ensures var r := CsvFields(data, true);
      var present := KeepIn(PRIORITY_FIELDS, AllKeys(data));
      NoDup(r) &&
      (forall k :: k in r <==> k in AllKeys(data)) &&
      r[..|present|] == present &&
      InOrderOf(present, PRIORITY_FIELDS) &&
      Sorted(r[|present|..], StrLe) &&
      (forall i :: |present| <= i < |r| ==> r[i] !in PRIORITY_FIELDS)
  {
    var keys := AllKeys(data);
    var present := KeepIn(PRIORITY_FIELDS, keys);
    var d := Distinct(DropIn(keys, present));
    var rest := SortBy(d, StrLe);
    var r := present + rest;
    assert r == CsvFields(data, true);
    SortedNames(d);
    PresentOrdered(keys);
    NoDupJoin(present, rest);
    assert r[|present|..] == rest;
    assert r[..|present|] == present;
    forall i | |present| <= i < |r| ensures r[i] !in PRIORITY_FIELDS {
      assert r[i] in rest;
    }
  }

  // ---------------------------------------------------------------------
  // NetCDF encodings (`export_to_netcdf`)

  /** The fixed width of the `timestamp` character variable. */
  const STRING_LEN: nat := 32

  /** `str(ts)[:32].ljust(32)`: cut to 32 characters, then padded with spaces to exactly 32. */
  function PadTimestamp(ts: string): (r: string)
    ensures |r| == STRING_LEN
    ensures var n := if |ts| < STRING_LEN then |ts| else STRING_LEN;
      r[..n] == ts[..n] && forall i :: n <= i < STRING_LEN ==> r[i] == ' '
  {
    var cut := if |ts| < STRING_LEN then ts else ts[..STRING_LEN];
    cut + seq(STRING_LEN - |cut|, _ => ' ')
  }

  /** The text without its trailing spaces. */
  function TrimRight(s: string): (r: string)
    ensures |r| <= |s|
  {
    if s == [] || s[|s| - 1] != ' ' then s else TrimRight(s[..|s| - 1])
  }

  lemma {:induction false} TrimRightPadding(s: string, k: nat)
    requires s == [] || s[|s| - 1] != ' '
    ensures TrimRight(s + seq(k, _ => ' ')) == s
  {
    if k > 0 {
      var t := s + seq(k, _ => ' ');
      assert t[..|t| - 1] == s + seq(k - 1, _ => ' ');
      TrimRightPadding(s, k - 1);
    } else {
      assert s + seq(k, _ => ' ') == s;
    }
  }

  /** A timestamp of at most 32 characters not ending in a space is read back by trimming the padding. */
  lemma PadTimestampRoundTrip(ts: string)
    requires |ts| <= STRING_LEN && (ts == [] || ts[|ts| - 1] != ' ')
    ensures TrimRight(PadTimestamp(ts)) == ts
  {
    TrimRightPadding(ts, STRING_LEN - |ts|);
  }

  /** Padding is idempotent: a padded timestamp is already 32 characters. */
  lemma PadTimestampIdempotent(ts: string)
    ensures PadTimestamp(PadTimestamp(ts)) == PadTimestamp(ts)
  {
    var p := PadTimestamp(ts);
    assert p[..STRING_LEN] == p;
  }

  /** The text written for the timestamp: the string itself, `''` when missing, `show` for other values. */
  function TimestampText(o: Obs, show: Value -> string): string
  {
    match Get(o, "timestamp")
    case None => ""
    case Some(Str(s)) => s
    case Some(v) => show(v)
  }

  /** `1 if obs.get('is_predicted', False) else 0`. */
  function PredictedFlag(o: Obs): (f: int)
    ensures f == 0 || f == 1
    ensures f == 1 <==> TruthyField(o, "is_predicted")
  {
    if TruthyField(o, "is_predicted") then 1 else 0
  }

  /** The `timestamp` and `is_predicted` columns of `export_to_netcdf`, filled observation by observation. */
  method NetcdfColumns(data: seq<Obs>, show: Value -> string) returns (timestamps: array<string>, flags: array<int>)
    ensures fresh(timestamps) && fresh(flags)
    ensures timestamps.Length == |data| && flags.Length == |data|
    ensures forall i :: 0 <= i < |data| ==>
      timestamps[i] == PadTimestamp(TimestampText(data[i], show)) && flags[i] == PredictedFlag(data[i])
  {
    timestamps := new string[|data|];
    flags := new int[|data|];
    var i := 0;
    while i < |data|
      invariant 0 <= i <= |data|
      invariant forall j :: 0 <= j < i ==>
        timestamps[j] == PadTimestamp(TimestampText(data[j], show)) && flags[j] == PredictedFlag(data[j])
    {
      timestamps[i] := PadTimestamp(TimestampText(data[i], show));
      flags[i] := PredictedFlag(data[i]);
      i := i + 1;
    }
  }
}

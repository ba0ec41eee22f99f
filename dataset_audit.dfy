/**
 * Timestamp normalisation and file grouping of the dataset audit script
 * (training/dataset_audit.py). The directory walk is an input: one
 * `(dirpath, filenames)` pair per directory, in walk order.
 */
module DatasetAudit {
  import opened Wrappers
  import opened Text
  import opened Timestamps

  /**
   * `parse_timestamp`: the first `DDMMMYYYY_HHMM` group of the name,
   * re-rendered as `YYYYMMDD_HHMM`; None when there is no group or when
   * that group is not a valid date and time.
   */
  function ParseTimestamp(filename: string): (r: Option<string>)
    ensures r.Some? ==> exists dt :: Valid(dt) && r.value == FormatCompact(dt)
    ensures r.Some? ==> exists k :: CoreAt(filename, k)
  {
    match FirstMatch(filename, 0, CoreAt)
    case None => None
    case Some(k) =>
      match CoreDate(filename[k..k + 14])
      case None => None
      case Some(dt) => Some(FormatCompact(dt))
  }

  /** The group found is the leftmost one; a later valid group never rescues an invalid one. */
  lemma ParseTimestampLeftmost(filename: string, k: nat)
    requires CoreAt(filename, k)
    requires forall j :: 0 <= j < k ==> !CoreAt(filename, j)
    ensures ParseTimestamp(filename)
         == match CoreDate(filename[k..k + 14])
            case None => None
            case Some(dt) => Some(FormatCompact(dt))
  {
    FirstMatchIs(filename, CoreAt, k);
  }

  /** On INSAT-3D names the audit agrees with the pipeline's `extract_timestamp_string`. */
  lemma ParseTimestampOfName(dt: DateTime, rest: string)
    requires Valid(dt)
    ensures ParseTimestamp("3RIMG_" + CoreText(dt) + rest) == Some(FormatCompact(dt))
  {
    var s := "3RIMG_" + CoreText(dt) + rest;
    CoreAtText("3RIMG_", dt, rest);
    CoreDateOfText(dt);
    forall j | 0 <= j < 6
      ensures !CoreAt(s, j)
    {
      assert s[j..j + 14][..2] == [s[j], s[j + 1]];
      assert !IsDigit(s[j]) || !IsDigit(s[j + 1]);
    }
    ParseTimestampLeftmost(s, 6);
  }

  /** The `(dirpath, filename)` pairs of one walked directory. */
  function DirFiles(entry: (string, seq<string>)): (r: seq<(string, string)>)
    ensures |r| == |entry.1|
    ensures forall k :: 0 <= k < |r| ==> r[k] == (entry.0, entry.1[k])
  {
    seq(|entry.1|, k requires 0 <= k < |entry.1| => (entry.0, entry.1[k]))
  }

  /** Every `(dirpath, filename)` pair of the walk, in walk order. */
  function WalkFiles(walk: seq<(string, seq<string>)>): seq<(string, string)>
  {
    if walk == [] then [] else WalkFiles(walk[..|walk| - 1]) + DirFiles(walk[|walk| - 1])
  }

  /** The name has the extension and a parseable timestamp `ts`. */
  predicate Selected(file: (string, string), extension: string, ts: string)
  {
    EndsWith(file.1, extension) && ParseTimestamp(file.1) == Some(ts)
  }

  /** `files_map` after the pairs `files` have been visited in order. */
  function Grouped(files: seq<(string, string)>, extension: string): map<string, seq<string>>
  {
    if files == [] then map[]
    else AddFile(Grouped(files[..|files| - 1], extension), files[|files| - 1], extension)
  }

  /** One visit: a selected file's path is appended under its timestamp. */
  function AddFile(m: map<string, seq<string>>, file: (string, string), extension: string): map<string, seq<string>>
  {
    if EndsWith(file.1, extension) && ParseTimestamp(file.1).Some? then
      var ts := ParseTimestamp(file.1).value;
      m[ts := (if ts in m then m[ts] else []) + [PathJoin(file.0, file.1)]]
    else m
  }

  /** The joined paths of the files selected for `ts`, in visiting order. */
  function PathsFor(files: seq<(string, string)>, extension: string, ts: string): seq<string>
  {
    if files == [] then []
    else
      var file := files[|files| - 1];
      PathsFor(files[..|files| - 1], extension, ts)
        + (if Selected(file, extension, ts) then [PathJoin(file.0, file.1)] else [])
  }

  /**
   * The grouping holds, for each timestamp, exactly the selected files'
   * paths in order; timestamps with no selected file are absent.
   */
  lemma {:induction false} GroupedIsPathsFor(files: seq<(string, string)>, extension: string, ts: string)
    ensures ts in Grouped(files, extension) <==> PathsFor(files, extension, ts) != []
    ensures ts in Grouped(files, extension) ==> Grouped(files, extension)[ts] == PathsFor(files, extension, ts)
  {
    if files != [] {
      GroupedIsPathsFor(files[..|files| - 1], extension, ts);
    }
  }

  /** Every selected file is kept under its timestamp. */
  lemma {:induction false} PathsForComplete(files: seq<(string, string)>, extension: string, ts: string, k: nat)
    requires k < |files| && Selected(files[k], extension, ts)
    ensures PathsFor(files, extension, ts) != []
  {
    if k < |files| - 1 {
      var init := files[..|files| - 1];
      assert init[k] == files[k];
      PathsForComplete(init, extension, ts, k);
    }
  }

  /** Only selected files are kept. */
  lemma {:induction false} PathsForSound(files: seq<(string, string)>, extension: string, ts: string)
    requires PathsFor(files, extension, ts) != []
    ensures exists k :: 0 <= k < |files| && Selected(files[k], extension, ts)
  {
    var init := files[..|files| - 1];
    if !Selected(files[|files| - 1], extension, ts) {
      PathsForSound(init, extension, ts);
      var k :| 0 <= k < |init| && Selected(init[k], extension, ts);
      assert files[k] == init[k];
    }
  }

  lemma GroupedSnoc(before: seq<(string, string)>, file: (string, string), extension: string)
    ensures Grouped(before + [file], extension) == AddFile(Grouped(before, extension), file, extension)
  {
    assert (before + [file])[..|before|] == before;
  }

  /** What `scan_files` returns: paths per timestamp, or the first path per timestamp for ".h5". */
  datatype ScanResult =
    | PathLists(lists: map<string, seq<string>>)
    | FirstPaths(paths: map<string, string>)

  /** The ".h5" flattening `{k: v[0] for k, v in files_map.items()}`. */
  function FirstOfEach(m: map<string, seq<string>>): (r: map<string, string>)
    requires forall k :: k in m ==> m[k] != []
    ensures r.Keys == m.Keys
    ensures forall k :: k in r ==> r[k] == m[k][0]
  {
    map k | k in m :: m[k][0]
  }

  lemma {:induction false} GroupedNonEmpty(files: seq<(string, string)>, extension: string)
    ensures forall k :: k in Grouped(files, extension) ==> Grouped(files, extension)[k] != []
  {
    if files != [] {
      GroupedNonEmpty(files[..|files| - 1], extension);
    }
  }

  /** The first selected path per timestamp. */
  function FirstPerTimestamp(files: seq<(string, string)>, extension: string): (r: map<string, string>)
    ensures forall ts :: ts in r <==> PathsFor(files, extension, ts) != []
    ensures forall ts :: ts in r ==> r[ts] == PathsFor(files, extension, ts)[0]
  {
    GroupedNonEmpty(files, extension);
    var r := FirstOfEach(Grouped(files, extension));
    forall ts
      ensures ts in r <==> PathsFor(files, extension, ts) != []
      ensures ts in r ==> r[ts] == PathsFor(files, extension, ts)[0]
    {
      GroupedIsPathsFor(files, extension, ts);
    }
    r
  }

  lemma WalkFilesStep(walk: seq<(string, seq<string>)>, i: nat)
    requires i < |walk|
    ensures WalkFiles(walk[..i + 1]) == WalkFiles(walk[..i]) + DirFiles(walk[i])
  {
    assert walk[..i + 1][..i] == walk[..i];
  }

  /** The body of the inner loop of `scan_files`: one file name. */
  method VisitFile(filesMap: map<string, seq<string>>, dirpath: string, f: string, extension: string)
    returns (m: map<string, seq<string>>)
    ensures m == AddFile(filesMap, (dirpath, f), extension)
  {
    m := filesMap;
    if EndsWith(f, extension) {
      var ts := ParseTimestamp(f);
      if ts.Some? {
        var key := ts.value;
        var fullPath := PathJoin(dirpath, f);
        var paths := if key in m then m[key] else [];
        m := m[key := paths + [fullPath]];
      }
    }
  }

  /** The inner loop of `scan_files`: visits one directory's names in order. */
  method ScanDirectory(filesMap: map<string, seq<string>>, dirpath: string, filenames: seq<string>,
                       extension: string, ghost visited: seq<(string, string)>)
    returns (m: map<string, seq<string>>)
    requires filesMap == Grouped(visited, extension)
    ensures m == Grouped(visited + DirFiles((dirpath, filenames)), extension)
  {
    m := filesMap;
    var j := 0;
    assert visited + DirFiles((dirpath, filenames))[..0] == visited;
    while j < |filenames|
      invariant 0 <= j <= |filenames|
      invariant m == Grouped(visited + DirFiles((dirpath, filenames))[..j], extension)
    {
      ghost var before := visited + DirFiles((dirpath, filenames))[..j];
      assert visited + DirFiles((dirpath, filenames))[..j + 1] == before + [(dirpath, filenames[j])];
      GroupedSnoc(before, (dirpath, filenames[j]), extension);
      m := VisitFile(m, dirpath, filenames[j], extension);
      j := j + 1;
    }
    assert DirFiles((dirpath, filenames))[..j] == DirFiles((dirpath, filenames));
  }

  /** `scan_files` over a given directory walk. */
  method ScanFiles(walk: seq<(string, seq<string>)>, extension: string) returns (r: ScanResult)
    ensures extension != ".h5" ==> r == PathLists(Grouped(WalkFiles(walk), extension))
    ensures extension == ".h5" ==> r == FirstPaths(FirstPerTimestamp(WalkFiles(walk), extension))
  {
    var filesMap: map<string, seq<string>> := map[];
    var i := 0;
    while i < |walk|
      invariant 0 <= i <= |walk|
      invariant filesMap == Grouped(WalkFiles(walk[..i]), extension)
    {
      filesMap := ScanDirectory(filesMap, walk[i].0, walk[i].1, extension, WalkFiles(walk[..i]));
      WalkFilesStep(walk, i);
      i := i + 1;
    }
    assert walk[..i] == walk;
    if extension == ".h5" {
      GroupedNonEmpty(WalkFiles(walk), extension);
      r := FirstPaths(map k | k in filesMap :: filesMap[k][0]);
    } else {
      r := PathLists(filesMap);
    }
  }
}

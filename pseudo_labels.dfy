/**
 * Pseudo-label masks painted from validated clusters, and the dataset index
 * that links each H5 file to its mask (backend/modules/pseudo_labels.py).
 * The file system is abstracted: the walked file names are an input, and
 * `os.path.exists` and `os.path.abspath` are function parameters (`pathExists`, `absPath`).
 */
module PseudoLabels {
  import opened Wrappers
  import opened Grids
  import opened Text
  import opened Sorting
  import Clustering
  import Preprocessing

  /** Some cluster lists the pixel `p`. */
  predicate Listed(clusters: seq<Clustering.CloudCluster>, p: Clustering.Pixel)
  {
    exists k :: 0 <= k < |clusters| && p in clusters[k].pixelCoords
  }

  lemma ListedSnoc(clusters: seq<Clustering.CloudCluster>, k: nat, p: Clustering.Pixel)
    requires k < |clusters|
    ensures Listed(clusters[..k + 1], p) <==> Listed(clusters[..k], p) || p in clusters[k].pixelCoords
  {
    if Listed(clusters[..k + 1], p) {
      var i :| 0 <= i < k + 1 && p in clusters[..k + 1][i].pixelCoords;
      if i < k {
        assert clusters[..k][i] == clusters[i];
      }
    }
    if Listed(clusters[..k], p) {
      var i :| 0 <= i < k && p in clusters[..k][i].pixelCoords;
      assert clusters[..k + 1][i] == clusters[i];
    }
    if p in clusters[k].pixelCoords {
      assert clusters[..k + 1][k] == clusters[k];
    }
  }

  /**
   * `generate_pseudo_labels`: a fresh `h` by `w` mask, 1 exactly at the
   * in-bounds pixels some cluster lists and 0 elsewhere. Coordinates outside
   * the mask are skipped.
   */
  method GeneratePseudoLabels(clusters: seq<Clustering.CloudCluster>, h: nat, w: nat) returns (mask: array2<Byte>)
    ensures fresh(mask)
    ensures mask.Length0 == h && mask.Length1 == w
    ensures forall i, j :: 0 <= i < h && 0 <= j < w ==>
      mask[i, j] == if Listed(clusters, (i, j)) then 1 else 0
  {
    mask := new Byte[h, w]((i, j) => 0);
    var k := 0;
    while k < |clusters|
      invariant 0 <= k <= |clusters|
      invariant forall i, j :: 0 <= i < h && 0 <= j < w ==>
        mask[i, j] == if Listed(clusters[..k], (i, j)) then 1 else 0
    {
      PaintCluster(mask, clusters, k);
      k := k + 1;
    }
    assert clusters[..k] == clusters;
  }

  /** The loop body: writes 1 at every in-bounds pixel of cluster `k`. */
  method PaintCluster(mask: array2<Byte>, clusters: seq<Clustering.CloudCluster>, k: nat)
    requires k < |clusters|
    requires forall i, j :: 0 <= i < mask.Length0 && 0 <= j < mask.Length1 ==>
      mask[i, j] == if Listed(clusters[..k], (i, j)) then 1 else 0
    modifies mask
    ensures forall i, j :: 0 <= i < mask.Length0 && 0 <= j < mask.Length1 ==>
      mask[i, j] == if Listed(clusters[..k + 1], (i, j)) then 1 else 0
  {
    var coords := clusters[k].pixelCoords;
    var t := 0;
    while t < |coords|
      invariant 0 <= t <= |coords|
      invariant forall i, j :: 0 <= i < mask.Length0 && 0 <= j < mask.Length1 ==>
        mask[i, j] == if Listed(clusters[..k], (i, j)) || (i, j) in coords[..t] then 1 else 0
    {
      var p := coords[t];
      assert coords[..t + 1] == coords[..t] + [p];
      if p.0 < mask.Length0 && p.1 < mask.Length1 {
        mask[p.0, p.1] := 1;
      }
      t := t + 1;
    }
    assert coords[..t] == coords;
    forall i, j | 0 <= i < mask.Length0 && 0 <= j < mask.Length1
      ensures mask[i, j] == if Listed(clusters[..k + 1], (i, j)) then 1 else 0
    {
      ListedSnoc(clusters, k, (i, j));
    }
  }

  /** Which pixels are painted does not depend on the order of the clusters, nor on repeats. */
  lemma ListedOrderIndependent(a: seq<Clustering.CloudCluster>, b: seq<Clustering.CloudCluster>, p: Clustering.Pixel)
    requires forall c :: c in a <==> c in b
    ensures Listed(a, p) <==> Listed(b, p)
  {
    if Listed(a, p) {
      var i :| 0 <= i < |a| && p in a[i].pixelCoords;
      assert a[i] in b;
      var j :| 0 <= j < |b| && b[j] == a[i];
    }
    if Listed(b, p) {
      var j :| 0 <= j < |b| && p in b[j].pixelCoords;
      assert b[j] in a;
      var i :| 0 <= i < |a| && a[i] == b[j];
    }
  }

  /** Reordering the clusters (a permutation) paints the same pixels. */
  lemma PseudoLabelsPermutation(a: seq<Clustering.CloudCluster>, b: seq<Clustering.CloudCluster>, p: Clustering.Pixel)
    requires multiset(a) == multiset(b)
    ensures Listed(a, p) <==> Listed(b, p)
  {
    forall c ensures c in a <==> c in b {
      assert c in a <==> c in multiset(a);
      assert c in b <==> c in multiset(b);
    }
    ListedOrderIndependent(a, b, p);
  }

  /** A cluster listed twice paints nothing more than listed once. */
  lemma PseudoLabelsRepeat(a: seq<Clustering.CloudCluster>, c: Clustering.CloudCluster, p: Clustering.Pixel)
    ensures Listed(a + [c, c], p) <==> Listed(a + [c], p)
  {
    forall d ensures d in a + [c, c] <==> d in a + [c] {
    }
    ListedOrderIndependent(a + [c, c], a + [c], p);
  }

  /** No cluster: nothing is listed, so the mask is all zero. */
  lemma PseudoLabelsEmpty(p: Clustering.Pixel)
    ensures !Listed([], p)
  {
  }

  /** One row of `dataset_index.json`. */
  datatype IndexEntry = IndexEntry(h5Path: string, timestamp: string, maskPath: Option<string>, hasMask: bool)

  const MASK_SUFFIX: string := ".npy"

  /** Where the mask for timestamp `ts` would be: `<mask_dir>/<ts>.npy`. */
  function MaskLocation(maskDir: string, ts: string): (p: string)
  {
    PathJoin(maskDir, ts + MASK_SUFFIX)
  }

  /**
   * `_create_index_entry`: the timestamp string of the H5 path, and the mask
   * path when a file exists at the mask location.
   */
  function CreateIndexEntry(h5Path: string, maskDir: string, pathExists: string -> bool, absPath: string -> string): (e: IndexEntry)
    ensures e.timestamp == Preprocessing.ExtractTimestampString(h5Path)
    ensures e.hasMask <==> e.maskPath.Some?
    ensures e.hasMask <==> pathExists(MaskLocation(maskDir, e.timestamp))
    ensures e.maskPath.Some? ==> e.maskPath.value == absPath(MaskLocation(maskDir, e.timestamp))
    ensures e.h5Path == absPath(h5Path)
  {
    var ts := Preprocessing.ExtractTimestampString(h5Path);
    var maskPath := MaskLocation(maskDir, ts);
    var found := pathExists(maskPath);
    IndexEntry(absPath(h5Path), ts, if found then Some(absPath(maskPath)) else None, found)
  }

  /** The mask file is named `<timestamp>.npy`, whatever the mask directory. */
  lemma MaskFileName(h5Path: string, maskDir: string)
    ensures var ts := Preprocessing.ExtractTimestampString(h5Path);
      Basename(MaskLocation(maskDir, ts)) == ts + ".npy"
  {
    var ts := Preprocessing.ExtractTimestampString(h5Path);
    Preprocessing.TimestampStringNoSlash(h5Path);
    assert '/' !in ts + MASK_SUFFIX;
    BasenameOfJoin(maskDir, ts + MASK_SUFFIX);
  }

  /** The index entries of the walked `(dirpath, filename)` pairs whose name ends in ".h5", in walk order. */
  function IndexEntries(files: seq<(string, string)>, maskDir: string, pathExists: string -> bool, absPath: string -> string): (r: seq<IndexEntry>)
    ensures |r| <= |files|
  {
    if files == [] then []
    else
      var init := IndexEntries(files[..|files| - 1], maskDir, pathExists, absPath);
      var f := files[|files| - 1];
      if EndsWith(f.1, ".h5") then init + [CreateIndexEntry(PathJoin(f.0, f.1), maskDir, pathExists, absPath)] else init
  }

  /** Entries are ordered by their timestamp strings. */
  function ByTimestamp(a: IndexEntry, b: IndexEntry): bool
  {
    StrLe(a.timestamp, b.timestamp)
  }

  lemma ByTimestampTotal()
    ensures Total(ByTimestamp)
  {
    forall a: IndexEntry, b: IndexEntry ensures ByTimestamp(a, b) || ByTimestamp(b, a) {
      StrLeTotal(a.timestamp, b.timestamp);
    }
  }

  /**
   * `create_dataset_index` over an already-walked file list: one entry per
   * ".h5" name, then sorted by timestamp. The result is a permutation of
   * the entries, sorted.
   */
  method CreateDatasetIndex(files: seq<(string, string)>, maskDir: string, pathExists: string -> bool, absPath: string -> string)
    returns (entries: seq<IndexEntry>)
    ensures entries == SortBy(IndexEntries(files, maskDir, pathExists, absPath), ByTimestamp)
    ensures Sorted(entries, ByTimestamp)
    ensures multiset(entries) == multiset(IndexEntries(files, maskDir, pathExists, absPath))
  {
    entries := [];
    var i := 0;
    while i < |files|
      invariant 0 <= i <= |files|
      invariant entries == IndexEntries(files[..i], maskDir, pathExists, absPath)
    {
      assert files[..i + 1][..i] == files[..i];
      var f := files[i];
      if EndsWith(f.1, ".h5") {
        var entry := CreateIndexEntry(PathJoin(f.0, f.1), maskDir, pathExists, absPath);
        entries := entries + [entry];
      }
      i := i + 1;
    }
    assert files[..i] == files;
    ByTimestampTotal();
    SortBySorted(entries, ByTimestamp);
    entries := SortBy(entries, ByTimestamp);
  }

  /** Every ".h5" name gets exactly one entry and nothing else does. */
  lemma {:induction false} IndexEntriesCount(files: seq<(string, string)>, maskDir: string, pathExists: string -> bool, absPath: string -> string)
    ensures |IndexEntries(files, maskDir, pathExists, absPath)| == |H5Names(files)|
  {
    if files != [] {
      IndexEntriesCount(files[..|files| - 1], maskDir, pathExists, absPath);
    }
  }

  /** The walked pairs whose name ends in ".h5". */
  function H5Names(files: seq<(string, string)>): (r: seq<(string, string)>)
    ensures forall f :: f in r <==> f in files && EndsWith(f.1, ".h5")
  {
    if files == [] then []
    else
      var init := files[..|files| - 1];
      var f := files[|files| - 1];
      assert forall g :: g in files <==> g in init || g == f;
      H5Names(init) + (if EndsWith(f.1, ".h5") then [f] else [])
  }
}

/**
 * Two-dimensional grids as sequences of rows: brightness-temperature and
 * probability grids hold reals, masks hold unsigned bytes (numpy `uint8`).
 */
module Grids {

  /** A numpy `uint8` cell. */
  type Byte = b: int | 0 <= b < 256

  type Grid = seq<seq<real>>

  type Mask = seq<seq<Byte>>

  /** Number of columns of a grid (numpy's `shape[1]`). */
  function Width<T>(g: seq<seq<T>>): nat
  {
    if |g| == 0 then 0 else |g[0]|
  }

  /** All rows have the same length: a proper H x W array. */
  predicate IsRect<T>(g: seq<seq<T>>)
  {
    forall i :: 0 <= i < |g| ==> |g[i]| == Width(g)
  }

  /** Two grids of the same shape. */
  predicate SameShape<T, U>(a: seq<seq<T>>, b: seq<seq<U>>)
  {
    |a| == |b| && forall i :: 0 <= i < |a| ==> |a[i]| == |b[i]|
  }

  /** An H x W grid. */
  predicate HasShape<T>(g: seq<seq<T>>, h: nat, w: nat)
  {
    |g| == h && forall i :: 0 <= i < h ==> |g[i]| == w
  }

  /** Every cell is 0 or 1, as the masks built from comparisons are. */
  predicate IsBinary(m: Mask)
  {
    forall i, j :: 0 <= i < |m| && 0 <= j < |m[i]| ==> m[i][j] <= 1
  }

  /** `v[m == 1]` on one row. */
  function SelectRow(v: seq<real>, m: seq<Byte>): (r: seq<real>)
    requires |v| == |m|
    ensures |r| <= |v|
  {
    if v == [] then []
    else (if m[0] == 1 then [v[0]] else []) + SelectRow(v[1..], m[1..])
  }

  /** `v[m == 1]`: the values under the 1-cells of the mask, in row-major order. */
  function Select(v: Grid, m: Mask): seq<real>
    requires SameShape(v, m)
  {
    if v == [] then [] else SelectRow(v[0], m[0]) + Select(v[1..], m[1..])
  }

  /** Number of cells equal to 1 in one row. */
  function CountOnesRow(m: seq<Byte>): nat
  {
    if m == [] then 0 else (if m[0] == 1 then 1 else 0) + CountOnesRow(m[1..])
  }

  /** Number of cells equal to 1. */
  function CountOnes(m: Mask): nat
  {
    if m == [] then 0 else CountOnesRow(m[0]) + CountOnes(m[1..])
  }

  /** Sum of one row's cells. */
  function SumRow(m: seq<Byte>): nat
  {
    if m == [] then 0 else m[0] + SumRow(m[1..])
  }

  /** `np.sum(mask)`. */
  function MaskSum(m: Mask): nat
  {
    if m == [] then 0 else SumRow(m[0]) + MaskSum(m[1..])
  }

  /** Number of cells. */
  function Size<T>(g: seq<seq<T>>): nat
  {
    if g == [] then 0 else |g[0]| + Size(g[1..])
  }

  lemma {:induction false} SelectRowMembership(v: seq<real>, m: seq<Byte>, x: real)
    requires |v| == |m|
    ensures x in SelectRow(v, m) <==> exists j :: 0 <= j < |v| && m[j] == 1 && v[j] == x
  {
    if v != [] {
      SelectRowMembership(v[1..], m[1..], x);
      if exists j :: 0 <= j < |v| && m[j] == 1 && v[j] == x {
        var j :| 0 <= j < |v| && m[j] == 1 && v[j] == x;
        if j > 0 {
          assert v[1..][j - 1] == x && m[1..][j - 1] == 1;
        }
      }
      if x in SelectRow(v[1..], m[1..]) {
        var j :| 0 <= j < |v| - 1 && m[1..][j] == 1 && v[1..][j] == x;
        assert m[j + 1] == 1 && v[j + 1] == x;
      }
    }
  }

  /**
   * A value is selected exactly when it sits under a 1-cell of the mask:
   * the selection considers those pixels and no others.
   */
  lemma {:induction false} SelectMembership(v: Grid, m: Mask, x: real)
    requires SameShape(v, m)
    ensures x in Select(v, m) <==>
      exists i, j :: 0 <= i < |v| && 0 <= j < |v[i]| && m[i][j] == 1 && v[i][j] == x
  {
    if v != [] {
      SelectMembership(v[1..], m[1..], x);
      SelectRowMembership(v[0], m[0], x);
      if exists i, j :: 0 <= i < |v| && 0 <= j < |v[i]| && m[i][j] == 1 && v[i][j] == x {
        var i, j :| 0 <= i < |v| && 0 <= j < |v[i]| && m[i][j] == 1 && v[i][j] == x;
        if i > 0 {
          assert v[1..][i - 1][j] == x && m[1..][i - 1][j] == 1;
        }
      }
      if x in Select(v[1..], m[1..]) {
        var i, j :| 0 <= i < |v| - 1 && 0 <= j < |v[1..][i]| && m[1..][i][j] == 1 && v[1..][i][j] == x;
        assert m[i + 1][j] == 1 && v[i + 1][j] == x;
      }
    }
  }

  lemma {:induction false} SelectRowLength(v: seq<real>, m: seq<Byte>)
    requires |v| == |m|
    ensures |SelectRow(v, m)| == CountOnesRow(m)
  {
    if v != [] {
      SelectRowLength(v[1..], m[1..]);
    }
  }

  /** The selection has one value per 1-cell. */
  lemma {:induction false} SelectLength(v: Grid, m: Mask)
    requires SameShape(v, m)
    ensures |Select(v, m)| == CountOnes(m)
  {
    if v != [] {
      SelectLength(v[1..], m[1..]);
      SelectRowLength(v[0], m[0]);
    }
  }

  lemma {:induction false} BinaryRowSum(m: seq<Byte>)
    requires forall j :: 0 <= j < |m| ==> m[j] <= 1
    ensures SumRow(m) == CountOnesRow(m)
  {
    if m != [] {
      BinaryRowSum(m[1..]);
    }
  }

  /** On a 0/1 mask, `np.sum(mask)` counts its 1-cells. */
  lemma {:induction false} BinarySumCountsOnes(m: Mask)
    requires IsBinary(m)
    ensures MaskSum(m) == CountOnes(m)
  {
    if m != [] {
      BinaryRowSum(m[0]);
      BinarySumCountsOnes(m[1..]);
    }
  }

  /** `g.flatten()`: all cells in row-major order. */
  function Flatten(g: Grid): (r: seq<real>)
    ensures |r| == Size(g)
  {
    if g == [] then [] else g[0] + Flatten(g[1..])
  }
}

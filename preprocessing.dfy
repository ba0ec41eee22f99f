/**
 * Brightness-temperature normalisation and INSAT-3D file-name timestamps
 * (backend/modules/preprocessing.py). Reading HDF5 files and resizing are
 * not part of this model.
 */
module Preprocessing {
  import opened Wrappers
  import opened Text
  import opened Timestamps

  const BT_MIN: real := 180.0
  const BT_MAX: real := 320.0
  const PIXEL_RESOLUTION_KM: real := 4.0

  function Clip(x: real, lo: real, hi: real): (r: real)
    requires lo <= hi
    ensures lo <= r <= hi
    ensures lo <= x <= hi ==> r == x
  {
    if x < lo then lo else if x > hi then hi else x
  }

  /** One pixel of `normalize_bt`: `(bt - min) / (max - min)` clipped to [0, 1]. */
  function NormalizeValue(bt: real, minBt: real, maxBt: real): (r: real)
    requires minBt != maxBt
    ensures 0.0 <= r <= 1.0
  {
    Clip((bt - minBt) / (maxBt - minBt), 0.0, 1.0)
  }

  function NormalizeBt(bt: seq<seq<real>>, minBt: real, maxBt: real): (r: seq<seq<real>>)
    requires minBt != maxBt
    ensures |r| == |bt| && forall i :: 0 <= i < |bt| ==> |r[i]| == |bt[i]|
    ensures forall i, j :: 0 <= i < |bt| && 0 <= j < |bt[i]| ==>
      r[i][j] == NormalizeValue(bt[i][j], minBt, maxBt)
  {
    seq(|bt|, i requires 0 <= i < |bt| =>
      seq(|bt[i]|, j requires 0 <= j < |bt[i]| => NormalizeValue(bt[i][j], minBt, maxBt)))
  }

  /**
   * With the physical bounds 180 K and 320 K: colder than 180 K maps to 0,
   * warmer than 320 K to 1, and in between the value is the linear position.
   */
  lemma NormalizeValueBounds(bt: real)
    ensures bt <= BT_MIN ==> NormalizeValue(bt, BT_MIN, BT_MAX) == 0.0
    ensures bt >= BT_MAX ==> NormalizeValue(bt, BT_MIN, BT_MAX) == 1.0
    ensures BT_MIN <= bt <= BT_MAX ==> NormalizeValue(bt, BT_MIN, BT_MAX) * 140.0 == bt - BT_MIN
  {
  }

  /** Warmer pixels never normalise lower (for increasing bounds). */
  lemma NormalizeValueMonotone(a: real, b: real, minBt: real, maxBt: real)
    requires minBt < maxBt && a <= b
    ensures NormalizeValue(a, minBt, maxBt) <= NormalizeValue(b, minBt, maxBt)
  {
    var d := maxBt - minBt;
    assert (a - minBt) / d <= (b - minBt) / d by {
      assert (b - minBt) / d - (a - minBt) / d == (b - a) / d;
    }
  }

  /** `PIXEL_RESOLUTION_KM ** 2`. */
  function GetPixelAreaKm2(): (area: real)
    ensures area == PIXEL_RESOLUTION_KM * PIXEL_RESOLUTION_KM
  {
    PIXEL_RESOLUTION_KM * PIXEL_RESOLUTION_KM
  }

  /** The regular expression `3RIMG_(\d{2})([A-Z]{3})(\d{4})_(\d{4})` matches at `k`. */
  predicate RimgAt(s: string, k: nat)
  {
    k + 20 <= |s| && s[k..k + 6] == "3RIMG_" && IsCore(s[k + 6..k + 20])
  }

  /**
   * `extract_timestamp`: the leftmost `3RIMG_` timestamp of the base name,
   * None when there is none or when that one is not a valid date.
   */
  function ExtractTimestamp(filename: string): (r: Option<DateTime>)
    ensures r.Some? ==> Valid(r.value)
    ensures r.Some? ==> exists k :: RimgAt(Basename(filename), k)
  {
    TimestampOfName(Basename(filename))
  }

  /** The leftmost `3RIMG_` timestamp of a base name, read as a date. */
  function TimestampOfName(name: string): (r: Option<DateTime>)
    ensures r.Some? ==> Valid(r.value)
    ensures r.Some? ==> exists k :: RimgAt(name, k)
  {
    match FirstMatch(name, 0, RimgAt)
    case None => None
    case Some(k) => CoreDate(name[k + 6..k + 20])
  }

  /** A later timestamp never rescues an invalid leftmost one. */
  lemma ExtractTimestampLeftmost(filename: string, k: nat)
    requires RimgAt(Basename(filename), k)
    requires forall j :: 0 <= j < k ==> !RimgAt(Basename(filename), j)
    ensures ExtractTimestamp(filename) == CoreDate(Basename(filename)[k + 6..k + 20])
  {
    FirstMatchIs(Basename(filename), RimgAt, k);
  }

  /** The spelling of a date holds digits, capitals and one '_', never a '/'. */
  lemma CoreTextNoSlash(dt: DateTime)
    requires Valid(dt)
    ensures '/' !in CoreText(dt)
  {
    CoreDateOfText(dt);
    var w := CoreText(dt);
    forall i | 0 <= i < 14
      ensures w[i] != '/'
    {
      if i < 2 {
        assert w[..2][i] == w[i];
      } else if 5 <= i < 9 {
        assert w[5..9][i - 5] == w[i];
      } else if 10 <= i < 12 {
        assert w[10..12][i - 10] == w[i];
      } else if 12 <= i {
        assert w[12..][i - 12] == w[i];
      }
    }
  }

  /** An INSAT-3D base name yields the date it spells. */
  lemma ExtractTimestampOfBase(dt: DateTime, rest: string)
    requires Valid(dt) && '/' !in rest
    ensures '/' !in "3RIMG_" + CoreText(dt) + rest
    ensures TimestampOfName("3RIMG_" + CoreText(dt) + rest) == Some(dt)
  {
    var w := CoreText(dt);
    var name := "3RIMG_" + w + rest;
    assert '/' !in name by {
      CoreTextNoSlash(dt);
    }
    assert name[6..20] == w && CoreDate(w) == Some(dt) by {
      CoreDateOfText(dt);
    }
    assert RimgAt(name, 0) by {
      assert name[..6] == "3RIMG_";
      CoreDateOfText(dt);
    }
    TimestampOfLeadingMatch(name, dt);
  }

  /** A name that opens with a `3RIMG_` timestamp yields that timestamp's date. */
  lemma TimestampOfLeadingMatch(name: string, dt: DateTime)
    requires RimgAt(name, 0) && CoreDate(name[6..20]) == Some(dt)
    ensures TimestampOfName(name) == Some(dt)
  {
    FirstMatchIs(name, RimgAt, 0);
    assert FirstMatch(name, 0, RimgAt) == Some(0);
    assert name[0 + 6..0 + 20] == name[6..20];
  }

  /** An INSAT-3D file name, in any directory, yields the date it spells. */
  lemma ExtractTimestampOfName(dir: string, dt: DateTime, rest: string)
    requires Valid(dt) && '/' !in rest
    ensures ExtractTimestamp(PathJoin(dir, "3RIMG_" + CoreText(dt) + rest)) == Some(dt)
  {
    var name := "3RIMG_" + CoreText(dt) + rest;
    ExtractTimestampOfBase(dt, rest);
    BasenameOfJoin(dir, name);
  }

  /**
   * `extract_timestamp_string`: `YYYYMMDD_HHMM` when the date parses;
   * otherwise the second and third `_`-separated fields of the base name,
   * or the whole base name when it has fewer than three fields.
   */
  function ExtractTimestampString(filename: string): (r: string)
    ensures ExtractTimestamp(filename).Some? ==> r == FormatCompact(ExtractTimestamp(filename).value)
    ensures ExtractTimestamp(filename).None? && |Split(Basename(filename), '_')| < 3 ==> r == Basename(filename)
  {
    match ExtractTimestamp(filename)
    case Some(dt) => FormatCompact(dt)
    case None =>
      var name := Basename(filename);
      var parts := Split(name, '_');
      if |parts| >= 3 then parts[1] + "_" + parts[2] else name
  }

  /** The fallback is built from the base name's own fields. */
  lemma ExtractTimestampStringFallback(filename: string)
    requires ExtractTimestamp(filename).None?
    requires Count(Basename(filename), '_') >= 2
    ensures |Split(Basename(filename), '_')| == Count(Basename(filename), '_') + 1
    ensures var parts := Split(Basename(filename), '_');
      ExtractTimestampString(filename) == parts[1] + "_" + parts[2]
  {
    SplitCount(Basename(filename), '_');
  }

  /** The timestamp string never holds a '/', so it can name a file inside a directory. */
  lemma TimestampStringNoSlash(filename: string)
    ensures '/' !in ExtractTimestampString(filename)
  {
    match ExtractTimestamp(filename)
    case Some(dt) =>
      CompactNoSlash(FormatCompact(dt));
    case None =>
      FieldsNoSlash(Basename(filename));
  }

  /** A digits-underscore-digits stamp holds no '/'. */
  lemma CompactNoSlash(s: string)
    requires |s| == 13 && s[8] == '_' && AllDigits(s[..8]) && AllDigits(s[9..])
    ensures '/' !in s
  {
    forall i | 0 <= i < |s| ensures s[i] != '/' {
      if i < 8 {
        assert s[..8][i] == s[i];
      } else if i > 8 {
        assert s[9..][i - 9] == s[i];
      }
    }
  }

  /** The fallback stamp of a base name holds no '/' when the name holds none. */
  lemma FieldsNoSlash(name: string)
    requires '/' !in name
    ensures var parts := Split(name, '_');
      |parts| >= 3 ==> '/' !in parts[1] + "_" + parts[2]
  {
    var parts := Split(name, '_');
    if |parts| >= 3 {
      if '/' in parts[1] {
        SplitPartsWithin(name, '_', 1, '/');
      }
      if '/' in parts[2] {
        SplitPartsWithin(name, '_', 2, '/');
      }
    }
  }
}

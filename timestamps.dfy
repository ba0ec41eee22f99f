/**
 * The calendar arithmetic and digit handling behind the INSAT-3D file-name
 * timestamps (`DDMMMYYYY_HHMM`) and their compact rendering `YYYYMMDD_HHMM`.
 */
module Timestamps {
  import opened Wrappers
  import opened Text

  /** A `datetime` with minute resolution (seconds are always zero here). */
  datatype DateTime = DateTime(year: int, month: int, day: int, hour: int, minute: int)

  predicate IsLeapYear(y: int)
  {
    y % 4 == 0 && (y % 100 != 0 || y % 400 == 0)
  }

  function DaysInMonth(year: int, month: int): (d: int)
    requires 1 <= month <= 12
    ensures 28 <= d <= 31
    ensures d == 29 <==> month == 2 && IsLeapYear(year)
  {
    if month == 2 then (if IsLeapYear(year) then 29 else 28)
    else if month in {4, 6, 9, 11} then 30
    else 31
  }

  /** The ranges the `datetime` constructor accepts. */
  predicate Valid(dt: DateTime)
  {
    && 1 <= dt.year <= 9999
    && 1 <= dt.month <= 12
    && 1 <= dt.day <= DaysInMonth(dt.year, dt.month)
    && 0 <= dt.hour < 24
    && 0 <= dt.minute < 60
  }

  /** `datetime(year, month, day, hour, minute)`, None where it raises ValueError. */
  function MakeDateTime(year: int, month: int, day: int, hour: int, minute: int): (r: Option<DateTime>)
    ensures r.Some? <==> Valid(DateTime(year, month, day, hour, minute))
    ensures r.Some? ==> r.value == DateTime(year, month, day, hour, minute)
  {
    var dt := DateTime(year, month, day, hour, minute);
    if Valid(dt) then Some(dt) else None
  }

  const MONTHS: seq<string> :=
    ["JAN", "FEB", "MAR", "APR", "MAY", "JUN", "JUL", "AUG", "SEP", "OCT", "NOV", "DEC"]

  function IndexFrom(names: seq<string>, name: string, i: nat): (r: Option<nat>)
    requires i <= |names|
    ensures r.Some? ==> i <= r.value < |names| && names[r.value] == name
    ensures r.Some? ==> forall k :: i <= k < r.value ==> names[k] != name
    ensures r.None? <==> forall k :: i <= k < |names| ==> names[k] != name
    decreases |names| - i
  {
    if i == |names| then None
    else if names[i] == name then Some(i)
    else IndexFrom(names, name, i + 1)
  }

  /** The month table lookup; None where the dictionary raises KeyError. */
  function MonthNumber(abbr: string): (r: Option<int>)
    ensures r.Some? <==> abbr in MONTHS
    ensures r.Some? ==> 1 <= r.value <= 12 && MONTHS[r.value - 1] == abbr
  {
    match IndexFrom(MONTHS, abbr, 0)
    case None => None
    case Some(i) => Some(i + 1)
  }

  /** Every month's abbreviation looks itself up. */
  lemma MonthNumberOfName(m: int)
    requires 1 <= m <= 12
    ensures MonthNumber(MONTHS[m - 1]) == Some(m)
  {
    var name := MONTHS[m - 1];
    match IndexFrom(MONTHS, name, 0)
    case Some(k) =>
      assert MONTHS[k] == name;
      if k != m - 1 {
        MonthsDistinct(k, m - 1);
      }
  }

  /** Every abbreviation is three capital letters. */
  lemma MonthUpper(name: string)
    requires name in MONTHS
    ensures |name| == 3 && forall i :: 0 <= i < 3 ==> IsUpper(name[i])
  {
  }

  /** No two months share an abbreviation: their last two letters already differ. */
  lemma MonthsDistinct(i: int, j: int)
    requires 0 <= i < 12 && 0 <= j < 12 && i != j
    ensures MONTHS[i] != MONTHS[j]
  {
    var tails := ["AN", "EB", "AR", "PR", "AY", "UN", "UL", "UG", "EP", "CT", "OV", "EC"];
    assert forall k :: 0 <= k < 12 ==> MONTHS[k][1..] == tails[k];
    assert tails[i] != tails[j];
  }

  predicate AllDigits(s: string)
  {
    forall i :: 0 <= i < |s| ==> IsDigit(s[i])
  }

  function Pow10(n: nat): (p: nat)
    ensures p >= 1
  {
    if n == 0 then 1 else 10 * Pow10(n - 1)
  }

  /** `int(s)` on a string of ASCII digits. */
  function ParseDigits(s: string): (n: nat)
    requires AllDigits(s)
    ensures n < Pow10(|s|)
  {
    if s == [] then 0
    else ParseDigits(s[..|s| - 1]) * 10 + (s[|s| - 1] as int - '0' as int)
  }

  function DigitChar(d: nat): (c: char)
    requires d < 10
    ensures IsDigit(c)
  {
    ('0' as int + d) as char
  }

  /** Zero-padded decimal rendering of `n` in exactly `width` digits (`%02d`, `%04d`). */
  function FormatDigits(n: nat, width: nat): (s: string)
    requires n < Pow10(width)
    ensures |s| == width && AllDigits(s)
  {
    if width == 0 then ""
    else FormatDigits(n / 10, width - 1) + [DigitChar(n % 10)]
  }

  /** Reading back a zero-padded rendering gives the number. */
  lemma {:induction false} ParseFormatDigits(n: nat, width: nat)
    requires n < Pow10(width)
    ensures ParseDigits(FormatDigits(n, width)) == n
  {
    if width > 0 {
      var s := FormatDigits(n, width);
      assert s[..|s| - 1] == FormatDigits(n / 10, width - 1);
      ParseFormatDigits(n / 10, width - 1);
    }
  }

  /** Rendering a parsed digit string in its own width gives the string back. */
  lemma {:induction false} FormatParseDigits(s: string)
    requires AllDigits(s)
    ensures FormatDigits(ParseDigits(s), |s|) == s
  {
    if s != [] {
      var init := s[..|s| - 1];
      var n := ParseDigits(s);
      assert n / 10 == ParseDigits(init);
      FormatParseDigits(init);
      assert s == init + [s[|s| - 1]];
    }
  }

  /** `strftime("%Y%m%d_%H%M")`, the year padded to four digits. */
  function FormatCompact(dt: DateTime): (s: string)
    requires Valid(dt)
    ensures |s| == 13 && s[8] == '_'
    ensures AllDigits(s[..8]) && AllDigits(s[9..])
  {
    var s := FormatDigits(dt.year, 4) + FormatDigits(dt.month, 2) + FormatDigits(dt.day, 2)
      + "_" + FormatDigits(dt.hour, 2) + FormatDigits(dt.minute, 2);
    assert s[..8] == FormatDigits(dt.year, 4) + FormatDigits(dt.month, 2) + FormatDigits(dt.day, 2);
    assert s[9..] == FormatDigits(dt.hour, 2) + FormatDigits(dt.minute, 2);
    s
  }

  /** Each field can be read back from the compact rendering. */
  lemma FormatCompactFields(dt: DateTime)
    requires Valid(dt)
    ensures var s := FormatCompact(dt);
      && ParseDigits(s[0..4]) == dt.year && ParseDigits(s[4..6]) == dt.month
      && ParseDigits(s[6..8]) == dt.day && ParseDigits(s[9..11]) == dt.hour
      && ParseDigits(s[11..13]) == dt.minute
  {
    var s := FormatCompact(dt);
    assert s[0..4] == FormatDigits(dt.year, 4);
    assert s[4..6] == FormatDigits(dt.month, 2);
    assert s[6..8] == FormatDigits(dt.day, 2);
    assert s[9..11] == FormatDigits(dt.hour, 2);
    assert s[11..13] == FormatDigits(dt.minute, 2);
    ParseFormatDigits(dt.year, 4);
    ParseFormatDigits(dt.month, 2);
    ParseFormatDigits(dt.day, 2);
    ParseFormatDigits(dt.hour, 2);
    ParseFormatDigits(dt.minute, 2);
  }

  /** Distinct times never share a compact timestamp. */
  lemma FormatCompactInjective(a: DateTime, b: DateTime)
    requires Valid(a) && Valid(b) && FormatCompact(a) == FormatCompact(b)
    ensures a == b
  {
    FormatCompactFields(a);
    FormatCompactFields(b);
  }

  /** `w` is exactly a `DDMMMYYYY_HHMM` group: `\d{2}[A-Z]{3}\d{4}_\d{4}`. */
  predicate IsCore(w: string)
  {
    && |w| == 14
    && AllDigits(w[..2])
    && (forall i :: 2 <= i < 5 ==> IsUpper(w[i]))
    && AllDigits(w[5..9])
    && w[9] == '_'
    && AllDigits(w[10..12])
    && AllDigits(w[12..])
  }

  /** The regular expression `\d{2}[A-Z]{3}\d{4}_\d{4}` matches at `k`. */
  predicate CoreAt(s: string, k: nat)
  {
    k + 14 <= |s| && IsCore(s[k..k + 14])
  }

  /**
   * The date named by a `DDMMMYYYY_HHMM` group: month looked up in the
   * table, day, year, hour and minute read as decimals, then validated.
   */
  function CoreDate(w: string): (r: Option<DateTime>)
    requires IsCore(w)
    ensures r.Some? ==> Valid(r.value)
  {
    match MonthNumber(w[2..5])
    case None => None
    case Some(m) =>
      MakeDateTime(ParseDigits(w[5..9]), m, ParseDigits(w[..2]),
        ParseDigits(w[10..12]), ParseDigits(w[12..]))
  }

  /** The file-name spelling of a date: `DDMMMYYYY_HHMM`. */
  function CoreText(dt: DateTime): (s: string)
    requires Valid(dt)
    ensures |s| == 14
  {
    FormatDigits(dt.day, 2) + MONTHS[dt.month - 1] + FormatDigits(dt.year, 4) + "_"
      + FormatDigits(dt.hour, 2) + FormatDigits(dt.minute, 2)
  }

  /** The spelling of a date is a timestamp group that reads back as that date. */
  lemma CoreDateOfText(dt: DateTime)
    requires Valid(dt)
    ensures IsCore(CoreText(dt))
    ensures CoreDate(CoreText(dt)) == Some(dt)
  {
    var w := CoreText(dt);
    assert w[..2] == FormatDigits(dt.day, 2);
    assert w[2..5] == MONTHS[dt.month - 1];
    assert forall i :: 2 <= i < 5 ==> IsUpper(w[i]) by {
      MonthUpper(MONTHS[dt.month - 1]);
      forall i | 2 <= i < 5 ensures IsUpper(w[i]) {
        assert w[i] == w[2..5][i - 2];
      }
    }
    assert w[5..9] == FormatDigits(dt.year, 4);
    assert w[10..12] == FormatDigits(dt.hour, 2);
    assert w[12..] == FormatDigits(dt.minute, 2);
    MonthNumberOfName(dt.month);
    ParseFormatDigits(dt.year, 4);
    ParseFormatDigits(dt.day, 2);
    ParseFormatDigits(dt.hour, 2);
    ParseFormatDigits(dt.minute, 2);
  }

  /** Inside any text, the spelling of a date is matched where it stands. */
  lemma CoreAtText(prefix: string, dt: DateTime, suffix: string)
    requires Valid(dt)
    ensures CoreAt(prefix + CoreText(dt) + suffix, |prefix|)
    ensures (prefix + CoreText(dt) + suffix)[|prefix|..|prefix| + 14] == CoreText(dt)
  {
    var s := prefix + CoreText(dt) + suffix;
    assert s[|prefix|..|prefix| + 14] == CoreText(dt);
    CoreDateOfText(dt);
  }

  /**
   * `re.search`: the leftmost position at or after `from` where `at` holds.
   * None when there is none up to the end of `s`.
   */
  function FirstMatch(s: string, from: nat, at: (string, nat) -> bool): (r: Option<nat>)
    requires from <= |s|
    ensures r.Some? ==> from <= r.value <= |s| && at(s, r.value)
    ensures r.Some? ==> forall k :: from <= k < r.value ==> !at(s, k)
    ensures r.None? <==> forall k :: from <= k <= |s| ==> !at(s, k)
    decreases |s| - from
  {
    if at(s, from) then Some(from)
    else if from == |s| then None
    else FirstMatch(s, from + 1, at)
  }

  /** A match at `k` with none before it is the one found. */
  lemma FirstMatchIs(s: string, at: (string, nat) -> bool, k: nat)
    requires k <= |s| && at(s, k)
    requires forall j :: 0 <= j < k ==> !at(s, j)
    ensures FirstMatch(s, 0, at) == Some(k)
  {
  }
}

/**
 * Upload file-name handling (backend/utils/file_utils.py): extension
 * check, sanitising and unique names. The uuid is a parameter.
 */
module FileUtils {
  import opened Wrappers
  import opened Text

  /** `settings.ALLOWED_EXTENSIONS` (backend/config.py). */
  const ALLOWED_EXTENSIONS: seq<string> := [".h5", ".hdf5"]
  const MAX_NAME_LENGTH: nat := 255
  const KEPT_STEM_LENGTH: nat := 250

  /** Index of the last occurrence of `c` as an int, -1 when absent (`str.rfind`). */
  function RFind(s: string, c: char): (i: int)
    ensures -1 <= i < |s|
    ensures i == -1 <==> c !in s
    ensures i >= 0 ==> s[i] == c && c !in s[i + 1..]
  {
    match LastIndexOf(s, c)
    case None => -1
    case Some(k) => k
  }

  /** The components `pathlib` keeps: empty and "." components are dropped. */
  function KeptParts(parts: seq<string>): (r: seq<string>)
    ensures forall k :: 0 <= k < |r| ==> r[k] != "" && r[k] != "." && r[k] in parts
  {
    if parts == [] then []
    else (if parts[0] == "" || parts[0] == "." then [] else [parts[0]]) + KeptParts(parts[1..])
  }

  /** `PurePosixPath(p).name`: the last kept component, "" when there is none. */
  function PathName(p: string): (name: string)
    ensures '/' !in name
  {
    var parts := KeptParts(Split(p, '/'));
    if parts == [] then "" else parts[|parts| - 1]
  }

  /** `PurePath.suffix`: from the last '.' of the name, unless that dot is first or last. */
  function Suffix(p: string): (ext: string)
    ensures ext == "" || (|ext| >= 2 && ext[0] == '.' && '.' !in ext[1..] && '/' !in ext)
    ensures ext != "" ==> EndsWith(PathName(p), ext) && |ext| < |PathName(p)|
  {
    var name := PathName(p);
    var i := RFind(name, '.');
    if 0 < i < |name| - 1 then name[i..] else ""
  }

  /** `validate_file_extension`: the lower-cased suffix is an allowed one. */
  function ValidateFileExtension(filename: string): (ok: bool)
    ensures ok <==> Lower(Suffix(filename)) in ALLOWED_EXTENSIONS
  {
    Lower(Suffix(filename)) in ALLOWED_EXTENSIONS
  }

  lemma LowerEndsWith(s: string, t: string)
    requires EndsWith(s, t)
    ensures EndsWith(Lower(s), Lower(t))
  {
    assert Lower(s)[|s| - |t|..] == Lower(t);
  }

  /** An accepted name ends, ignoring case, in ".h5" or ".hdf5", after a non-empty stem. */
  lemma ValidatedNamesEndInH5(filename: string)
    requires ValidateFileExtension(filename)
    ensures var name := Lower(PathName(filename));
      (EndsWith(name, ".h5") && |name| > 3) || (EndsWith(name, ".hdf5") && |name| > 5)
  {
    var ext := Suffix(filename);
    var name := PathName(filename);
    LowerEndsWith(name, ext);
    assert |ext| < |name| == |Lower(name)|;
    if Lower(ext) == ".h5" {
      assert |ext| == 3;
    } else {
      assert Lower(ext) == ".hdf5";
      assert |ext| == 5;
    }
  }

  /** A hidden file named ".h5" has no suffix and is refused, as is "x.h5.txt", whose suffix is ".txt". */
  lemma DotFilesAreRefused()
    ensures !ValidateFileExtension(".h5")
    ensures Suffix("x.h5.txt") == ".txt" && !ValidateFileExtension("x.h5.txt")
  {
    HiddenFileHasNoSuffix();
    LastSuffixOnly();
    RefusedByLength(".h5");
    RefusedByLength("x.h5.txt");
  }

  /** The allowed extensions have lengths 3 and 5: a suffix of any other length is refused. */
  lemma RefusedByLength(filename: string)
    requires |Suffix(filename)| != 3 && |Suffix(filename)| != 5
    ensures !ValidateFileExtension(filename)
  {
  }

  lemma HiddenFileHasNoSuffix()
    ensures Suffix(".h5") == ""
  {
    SplitNoSep(".h5", '/');
    assert KeptParts([".h5"]) == [".h5"];
    assert RFind(".h5", '.') == 0;
  }

  lemma LastSuffixOnly()
    ensures Suffix("x.h5.txt") == ".txt"
  {
    var name := "x.h5.txt";
    PlainNameSuffix(name, 4);
    assert name[4..] == ".txt";
  }

  /** For a name without '/' whose last '.' is at `i`, strictly inside, the suffix starts at that dot. */
  lemma PlainNameSuffix(name: string, i: nat)
    requires '/' !in name && 0 < i < |name| - 1 && name[i] == '.' && '.' !in name[i + 1..]
    ensures Suffix(name) == name[i..]
  {
    SplitNoSep(name, '/');
    assert KeptParts([name]) == [name] by {
      assert name != "" && name != ".";
      assert KeptParts([name]) == [name] + KeptParts([]);
    }
    assert PathName(name) == name;
    var j := RFind(name, '.');
    NoDotAfter(name, i);
    NoDotAfter(name, j);
  }

  /** No '.' follows position `i` when none is in `s[i + 1..]`. */
  lemma NoDotAfter(s: string, i: int)
    requires 0 <= i < |s| && '.' !in s[i + 1..]
    ensures forall k :: i < k < |s| ==> s[k] != '.'
  {
    forall k | i < k < |s|
      ensures s[k] != '.'
    {
      assert s[k] == s[i + 1..][k - i - 1];
    }
  }

  /** Characters `[\w\s\-\.]` that the sanitiser keeps. */
  predicate Allowed(c: char)
  {
    IsWordChar(c) || IsSpaceChar(c) || c == '-' || c == '.'
  }

  /** `re.sub(r'[^\w\s\-\.]', '', s)`. */
  function KeepAllowed(s: string): (r: string)
    ensures |r| <= |s|
    ensures forall k :: 0 <= k < |r| ==> Allowed(r[k]) && r[k] in s
  {
    if s == [] then [] else (if Allowed(s[0]) then [s[0]] else []) + KeepAllowed(s[1..])
  }

  /** A string made only of kept characters passes through unchanged. */
  lemma {:induction false} KeepAllowedOfAllowed(s: string)
    requires forall k :: 0 <= k < |s| ==> Allowed(s[k])
    ensures KeepAllowed(s) == s
  {
    if s != [] {
      KeepAllowedOfAllowed(s[1..]);
    }
  }

  /** `str.replace(' ', '_')`. */
  function SpacesToUnderscores(s: string): (r: string)
    ensures |r| == |s|
    ensures forall k :: 0 <= k < |s| ==> r[k] == (if s[k] == ' ' then '_' else s[k])
  {
    seq(|s|, k requires 0 <= k < |s| => if s[k] == ' ' then '_' else s[k])
  }

  /** `os.path.splitext` on POSIX: the extension starts at the last dot after a non-dot. */
  function SplitExt(p: string): (r: (string, string))
    ensures r.0 + r.1 == p
    ensures r.1 == "" || (r.1[0] == '.' && '.' !in r.1[1..] && '/' !in r.1)
  {
    var sep := RFind(p, '/');
    var dot := RFind(p, '.');
    if dot > sep && exists k :: sep + 1 <= k < dot && p[k] != '.' then
      assert p[..dot] + p[dot..] == p;
      (p[..dot], p[dot..])
    else (p, "")
  }

  /** What the sanitiser does before any length limit. */
  function Cleaned(filename: string): (r: string)
    ensures SafeChars(r)
  {
    SpacesToUnderscores(KeepAllowed(Basename(filename)))
  }

  /** Characters of a sanitised name: kept by the filter, and not a space. */
  predicate SafeChars(s: string)
  {
    forall k :: 0 <= k < |s| ==> Allowed(s[k]) && s[k] != ' '
  }

  /** The 250-character stem cut that keeps the extension. */
  function CutStem(s: string): (r: string)
    ensures SafeChars(s) ==> SafeChars(r)
    ensures EndsWith(r, SplitExt(s).1)
    ensures |r| == (if |SplitExt(s).0| > KEPT_STEM_LENGTH then KEPT_STEM_LENGTH else |SplitExt(s).0|) + |SplitExt(s).1|
  {
    var (name, ext) := SplitExt(s);
    var m := if |name| > KEPT_STEM_LENGTH then KEPT_STEM_LENGTH else |name|;
    assert name + ext == s;
    assert name[..m] == s[..m] && ext == s[|name|..];
    StemAndExtSafe(s, m, |name|);
    name[..m] + ext
  }

  lemma StemAndExtSafe(s: string, m: nat, n: nat)
    requires m <= n <= |s|
    ensures SafeChars(s) ==> SafeChars(s[..m] + s[n..])
  {
    if SafeChars(s) {
      var r := s[..m] + s[n..];
      forall k | 0 <= k < |r|
        ensures Allowed(r[k]) && r[k] != ' '
      {
        if k < m {
          assert r[k] == s[k];
        } else {
          assert r[k] == s[n + k - m];
        }
      }
    }
  }

  /**
   * `sanitize_filename`: base name, disallowed characters removed, spaces
   * turned into underscores, and a name longer than 255 cut to a 250-char
   * stem plus its extension.
   */
  function SanitizeFilename(filename: string): (r: string)
    ensures SafeChars(r)
  {
    var cleaned := Cleaned(filename);
    if |cleaned| > MAX_NAME_LENGTH then CutStem(cleaned) else cleaned
  }

  /**
   * Only the base name matters: a path sanitises like its last component,
   * so a name joined to any directory sanitises like the name alone.
   */
  lemma SanitizeKeepsBasename(dir: string, filename: string)
    ensures SanitizeFilename(filename) == SanitizeFilename(Basename(filename))
    ensures '/' !in filename ==> SanitizeFilename(PathJoin(dir, filename)) == SanitizeFilename(filename)
  {
    var b := Basename(filename);
    BasenameOfJoin(dir, b);
    SameBasenameSameName(b, filename);
    if '/' !in filename {
      BasenameOfJoin(dir, filename);
      SameBasenameSameName(PathJoin(dir, filename), filename);
    }
  }

  lemma SameBasenameSameName(x: string, y: string)
    requires Basename(x) == Basename(y)
    ensures SanitizeFilename(x) == SanitizeFilename(y)
  {
    assert Cleaned(x) == Cleaned(y);
  }

  lemma SeparatorsNotAllowed()
    ensures !Allowed('/') && !Allowed('\\')
  {
  }

  /** Neither path separator nor a space survives sanitising. */
  lemma SanitizedHasNoSeparators(filename: string)
    ensures var r := SanitizeFilename(filename); '/' !in r && '\\' !in r && ' ' !in r
  {
    var r := SanitizeFilename(filename);
    SeparatorsNotAllowed();
    forall k | 0 <= k < |r|
      ensures r[k] != '/' && r[k] != '\\' && r[k] != ' '
    {
      assert Allowed(r[k]);
    }
  }

  /** Up to 255 characters the cleaned name is kept whole; beyond, the stem is cut and the extension kept. */
  lemma SanitizeLength(filename: string)
    ensures |Cleaned(filename)| <= MAX_NAME_LENGTH ==> SanitizeFilename(filename) == Cleaned(filename)
    ensures |Cleaned(filename)| > MAX_NAME_LENGTH ==>
      var (name, ext) := SplitExt(Cleaned(filename));
      && EndsWith(SanitizeFilename(filename), ext)
      && StartsWith(SanitizeFilename(filename), name[..if |name| > KEPT_STEM_LENGTH then KEPT_STEM_LENGTH else |name|])
      && |SanitizeFilename(filename)| <= KEPT_STEM_LENGTH + |ext|
      && (|ext| <= MAX_NAME_LENGTH - KEPT_STEM_LENGTH ==> |SanitizeFilename(filename)| <= MAX_NAME_LENGTH)
  {
    var c := Cleaned(filename);
    if |c| > MAX_NAME_LENGTH {
      var (name, ext) := SplitExt(c);
      var m := if |name| > KEPT_STEM_LENGTH then KEPT_STEM_LENGTH else |name|;
      var r := SanitizeFilename(filename);
      assert r == CutStem(c);
      assert r == name[..m] + ext;
      assert r[..m] == name[..m];
    }
  }

  /** A short sanitised name is a fixed point: sanitising it again changes nothing. */
  lemma SanitizeIdempotent(filename: string)
    requires |SanitizeFilename(filename)| <= MAX_NAME_LENGTH
    requires |Cleaned(filename)| <= MAX_NAME_LENGTH
    ensures SanitizeFilename(SanitizeFilename(filename)) == SanitizeFilename(filename)
  {
    var r := SanitizeFilename(filename);
    assert Basename(r) == r by {
      SanitizedHasNoSeparators(filename);
      BasenameOfJoin("", r);
    }
    assert KeepAllowed(r) == r by {
      KeepAllowedOfAllowed(r);
    }
    assert Cleaned(r) == r by {
      assert SpacesToUnderscores(r) == r;
    }
  }

  /** `generate_unique_filename`: the uuid followed by the sanitised name's suffix. */
  function GenerateUniqueFilename(originalFilename: string, uuid: string): (r: string)
    ensures StartsWith(r, uuid)
  {
    uuid + Suffix(SanitizeFilename(originalFilename))
  }

  /** With a uuid free of '/' and '.', the unique name keeps the sanitised name's extension. */
  lemma UniqueFilenameKeepsSuffix(originalFilename: string, uuid: string)
    requires uuid != [] && '/' !in uuid && '.' !in uuid
    ensures Suffix(GenerateUniqueFilename(originalFilename, uuid)) == Suffix(SanitizeFilename(originalFilename))
  {
    var ext := Suffix(SanitizeFilename(originalFilename));
    var r := uuid + ext;
    assert '/' !in r;
    SplitNoSep(r, '/');
    assert r != "" && r != ".";
    assert KeptParts([r]) == [r];
    assert PathName(r) == r;
    if ext == "" {
      assert '.' !in r;
    } else {
      LastDotAfter(uuid, ext);
    }
  }

  /** After a dot-free prefix, the last dot is the extension's leading one. */
  lemma LastDotAfter(uuid: string, ext: string)
    requires '.' !in uuid && ext != [] && ext[0] == '.' && '.' !in ext[1..]
    ensures RFind(uuid + ext, '.') == |uuid|
  {
    var r := uuid + ext;
    assert r[|uuid|] == '.';
    assert forall k :: 0 <= k < |uuid| ==> r[k] == uuid[k];
    assert forall k :: |uuid| < k < |r| ==> r[k] == ext[1..][k - |uuid| - 1];
  }

  /** A string without the separator splits into itself. */
  lemma {:induction false} SplitNoSep(s: string, sep: char)
    requires sep !in s
    ensures Split(s, sep) == [s]
  {
    if s != [] {
      SplitNoSep(s[1..], sep);
      assert s == [s[0]] + s[1..];
    }
  }
}

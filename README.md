# Cloudsense detection and tracking core in Dafny

Cloudsense detects tropical cloud clusters (TCCs) in INSAT-3D infrared
brightness-temperature (BT) imagery and follows them from frame to frame.
This project models the logic between the satellite files and the exported
trajectories, one Dafny module per source file:

- `Tracking` (backend/modules/tracking.py): the multi-object tracker. A
  `KalmanTrack` class per track and a `TCCTracker` class holding the track
  registry. Each frame, every track predicts; clusters are matched to tracks
  one-to-one under the distance gate; matched tracks are corrected;
  unmatched clusters get fresh ids; lost tracks are deleted. The class
  methods are proved against the value-level `FrameStep` / `FrameOutput`,
  and the lemmas beside those state what a frame does to each track and
  each output record.
- `TrackKalman` (training/track_kalman.py): the single-target gated
  `CycloneTracker` and the row-emission rule of its trajectory loop.
- `Thresholding`, `Segmentation`, `Clustering`, `FeatureExtraction`,
  `PseudoLabels`, `GenerateLabels`: the per-frame detection stages over
  grids of reals and byte masks. These are BT thresholds, mask ensembling
  and confidence, label-to-cluster grouping with the geophysical filter and
  the greedy separation pass, cluster features, and pseudo-label painting.
- `Preprocessing`, `DatasetAudit`, `FileUtils`, `Output`: INSAT file-name
  timestamp parsing, BT normalisation, upload file-name sanitising, the
  audit script's grouping of files by timestamp, and the grouping and column
  order of the JSON, CSV and NetCDF exports.
- Shared helpers: `Wrappers` (Option/Result for `None` and raised
  exceptions), `Numeric` (sum, min, max, mean), `Grids` (H x W grids and
  masks), `Text` (paths, `split`, ASCII classes, code-point order),
  `Sorting` (Python's stable `sorted` as an insertion sort) and
  `Timestamps` (calendar validity and `YYYYMMDD_HHMM` rendering).

Floats are exact reals. Square roots are avoided by comparing squares: a
cluster's radius is kept as `radiusSq`, the BT standard deviation as a
variance, and an ellipse's eccentricity and a track's speed as squares.
The great-circle distance, the assignment solver (`linear_sum_assignment`),
the Kalman covariance update and `cv2.fitEllipse` are function parameters.
The solver carries the contract that SciPy documents for it: rows strictly
increasing, columns distinct, all in range.

## Model

| member | source | states |
|---|---|---|
| Text.LowerChar | backend/utils/file_utils.py:27 | `str.lower()` on one character: a capital becomes its small letter, everything else is unchanged |
| Text.Lower | backend/utils/file_utils.py:27 | `.lower()` keeps the length and lowers each character in place |
| Text.LastIndexOf | backend/utils/file_utils.py:27 | `rfind`: None iff the character is absent, otherwise the last position holding it |
| Text.Basename | backend/modules/preprocessing.py:175 | `os.path.basename` is a '/'-free suffix of the path, preceded by '/' when shorter than it |
| Text.BasenameOfJoin | backend/modules/preprocessing.py:175 | a '/'-free name is its own base name, also after being joined to any directory |
| Text.PathJoin | training/dataset_audit.py:59 | `os.path.join(dirpath, f)` ends with the file name |
| Text.Split | backend/modules/preprocessing.py:215 | `basename.split('_')` gives at least one part and no part holds the separator |
| Text.SplitPartsWithin | backend/modules/preprocessing.py:215 | every character of a part comes from the split string |
| Text.SplitJoin | backend/modules/preprocessing.py:215 | joining the parts with the separator gives the string back (round trip) |
| Text.Count | backend/modules/preprocessing.py:215 | the separator count is bounded by the length |
| Text.SplitCount | backend/modules/preprocessing.py:215-216 | there is exactly one more part than there are separators |
| Text.StrLeTotal | backend/modules/pseudo_labels.py:120 | Python's string order compares any two timestamps |
| Text.StrLeTrans | backend/modules/pseudo_labels.py:120 | Python's string order is transitive |
| Text.StrLeAntisymmetric | backend/modules/pseudo_labels.py:120 | only equal strings precede each other both ways |
| Sorting.InsertStable | backend/modules/output.py:170 | one stable insertion adds exactly the new element to the multiset |
| Sorting.SortBy | backend/modules/output.py:170 | `sorted` returns a permutation of its input |
| Sorting.InsertStableSorted | backend/modules/output.py:170 | inserting into a sorted sequence keeps it sorted under a total order |
| Sorting.SortBySorted | backend/modules/output.py:170 | `sorted` output is ordered and a permutation of the input |
| Sorting.SortByOfSorted | backend/modules/clustering.py:208 | sorting an already sorted sequence changes nothing (stability) |
| Grids.SelectRow | backend/modules/thresholding.py:119-120 | boolean selection on a row keeps at most the row's values |
| Grids.SelectRowMembership | backend/modules/thresholding.py:119-120 | a row value is selected iff it sits under a 1 of the mask |
| Grids.SelectMembership | backend/modules/thresholding.py:119-120 | `bt_array[mask == 1]` holds a value iff some pixel under a 1 has it |
| Grids.SelectRowLength | backend/modules/thresholding.py:119-120 | a row selection has one value per 1 in the mask row |
| Grids.SelectLength | backend/modules/thresholding.py:119-120 | the selection has one value per 1-cell of the mask |
| Grids.BinaryRowSum | backend/modules/thresholding.py:163 | on a 0/1 row the sum counts the ones |
| Grids.BinarySumCountsOnes | backend/modules/thresholding.py:163 | on a 0/1 mask `np.sum(mask)` counts the 1-cells |
| Grids.Flatten | backend/modules/thresholding.py:122 | `flatten()` has one value per cell |
| Numeric.Min | backend/modules/feature_extraction.py:78 | `np.min` is an element and no element is below it |
| Numeric.Max | backend/modules/feature_extraction.py:79 | `np.max` is an element and no element is above it |
| Numeric.SumBounds | backend/modules/feature_extraction.py:80 | a sum of values within [lo, hi] lies within n*lo and n*hi |
| Numeric.MeanBetweenMinMax | backend/modules/feature_extraction.py:78-80 | `np.min <= np.mean <= np.max` on a non-empty array |
| Numeric.MeanWithin | backend/modules/feature_extraction.py:80 | the mean of values within [lo, hi] lies within [lo, hi] |
| Numeric.DivBounds | backend/modules/feature_extraction.py:80 | dividing a total between n*lo and n*hi by n gives a value in [lo, hi] |
| Numeric.MulCancel | backend/modules/feature_extraction.py:80 | a positive factor can be cancelled from an inequality |
| Numeric.CountTrue | backend/modules/segmentation.py:190 | the number of true entries is at most the length |
| Numeric.MaxReal | backend/modules/feature_extraction.py:254 | `max(a, b)` is at least both arguments and equal to one of them |
| Timestamps.DaysInMonth | backend/modules/preprocessing.py:198 | the days `datetime` accepts in a month: 28 to 31, and 29 exactly for February of a leap year |
| Timestamps.MakeDateTime | backend/modules/preprocessing.py:198 | `datetime(...)` succeeds iff every field is in range, and then holds those fields |
| Timestamps.IndexFrom | backend/modules/preprocessing.py:188-194 | the first index holding the name, None iff no entry from `i` on holds it |
| Timestamps.MonthNumber | backend/modules/preprocessing.py:188-194 | the month dictionary lookup succeeds iff the key is one of the 12 abbreviations, and gives its 1-based number |
| Timestamps.MonthNumberOfName | backend/modules/preprocessing.py:188-191 | each abbreviation looks up its own month number |
| Timestamps.MonthUpper | backend/modules/preprocessing.py:178-191 | every abbreviation is three capitals, so `[A-Z]{3}` can match it |
| Timestamps.MonthsDistinct | backend/modules/preprocessing.py:188-191 | no two months share an abbreviation |
| Timestamps.Pow10 | backend/modules/preprocessing.py:195-196 | powers of ten are positive |
| Timestamps.ParseDigits | backend/modules/preprocessing.py:195-196 | `int(s)` of n digits is below 10^n |
| Timestamps.DigitChar | backend/modules/preprocessing.py:211 | a decimal digit renders as a digit character |
| Timestamps.FormatDigits | backend/modules/preprocessing.py:211 | zero-padded rendering has exactly the requested width and only digits |
| Timestamps.ParseFormatDigits | backend/modules/preprocessing.py:195-211 | reading a zero-padded rendering gives the number back (round trip) |
| Timestamps.FormatParseDigits | backend/modules/preprocessing.py:195-211 | rendering a parsed digit string in its width gives the string back (round trip) |
| Timestamps.FormatCompact | backend/modules/preprocessing.py:211 | `strftime("%Y%m%d_%H%M")` is 13 characters: 8 digits, '_', 4 digits |
| Timestamps.FormatCompactFields | backend/modules/preprocessing.py:211 | each date field reads back from its place in the compact string |
| Timestamps.FormatCompactInjective | backend/modules/preprocessing.py:211 | distinct valid times never share a compact timestamp |
| Timestamps.CoreDate | training/dataset_audit.py:27-32 | a parsed `DDMMMYYYY_HHMM` group is a valid date when it parses at all |
| Timestamps.CoreText | training/dataset_audit.py:24 | the file-name spelling of a date is 14 characters |
| Timestamps.CoreDateOfText | training/dataset_audit.py:24-30 | the spelling of a date matches the pattern and parses back to that date (round trip) |
| Timestamps.CoreAtText | training/dataset_audit.py:24 | inside any text the pattern matches where a date's spelling stands |
| Timestamps.FirstMatch | backend/modules/preprocessing.py:179 | `re.search` finds the leftmost match at or after the start, None iff there is none |
| Timestamps.FirstMatchIs | backend/modules/preprocessing.py:179 | a match with none before it is the one `re.search` returns |
| Preprocessing.Clip | backend/modules/preprocessing.py:126 | `np.clip` lands in [lo, hi] and leaves in-range values alone |
| Preprocessing.NormalizeValue | backend/modules/preprocessing.py:125-126 | one normalised pixel lies in [0, 1] |
| Preprocessing.NormalizeBt | backend/modules/preprocessing.py:109-126 | `normalize_bt` keeps the grid's shape and normalises each pixel independently into [0, 1] |
| Preprocessing.NormalizeValueBounds | backend/modules/preprocessing.py:125-126 | with 180 K and 320 K: colder maps to 0, warmer to 1, in between linearly |
| Preprocessing.NormalizeValueMonotone | backend/modules/preprocessing.py:125-126 | normalisation is non-decreasing in brightness temperature |
| Preprocessing.GetPixelAreaKm2 | backend/modules/preprocessing.py:221-223 | the pixel area is the 4 km resolution squared, 16 km² |
| Preprocessing.ExtractTimestamp | backend/modules/preprocessing.py:162-201 | a returned date is valid and comes from a `3RIMG_` match in the base name |
| Preprocessing.TimestampOfName | backend/modules/preprocessing.py:178-201 | the date read from a base name is valid and comes from a match |
| Preprocessing.ExtractTimestampLeftmost | backend/modules/preprocessing.py:179-201 | the leftmost match decides: an invalid leftmost date gives None even when a later one is valid |
| Preprocessing.CoreTextNoSlash | backend/modules/preprocessing.py:175-178 | a date's spelling holds no '/' |
| Preprocessing.ExtractTimestampOfBase | backend/modules/preprocessing.py:162-198 | an INSAT-3D base name `3RIMG_DDMMMYYYY_HHMM...` yields the date it spells |
| Preprocessing.TimestampOfLeadingMatch | backend/modules/preprocessing.py:179-198 | a name opening with a match yields that match's date |
| Preprocessing.ExtractTimestampOfName | backend/modules/preprocessing.py:162-198 | an INSAT-3D file name in any directory yields the date it spells |
| Preprocessing.ExtractTimestampString | backend/modules/preprocessing.py:204-218 | `YYYYMMDD_HHMM` of the parsed date; on failure the base name when it has fewer than three '_' fields |
| Preprocessing.ExtractTimestampStringFallback | backend/modules/preprocessing.py:213-217 | on failure with at least three fields the result is `parts[1] + "_" + parts[2]` of the base name |
| Preprocessing.TimestampStringNoSlash | backend/modules/preprocessing.py:204-218 | the timestamp string never holds a '/' (directories are ignored) |
| Preprocessing.CompactNoSlash | backend/modules/preprocessing.py:211 | a compact timestamp holds no '/' |
| Preprocessing.FieldsNoSlash | backend/modules/preprocessing.py:215-217 | the fallback fields of a '/'-free name hold no '/' |
| DatasetAudit.ParseTimestamp | training/dataset_audit.py:17-33 | a result is the compact rendering of some valid date, and only when the pattern matches |
| DatasetAudit.ParseTimestampLeftmost | training/dataset_audit.py:24-32 | the first match decides: it is re-rendered when valid, otherwise the result is None |
| DatasetAudit.ParseTimestampOfName | training/dataset_audit.py:17-30 | on INSAT-3D names the audit's timestamp equals the compact rendering of the spelled date |
| DatasetAudit.DirFiles | training/dataset_audit.py:43-44 | the `(dirpath, f)` pairs of one directory, one per name, in order |
| DatasetAudit.GroupedIsPathsFor | training/dataset_audit.py:57-62 | `files_map` has a key iff some selected file has that timestamp, and then lists exactly their joined paths in visiting order |
| DatasetAudit.PathsForComplete | training/dataset_audit.py:45-62 | every file with the extension and a parseable timestamp is kept under it |
| DatasetAudit.PathsForSound | training/dataset_audit.py:45-62 | only files with the extension and that timestamp are kept under it |
| DatasetAudit.GroupedSnoc | training/dataset_audit.py:44-62 | visiting one more file applies one grouping step |
| DatasetAudit.FirstOfEach | training/dataset_audit.py:69 | `{k: v[0] ...}` keeps every key with its first path |
| DatasetAudit.GroupedNonEmpty | training/dataset_audit.py:60-62 | every list in `files_map` is non-empty, so `v[0]` is defined |
| DatasetAudit.FirstPerTimestamp | training/dataset_audit.py:65-69 | for ".h5": a key iff some file was selected for it, mapped to the first such path |
| DatasetAudit.WalkFilesStep | training/dataset_audit.py:43-44 | walking one more directory appends its pairs |
| DatasetAudit.VisitFile | training/dataset_audit.py:45-62 | one inner-loop iteration performs one grouping step |
| DatasetAudit.ScanDirectory | training/dataset_audit.py:44-62 | the inner loop groups one directory's names on top of what was visited |
| DatasetAudit.ScanFiles | training/dataset_audit.py:35-71 | `scan_files` returns the grouping of the whole walk, flattened to first paths for ".h5" |
| FileUtils.RFind | backend/utils/file_utils.py:27 | the last index of a character, -1 iff absent |
| FileUtils.KeptParts | backend/utils/file_utils.py:27 | the kept path components are non-empty, not ".", and taken from the path |
| FileUtils.PathName | backend/utils/file_utils.py:27 | `Path(p).name` holds no '/' |
| FileUtils.Suffix | backend/utils/file_utils.py:27 | `Path.suffix` is "" or a '.' plus at least one non-dot character, ending a longer name |
| FileUtils.ValidateFileExtension | backend/utils/file_utils.py:17-28 | accepted iff the lower-cased suffix is an allowed extension |
| FileUtils.LowerEndsWith | backend/utils/file_utils.py:27 | lower-casing preserves a suffix relation |
| FileUtils.ValidatedNamesEndInH5 | backend/utils/file_utils.py:27-28 | an accepted name ends, ignoring case, in ".h5" or ".hdf5" after a non-empty stem |
| FileUtils.DotFilesAreRefused | backend/utils/file_utils.py:27-28 | ".h5" alone is refused (a leading dot starts no suffix), and "x.h5.txt" is refused because only its last suffix ".txt" counts |
| FileUtils.PlainNameSuffix | backend/utils/file_utils.py:27 | in a plain name whose last '.' is neither first nor last, the suffix runs from that '.' to the end |
| FileUtils.SanitizeKeepsBasename | backend/utils/file_utils.py:42 | a path sanitises like its base name, so a name joined to any directory sanitises like the name alone |
| FileUtils.SameBasenameSameName | backend/utils/file_utils.py:42 | two paths with the same base name sanitise to the same name |
| FileUtils.HiddenFileHasNoSuffix | backend/utils/file_utils.py:27 | `PurePath(".h5").suffix` is empty: a leading dot starts no suffix |
| FileUtils.LastSuffixOnly | backend/utils/file_utils.py:27 | `PurePath("x.h5.txt").suffix` is ".txt": only the last dot counts |
| FileUtils.RefusedByLength | backend/utils/file_utils.py:27-28 | the allowed extensions are 3 and 5 characters long, so a suffix of any other length is refused |
| FileUtils.NoDotAfter | backend/utils/file_utils.py:27 | when no '.' follows an index, every later character is not a '.' (used to pin down the last dot) |
| FileUtils.KeepAllowed | backend/utils/file_utils.py:45 | `re.sub(r'[^\w\s\-\.]', '', ...)` keeps only allowed characters from the input |
| FileUtils.KeepAllowedOfAllowed | backend/utils/file_utils.py:45 | a string of allowed characters passes through unchanged |
| FileUtils.SpacesToUnderscores | backend/utils/file_utils.py:48 | `replace(' ', '_')` keeps length and changes exactly the spaces |
| FileUtils.SplitExt | backend/utils/file_utils.py:52 | `os.path.splitext`: the two parts concatenate to the name, and the extension is "" or starts at a dot |
| FileUtils.Cleaned | backend/utils/file_utils.py:42-48 | base name, filter and space replacement leave only safe characters |
| FileUtils.CutStem | backend/utils/file_utils.py:52-53 | the stem is cut to at most 250 characters and the extension kept at the end |
| FileUtils.StemAndExtSafe | backend/utils/file_utils.py:53 | cutting out a middle part keeps the characters safe |
| FileUtils.SanitizeFilename | backend/utils/file_utils.py:31-55 | the sanitised name has only filter-allowed, non-space characters |
| FileUtils.SeparatorsNotAllowed | backend/utils/file_utils.py:45 | neither '/' nor '\\' is allowed by the filter |
| FileUtils.SanitizedHasNoSeparators | backend/utils/file_utils.py:42-48 | no '/', '\\' or space survives sanitising |
| FileUtils.SanitizeLength | backend/utils/file_utils.py:51-53 | up to 255 characters the cleaned name is kept whole; beyond, a 250-character stem plus the extension |
| FileUtils.SanitizeIdempotent | backend/utils/file_utils.py:31-55 | sanitising a short sanitised name again changes nothing |
| FileUtils.GenerateUniqueFilename | backend/utils/file_utils.py:58-71 | the unique name starts with the uuid |
| FileUtils.UniqueFilenameKeepsSuffix | backend/utils/file_utils.py:68-71 | the unique name's suffix is the sanitised name's suffix |
| FileUtils.LastDotAfter | backend/utils/file_utils.py:69-71 | after a dot-free uuid the last dot is the extension's |
| FileUtils.SplitNoSep | backend/modules/preprocessing.py:215 | a string without the separator splits into itself |
| Thresholding.ApplyBtThreshold | backend/modules/thresholding.py:18-41 | a same-shape 0/1 mask that is 1 exactly where bt is strictly below the threshold |
| Thresholding.ThresholdMonotone | backend/modules/thresholding.py:33 | raising the threshold only adds pixels |
| Thresholding.ColdFraction | backend/modules/thresholding.py:67 | `np.mean(primary_mask)` is defined iff the grid has pixels (NaN otherwise) |
| Thresholding.CreateColdCloudMask | backend/modules/thresholding.py:44-75 | a 0/1 mask of the input's shape whose cell is 1 exactly when its temperature is below the chosen threshold: the secondary one when the primary mask's cold fraction is below the minimum, otherwise (a NaN fraction included) the primary one |
| Thresholding.ColdCloudMaskCoversPrimary | backend/modules/thresholding.py:63-75 | with secondary >= primary, every primary-cold pixel stays set whichever mask is chosen |
| Thresholding.StatValuesCount | backend/modules/thresholding.py:119-122 | the masked selection has one value per 1-cell, the flattened grid one per cell |
| Thresholding.GetBtStatistics | backend/modules/thresholding.py:107-139 | masked or whole-grid values; all None with count 0 iff the selection is empty; otherwise min <= mean <= max, min and max taken from the selection, count its size |
| Thresholding.EstimateConvectiveIntensity | backend/modules/thresholding.py:142-172 | "none" iff the mask has no 1-cell; otherwise the label of the minimum BT under the mask |
| Thresholding.LabelOfMin | backend/modules/thresholding.py:165-172 | "extreme" exactly below 190, "strong" exactly in [190, 200), "moderate" exactly in [200, 210), "weak" otherwise; never "none" |
| Thresholding.ThresholdExample | backend/modules/verify_modules.py:67-72 | the module's own test grid gives 200 -> 1, 220 -> 0, 215 -> 1 at 218 K |
| Segmentation.Binarize | backend/modules/segmentation.py:106 | a same-shape 0/1 mask that is 1 exactly where the probability is strictly above 0.5 |
| Segmentation.BinarizeIsStrict | backend/modules/segmentation.py:106 | a probability of exactly 0.5 is background |
| Segmentation.Pow2 | backend/modules/segmentation.py:151-154 | powers of two are positive |
| Segmentation.BitAnd | backend/modules/segmentation.py:151 | `&` never exceeds either operand |
| Segmentation.BitOr | backend/modules/segmentation.py:154 | `\|` is never below either operand |
| Segmentation.BitOrBound | backend/modules/segmentation.py:154 | `\|` of two bytes stays a byte |
| Segmentation.Combine | backend/modules/segmentation.py:149-157 | an elementwise numpy operator keeps the shape and applies cell by cell |
| Segmentation.EnsembleWithThreshold | backend/modules/segmentation.py:131-161 | an error iff the mode is not one of the three; otherwise a same-shape mask built by `&`, `\|` or the uint8 product |
| Segmentation.EnsembleBounds | backend/modules/segmentation.py:151-154 | the intersection is pointwise <= each input, the union pointwise >= each input |
| Segmentation.EnsembleOnBinary | backend/modules/segmentation.py:149-154 | on 0/1 masks: intersection is 1 iff both are 1, union iff either is 1 |
| Segmentation.RefinedIsIntersectionOnBinary | backend/modules/segmentation.py:155-157 | on 0/1 masks "unet_refined" equals "intersection" |
| Segmentation.RefinedDiffersOffBinary | backend/modules/segmentation.py:151-157 | off 0/1 masks the uint8 product wraps (16 * 16 = 0) while `&` gives 16 |
| Segmentation.CountAbove | backend/modules/segmentation.py:190 | the count above a threshold is at most the length |
| Segmentation.GetPredictionConfidence | backend/modules/segmentation.py:164-191 | all four metrics 0.0 when the mask sums to 0 |
| Segmentation.PredictionConfidenceBounds | backend/modules/segmentation.py:184-191 | on a non-empty 0/1 mask: min <= mean <= max, min and max taken from the selected probabilities, and the high-confidence fraction in [0, 1] equals the share above 0.8 |
| Segmentation.FractionFacts | backend/modules/segmentation.py:190 | a count over a larger total is a fraction in [0, 1] |
| Segmentation.PredictionConfidenceEmpty | backend/modules/segmentation.py:176-182 | on a 0/1 mask with no positive pixel the metrics are all 0.0 |
| Clustering.RowPixels | backend/modules/clustering.py:67 | the 1-pixels of one mask row: one per 1-cell, on that row, in increasing column order |
| Clustering.PixelsFrom | backend/modules/clustering.py:67 | the 1-pixels of a block of rows: one per 1-cell, each on a 1-cell, in row-major order |
| Clustering.PixelsJoinInside | backend/modules/clustering.py:67 | one row's pixels followed by the later rows' pixels all lie on 1-cells |
| Clustering.RowMajorJoin | backend/modules/clustering.py:67 | one row's pixels followed by later rows' pixels stay in row-major order |
| Clustering.CloudPixels | backend/modules/clustering.py:67 | `np.where(mask == 1)`: exactly one pixel per 1-cell, each on a 1-cell, row-major and without repetition |
| Clustering.InsertAscending | backend/modules/clustering.py:83 | inserting into an increasing list keeps it increasing and adds exactly the new value |
| Clustering.HeadLeast | backend/modules/clustering.py:83 | the head of an increasing list is its least element |
| Clustering.ConsIncreasing | backend/modules/clustering.py:83 | a value below every element extends an increasing list at the front |
| Clustering.LabelIds | backend/modules/clustering.py:83-87 | `set(labels)` without -1, iterated ascending: exactly the non-noise labels, each once |
| Clustering.Members | backend/modules/clustering.py:88-89 | `coords[labels == id]` picks input pixels, as many as the label occurs, and at least one when it occurs |
| Clustering.MembersAppend | backend/modules/clustering.py:88-89 | the selection keeps the input order: the members of a concatenation are the parts' members, concatenated |
| Clustering.MembersExactly | backend/modules/clustering.py:88-89 | every pixel labelled `id` is selected, and every selected pixel is one labelled `id` |
| Clustering.ValuesAt | backend/modules/clustering.py:136-137 | `grid[y_coords, x_coords]` gives one grid value per pixel, in order |
| Clustering.CreateCluster | backend/modules/clustering.py:124-153 | `_create_cluster`: id and pixels as given, `pixel_count` the number of pixels, area 16 km² per pixel, radius² * pi = area, centroid within the range of the pixel coordinates |
| Clustering.ClustersOf | backend/modules/clustering.py:83-99 | one cluster per non-noise label, in ascending label order, each built from that label's pixels |
| Clustering.MembersInGrid | backend/modules/clustering.py:88-89 | a label's pixels lie inside the grid |
| Clustering.CloudPixelsInGrid | backend/modules/clustering.py:67 | the mask's cloud pixels lie inside a grid of the same shape |
| Clustering.MaskClusters | backend/modules/clustering.py:66-71 | a mask with no 1-pixel gives no clusters |
| Clustering.ClusterClouds | backend/modules/clustering.py:46-102 | `cluster_clouds` with the labels given returns the clusters of the mask's pixels |
| Clustering.BuildClusters | backend/modules/clustering.py:86-99 | the label loop appends one cluster per label in iteration order |
| Clustering.ClusterIdsAreLabels | backend/modules/clustering.py:83-99 | a cluster id occurs iff it is a label other than -1; ids are distinct and every cluster has a pixel |
| Clustering.FilterPassing | backend/modules/clustering.py:181-184 | the filter keeps a sub-multiset: exactly the clusters with area and radius at or above the minimums |
| Clustering.DefaultFilterThreshold | backend/modules/clustering.py:139-184 | with 34800 km² and 111 km a built cluster passes iff it has at least 2420 pixels (the radius test binds) |
| Clustering.MulMonotone | backend/modules/clustering.py:183 | a positive factor can be cancelled from a strict inequality |
| Clustering.SortByAreaDesc | backend/modules/clustering.py:208 | sorting by area is a permutation |
| Clustering.SortedIsDescending | backend/modules/clustering.py:208 | a list sorted under "larger area first" has non-increasing areas |
| Clustering.SortByAreaDescending | backend/modules/clustering.py:208 | `sorted(..., reverse=True)` by area gives non-increasing areas |
| Clustering.Greedy | backend/modules/clustering.py:210-225 | the greedy pass keeps a sub-multiset of its input |
| Clustering.SeparatedSnoc | backend/modules/clustering.py:222-223 | appending a cluster far from all kept ones keeps the result separated |
| Clustering.GreedySeparated | backend/modules/clustering.py:210-225 | every kept cluster is at least the minimum separation from each one kept before it |
| Clustering.GreedyKeepsFirst | backend/modules/clustering.py:210-225 | the first cluster in order is always kept, in first place |
| Clustering.GreedyDescending | backend/modules/clustering.py:210-225 | keeping a sub-collection of a descending list keeps it descending |
| Clustering.DescendingSnoc | backend/modules/clustering.py:222-223 | a cluster no larger than all kept ones extends a descending list |
| Clustering.CheckSeparation | backend/modules/clustering.py:212-220 | the inner loop leaves `is_valid` true iff the cluster is at least the minimum distance from every kept cluster |
| Clustering.GreedyStep | backend/modules/clustering.py:211-223 | one more cluster is appended exactly when it is far from all kept so far |
| Clustering.ApplySeparationConstraint | backend/modules/clustering.py:201-225 | the loop's result is the greedy pass over the area-sorted clusters |
| Clustering.Geophysical | backend/modules/clustering.py:177-195 | [] for no clusters; the filtered list unchanged when at most one passes |
| Clustering.ApplyGeophysicalConstraints | backend/modules/clustering.py:156-198 | `apply_geophysical_constraints` returns the filter-then-separate result |
| Clustering.GeophysicalSubset | backend/modules/clustering.py:181-195 | every kept cluster is an input cluster that passes the area and radius test, kept at most as often as it occurs |
| Clustering.GeophysicalSeparated | backend/modules/clustering.py:191-225 | kept clusters are pairwise at least the minimum separation apart |
| Clustering.GeophysicalOrdered | backend/modules/clustering.py:191-208 | kept clusters come in non-increasing area order |
| Clustering.GeophysicalKeepsLargest | backend/modules/clustering.py:191-225 | when some cluster passes, the result starts with a passing cluster of the largest area |
| Clustering.HeadIsLargest | backend/modules/clustering.py:208 | the head of a descending list has the largest area |
| FeatureExtraction.InsideCount | backend/modules/feature_extraction.py:43-50 | the number of in-bounds coordinates is at most the number of coordinates |
| FeatureExtraction.ValidPixels | backend/modules/feature_extraction.py:43-50 | `valid_mask` keeps each in-bounds pixel as often as it occurs among the coordinates and drops every other one |
| FeatureExtraction.ValidPixelsAppend | backend/modules/feature_extraction.py:43-50 | the filter keeps order: filtering a concatenation concatenates the filtered parts |
| FeatureExtraction.ValidPixelsCount | backend/modules/feature_extraction.py:43-50 | the filtered list is as long as the number of in-bounds coordinates |
| FeatureExtraction.ValidPixelsAllInside | backend/modules/feature_extraction.py:47-50 | when every coordinate is inside the grid, none is dropped |
| FeatureExtraction.EmptyFeatures | backend/modules/feature_extraction.py:99-121 | `_empty_features`: count 0, area 0.0, radius 0.0, intensity "none", every statistic None |
| FeatureExtraction.CloudTopHeightBounds | backend/modules/feature_extraction.py:124-147 | the height lies in [0, 16]; 0 exactly at or above 300 K, 16 exactly at or below 190 K |
| FeatureExtraction.CloudTopHeightAntitone | backend/modules/feature_extraction.py:137-147 | a colder minimum never gives a lower cloud top |
| FeatureExtraction.CloudTopHeightInterpolates | backend/modules/feature_extraction.py:143-145 | between 190 K and 300 K the height is linear from 16 km to 0 km |
| FeatureExtraction.CloudTopHeightExample | backend/modules/verify_modules.py:124-127 | h(190) = 16 and h(190) > h(250) |
| FeatureExtraction.ClassifyIntensityAgreesWithThresholding | backend/modules/feature_extraction.py:212-232 | "none" exactly at or above 218 K; below it the 190/200/210 ladder of `estimate_convective_intensity` |
| FeatureExtraction.ClassifyIntensityMonotone | backend/modules/feature_extraction.py:223-232 | a colder minimum never gives a weaker class |
| FeatureExtraction.ClassifyIntensityBoundaries | backend/modules/feature_extraction.py:223-232 | each boundary is a strict `<`: 190 is strong, 200 moderate, 210 weak, 218 none |
| FeatureExtraction.GeographicExtent | backend/modules/feature_extraction.py:199-209 | min and max are attained and bound every value; each extent is max - min >= 0 |
| FeatureExtraction.Mod180 | backend/modules/feature_extraction.py:176 | Python's float `% 180` lies in [0, 180) and differs from its argument by a whole multiple of 180 |
| FeatureExtraction.Mod180OfInRange | backend/modules/feature_extraction.py:176 | an angle already in [0, 180) is unchanged |
| FeatureExtraction.Mod180Periodic | backend/modules/feature_extraction.py:176 | adding 180 does not change the remainder |
| FeatureExtraction.ShapeMetricsFewPixels | backend/modules/feature_extraction.py:159-164 | fewer than five pixels give aspect 1.0, orientation 0.0, eccentricity 0.0 |
| FeatureExtraction.ShapeMetricsBounds | backend/modules/feature_extraction.py:166-188 | for a fit with non-negative axes the squared eccentricity lies in [0, 1], the aspect ratio is at least 1 when both axes exceed the 1e-6 guard, and a swapped angle lies in [0, 180) |
| FeatureExtraction.RatioInUnit | backend/modules/feature_extraction.py:182 | the guarded minor/major ratio and 1 - ratio² lie in [0, 1] |
| FeatureExtraction.RatioAtLeastOne | backend/modules/feature_extraction.py:179 | the guarded major/minor ratio is at least 1 |
| FeatureExtraction.SquaredDeviations | backend/modules/feature_extraction.py:81 | one non-negative squared deviation per value |
| FeatureExtraction.VarianceNonNegative | backend/modules/feature_extraction.py:81 | `np.var` is non-negative, so `np.std` is defined |
| FeatureExtraction.SquareNonNegative | backend/modules/feature_extraction.py:81 | a square is non-negative |
| FeatureExtraction.ComputeClusterFeatures | backend/modules/feature_extraction.py:25-96 | `pixel_count` is the number of in-bounds coordinates; the empty record iff none remain; otherwise the full record of those pixels |
| FeatureExtraction.ClusterFeatures | backend/modules/feature_extraction.py:56-96 | area = 16 * count, radius² * pi = area, min <= mean <= max with the minimum attained and every pixel in range, spread >= 0, height and intensity from the minimum, extents >= 0 |
| FeatureExtraction.ValuesRange | backend/modules/feature_extraction.py:78-79 | the least and greatest values at the pixels are attained and bound every pixel |
| FeatureExtraction.ComputeClusterEvolution | backend/modules/feature_extraction.py:249-250 | `{}` exactly when either record is absent |
| FeatureExtraction.EvolutionMeaning | backend/modules/feature_extraction.py:253-278 | intensifying iff the mean BT fell, expanding iff the area grew, each rate times `max(dt, 0.01)` is the change, and the area rate is positive iff expanding |
| FeatureExtraction.SignOfQuotient | backend/modules/feature_extraction.py:254 | dividing by a positive guard preserves sign and can be undone |
| FeatureExtraction.EvolutionOfEmptyFails | backend/modules/feature_extraction.py:257 | comparing with the empty record fails, as subtracting None raises |
| PseudoLabels.ListedSnoc | backend/modules/pseudo_labels.py:36 | one more cluster lists a pixel iff the earlier ones did or the new one does |
| PseudoLabels.GeneratePseudoLabels | backend/modules/pseudo_labels.py:19-49 | a fresh mask of exactly the requested shape, 1 exactly at the in-bounds pixels some cluster lists and 0 elsewhere |
| PseudoLabels.PaintCluster | backend/modules/pseudo_labels.py:37-46 | one loop turn sets the cluster's in-bounds pixels to 1 and leaves the rest |
| PseudoLabels.ListedOrderIndependent | backend/modules/pseudo_labels.py:36-46 | the painted pixels depend only on which clusters occur, not on order or repetition |
| PseudoLabels.PseudoLabelsPermutation | backend/modules/pseudo_labels.py:36-46 | a reordering of the clusters paints the same pixels |
| PseudoLabels.PseudoLabelsRepeat | backend/modules/pseudo_labels.py:36-46 | a repeated cluster paints nothing more |
| PseudoLabels.PseudoLabelsEmpty | backend/modules/pseudo_labels.py:34-36 | no clusters paint no pixel: the mask stays all zero |
| PseudoLabels.CreateIndexEntry | backend/modules/pseudo_labels.py:131-146 | the timestamp string of the H5 path; `has_mask` iff `mask_path` is set iff a file exists at `<mask_dir>/<timestamp>.npy`; absolute paths |
| PseudoLabels.MaskFileName | backend/modules/pseudo_labels.py:136-137 | the mask location ends in `<timestamp>.npy` and that is its base name |
| PseudoLabels.IndexEntries | backend/modules/pseudo_labels.py:103-110 | at most one entry per walked file |
| PseudoLabels.ByTimestampTotal | backend/modules/pseudo_labels.py:120 | ordering entries by timestamp string is total |
| PseudoLabels.CreateDatasetIndex | backend/modules/pseudo_labels.py:82-128 | the index is the entries of the ".h5" names, sorted stably by timestamp, and a permutation of them |
| PseudoLabels.IndexEntriesCount | backend/modules/pseudo_labels.py:104-110 | exactly one entry per ".h5" name |
| PseudoLabels.H5Names | backend/modules/pseudo_labels.py:106 | exactly the walked names ending in ".h5" |
| GenerateLabels.ColdPixels | training/generate_labels.py:61-73 | one pixel per cell below 218 K, row-major, each below 218 K |
| GenerateLabels.LabelCount | training/generate_labels.py:93-94 | `np.sum(labels == lbl)` is 0 iff the label does not occur |
| GenerateLabels.LargeEnoughPixels | training/generate_labels.py:94-98 | `pixel_count * 16 >= 34800` iff the label has at least 2175 pixels |
| GenerateLabels.GenerateMask | training/generate_labels.py:48-104 | a fresh H x W mask that is 1 exactly at the cold pixels whose label is not -1 and whose cluster reaches 34800 km² |
| GenerateLabels.ZeroMask | training/generate_labels.py:64-85 | `np.zeros((h, w))` |
| GenerateLabels.PaintLabels | training/generate_labels.py:87-102 | the label loop over `set(labels) - {-1}` paints exactly the large clusters' pixels |
| GenerateLabels.ColdPixelsInside | training/generate_labels.py:69 | every cold pixel lies inside the grid |
| GenerateLabels.PaintedAmongAllLabels | training/generate_labels.py:87-102 | visiting every non-noise label paints exactly the pixels the rule describes |
| GenerateLabels.PaintLabel | training/generate_labels.py:91-102 | one turn paints label `lbl` in full iff its cluster is large enough |
| GenerateLabels.PaintedAmongSnoc | training/generate_labels.py:91-102 | visiting one more label adds its pixels exactly when it is large enough |
| GenerateLabels.PaintPixels | training/generate_labels.py:101-102 | `final_mask[cluster_coords] = 1` sets every pixel with that label and nothing else |
| GenerateLabels.LabelAtSnoc | training/generate_labels.py:93-101 | one more labelled pixel extends the label's pixels by exactly that one |
| GenerateLabels.PaintedIsCold | training/generate_labels.py:61-102 | every painted pixel is below 218 K: the result lies inside the threshold mask |
| GenerateLabels.RowMajorDistinct | training/generate_labels.py:69 | a row-major pixel list holds each pixel once |
| GenerateLabels.NoiseNeverPainted | training/generate_labels.py:87-89 | a pixel DBSCAN calls noise is never painted |
| GenerateLabels.ClusterAllOrNothing | training/generate_labels.py:91-102 | a non-noise pixel is painted iff its cluster reaches 34800 km² |
| GenerateLabels.NoColdPixelNoMask | training/generate_labels.py:61-64 | with no pixel below 218 K the mask is all zero |
| TrackKalman.DistanceSq | training/track_kalman.py:103-104 | the squared distance from the prediction is non-negative |
| TrackKalman.RejectedIffFar | training/track_kalman.py:104-106 | comparing squares decides the gate as the square root would: rejected iff the distance exceeds 60 |
| TrackKalman.FirstFrameBehaviour | training/track_kalman.py:84-94 | before the first detection: None returns (None, True) and keeps waiting; a detection sets the state to (x, y, 0, 0), comes back unchanged and unpredicted, and ends the waiting |
| TrackKalman.InitialisedBehaviour | training/track_kalman.py:84-117 | afterwards: a missing detection, or one farther than 60 from the prediction, returns the prediction flagged True with no correction; a nearer one returns the corrected state flagged False |
| TrackKalman.LeadingMisses | training/track_kalman.py:87-94 | the frames before the first detection, all without one |
| TrackKalman.LeadingMissesSnoc | training/track_kalman.py:136-152 | one more frame extends the leading misses only while no detection has come |
| TrackKalman.RunWaiting | training/track_kalman.py:87-94 | a fresh tracker is still waiting iff no frame so far had a detection |
| TrackKalman.RowsCount | training/track_kalman.py:136-172 | from a fresh tracker the trajectory has one row per frame from the first detection on |
| TrackKalman.RowsFromFrames | training/track_kalman.py:162-172 | each row carries one of the frames' timestamps and that frame's raw detection |
| TrackKalman.CycloneTracker.constructor | training/track_kalman.py:65-76 | a new tracker has zero state and waits for its first detection |
| TrackKalman.CycloneTracker.PredictStep | training/track_kalman.py:84 | `kf.predict()` advances the state one constant-velocity step, counted once |
| TrackKalman.CycloneTracker.Update | training/track_kalman.py:78-117 | the new state and the result are those of the branch the detection selects, with exactly one prediction |
| TrackKalman.CycloneTracker.Track | training/track_kalman.py:136-172 | the loop of `main` updates once per frame and emits exactly the rows for frames with a filtered position |
| Output.Keys | backend/modules/output.py:162 | `obs.keys()` lists each entry's key in insertion order |
| Output.Get | backend/modules/output.py:216-232 | `obs.get(k)` is present iff `k` is a key, and then the value stored under it |
| Output.Distinct | backend/modules/output.py:214-224 | the distinct elements: exactly the input's elements, without repeats |
| Output.FirstIndex | backend/modules/output.py:217 | the first position of an element, with no earlier occurrence |
| Output.FirstIndexSnoc | backend/modules/output.py:217 | appending never moves an element's first occurrence |
| Output.DistinctFirstAppearance | backend/modules/output.py:214-247 | the distinct elements come in order of first appearance |
| Output.TrackIds | backend/modules/output.py:216 | one track id per observation |
| Output.TrackIdsAt | backend/modules/output.py:216 | the k-th track id is `data[k].get('track_id', 0)` |
| Output.GroupAll | backend/modules/output.py:214-236 | the `tracks` dict's insertion order lists exactly its keys |
| Output.GroupAllSnoc | backend/modules/output.py:215-236 | one more observation is one more grouping step |
| Output.GroupStep | backend/modules/output.py:216-236 | one grouping step keeps the key order in step with the dict's keys |
| Output.ObsOf | backend/modules/output.py:228 | a track's observations are at most all the input |
| Output.ObsOfAbsent | backend/modules/output.py:216-228 | a track id that never occurs has no observations |
| Output.ObsOfMembers | backend/modules/output.py:216-228 | each observation listed for a track is an input observation with that track id |
| Output.FirstTimestampSnoc | backend/modules/output.py:232-235 | the first truthy timestamp changes only while there is none |
| Output.AddObsExpected | backend/modules/output.py:226-236 | adding an observation to the expected entry of its track gives the expected entry of the longer input |
| Output.GroupAllMeaning | backend/modules/output.py:213-236 | the tracks are the distinct ids in order of first appearance (missing as 0); each holds exactly its observations in input order, the first and last truthy timestamps, and their count |
| Output.Tracks | backend/modules/output.py:247 | `list(tracks.values())` has one entry per key |
| Output.CountOfSnocData | backend/modules/output.py:229 | one more observation adds one to its own track's count only |
| Output.CountOfAllTracks | backend/modules/output.py:227-249 | counting every distinct track's observations counts every observation once |
| Output.TotalOfCounts | backend/modules/output.py:229 | the per-track totals add up to the count of their observations |
| Output.TracksTotal | backend/modules/output.py:227-249 | the `total_observations` of the tracks sum to `len(trajectory_data)` |
| Output.Numbers | backend/modules/output.py:242-244 | the values as numbers, defined iff every one is a number, each converted in place |
| Output.AreaValues | backend/modules/output.py:242 | one area value per observation (missing as 0) |
| Output.TruthyValues | backend/modules/output.py:243-244 | only truthy values survive the comprehension filter |
| Output.SummariseMeaning | backend/modules/output.py:239-244 | the mean area lies between the least and greatest area, the mean BT between the least and greatest truthy `mean_bt`, `min_bt_overall` is a truthy `min_bt` no greater than any; it raises when a value is not a number or when no `min_bt` is truthy, and a string `min_bt` counts as not a number |
| Output.SummariseAll | backend/modules/output.py:239-244 | on success each track keeps its grouped entry, in order |
| Output.TrajectoryJsonMeaning | backend/modules/output.py:201-256 | one track per distinct id in order of first appearance; `total_tracks` their number; `total_observations` the record count, which the per-track counts add up to; metadata present iff given and non-empty |
| Output.GroupsNonEmpty | backend/modules/output.py:217-241 | every grouped track has an observation, so it always gets statistics |
| Output.ObsOfContains | backend/modules/output.py:228 | every observation of a track is listed under it |
| Output.GroupTracks | backend/modules/output.py:213-236 | the grouping loop builds the `tracks` dict and its key order that the grouping specifies |
| Output.GenerateTrajectoryJson | backend/modules/output.py:201-256 | the method returns the response the specification function gives |
| Output.AllKeys | backend/modules/output.py:160-162 | `all_keys` holds exactly the keys occurring in some record |
| Output.KeepIn | backend/modules/output.py:169 | keeps exactly the elements present in the key set |
| Output.DropIn | backend/modules/output.py:170 | keeps exactly the elements not already chosen |
| Output.KeepInOrder | backend/modules/output.py:169 | the kept priority fields stay in their fixed order |
| Output.StrLeIsTotal | backend/modules/output.py:170 | `sorted` on strings compares by a total order |
| Output.RepeatCount | backend/modules/output.py:170 | a repeated value occurs at least twice |
| Output.NoDupCount | backend/modules/output.py:170 | without repeats every value occurs at most once |
| Output.NoDupPermutation | backend/modules/output.py:170 | a permutation of a repeat-free list is repeat-free |
| Output.PriorityNoDup | backend/modules/output.py:165-167 | the priority list has no repeats |
| Output.SortedNames | backend/modules/output.py:170 | sorting distinct names gives the same names, distinct and in order |
| Output.PresentOrdered | backend/modules/output.py:169 | the present priority fields keep their fixed order and do not repeat |
| Output.NoDupJoin | backend/modules/output.py:169-170 | two disjoint repeat-free lists join without repeats |
| Output.CsvFieldsMeaning | backend/modules/output.py:149-173 | with records and all fields: every key of every record exactly once, first the present priority fields in fixed order, then the rest sorted, none of them a priority field |
| Output.PadTimestamp | backend/modules/output.py:115-116 | `str(ts)[:32].ljust(32)` is exactly 32 characters: the first min(n, 32) characters of the text, then spaces |
| Output.TrimRight | backend/modules/output.py:116 | trimming trailing spaces never lengthens |
| Output.TrimRightPadding | backend/modules/output.py:116 | trimming removes exactly the added spaces |
| Output.PadTimestampRoundTrip | backend/modules/output.py:115-116 | a timestamp of at most 32 characters not ending in a space is read back by trimming (round trip) |
| Output.PadTimestampIdempotent | backend/modules/output.py:115-116 | padding a padded timestamp changes nothing |
| Output.PredictedFlag | backend/modules/output.py:125 | `is_predicted` is encoded as 1 iff the field is truthy, else 0 |
| Output.NetcdfColumns | backend/modules/output.py:112-125 | the write loop fills one padded timestamp and one 0/1 flag per observation, in order |
| Output.CsvFields | backend/modules/output.py:149-173 | without records, or with `include_all_fields` False, the header is the eight basic columns |
| Tracking.PredictTimesPosition | backend/modules/tracking.py:54-59 | after n predictions the position has moved n velocity steps and the velocity is unchanged |
| Tracking.ConfidenceBounds | backend/modules/tracking.py:183 | the confidence of a later step is no higher than an earlier one, stays within [0.3, 0.9], and is exactly 0.3 from step 7 on |
| Tracking.FuturePredictions | backend/modules/tracking.py:158-186 | lists as many entries as there are steps, none for a non-positive count |
| Tracking.FuturePredictionsMeaning | backend/modules/tracking.py:168-184 | entry k is step k+1, k+1 intervals ahead, at the position reached by k+1 constant-velocity predictions, with confidence max(0.3, 1 - 0.1(k+1)) |
| Tracking.KalmanTrack.constructor | backend/modules/tracking.py:33-86 | a new track sits at its first position with zero velocity and zero covariance, no misses, one observation and one observed history entry |
| Tracking.KalmanTrack.Predict | backend/modules/tracking.py:100-109 | the filter takes one constant-velocity step, the miss counter grows by one, the rest is unchanged, and the returned pair is the new position |
| Tracking.KalmanTrack.Update | backend/modules/tracking.py:111-134 | the filter is corrected with the measurement, the miss counter is reset, the observation count grows by one and one observed history entry carrying the cluster is appended |
| Tracking.KalmanTrack.PredictFuture | backend/modules/tracking.py:144-186 | the loop's list equals the specification of the future track for the current filter state |
| Tracking.Without | backend/modules/tracking.py:337-339 | removes exactly the deleted id, keeps a list without repeats free of repeats and one shorter, and leaves a list without the id unchanged |
| Tracking.WithoutAll | backend/modules/tracking.py:337-339 | keeps exactly the ids not deleted and keeps a list without repeats free of repeats |
| Tracking.Unmatched | backend/modules/tracking.py:254 | the cluster indices no pair claims, exactly, in ascending order |
| Tracking.Sources | backend/modules/tracking.py:236-266 | one record source per matched pair and per unmatched cluster, each a valid cluster index under a one-to-one assignment |
| Tracking.SourcesArePermutation | backend/modules/tracking.py:236-266 | under a one-to-one assignment the record sources are every cluster index exactly once, so update emits one record per cluster |
| Tracking.SourcesDistinct | backend/modules/tracking.py:236-266 | no cluster index is the source of two records |
| Tracking.SourcesCover | backend/modules/tracking.py:254 | every cluster index, and nothing else, is matched or unmatched |
| Tracking.DistinctRangeLength | backend/modules/tracking.py:254 | a list without repeats holding exactly 0..n-1 has length n |
| Tracking.WellFormedSameShape | backend/modules/tracking.py:236-251 | changing track states without changing the registered ids or their order keeps the registry well formed |
| Tracking.AddedWellFormed | backend/modules/tracking.py:316-328 | registering a track under the next id, at the end of the insertion order, keeps the registry well formed |
| Tracking.NonEmptyOrder | backend/modules/tracking.py:282-285 | a well-formed registry with a track has a non-empty list of track ids |
| Tracking.PredictAllTracks | backend/modules/tracking.py:222-224 | the prediction pass changes no registered id, no order and no counter |
| Tracking.PredictedAmong | backend/modules/tracking.py:222-224 | part way through the pass the same ids are registered |
| Tracking.PredictedSnoc | backend/modules/tracking.py:222-224 | predicting one more, not yet predicted, track moves that track alone |
| Tracking.PredictedAmongAll | backend/modules/tracking.py:222-224 | once every registered id has been visited each track has predicted exactly once |
| Tracking.Positions | backend/modules/tracking.py:285-297 | the cost matrix's columns: one per track id in insertion order, at that track's position |
| Tracking.CostRow | backend/modules/tracking.py:292-303 | one distance per track |
| Tracking.CostMatrix | backend/modules/tracking.py:289-303 | a clusters-by-tracks matrix |
| Tracking.Gated | backend/modules/tracking.py:309-312 | the gate keeps no more pairs than the solver returned |
| Tracking.GatedSources | backend/modules/tracking.py:309-313 | a pair is kept exactly when its cost is strictly below the gate, mapped to its column's track id, in the solver's order |
| Tracking.GatedOneToOne | backend/modules/tracking.py:306-313 | gating the solver's one-to-one pairs over distinct track ids gives a one-to-one partial map from cluster to track |
| Tracking.GatedBeforeLast | backend/modules/tracking.py:306-313 | every gated pair of the earlier rows comes before the last pair's row and names another track |
| Tracking.OneToOneSnoc | backend/modules/tracking.py:309-312 | a pair after every row and on an unused track keeps the assignment one-to-one |
| Tracking.CostOf | backend/modules/tracking.py:289-303 | the registry's cost matrix has a row per cluster and a column per registered track |
| Tracking.SolverPairsShape | backend/modules/tracking.py:306 | with tracks and clusters the solver's pairs index the cost matrix |
| Tracking.GatedWithinGate | backend/modules/tracking.py:309-313 | every kept pair names a registered track strictly within the gate of its cluster |
| Tracking.AssignmentOf | backend/modules/tracking.py:275-314 | empty without tracks or clusters; otherwise a one-to-one partial map from cluster index to registered track id, every pair strictly within the gate |
| Tracking.ApplyMatched | backend/modules/tracking.py:236-244 | correcting the matched tracks changes no registered id, no order and no counter |
| Tracking.ApplyMatchedEffect | backend/modules/tracking.py:236-244 | under a one-to-one assignment each matched track is corrected exactly once with its own cluster, every other track is left as it was |
| Tracking.MatchedRecords | backend/modules/tracking.py:246-251 | one record per pair |
| Tracking.MatchedRecordsAt | backend/modules/tracking.py:246-251 | record k is the k-th pair's cluster, with its track id, the frame's timestamp, observed, and the track's observation count plus one |
| Tracking.MatchedStep | backend/modules/tracking.py:236-251 | one more pair corrects its track, still as before the pass, and appends its record |
| Tracking.NewIds | backend/modules/tracking.py:316-319 | the n consecutive ids from the start |
| Tracking.Spawned | backend/modules/tracking.py:255-260 | the id counter advances by the number of new tracks and the frame counter is unchanged |
| Tracking.SpawnedOrder | backend/modules/tracking.py:253-266 | the new ids are appended to the insertion order in cluster order |
| Tracking.SpawnedKeys | backend/modules/tracking.py:316-325 | exactly the ids from the old counter on are added and every older track is kept as it was |
| Tracking.SpawnedNew | backend/modules/tracking.py:253-266 | track nextTrackId + k is the new track at the k-th listed cluster's centroid |
| Tracking.SpawnedWellFormed | backend/modules/tracking.py:316-325 | spawning keeps the registry well formed |
| Tracking.AppendedIdsWellFormed | backend/modules/tracking.py:316-325 | a registry gaining exactly the next ids, appended in ascending order, stays well formed |
| Tracking.NewRecords | backend/modules/tracking.py:261-266 | record k is the k-th listed cluster with id start + k, the frame's timestamp, observed and a track length of 1 |
| Tracking.SpawnStep | backend/modules/tracking.py:255-266 | one more listed cluster adds one track under the next id and one record at the end |
| Tracking.LostIds | backend/modules/tracking.py:332-335 | exactly the registered ids whose tracks are no longer active |
| Tracking.LostIdsSnoc | backend/modules/tracking.py:332-335 | one more id of the insertion order is appended to the lost ids exactly when its track is lost |
| Tracking.WithoutLost | backend/modules/tracking.py:330-339 | exactly the active tracks remain, each unchanged, with the counters unchanged |
| Tracking.RemovingLostIds | backend/modules/tracking.py:330-339 | deleting the collected lost ids leaves exactly the cleanup's registry |
| Tracking.WithoutLostWellFormed | backend/modules/tracking.py:330-339 | after the cleanup the registry is well formed and every track is active |
| Tracking.Predicted | backend/modules/tracking.py:220-224 | the frame counter advances by one and every registered track predicts once; ids and order are unchanged |
| Tracking.FrameAssignment | backend/modules/tracking.py:226-231 | a one-to-one assignment onto registered tracks |
| Tracking.AfterMatchingEffect | backend/modules/tracking.py:235-266 | each matched track is corrected with its cluster, every other track is kept, and the unmatched clusters' tracks take the consecutive ids from the counter |
| Tracking.FrameStepExistingTracks | backend/modules/tracking.py:220-269 | a track registered before the frame is kept, corrected, when matched; otherwise it has predicted once more and is removed exactly when its miss counter now exceeds the threshold |
| Tracking.FrameStepCounters | backend/modules/tracking.py:220-269 | after a frame the registry is well formed and all active, the frame counter advanced by one and the id counter by the number of unmatched clusters |
| Tracking.FrameStepNewTracks | backend/modules/tracking.py:253-269 | the unmatched clusters' tracks hold the consecutive ids from the counter and are registered; every new id is one of those; a removed id is never reused |
| Tracking.FrameStepAfterMatching | backend/modules/tracking.py:226-269 | with clusters, the frame is the cleanup of the matching on the predicted registry |
| Tracking.NewTracksRegistered | backend/modules/tracking.py:255-269 | the new tracks survive the cleanup and nothing else is new |
| Tracking.SpawnedSurvive | backend/modules/tracking.py:136-138 | a new track is active, so the cleanup keeps it |
| Tracking.FrameOutputRecords | backend/modules/tracking.py:233-273 | update emits one record per pair (cluster, track id, new observation count) and then one per unmatched cluster (the consecutive fresh ids, a length of 1), all with the frame's timestamp and observed |
| Tracking.RecordsJoin | backend/modules/tracking.py:233-266 | the pair records followed by the new-track records read off position by position |
| Tracking.PrefixOfJoin | backend/modules/tracking.py:246-251 | the pair records keep their places when the new-track records are appended |
| Tracking.SuffixOfJoin | backend/modules/tracking.py:261-266 | the new-track records sit after the pair records |
| Tracking.FrameOutputCoversClusters | backend/modules/tracking.py:233-273 | update emits one record per input cluster, each once: the matched ones in pair order, then the unmatched ascending |
| Tracking.RecordsCoverClusters | backend/modules/tracking.py:233-266 | pair records then new-track records cover each cluster once in source order |
| Tracking.FrameOutputTrackIds | backend/modules/tracking.py:247-266 | a matched record carries its pair's track id, a new one the next consecutive id, and no two records share an id |
| Tracking.RecordsTrackIds | backend/modules/tracking.py:247-266 | distinct registered ids for the pairs and fresh consecutive ids above all of them for the new tracks make every record's id distinct |
| Tracking.FrameOutputRegistered | backend/modules/tracking.py:250-269 | every record names a track still registered after the frame, and its track length is that track's observation count |
| Tracking.RecordsRegistered | backend/modules/tracking.py:250-265 | records of corrected and new tracks name tracks of the new registry with their observation counts |
| Tracking.FrameWithoutClusters | backend/modules/tracking.py:226-228 | a frame without clusters emits nothing, matches nothing and creates no track |
| Tracking.TCCTracker.constructor | backend/modules/tracking.py:197-207 | an empty registry, ids starting at 1, no frame seen |
| Tracking.TCCTracker.Reset | backend/modules/tracking.py:382-386 | an empty registry, ids restarting at 1, no frames seen |
| Tracking.TCCTracker.PredictAll | backend/modules/tracking.py:222-224 | the loop over the track objects leaves the tracker equal to the prediction pass |
| Tracking.TCCTracker.PredictTrackAt | backend/modules/tracking.py:224 | only the chosen track's state moves, by one prediction |
| Tracking.TCCTracker.CostRowOf | backend/modules/tracking.py:292-303 | the inner loop builds the cost row |
| Tracking.TCCTracker.BuildCostMatrix | backend/modules/tracking.py:289-303 | the loops build the cost matrix over the registry |
| Tracking.TCCTracker.AssignClustersToTracks | backend/modules/tracking.py:275-314 | the method's assignment is the gated one-to-one assignment |
| Tracking.TCCTracker.UpdateMatched | backend/modules/tracking.py:235-251 | the loop corrects the matched tracks as specified and emits the pairs' records |
| Tracking.TCCTracker.UpdateTrack | backend/modules/tracking.py:238-250 | only that track is corrected, and the returned count is its observation count after the update |
| Tracking.TCCTracker.CreateTrack | backend/modules/tracking.py:316-328 | the returned id is the old counter, was free, and now holds a fresh new track at the end of the order; the counter advances by one |
| Tracking.TCCTracker.CreateTracks | backend/modules/tracking.py:253-266 | the loop spawns one track per listed cluster and emits their records; old tracks are untouched |
| Tracking.TCCTracker.SpawnNext | backend/modules/tracking.py:256-266 | one iteration adds the next cluster's track and its record |
| Tracking.TCCTracker.LostTrackIds | backend/modules/tracking.py:332-335 | the first pass collects exactly the inactive tracks' ids in insertion order |
| Tracking.TCCTracker.CleanupLostTracks | backend/modules/tracking.py:330-339 | the registry becomes the cleanup's: well formed, all active, kept tracks untouched |
| Tracking.TCCTracker.DeleteTracks | backend/modules/tracking.py:337-339 | each listed id leaves the registry and the order; nothing else changes |
| Tracking.TCCTracker.RestrictedSnoc | backend/modules/tracking.py:337-339 | deleting one more listed id removes one more map entry |
| Tracking.TCCTracker.Update | backend/modules/tracking.py:209-273 | the registry moves as the frame step says and the records are the frame's output, so every lemma about those holds of update |
| Tracking.TCCTracker.StartFrame | backend/modules/tracking.py:220-224 | the frame is counted and every track predicts |
| Tracking.TCCTracker.MatchFrame | backend/modules/tracking.py:231-266 | the assignment, corrections and new tracks as specified, with their records |
| Tracking.TCCTracker.MatchExisting | backend/modules/tracking.py:231-251 | the assignment is the gated one, the matched tracks are corrected and their records emitted, the registry itself untouched |
| Tracking.TCCTracker.GetAllPredictions | backend/modules/tracking.py:366-380 | exactly the tracks with at least two observations get a future track, which is the specified one |

## Left out

- Kalman covariance: the covariance numerics of `cv2.KalmanFilter` (noise matrices, gain, float32 rounding) are not modelled. The covariance is an opaque list updated by the `propagate` parameter, and the measurement update is the `correct` parameter. The state under prediction is exact.
- Assignment optimality: the tracker relies only on the shape contract of `linear_sum_assignment`. That the pairs minimise the total distance is not modelled.
- Great-circle distance (`_haversine_distance` in clustering.py, feature_extraction.py and tracking.py): a parameter. Trigonometry is outside the model.
- Movement direction: the `arctan2` directions in `predict_future` and `compute_cluster_evolution` are not modelled. The speed is kept as its square.
- DBSCAN, `cv2.fitEllipse` and the segmentation network: DBSCAN labels and ellipse fits are inputs. Model loading, inference and resizing are not modelled.
- `find_centroid` (track_kalman.py): the largest connected region's centroid is an input, one optional detection per frame. `cv2.connectedComponentsWithStats` is outside the model.
- File I/O is not modelled: reading HDF5, `save_mask`/`load_mask`, CSV row writing, the NetCDF variables other than the timestamp and prediction-flag columns, and plots.
- The directory walks of `scan_files` and `create_dataset_index` are inputs: lists of already-walked names. `create_dataset_index`'s non-recursive `listdir` branch is the same computation over a single directory, and it is not modelled separately.
- `os.path.exists`, `os.path.abspath`, `uuid.uuid4` and the clock behind `generated_at` are parameters.
- `get_cluster_as_dict` (clustering.py) is not modelled. It only renames fields for JSON.
- `get_all_trajectories` and `get_track` (tracking.py) are not modelled. They are plain accessors of the registry.
- `TrackKalman.RowsFromFrames`: takes the frames already sorted by timestamp. The sort of `main`'s entries and the image loading are not modelled.
- `_to_python_type` (output.py) is taken as the identity: numpy scalars are exact numbers here.
- Value keys: Python's equality of `1`, `1.0` and `True` as dictionary keys is not modelled. Keys compare as model values.
- `Output.TimestampText`: a non-string timestamp is rendered by the `show` parameter, which stands for `str()`.
- `Segmentation.GetPredictionConfidence`: on a mask with non-zero cells that are not 1 the selection can be empty. The source then raises `ValueError` (`np.min` of an empty array); the model returns zeros. Masks built by `Binarize` are 0/1, so this does not arise there.
- `Thresholding.GetBtStatistics`: the `std_bt` entry is not modelled.
- `FeatureExtraction.ClusterFeatures`: `std_bt` is kept as the variance `varianceBt`.
- Iteration over a Python `set` of small non-negative integers is taken in ascending order. This applies to the unmatched clusters in `TCCTracker.update` and the labels in `cluster_clouds`.
- In-place mutation: the cluster dicts that `TCCTracker.update` tags in place are modelled as new `TrackedCluster` records. Aliasing of those dicts with the caller's list is not modelled.
- `DatasetAudit.VisitFile` and `Output.GroupTracks` each write a group with one map update. This stands for the source's "create the entry if missing, then append".
- Logging is not modelled.
- `Output.SummariseMeaning` (and `Output.Summarise`): a string `min_bt` is treated as not a number, so the model raises. In the source the builtin `min` compares string values lexicographically (`['1000', '250']` gives `'1000'`), and `float()` parses the least one. So `[{'track_id': 1, 'min_bt': '195.0'}]` yields `min_bt_overall` 195.0 there and `NotANumber` here. A mix of strings and numbers raises in both. The producers of `min_bt` (`_compute_cluster_features`, `get_bt_statistics`) give floats or None, so this case does not reach the output from the pipeline.
- `Text.LowerChar`: only ASCII capitals are lowered. Python's `str.lower` also lowers non-ASCII letters, and for some (such as 'İ') it changes the length; that is not modelled.
- `Text.Lower`: inherits `Text.LowerChar`'s ASCII-only lowering, so a non-ASCII capital in an extension is kept as it is.
- `FileUtils.KeepAllowed`: `\w` is taken as the ASCII letters, digits and '_'. Python's `re` also counts non-ASCII letters and digits as `\w`; the model drops them. `\s` is modelled exactly (`Text.IsSpaceChar`).
- `FileUtils.Cleaned`: inherits `FileUtils.KeepAllowed`'s ASCII `\w`.
- `FileUtils.SanitizeFilename`: inherits `FileUtils.KeepAllowed`'s ASCII `\w`.
- `Preprocessing.ExtractTimestamp`: `\d` is taken as the ASCII digits. Python's `re` also matches other Unicode decimal digits. A name with such digits gives None here, and the leftmost match can then fall later in the name.
- `Preprocessing.TimestampOfName`: same ASCII-only `\d` as `Preprocessing.ExtractTimestamp`.
- `DatasetAudit.ParseTimestamp`: same ASCII-only `\d` as `Preprocessing.ExtractTimestamp`.
- `Timestamps.IsCore`: the digit test behind the pattern is ASCII only, as for `Preprocessing.ExtractTimestamp`.
- Pixel coordinates are integers. The `astype(int)` truncation in `_compute_cluster_features` is not modelled. The coordinates come from `np.where`, so they are already integers.

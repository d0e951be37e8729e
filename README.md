# Temporal matcher and dataset assembler of the satellite-fusion tutorials

This project models, in Dafny, the date logic of the tutorial scripts that prepare
MODIS / Landsat 8 / Sentinel-2 triples for a spatio-temporal fusion network:

- **Common acquisition dates** (`tutorials/01.py`). Each sensor's timestamp strings
  are cut to their date prefix: MODIS at the first `' '`, Landsat 8 and Sentinel-2
  at the first `'T'`. The three lists are then reduced with `np.intersect1d`,
  Sentinel-2 with Landsat 8 first and that result with MODIS second.
- **(t1, t2) pairing** (`tutorials/03.py:48-69`).
  - Both date arrays are parsed with `datetime.strptime(…, "%Y-%m-%d")`.
  - Every reference date `d1` of the first array is paired with the nearest
    strictly later date of the second array. `d1` is dropped when no later date
    exists.
  - Each pair is printed with `strftime("%Y-%m-%d")`, and then the hyphens are
    removed.
- **Dataset assembly** (`tutorials/03.py:76-142`). The pairs are split at index 7
  into train and test. `create_subfolders` then makes one `pair_{i}` folder per
  pair and copies files into it:
  - for t1: the raster and the mask of all three sensors, at position `00`;
  - for t2: those of MODIS and Landsat 8 only, at position `01`.

## Module layout

- `wrappers.dfy` (`Wrappers`): `Option`.
- `text.dfy` (`Text`):
  - Python's `str` ordering, with its order lemmas;
  - `s.split(sep)[0]` and `s.replace(c, '')`;
  - decimal digits (`int(s)`, `str(n)`, `f'{n:02d}'`).
- `sorted_strings.dfy` (`SortedStrings`): strictly sorted `str` arrays, and
  `np.intersect1d` as "the sorted array of the distinct common values".
  - The value is built by insertion.
  - `SortedUniqueness` shows that any array meeting that description is equal to it.
- `common_dates.dfy` (`CommonDates`): `tutorials/01.py:128-135`.
- `calendar.dfy` (`Calendar`): the part of `datetime` the pairing uses.
  - Proleptic Gregorian dates in years 1..9999.
  - `strptime("%Y-%m-%d")` follows CPython's `_strptime` patterns:
    - `%Y` is four digits;
    - `%m` is `1[0-2]|0[1-9]|[1-9]`;
    - `%d` is `3[01]|[12]\d|0[1-9]|[1-9]| [1-9]`;
    - the whole string must be consumed, and the date must exist.
  - `strftime("%Y-%m-%d")`.
  - `toordinal()`, using CPython's closed form for the days before a year and its
    month table; `(d2 - d1).days` is a difference of ordinals.
- `pairing.dfy` (`Pairing`): `tutorials/03.py:48-69`. The loop is the method
  `PairDates`, proved equal to the specification function `Pairs`.
- `assembly.dfy` (`Assembly`): `tutorials/03.py:76-142`.
  - The filesystem work becomes a *plan*: a sequence of `MakeDir` and `Copy` steps.
  - `CreateSubfolders` is the loop, with every path spelled as the script spells
    it, and it is proved equal to the function `Plan`.
  - Decoders read a source or destination path back into its sensor, kind (raster
    or mask), date and position. They are used to state what every copy means.
  - Sentinel-2 is copied for t1 only (`tutorials/03.py:122-139`): position `01`
    holds the MODIS and Landsat 8 files alone.

## Model

| member | source | states |
|---|---|---|
| Text.BeforeFirst | tutorials/01.py:129-131 | `s.split(sep)[0]`: a prefix of `s` with no `sep` in it, followed in `s` by `sep` when shorter, and all of `s` when `s` has no `sep` |
| Text.Remove | tutorials/03.py:69 | `s.replace(c, '')`: no `c` is left, the result is no longer than `s`, and a string without `c` is returned unchanged |
| Text.RemoveKeepsOthers | tutorials/03.py:69 | every character other than `c` keeps its number of occurrences |
| Text.RemoveAppend | tutorials/03.py:69 | removing a character distributes over concatenation, so the remaining characters keep their order |
| Text.LexLess | tutorials/01.py:134-135 | Python's `str` `<`: code-point lexicographic order; the lemmas below make it a strict total order |
| Text.LexLessIrreflexive | tutorials/01.py:134-135 | no string sorts before itself |
| Text.LexLessTransitive | tutorials/01.py:134-135 | string order is transitive |
| Text.LexLessTotal | tutorials/01.py:134-135 | any two distinct strings are ordered one way or the other |
| Text.LexLessAsymmetric | tutorials/01.py:134-135 | string order is asymmetric |
| Text.LexLessCommonPrefix | tutorials/01.py:134-135 | a shared prefix does not change how two strings compare |
| Text.LexLessFirstDifference | tutorials/01.py:134-135 | differing prefixes of equal length decide the order whatever follows |
| Text.DigitChar | tutorials/03.py:106 | the character printed for a digit value is a decimal digit |
| Text.DigitValue | tutorials/03.py:48 | a digit character reads as a value below ten |
| Text.DigitsValue | tutorials/03.py:48-49 | `int(s)` of an ASCII digit string, read most significant digit first; `DigitsBound`, `DigitsInjective` and `DigitsOrder` state its properties |
| Text.NatToString | tutorials/03.py:91 | `str(i)` is a non-empty string of decimal digits |
| Text.NatToStringValue | tutorials/03.py:91 | `str(i)` reads back as `i` |
| Text.NatToStringInjective | tutorials/03.py:91 | different pair numbers print differently |
| Text.NatToStringLength | tutorials/03.py:106 | a number below `10^w` needs at most `w` digits |
| Text.Zeros | tutorials/03.py:106 | the padding is `k` digit characters |
| Text.ZerosValue | tutorials/03.py:106 | leading zeros do not change a number's value |
| Text.ZerosOnly | tutorials/03.py:106 | a string of zeros reads as 0 |
| Text.ZeroPad | tutorials/03.py:106 | `f'{n:0{w}d}'` is all digits, `max(w, len(str(n)))` long, and reads back as `n` |
| Text.ZeroPadWidth | tutorials/03.py:106 | a number below `10^w` pads to exactly `w` characters |
| Text.ZeroPadOfDigits | tutorials/03.py:48-49 | re-padding a digit string to its own width gives the same string |
| Text.DigitsPrefixValue | tutorials/03.py:48 | appending a digit multiplies the value by ten and adds the digit |
| Text.DigitsInjective | tutorials/03.py:48-49 | two digit strings of one width with the same value are equal |
| Text.DigitsBound | tutorials/03.py:48 | a `k`-digit string reads as a value below `10^k` |
| Text.DigitsOrder | tutorials/03.py:64 | for digit strings of one width, string order is numeric order (both directions) |
| SortedStrings.StrictlySortedDistinct | tutorials/01.py:134-135 | a strictly sorted array has no duplicates |
| SortedStrings.PrependSorted | tutorials/01.py:134-135 | a value below every element of a sorted array extends it sorted |
| SortedStrings.HeadIsLeast | tutorials/01.py:134-135 | the first element of a sorted array is below every other one |
| SortedStrings.Insert | tutorials/01.py:134-135 | inserting into a sorted array keeps it strictly sorted, and its members become the old ones plus the new value |
| SortedStrings.SortedUnique | tutorials/01.py:134-135 | `np.unique`: strictly sorted, with exactly the input's values |
| SortedStrings.KeepCommon | tutorials/01.py:134-135 | the filter keeps exactly the values present in both inputs |
| SortedStrings.Intersect1d | tutorials/01.py:134-135 | `np.intersect1d`: strictly sorted (ascending, no duplicates), holding exactly the values in both inputs |
| SortedStrings.SortedUniqueness | tutorials/01.py:134-135 | two strictly sorted arrays with the same members are equal, so the result above is the only possible one |
| SortedStrings.Intersect1dCommutes | tutorials/01.py:134 | swapping the arguments does not change the result |
| SortedStrings.Intersect1dAssociates | tutorials/01.py:134-135 | regrouping a chain of intersections does not change the result |
| SortedStrings.Intersect1dIdempotent | tutorials/01.py:134-135 | intersecting the result again with either argument changes nothing |
| SortedStrings.Intersect1dOfSorted | tutorials/01.py:134-135 | intersecting an already sorted, duplicate-free array with itself returns it unchanged |
| SortedStrings.Intersect1dEmpty | tutorials/01.py:134-135 | an empty argument gives an empty result |
| CommonDates.DatePrefixes | tutorials/01.py:129-131 | one date prefix per timestamp, each a prefix of its timestamp without the separator |
| CommonDates.DatePrefixesMembers | tutorials/01.py:129-131 | a string is a normalised date iff it is the prefix of some timestamp |
| CommonDates.SentinelLandsatDates | tutorials/01.py:134 | the first intersection is sorted and holds exactly the dates shared by Sentinel-2 and Landsat 8 |
| CommonDates.CommonDates | tutorials/01.py:128-135 | `common_dates` is strictly sorted, holds a date iff it is in all three normalised lists, and lies within the first intersection |
| CommonDates.CommonDatesSortedDistinct | tutorials/01.py:134-135 | ascending with no duplicate, whatever duplicates the inputs hold |
| CommonDates.CommonDatesOfEmpty | tutorials/01.py:134-135 | if any of the three timestamp lists is empty, `common_dates` is empty |
| CommonDates.ThreeWayOrderIndependent | tutorials/01.py:134-135 | intersecting three arrays in any order gives the same result |
| CommonDates.CommonDatesOrderIndependent | tutorials/01.py:134-135 | `common_dates` does not depend on which sensors are intersected first |
| Calendar.Before | tutorials/03.py:61 | `d > d1` on dates: year, then month, then day; `OrdinalOrder` shows it is `toordinal()` order |
| Calendar.DaysInMonth | tutorials/03.py:48-49 | every month has 28 to 31 days |
| Calendar.DaysBeforeYearStep | tutorials/03.py:63 | the days before year `y + 1` are those before `y` plus the length of `y` |
| Calendar.DaysBeforeYearMonotone | tutorials/03.py:63 | a later year starts at least 365 days per year later |
| Calendar.DaysBeforeMonthStep | tutorials/03.py:63 | the days before month `m + 1` are those before `m` plus the length of `m` |
| Calendar.DaysBeforeMonthMonotone | tutorials/03.py:63 | a later month of a year starts at least 28 days per month later |
| Calendar.OrdinalWithinYear | tutorials/03.py:63 | every date of year `y` has an ordinal inside that year's range |
| Calendar.OrdinalIncreasing | tutorials/03.py:61-63 | an earlier date has a smaller `toordinal()` |
| Calendar.OrdinalOrder | tutorials/03.py:58-63 | date order is ordinal order and date equality is ordinal equality (both directions), so `(d2 - d1).days > 0` exactly when `d2 > d1` |
| Calendar.Ordinal | tutorials/03.py:63 | `d.toordinal()` as CPython computes it; `OrdinalIncreasing` and `OrdinalOrder` state that it numbers days in date order |
| Calendar.DayGap | tutorials/03.py:63 | `(d2 - d1).days` is positive exactly when `d1` is earlier than `d2`, and zero exactly when they are the same date |
| Calendar.Parse | tutorials/03.py:48-49 | `datetime.strptime(s, "%Y-%m-%d")`, `None` where it raises; `ParseFormat` and `FormatParse` make it the inverse of `Format` |
| Calendar.Format | tutorials/03.py:64 | `d.strftime("%Y-%m-%d")`; `FormatFields`, `ParseFormat` and `FormatOrder` state its shape, inverse and order |
| Calendar.FieldValue | tutorials/03.py:48-49 | a `%m` field reads as 1..12 and a `%d` field as 1..31 |
| Calendar.TwoDigits | tutorials/03.py:48-49 | a two-digit field reads as ten times its first digit plus its second |
| Calendar.FormatFields | tutorials/03.py:64 | `strftime("%Y-%m-%d")` prints `DDDD-DD-DD` with the zero-padded year, month and day in place |
| Calendar.ParseFormat | tutorials/03.py:48-49 | parsing a printed date gives the date back |
| Calendar.FormatParse | tutorials/03.py:48-49 | printing a parsed canonical `YYYY-MM-DD` string gives the string back |
| Calendar.PaddedFieldOrder | tutorials/03.py:64 | zero-padded fields of one width compare as their numbers, and equal fields leave the order to what follows |
| Calendar.FormatOrder | tutorials/03.py:64 | printed dates compare as strings exactly as the dates compare (both directions) |
| Pairing.Candidates | tutorials/03.py:58 | `candidates` holds exactly the dates of the second array other than `d1` |
| Pairing.After | tutorials/03.py:61 | `after` holds exactly the candidates strictly later than `d1` |
| Pairing.AfterIgnoresExclusion | tutorials/03.py:58-61 | excluding `d1` first changes nothing: `after` is the strictly later dates of the whole second array |
| Pairing.AfterAppend | tutorials/03.py:58-61 | the later-dates filter distributes over concatenation |
| Pairing.MinByGap | tutorials/03.py:63 | the fold returns one of its inputs, with a day gap no larger than any of theirs |
| Pairing.Closest | tutorials/03.py:63 | `min(after, key=…)` is a member of `after` with a day gap no larger than any other's |
| Pairing.ClosestLater | tutorials/03.py:58-64 | one iteration of the loop: `None` or the closest later date; `ClosestLaterIsNextAfter` states what it picks |
| Pairing.ClosestLaterIsNextAfter | tutorials/03.py:58-63 | no pair exactly when no date of the second array is later than `d1`; otherwise the chosen `t2` is in the second array, later than `d1`, and no second-array date lies strictly between them |
| Pairing.NextAfterUnique | tutorials/03.py:61-63 | at most one date is the next later one, so ties in the gap cannot pick different dates |
| Pairing.Paired | tutorials/03.py:56-66 | the reference definition of the kept first-array dates: exactly those with a later date in the second array (their order is the one `PairsFirsts` ties to the loop's) |
| Pairing.Pairs | tutorials/03.py:54-66 | the specification of the loop: one pair per kept reference date, in order, so never more pairs than reference dates; `PairsAreNextAfter` and `PairsFirsts` state its contents |
| Pairing.PairsAreNextAfter | tutorials/03.py:58-64 | every emitted pair `(t1, t2)` has `t2` strictly later than `t1` and is the next later date of the second array |
| Pairing.PairsFirsts | tutorials/03.py:56-66 | the t1 components are exactly the qualifying first-array dates in their original order, and the output length is their number |
| Pairing.DroppedDatesAbsent | tutorials/03.py:65-66 | a date with no later counterpart yields no pair |
| Pairing.PairsDependOnlyOnSecondSet | tutorials/03.py:58-63 | the pairs depend on the second array only through its set of dates |
| Pairing.FormatPairs | tutorials/03.py:64 | each pair printed with `strftime`; `FormatPairsAppend` and `CompactPairsOfFormatted` state its result |
| Pairing.FormatPairsAppend | tutorials/03.py:64 | printing pairs distributes over concatenation |
| Pairing.PairDates | tutorials/03.py:54-66 | the loop's `result_dates` is the printed form of the specification `Pairs` |
| Pairing.AllOrNone | tutorials/03.py:48-49 | a comprehension whose call may raise: `None` iff some element fails, otherwise each element's result in order |
| Pairing.ParseAll | tutorials/03.py:48-49 | the list parses iff every string does, elementwise, and `None` corresponds to `strptime` raising |
| Pairing.Compact | tutorials/03.py:69 | `start.replace('-', '')` on one date; `CompactFormat`, `CompactFields` and `CompactOrder` state its result |
| Pairing.CompactPairs | tutorials/03.py:69 | the hyphen-free array has one pair per input pair |
| Pairing.CompactFormat | tutorials/03.py:64-69 | removing the hyphens from a printed date keeps its eight digits in order: year, month, day |
| Pairing.CompactFields | tutorials/03.py:64-69 | the hyphen-free date is the four-digit year, two-digit month and two-digit day run together |
| Pairing.CompactOrder | tutorials/03.py:69 | the `YYYYMMDD` strings compare exactly as the dates compare (both directions) |
| Pairing.CompactPairsOfFormatted | tutorials/03.py:64-69 | on printed pairs each hyphen-free component is its date's four-digit year, two-digit month and two-digit day run together, and the two components compare as their dates do |
| Pairing.PairedDatesOrdered | tutorials/03.py:48-69 | in every output pair the hyphen-free t1 string sorts strictly before the t2 string |
| Pairing.PairedDates | tutorials/03.py:48-69 | the whole pipeline fails iff one of the two arrays has an unparseable date |
| Pairing.PairedDatesFromInputs | tutorials/03.py:48-69 | on canonical inputs, each output string is an input date of its own array with the hyphens removed, eight digits long |
| Assembly.Join | tutorials/03.py:91 | `posixpath.join` of two parts; `JoinRelative` states it for a relative second part |
| Assembly.SourcePath | tutorials/03.py:97-127 | the source file's f-string; `DecodeSourceOf` reads its sensor, kind and date back |
| Assembly.DestName | tutorials/03.py:106-134 | the destination name's f-string; `DecodeDestOf` reads its position, sensor, kind and date back |
| Assembly.PairFolder | tutorials/03.py:91 | `os.path.join(main_folder, folder, f'pair_{i}')`; `PairFolderShape` and `PairFoldersDistinct` state its form and that pairs do not share folders |
| Assembly.SplitAt | tutorials/03.py:84-86 | `dates[:7]` followed by `dates[7:]` is `dates`, and the train part has `min(7, n)` pairs |
| Assembly.DecodeBodyOf | tutorials/03.py:97-112 | the `[mask_]{date}.tif/.npy` tail of a name reads back as its kind and date |
| Assembly.DecodeSourceOf | tutorials/03.py:97-103 | a source path reads back as its sensor, kind and date |
| Assembly.DecodeDestTagOf | tutorials/03.py:106-112 | a destination's sensor word reads back as its sensor |
| Assembly.DecodeDestOf | tutorials/03.py:105-112 | a destination path reads back to its position `j`, sensor, kind and date, and it lies inside its pair folder |
| Assembly.PairSteps | tutorials/03.py:91-139 | one iteration issues eleven steps; what they are is stated by `PairStepsMeaning` and `CopiesListed` |
| Assembly.CopiesOf | tutorials/03.py:114-139 | an iteration issues one copy step per file it names (their order and contents are in `CopiesListed` and `PairStepsMeaning`) |
| Assembly.Plan | tutorials/03.py:89-139 | `create_subfolders` issues eleven steps per pair |
| Assembly.PairBlocks | tutorials/03.py:90-139 | the loop runs one iteration per date pair |
| Assembly.PlanSnoc | tutorials/03.py:90-139 | the steps for `n + 1` pairs are those for the first `n` followed by iteration `n`'s eleven |
| Assembly.JoinRelative | tutorials/03.py:91 | joining a relative name adds at most one '/' |
| Assembly.PairFolderShape | tutorials/03.py:91 | `pair_{i}`'s folder is the group folder, '/', `pair_` and the number, and it ends in a digit |
| Assembly.PairFoldersDistinct | tutorials/03.py:90-91 | different pairs of one group get different folders |
| Assembly.TrainTestFoldersDistinct | tutorials/03.py:141-142 | a train pair never shares its folder with a test pair |
| Assembly.CopyOfDecodes | tutorials/03.py:114-139 | each copy's source and destination name the same sensor, kind and date, and the destination lies in its pair folder at its position |
| Assembly.IntendedCopies | tutorials/03.py:96-139 | the ten files an iteration copies, with their position `j`; `IntendedCopiesShape` and `CopiesListed` state which |
| Assembly.IntendedCopiesShape | tutorials/03.py:96-139 | a pair copies six t1 files (every sensor, raster and mask) and four t2 files (every sensor but Sentinel-2), each dated by its half |
| Assembly.CopiesListed | tutorials/03.py:114-139 | the ten copies are issued in the script's order: MODIS, Landsat, Sentinel-2 rasters, then their masks for t1; MODIS and Landsat rasters, then masks for t2 |
| Assembly.PairStepsMeaning | tutorials/03.py:91-139 | pair `i` makes `pair_{i}` and then copies exactly the intended ten files. A mask goes to a mask, a raster to a raster, each sensor and date to itself, t1 at `00_` and t2 at `01_` |
| Assembly.PlanLayout | tutorials/03.py:89-139 | pair `i`'s steps are the `i`-th block of eleven in the plan |
| Assembly.DatasetPlan | tutorials/03.py:76-142 | the three top folders, then the train pairs' steps, then the test pairs'; `DatasetPlanTop` and `DatasetPlanLayout` state its layout |
| Assembly.DatasetPlanTop | tutorials/03.py:76-81 | the dataset starts with the main, train and test folders, and has `3 + 11n` steps in all |
| Assembly.DatasetPlanLayout | tutorials/03.py:84-142 | pair `k` of the date list is train pair `k` when `k < 7`, otherwise test pair `k - 7` |
| Assembly.SpelledSources | tutorials/03.py:97-127 | the modelled source paths are the script's literal f-strings |
| Assembly.SpelledDests | tutorials/03.py:106-134 | the modelled destination names are the script's literal f-strings |
| Assembly.PairStepsSpelledOut | tutorials/03.py:91-139 | one iteration's eleven steps, with every path the script's literal f-string, are `PairSteps` |
| Assembly.CreateSubfolders | tutorials/03.py:89-139 | the loop, with every path spelled as written, issues exactly `Plan(folder, date_pairs)` |

## Left out

- Earth Engine work (`tutorials/01.py:22-119`, `:138-195`) is a remote API and is not modelled: collection loading, filtering, `get_times`, exports. The timestamp lists are parameters here.
- `np.load` of the hard-coded date arrays (`tutorials/03.py:27-28`) and `np.save` are left out. The arrays are parameters.
- `os.makedirs` and `shutil.copy` are not performed. The model gives the list of steps the script issues, in order.
- `CreateSubfolders`: a missing source file makes `shutil.copy` raise mid-pair and leaves a partly filled folder. The model assumes every copy succeeds and does not model that failure.
- `tutorials/02.py` (focal-mean gap filling and resampling) calls code that is not part of this model.
- `tutorials/04_updated.py` (checkpoint and resume around a training object) is left out. It has no date or file logic.
- `Calendar.Parse`: Python's `\d` also accepts non-ASCII Unicode digits. The model accepts ASCII digits only.
- `Calendar.Format`: `%Y` is modelled as four zero-padded digits. glibc's `strftime` prints years below 1000 without padding. The scripts' dates are all far above that.
- `Assembly.Join`: `os.path.join` is modelled as on POSIX. Windows' `ntpath` (backslashes, drive letters) is not modelled.
- `CommonDates.CommonDates`: numpy's fixed-width unicode arrays (the `<U10` dtype, trailing NUL characters dropped) are not modelled. Dates are plain strings.
- `Pairing.PairedDates`: where `strptime` raises `ValueError` the model returns `None`. The message text is not modelled.
- Time of day: the parsed values are at midnight, so comparisons and `(d2 - d1).days` are modelled on dates alone.

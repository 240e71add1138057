# Photo organiser and HEIC converter: a Dafny model

This project models the core of two scripts that sort photos.

`organise_photos.py` scans a source tree for media files. For each file it:

- takes the capture date from the first EXIF date tag that parses, else from the file's modification time, else from the clock;
- reads the GPS coordinate from the EXIF degree/minute/second rationals;
- resolves the coordinate to a country through a geocode cache (an exact key hit, else a nearby entry within 20 km among the newest 100, else a reverse-geocoding call whose meaningful answer is cached);
- names the destination folder `YYYY-MM` or `YYYY-MM-Country`;
- picks a free file name there, adding `-1`, `-2`, … to the stem on a collision.

`convert_to_heic.py` maps each source image to `dst/<relative path>.heic`. It skips existing destinations unless overwriting, previews in a dry run, and otherwise converts, counting successes and collecting errors. It also maps the requested quality to an ffmpeg CRF and splits a Windows FILETIME into two 32-bit words.

Modules, one file each:

- `Wrappers`: `Option`.
- `Text`: ASCII `lower`, `isalnum`, `str(n)`, zero padding and `split`.
- `Paths`: pathlib's `suffix`, `stem` and `with_suffix` on the last path component, plus both extension filters.
- `Metadata`: DMS conversion, the GPS pair, the date fallback chain, and the imperative extraction method.
- `Geocode`: the cache as a sequence of entries with distinct keys; the specification function `Resolve`; the class `GeocodeCache`, whose `CountryForCoords` updates the cache in place and is proved equal to `Resolve`.
- `Planner`: slugify, folder names, and the collision rule with its loop.
- `Pipeline`: the scan loop of `run` as a function `PlanAll` and a method `ScanFiles` proved against it; the corrected planning of the finding below.
- `Heic`: the converter's arithmetic, destination path, per-file decision, and loop (as the function `RunAll` and the method `RunConversions`).

The following are parameters: `strptime`, `float()`, `f"{x:.6f}"`, the geopy distance, the Nominatim reverse call, `mkdir`, the directory listing and `convert_image_to_heic`. A parameter returns `None` (or a message) where the original raises.

The model follows the code in these behaviours, which a reader might expect to be otherwise:

- The proximity scan reads the window of the newest 100 entries oldest first (`for k, v in recent_entries`), so the oldest nearby entry in the window answers.
- The collision check looks only at files on disk. Targets planned earlier in the same scan are not counted (see Findings).
- An exact cache hit returns the stored value, even `"Unknown"` or `""` if a loaded cache file holds one. Only values the run itself stores are guaranteed meaningful.
- The comment at `src/convert_to_heic.py:126` says quality 50 gives CRF 28. The code computes `int(40 - 0.5 * 22) = 29`, and `Heic.CrfExamples` states 29.

## Model

| member | source | states |
|---|---|---|
| Paths.Stem | src/convert_to_heic.py:222 | the stem is a prefix of the name (with `Suffix`: stem + suffix is the name) |
| Paths.Suffix | src/organise_photos.py:373-374 | stem + suffix is the name; the suffix is empty or a dot followed by at least one dot-free character; a non-empty suffix has a non-empty stem |
| Paths.IsImageFile | src/organise_photos.py:90-91 | an accepted name has a suffix; every name whose lower-cased suffix is `.heic` is accepted |
| Paths.IsSourceImage | src/convert_to_heic.py:65-66 | a converter source is also an organiser image; a `.heic` name (any case) is never a source |
| Paths.ExtensionFiltersIgnoreCase | src/organise_photos.py:90-91 | both filters give the same answer for a name and its lower-cased form |
| Paths.HeicRenameSuffix | src/convert_to_heic.py:222 | `with_suffix('.heic')` keeps the stem, yields suffix `.heic`, and the result is an organiser image but never a converter source |
| Text.ZeroPadSpec | src/organise_photos.py:353-354 | `f"{n:0wd}"` is all digits, reads back as n, is at least w long and exactly w long when n has at most w digits |
| Text.SplitJoin | src/organise_photos.py:226-227 | splitting `a + sep + b`, with sep in neither a nor b, gives exactly [a, b] |
| Metadata.DmsToDecimal | src/organise_photos.py:102-113 | a value exactly when three components with non-zero denominators exist; its magnitude is deg + min/60 + sec/3600, negative iff the reference is S or W |
| Metadata.DmsHemispheres | src/organise_photos.py:109-110 | S mirrors N, W mirrors E, any other reference reads as N |
| Metadata.DmsParis | src/organise_photos.py:105-111 | 48°51'23.76"N, 2°21'7.92"W give 48.8566 and -2.3522 |
| Metadata.GpsOf | src/organise_photos.py:180-185 | a coordinate iff both tags are present and both convert, each the DMS value under its reference tag (defaults N, E) |
| Metadata.GpsDefaultsNorthEast | src/organise_photos.py:182-183 | with no reference tags both coordinates are non-negative |
| Metadata.FirstParsed | src/organise_photos.py:160-169 | None iff no tag is present and parses; otherwise the parse of the first tag that is present and parses |
| Metadata.ExtractDateAndGps | src/organise_photos.py:159-187 | the loop's date, and `CaptureDate`, is the first parsing tag's, else the modification time, else now; the GPS is `GpsOf` |
| Geocode.CacheKeyParses | src/organise_photos.py:212-232 | `CacheKey` and `ParseKey`: a key the cache writes splits into two parts that read back as the formatted numbers |
| Geocode.ExactLookup | src/organise_photos.py:215-216 | None iff no entry has the key; a result is the label of an entry with that key |
| Geocode.ExactLookupAt | src/organise_photos.py:215-216 | with distinct keys, looking up entry i's key gives entry i's label |
| Geocode.RecentWindow | src/organise_photos.py:221-222 | the window is the last min(100, n) entries |
| Geocode.ProximityMatch | src/organise_photos.py:224-239 | None iff no window entry is a readable key within 20 km with a meaningful label; else the label of the first such entry |
| Geocode.FirstNearby | src/organise_photos.py:224-239 | the loop with `continue`/`return` computes `ProximityMatch` |
| Geocode.LabelOf | src/organise_photos.py:240-260 | the label is never empty; a raised call or no location gives "Unknown" |
| Geocode.LabelPriority | src/organise_photos.py:246-257 | country, then country_name, then country_code, then address, then display_name, then str(loc), else "Unknown" |
| Geocode.ResolveAnswerSource | src/organise_photos.py:206-266 | `Resolve` (`get_country_for_coords`): without a call the answer is the label of an entry already cached; with a call it is the label of the call's outcome |
| Geocode.ResolveExactHit | src/organise_photos.py:212-216 | an exact key hit answers the stored label, keeps the cache and makes no call |
| Geocode.ResolveNearbyHit | src/organise_photos.py:218-239 | without an exact hit, the first nearby window entry answers; no call, cache unchanged |
| Geocode.ResolveQueries | src/organise_photos.py:240-266 | with no hit the call is made, its label is the answer, and the key is appended iff the label is meaningful |
| Geocode.ResolvePreservesCache | src/organise_photos.py:261-265 | keys stay distinct, no Unknown/empty label is added, the old cache is a prefix, at most one entry is added and only after a meaningful call |
| Geocode.ResolveAgain | src/organise_photos.py:206-266 | asking again with the cache left behind gives the same label without a call, unless the first call failed |
| Geocode.ResolveParisFromCache | src/organise_photos.py:212-216 | with the Paris key cached, Paris resolves to "France" from the cache |
| Geocode.GeocodeCache.Load | src/organise_photos.py:190-196 | the parsed object, or an empty cache when loading fails |
| Geocode.GeocodeCache.CountryForCoords | src/organise_photos.py:206-266 | returns `Resolve`'s label, leaves `Resolve`'s cache, counts one external call exactly when `Resolve` queries |
| Planner.KeepAllowed | src/organise_photos.py:325 | only alphanumerics, space, `-`, `_` are kept; an all-kept string is unchanged |
| Planner.KeepAllowedChar | src/organise_photos.py:325 | a single character is kept exactly when it is alphanumeric, space, `-` or `_` |
| Planner.KeepAllowedAppend | src/organise_photos.py:325 | the filter of a concatenation is the concatenation of the filters, so the kept characters survive in order |
| Planner.Strip | src/organise_photos.py:325 | the result is the slice after the leading whitespace, neither starting nor ending with whitespace; what is cut off is whitespace |
| Planner.SlugifyFolderName | src/organise_photos.py:323-325 | only kept characters, no leading or trailing space, never longer than the input |
| Planner.SlugifyIdempotent | src/organise_photos.py:323-325 | slugifying a slug changes nothing |
| Planner.SlugifyKeepsAlnum | src/organise_photos.py:323-325 | an alphanumeric name is its own slug |
| Planner.SlugifyKeepsTrimmed | src/organise_photos.py:323-325 | a name of allowed characters not starting or ending with a space is its own slug |
| Planner.SlugUnitedStates | src/organise_photos.py:323-325 | the slug of "United States" is "United States" |
| Planner.SlugDropsChar | src/organise_photos.py:323-325 | a disallowed character between allowed text is dropped and the rest kept in order ("Bosnia & Herzegovina" gives "Bosnia  Herzegovina") |
| Planner.SlugNoLocation | src/organise_photos.py:361-364 | the slug of "NoLocation" is "NoLocation" |
| Planner.YearMonth | src/organise_photos.py:353-354 | seven characters, a `-` at index 4, digits reading back the year and month |
| Planner.FolderName | src/organise_photos.py:355-366 | starts with `YYYY-MM`; two-level names are exactly that; otherwise `-` and the country follow |
| Planner.NoLocationFolder | src/organise_photos.py:361-365 | a July 2023 file without GPS goes to `2023-07-NoLocation` |
| Planner.CandidateInjective | src/organise_photos.py:376-378 | different counters give different names |
| Planner.TakenBound | src/organise_photos.py:375-377 | if the first i-1 alternatives are taken there are at least i-1 names, so the counter loop ends |
| Planner.CollisionTarget | src/organise_photos.py:370-378 | the target is free; the own name when free; else `stem-i.ext` for the least free i ≥ 1 |
| Planner.PlanTarget | src/organise_photos.py:370-378 | the collision loop returns `CollisionTarget` |
| Planner.CollisionExample | src/organise_photos.py:370-378 | beside `IMG_0001.jpg` the target is `IMG_0001-1.jpg`; with that taken too, `IMG_0001-2.jpg` |
| Pipeline.PlanFileFits | src/organise_photos.py:351-398 | `PlanFile`: the record fails, with mkdir's message and no target, exactly when its folder cannot be made; otherwise it carries the chosen date and GPS, the country (empty in two-level mode, "NoLocation" without GPS, else the slug of `Resolve`'s label on the cache before the file) and targets `dst/<folder>/<least free name>` |
| Pipeline.PlanAllRecords | src/organise_photos.py:350-398 | `PlanAll`: one record per file in discovery order, each fitting its file (as in `PlanFileFits`) on the cache the scan of the earlier files left behind |
| Pipeline.PlanAllCache | src/organise_photos.py:362-363 | the scan keeps the cache's keys distinct and labels meaningful, only appends, at most one entry per file |
| Pipeline.TwoLevelLeavesCache | src/organise_photos.py:355-359 | in two-level mode the cache is untouched and every country is empty |
| Pipeline.PlanOne | src/organise_photos.py:351-398 | one file's planning computes `PlanFile` and updates the cache object accordingly |
| Pipeline.ScanFiles | src/organise_photos.py:350-398 | the scan loop returns `PlanAll`'s records and leaves `PlanAll`'s cache |
| Pipeline.SameNameCollides | src/organise_photos.py:370-378 | two same-named files in one folder of an empty destination get the same target |
| Pipeline.PlanAllTrackedDistinct | src/organise_photos.py:370-378 | `PlanAllTracked`, counting planned names as taken: targets are pairwise distinct, each under `dst/<folder>/` and absent from disk |
| Pipeline.SameNameSeparated | src/organise_photos.py:370-378 | on the collision example the corrected scan plans two different targets |
| Heic.ClampQuality | src/convert_to_heic.py:128 | the quality is clamped into [0, 100] |
| Heic.CrfClosedForm | src/convert_to_heic.py:127-131 | `Crf`: CRF = 40 - ceil(11q/50) on the clamped quality, within [18, 40], so the final clamp never changes it |
| Heic.CrfExamples | src/convert_to_heic.py:126-131 | 100 → 18, 0 → 40, 90 → 20, 50 → 29, -5 → 40, 250 → 18 |
| Heic.CrfMonotone | src/convert_to_heic.py:129-131 | a higher quality never gives a higher CRF |
| Heic.SplitFileTimeRoundTrip | src/convert_to_heic.py:107-109 | `SplitFileTime`: the low word is below 2^32 and high·2^32 + low is the timestamp |
| Heic.MaskAndShiftBits | src/convert_to_heic.py:108-109 | on 64-bit values `& 0xFFFFFFFF` and `>> 32` are remainder and quotient by 2^32 |
| Heic.FileTimeWords | src/convert_to_heic.py:111-114 | both DWORD fields lie in [0, 2^32) |
| Heic.FileTimeWordsValue | src/convert_to_heic.py:111-114 | the DWORD fields hold the timestamp modulo 2^64, exactly the split when it fits |
| Heic.RelativePath | src/convert_to_heic.py:218-219 | `src` followed by the relative path is the source path, and the relative path ends with the file's own name |
| Heic.HeicDestination | src/convert_to_heic.py:218-222 | the destination lies under dst, keeps the relative folders, and ends in the same stem with suffix `.heic` |
| Heic.Decide | src/convert_to_heic.py:224-230 | skip iff the destination exists and overwriting is off; convert iff not skipped and not a dry run |
| Heic.StepEffect | src/convert_to_heic.py:224-265 | `Step`: one iteration leaves the state, adds one error, or writes one file that did not exist or may be overwritten; a dry run changes nothing |
| Heic.RunAllCounts | src/convert_to_heic.py:214-265 | `RunAll`: converted equals files written, converted + errors ≤ images; a dry run converts nothing |
| Heic.RunAllNeverOverwrites | src/convert_to_heic.py:224-226 | existing files afterwards are the earlier ones plus those written; without overwrite none is written twice or replaced |
| Heic.ConvertOne | src/convert_to_heic.py:218-265 | one iteration of the loop computes `Step` |
| Heic.RunConversions | src/convert_to_heic.py:214-265 | the loop's counter, errors and written files are `RunAll`'s |

## Left out

- File I/O: directory walking, EXIF and HEIF decoding, stderr suppression, JSON load and save, CSV reports, argument parsing, logging and progress bars. The model takes their results as values or parameters.
- The copy/move stage of `run` and the mtime, creation-time and delete-original steps of the converter. They act on the file system only.
- The Nominatim client and its rate limiter. The reverse call is a function of the coordinate, so retries, delays and time-varying answers are not modelled.
- `convert_image_to_heic` and the ffmpeg process. They are a parameter returning a message on failure; a failed conversion is assumed to leave no file behind.
- `src_path.stat()` in the converter loop, which can raise outside any `try`. The model assumes it succeeds.
- The `int((timestamp + 11644473600) * 10000000)` float step before the FILETIME split. The split is modelled from the integer `windows_ts`. The same split at `src/organise_photos.py:298-300` is identical and is not modelled twice.
- Floating point: DMS values, distances and CRF use exact reals, so rounding is not modelled.
- Unicode: `str.lower`, `str.isalnum` and `str.strip` are modelled on their ASCII part. `Strip` removes the ten ASCII characters Python treats as whitespace, including U+001C to U+001F; non-ASCII whitespace is not modelled.
- The fallback `rel = src_path.name` at `src/convert_to_heic.py:220-221`. It is a `str`, so the `with_suffix` call on line 222 would raise outside any `try` and end the run. `find_images(src)` (`src/convert_to_heic.py:69-74`) only yields paths below `src`, so the fallback is never taken; `Heic.Convertible` requires a path strictly below `src`, and the model has no such arm.
- Pipeline.PlanFile: `mkdir` is the only modelled exception source in the scan. The other calls have no exception path in the model.
- Metadata.RatioValue: EXIF rationals are taken as unsigned, so negative numerators are not modelled.

## Findings

| source | as written | input that shows it | evidently intended | confidence | as-written member | corrected member |
|---|---|---|---|---|---|---|
| src/organise_photos.py:370-378 | the collision check uses `target_path.exists()` only, but files are copied after the whole scan, so names planned earlier in the same run are not seen | two files `a/IMG_0001.jpg` and `b/IMG_0001.jpg`, both July 2023, two-level mode, empty destination: both get `2023-07/IMG_0001.jpg` and the second copy overwrites the first | the comment at line 371, "If collision, append a counter", asks that a file never land on a name already used; a name planned earlier in the run counts as taken, so every planned target is distinct | not executed | Pipeline.SameNameCollides | Pipeline.PlanAllTrackedDistinct |

`Pipeline.PlanAll` and `Pipeline.ScanFiles` follow the code as written. `Pipeline.PlanAllTracked` is the corrected planning: it passes the names planned so far (`Pipeline.TakenSoFar`) to the same per-file step.

# Image-quality custom metrics and the gapminder selection app, in Dafny

This project models two small Python programs.

**Image-quality monitoring** (`custom-metrics-example/image_quality.py`):
- It finds the newest folder of OCR images in an object-store bucket.
- It scores every image in that folder. A scoring failure is logged and the image is skipped.
- It reports the median score, or the sentinel `-1` when no image could be scored.
- On the series of reported metrics it runs a rolling-window change-point scan.
- It alerts only when there is at least one change point and every change point ended within the last five days.

**Gapminder dashboard** (`app-dash.py`):
- A click on a bar toggles that row in the table's selection.
- Redrawing the figure colours every bar blue (`#0074D9`). It then colours orange (`#FF851B`) every bar whose index, with Python's negative-index wrap-around, is selected.
- The one colour list is shared by the three bar panels: life expectancy, GDP per capita and population.

Modules:
- `Wrappers` — `Option`.
- `ChangePoints` — the window scan and the alert decision of `get_change_points`.
- `LatestFolder` — the listing, newest-object choice and folder-prefix derivation of `get_img_keys`.
- `ImageQuality` — the skip-and-aggregate loop of `compute_img_quality`, the median, and the `-1` sentinel.
- `Selection` — `update_selected_rows`, with the selected-rows list as a class whose `Remove`/`Append` change it in place.
- `Figure` — the colour array built by `update_figure` and the three traces that share it.

Modelling choices:
- Times are integer seconds.
- The current time is a parameter `now`.
- The CUSUM detector is a function parameter (`Detector`): the model fixes which windows it is called on and with which request, and what the scan does with the answers.
- The per-image scorer is a function `string -> Option<real>`; `None` stands for every exception the per-image `try` block swallows (download, decode, scoring).
- The bucket is a sequence of `(key, last_modified)` objects in listing order.
- Scores are exact reals.

Behaviours of the code worth noting:
- The alert fires only when *every* change point ended within the window (`image_quality.py:62`), although the comment at `image_quality.py:61` speaks of change points *in* the last days.
- `-1` is returned when nothing was scored. It can therefore be confused with a genuine median of `-1`; `SentinelIffNothingScored` states when it cannot.
- With a prefix that does not end in `/`, the "latest folder" can lie outside the requested prefix; `FolderInsideRequestedFolder` needs the trailing `/`.
- A selection holding a row twice is not flipped by a click: `list.remove` removes only the first copy (`DoubleClickWithDuplicate`).
- An empty table makes `update_figure` fail on `dff['country']` (a `KeyError`).
- The scan never looks at the newest sample: the window ends stop below `n_rows` (`image_quality.py:40`) and each slice stops before its end (`image_quality.py:41`), so row `n_rows - 1` is in no window (`NewestSampleNeverScanned`).

## Model

| member | source | states |
|---|---|---|
| ChangePoints.Range | custom-metrics-example/image_quality.py:40 | Python's `range(start, stop, step)` for a positive step: every value lies in `[start, stop)`, it is empty exactly when `stop <= start`, it starts at `start`, and one more step from its last value reaches `stop` |
| ChangePoints.RangeAt | custom-metrics-example/image_quality.py:40 | element `k` of the range is `start + k*step`, and `start + len(r)*step >= stop` (no value below `stop` is skipped at the end) |
| ChangePoints.RangeContainsStep | custom-metrics-example/image_quality.py:40 | every `start + k*step` below `stop` is visited |
| ChangePoints.RangeMembership | custom-metrics-example/image_quality.py:40 | a value is visited iff it is below `stop` and is `start` plus a whole number of steps |
| ChangePoints.Window | custom-metrics-example/image_quality.py:41 | reference definition of the slice `multi_cp_ts[end_idx - W : end_idx]`; meaning given by ScannedWindowShape and NewestSampleNeverScanned |
| ChangePoints.Request | custom-metrics-example/image_quality.py:42-44 | reference definition of the detector's arguments (interest window and directions); meaning given by ScannedWindowShape |
| ChangePoints.WindowEnds | custom-metrics-example/image_quality.py:40 | reference definition of the `end_idx` values; meaning given by WindowEndsAreSteps |
| ChangePoints.DetectAll | custom-metrics-example/image_quality.py:40-44 | reference definition of the collected change points for a list of window ends; meaning given by DetectAllMembership |
| ChangePoints.Scan | custom-metrics-example/image_quality.py:38-44 | reference definition of the whole scan; meaning given by ScanMembership and ScanChangePoints |
| ChangePoints.ScanChangePoints | custom-metrics-example/image_quality.py:38-44 | the loop collects, in order, the detector's answers for the windows ending at each `end_idx` of the range, which is `Scan` |
| ChangePoints.WindowEndsAreSteps | custom-metrics-example/image_quality.py:39-40 | window `k` ends at `historical_window + scan_window + k*step`, all ends are below `n_rows`, none is missed, and there are none iff `n_rows <= historical_window + scan_window` |
| ChangePoints.ScannedWindowShape | custom-metrics-example/image_quality.py:41-44 | each scanned window lies in the series and has exactly `historical_window + scan_window` samples; the interest window is `[historical_window, historical_window + scan_window]` and covers exactly the last `scan_window` samples; only decreases are requested |
| ChangePoints.NewestSampleNeverScanned | custom-metrics-example/image_quality.py:40-41 | every window end is at most `n_rows - 1` and every window is the slice ending before it, so the newest sample lies in no window |
| ChangePoints.DetectAllMembership | custom-metrics-example/image_quality.py:40-44 | a change point is collected iff the detector reports it for the window ending at one of the visited ends |
| ChangePoints.ScanMembership | custom-metrics-example/image_quality.py:38-44 | a change point is in the scan result iff it is reported for some window ending at `historical_window + scan_window + k*step < n_rows` |
| ChangePoints.ShortSeriesNeverAlerts | custom-metrics-example/image_quality.py:39-40 | a series of at most `historical_window + scan_window` rows is never scanned, yields no change points and never alerts |
| ChangePoints.EndTimes | custom-metrics-example/image_quality.py:60 | the end times, one per change point, in order |
| ChangePoints.AlertThreshold | custom-metrics-example/image_quality.py:57-58 | reference definition of `end_check_date`, five days before `now`; meaning given by AlertIff |
| ChangePoints.AllAtOrAfter | custom-metrics-example/image_quality.py:62 | reference definition of the `all(...)` test; meaning given by AllAtOrAfterIff |
| ChangePoints.AllAtOrAfterIff | custom-metrics-example/image_quality.py:62 | `all(x >= end_check_date ...)` holds iff every date is at or after the threshold |
| ChangePoints.ShouldAlert | custom-metrics-example/image_quality.py:56-67 | reference definition of the alert decision; meaning given by AlertIff |
| ChangePoints.GetChangePoints | custom-metrics-example/image_quality.py:35-67 | the function returns the alert decision `ShouldAlert` on the scan's change points |
| ChangePoints.AlertIff | custom-metrics-example/image_quality.py:56-67 | alert iff there is at least one change point and every change point ended at or after `now - 5*86400` seconds |
| ChangePoints.OneOldChangePointSuppresses | custom-metrics-example/image_quality.py:62 | a single change point that ended more than five days ago suppresses the alert |
| ChangePoints.AlertAtEarlierNow | custom-metrics-example/image_quality.py:58-62 | an alert raised at time `now` is also raised at any earlier `now` |
| ChangePoints.AlertOfConcatenation | custom-metrics-example/image_quality.py:42-62 | for two non-empty batches of change points, the joint alert fires iff each batch alone would fire |
| LatestFolder.ListByPrefix | custom-metrics-example/image_quality.py:98 | the filtered listing holds exactly the bucket's objects whose key starts with the prefix, and is no longer than the bucket |
| LatestFolder.ListByPrefixAppend | custom-metrics-example/image_quality.py:98 | the listing keeps the bucket's order: listing a concatenation lists each part in turn |
| LatestFolder.Keys | custom-metrics-example/image_quality.py:105 | one key per object, in order |
| LatestFolder.LatestIndex | custom-metrics-example/image_quality.py:99-100 | the first element of the descending stable sort by `last_modified`: an object with the greatest time, and every object listed before it is strictly older |
| LatestFolder.LatestIndexUnique | custom-metrics-example/image_quality.py:99-100 | that choice is unique: any index with the greatest time and only strictly older objects before it is that one |
| LatestFolder.Latest | custom-metrics-example/image_quality.py:99-100 | reference definition of the newest object under the prefix; meaning given by ImageKeysSpec and LatestIndexUnique |
| LatestFolder.LastSlash | custom-metrics-example/image_quality.py:102 | the position of the last `/` in the key, or -1 when it has none |
| LatestFolder.FolderPrefix | custom-metrics-example/image_quality.py:102 | `re.sub("/[^/]*$", "/", key)`: a key without `/` is unchanged; otherwise the result is a prefix of the key ending in `/` and the rest of the key holds no `/` |
| LatestFolder.FolderPrefixUnique | custom-metrics-example/image_quality.py:102 | a prefix of the key that ends in `/` and leaves no `/` after it is the folder prefix |
| LatestFolder.FolderPrefixIdempotent | custom-metrics-example/image_quality.py:102 | the substitution applied to its own result changes nothing |
| LatestFolder.StartsWithOwnFolder | custom-metrics-example/image_quality.py:102-104 | every key lies in its own folder, so the second listing contains the newest object |
| LatestFolder.ImageKeys | custom-metrics-example/image_quality.py:94-110 | reference definition of `get_img_keys`; meaning given by ImageKeysSpec |
| LatestFolder.ImageKeysSpec | custom-metrics-example/image_quality.py:94-110 | `get_img_keys` fails (the `[0]` of line 102) iff no object lies under the prefix; otherwise the chosen object is in the bucket under the prefix and has the greatest time there, its key is among the returned keys, every returned key lies in its folder, and every object of the bucket in that folder is returned |
| LatestFolder.WholeFolderListed | custom-metrics-example/image_quality.py:104-105 | every object of the bucket whose key lies in the folder has its key in the second listing |
| LatestFolder.FolderInsideRequestedFolder | custom-metrics-example/image_quality.py:98-104 | when the prefix ends in `/`, the latest folder lies inside the requested prefix |
| ImageQuality.Collected | custom-metrics-example/image_quality.py:124-134 | reference definition of the scores appended to `brisque_scores`; meaning given by CollectedMembership, EveryKeyAccountedFor and CollectedPermutation |
| ImageQuality.FailedKeys | custom-metrics-example/image_quality.py:124-134 | reference definition of the keys logged as failed; meaning given by FailedKeysMembership and EveryKeyAccountedFor |
| ImageQuality.Median | custom-metrics-example/image_quality.py:139 | reference definition of `statistics.median`; meaning given by MedianBetweenMinAndMax, MedianOfOddIsAValue, MedianIgnoresOrder and MedianOfTwo |
| ImageQuality.Quality | custom-metrics-example/image_quality.py:136-139 | reference definition of the value `compute_img_quality` returns; meaning given by QualityBounds, SentinelIffNothingScored and QualityIgnoresOrder |
| ImageQuality.Insert | custom-metrics-example/image_quality.py:139 | inserting into a sorted list keeps it sorted, adds exactly one element and keeps the multiset |
| ImageQuality.Sort | custom-metrics-example/image_quality.py:139 | the sort used by `median` is an ascending permutation of the same length |
| ImageQuality.ComputeImgQuality | custom-metrics-example/image_quality.py:122-139 | the loop yields `Quality` (the median of the scores collected, or -1) and exactly the keys that failed, in order |
| ImageQuality.ComputeFolderQuality | custom-metrics-example/image_quality.py:119-139 | `compute_img_quality` fails when no object lies under the prefix (the `IndexError` of line 102), and otherwise aggregates over the newest folder's keys |
| ImageQuality.EveryKeyAccountedFor | custom-metrics-example/image_quality.py:124-134 | the scored and the failed keys together number the keys |
| ImageQuality.FailedKeysMembership | custom-metrics-example/image_quality.py:124-134 | a key is logged as failed iff it is one of the listed keys and its download, decoding or scoring raises |
| ImageQuality.NothingCollectedIff | custom-metrics-example/image_quality.py:132-136 | no score is collected iff every image fails |
| ImageQuality.CollectedMembership | custom-metrics-example/image_quality.py:124-132 | a value is collected iff some key scores to it |
| ImageQuality.MedianBetweenMinAndMax | custom-metrics-example/image_quality.py:139 | the median lies between two of the scores |
| ImageQuality.MedianOfOddIsAValue | custom-metrics-example/image_quality.py:139 | with an odd number of scores the median is one of them |
| ImageQuality.SortedPermutationsEqual | custom-metrics-example/image_quality.py:139 | two sorted lists with the same multiset are equal |
| ImageQuality.MedianIgnoresOrder | custom-metrics-example/image_quality.py:139 | the median of a sample does not depend on the order of its values |
| ImageQuality.CollectedAppend | custom-metrics-example/image_quality.py:124-132 | the scores collected from two batches of keys are those of the first batch followed by those of the second |
| ImageQuality.CollectedPermutation | custom-metrics-example/image_quality.py:124-132 | listing the same keys in another order collects the same scores in another order |
| ImageQuality.QualityIgnoresOrder | custom-metrics-example/image_quality.py:124-139 | the result of `compute_img_quality` does not depend on the order in which the image keys are listed |
| ImageQuality.QualityBounds | custom-metrics-example/image_quality.py:136-139 | no score gives -1; otherwise the result lies between the scores of two images |
| ImageQuality.SentinelIffNothingScored | custom-metrics-example/image_quality.py:136-137 | when every listed image that is scored scores above -1, the result is -1 iff no image was scored |
| ImageQuality.MedianOfTwo | custom-metrics-example/image_quality.py:139 | the median of two scores is their mean |
| ImageQuality.OneCorruptImage | custom-metrics-example/image_quality.py:124-139 | two good images around a corrupt one: the result is the mean of the two scores and the corrupt key is the one failure |
| Selection.IndexOf | app-dash.py:86 | the index `list.remove` deletes at: the first position holding the value |
| Selection.RemoveFirst | app-dash.py:86 | reference definition of `list.remove`; meaning given by RemoveFirstMultiset and ToggleEffect |
| Selection.RemoveFirstMultiset | app-dash.py:86 | removing the first occurrence shortens the list by one and removes one copy from its multiset |
| Selection.PointNumbers | app-dash.py:84-85 | the clicked rows, one per point, in order |
| Selection.SelectedRows.Remove | app-dash.py:86 | `selected_rows.remove(n)` deletes the first occurrence of `n` in place |
| Selection.SelectedRows.Append | app-dash.py:88 | `selected_rows.append(n)` adds `n` at the end in place |
| Selection.UpdateSelectedRows | app-dash.py:82-89 | without click data the list is returned unchanged; otherwise the same list object, changed in place, becomes the original toggled point by point |
| Selection.Toggle | app-dash.py:85-88 | reference definition of one click; meaning given by ToggleEffect and ToggleFlipsMembership |
| Selection.ToggleAll | app-dash.py:84-88 | reference definition of a whole click; meaning given by ToggleAllParity |
| Selection.ToggleEffect | app-dash.py:85-88 | a selected row is removed (one copy fewer); an unselected row is appended at the end |
| Selection.ToggleFlipsMembership | app-dash.py:85-88 | on a selection without duplicates one click flips exactly the clicked row and keeps the selection duplicate-free |
| Selection.ToggleAllParity | app-dash.py:84-88 | on a selection without duplicates a row ends up selected iff it was selected xor it was clicked an odd number of times |
| Selection.DoubleClickKeepsMembership | app-dash.py:84-88 | on a selection without duplicates, the same row clicked twice leaves the set of selected rows as it was |
| Selection.DoubleClickWithDuplicate | app-dash.py:86 | with a duplicated row in the selection, a double click does change it, because only the first copy is removed |
| Selection.ToggleExamples | app-dash.py:85-88 | clicking a selected row deselects it; clicking an unselected row appends it |
| Figure.ValidIndex | app-dash.py:104 | reference definition of the list indices Python accepts, `[-n, n)`; meaning given by OutOfRangeFails and MarkerColours |
| Figure.Resolve | app-dash.py:104 | Python's list index: a valid negative index counts from the end |
| Figure.ColourOf | app-dash.py:102-104 | reference definition of bar `j`'s colour; meaning given by ColourOfSelection and ColourOfNonNegativeSelection |
| Figure.MarkerColours | app-dash.py:102-104 | the colour list has one entry per row; the loop fails iff some selected index is out of range; otherwise every bar is orange iff its index is selected and blue otherwise |
| Figure.Countries | app-dash.py:106 | the x column, one country per row |
| Figure.LifeExpectancies | app-dash.py:107 | the y column of the first panel |
| Figure.GdpPerCapita | app-dash.py:113 | the y column of the second panel |
| Figure.Populations | app-dash.py:119 | the y column of the third panel |
| Figure.UpdateFigure | app-dash.py:96-122 | `IndexError` iff some selected index is out of range; otherwise `KeyError` on an empty table; otherwise three bar traces over the table's columns that share one marker colour list, coloured as `ColourOf` says |
| Figure.ColourOfSelection | app-dash.py:102-104 | for any selection, bar `j` is orange iff `j` or `j - n` is among the selected indices |
| Figure.ColourOfNonNegativeSelection | app-dash.py:102-104 | with non-negative selected indices, bar `j` is orange iff `j` is selected |
| Figure.OutOfRangeFails | app-dash.py:104 | a selected index outside `[-n, n)` makes the figure fail |

## Left out

- The CUSUM detector (kats `CUSUMDetector`) is a function parameter; its statistics are not modelled.
- The `plot_cpt` branch (matplotlib plotting and a second, unused detector run) draws only and does not affect the result.
- `datetime.now` with the first change point's time zone is the parameter `now` in seconds; time zones are not modelled.
- ChangePoints.ScanChangePoints: requires `step >= 1`. Python raises on a zero step and walks downward with a negative step; those runs are not modelled. Its window sizes are `nat`: negative `historical_window` or `scan_window`, which Python's signature accepts and which give negative slice bounds, are not modelled.
- ChangePoints.GetChangePoints: requires `step >= 1` and takes `nat` window sizes, for the same reasons.
- ChangePoints.GetChangePoints: the detector is assumed not to raise. An exception from `TimeSeriesData` at line 37 or from the detector at lines 42-44 aborts the scan with no decision; that is not modelled.
- ChangePoints.ScanChangePoints: the detector is assumed not to raise, as for `GetChangePoints`.
- `print` of the alert message, the progress bar (`tqdm`) and the `logging.error` calls are output only, other than the per-image failure log at line 134, which is `FailedKeys`.
- `get_bucket` (boto3 credentials from the environment) and the bucket listing are replaced by a sequence of stored objects. The two listings in `get_img_keys` see the same snapshot; a bucket changing between them is not modelled.
- A failed connection or listing is not modelled, nor the unguarded `get_bucket` call at `image_quality.py:120`; the `IndexError` of an empty listing (line 102, re-raised at line 108) is the `None` result.
- Downloading, decoding and BRISQUE scoring of an image are the scorer parameter.
- Scores are exact reals; floating-point rounding in `median` is not modelled.
- `get_cpt_df` and the rest of the script (SDK metric logging, alert configuration) lie outside the modelled core.
- The dashboard's layout, the table definition, the subplot titles and the figure's layout settings are presentation only.
- Selection.SelectedRows.Remove: requires the row to be selected, as the guarded call at `app-dash.py:85-86` ensures; the `ValueError` of an unguarded `remove` is not modelled.
- Selection.UpdateSelectedRows: `selected_rows` arriving as `None` (which would make `in` raise) is not modelled; the list is always present.
- Figure.UpdateFigure: the table's columns are typed (`TableRow`); cells edited into other types, and missing columns other than on an empty table, are not modelled.

# BMNP-2 pipeline core in Dafny

This project models the data pipeline of BMNP-2 (`main/bmnp.py`) and proves properties of the model. The pipeline keeps a directory of daily sea-surface-temperature (SST) grids for a bounded region up to date. From them it derives one Degree Heating Weeks (DHW) grid per day: the sum over 84 daily files of the clipped excess of the SST over a bleaching threshold (the maximum monthly mean plus one degree).

The model covers five pieces of `main/bmnp.py`:

- **Date normaliser** (`DateLayout`, file `date_layout.dfy`). `changeDateLayout` rewrites a user-supplied date into `YYYY-MM-DD`. It returns the sentinel `'nd'` for unseparated inputs that are not eight characters long. Branches that match nothing return Python `None`, modelled as `Option.None`.
- **Date ledger** (`Ledger`, `Calendar`). `makeDateList` enumerates every day from start to end, inclusive. `checkMissingDates` keeps the days whose `<date>.nc` is absent from the refined-SST listing. Days are proleptic Gregorian dates with day ordinals, as Python's `datetime` counts them. `strptime('%Y-%m-%d')` and `strftime` are a parser and a formatter with a proved round trip.
- **Region crop and download bookkeeping** (`Ingest`). `FixData` is a method of the `Downloader` class. Its fields are the download-directory listing, the refined files and the `downloaded_dates` list, which the method updates.
- **Coordinate aligner** (`Align`). Both coordinate axes are sorted. The SST window runs from the first occurrence of the baseline minimum to just after the first occurrence of the baseline maximum. A missing extremum is an error.
- **Rolling DHW accumulator** (`Dhw`). Setting up builds:
  - the sorted, de-duplicated date prefixes of the SST directory;
  - the alignment;
  - the threshold.

  For an anchor position `k`, the 84 list entries `k, k-1, …, k-83` are opened and cropped. Their clipped excess is summed into a running total held in a 2-D array, and the rows are flipped. Two skip policies decide which anchors are written into the DHW directory, which is the `DhwArchive` class. The `delete_singles` sweep skips the first 84 positions and every existing output. The refresh over freshly downloaded dates skips only positions below 84, and rewrites existing outputs.

Values are integers in hundredths, so `round(…, 2)` and `around(…, 2)` are the identity. The offset `273.14` becomes `KelvinOffset = 27314` and `+ 1.0` becomes `ThresholdOffset = 100`. Directory listings are sequences of names. The content of a netCDF file is a `GridFile`: latitudes, longitudes and a latitude-by-longitude grid. A name missing from the `contents` map is a file that cannot be opened.

The model follows the code in these places, where its behaviour is easy to misread:
- The code skips anchor positions `idx < 84`, which is the first 84 positions, not the first 83.
- The window is the 84 entries of the sorted file list ending at the anchor, whatever their calendar dates. No contiguity is checked.
- A day file inside a window that cannot be opened raises, and so stops `createDHWs`. It is not skipped.
- The refined SST is stored in kelvin.
- The DHW grid is written with ascending latitude labels but flipped rows.
- The daily excesses are summed without dividing by 7.
- The refresh after a download recomputes only the anchor at each downloaded date. A later anchor whose 84-entry window also contains that date keeps its old DHW file.

## Model

| member | source | states |
|---|---|---|
| Text.Take | main/bmnp.py:733 | `file[0:10]` keeps the first ten characters, or the whole name if it is shorter, and is a prefix of the name |
| Text.LexLessIrreflexive | main/bmnp.py:735 | the string order used by `sort` is irreflexive |
| Text.LexLessTransitive | main/bmnp.py:735 | the string order used by `sort` is transitive |
| Text.LexLessTotal | main/bmnp.py:735 | any two distinct strings are ordered one way or the other |
| Calendar.ParseIsoDate | main/bmnp.py:281-282 | `strptime(s, '%Y-%m-%d')` on zero-padded ASCII digits: a parsed date is valid and comes from a ten-character string; other strings of that form are the ValueError |
| Calendar.Format | main/bmnp.py:284 | `strftime('%Y-%m-%d')`: four-digit year, two-digit month and day, joined by `-` |
| Calendar.Ordinal | main/bmnp.py:281-283 | every valid date has a day ordinal between 1 and that of 9999-12-31 |
| Calendar.MaxOrdinalIsMaxDate | main/bmnp.py:283 | the bound on ordinals is the ordinal of 9999-12-31, the last date `datetime` can represent |
| Calendar.NextDayOrdinal | main/bmnp.py:283 | the day after a valid date is valid and has the next ordinal (`+ timedelta(1)`) |
| Calendar.OrdinalOrdered | main/bmnp.py:283 | ordinals follow calendar order |
| Calendar.OrdinalInjective | main/bmnp.py:283 | two valid dates with the same ordinal are the same date |
| Calendar.AddDays | main/bmnp.py:283 | `start + timedelta(n)` is a valid date whose ordinal is `n` more than the start's |
| Calendar.AddDaysReaches | main/bmnp.py:283 | adding `(end - start).days` to the start gives the end |
| Calendar.ParseFormat | main/bmnp.py:281-284 | `strptime(strftime(d))` gives back `d` for every valid date |
| Calendar.FormatParse | main/bmnp.py:281-284 | a string `strptime` accepts is exactly what `strftime` writes for the parsed date |
| DateLayout.ChangeDateLayout | main/bmnp.py:309-358 | `changeDateLayout` as written, branch by branch; any result is the `'nd'` sentinel or ten characters long |
| DateLayout.ChangeDateLayoutOutcomes | main/bmnp.py:316-358 | exactly which inputs return nothing and which return `'nd'` |
| DateLayout.ChangeDateLayoutBranches | main/bmnp.py:316-355 | `YYYY-MM-DD` is returned unchanged; eight unseparated characters become `date[0:4]-date[4:6]-date[6:8]`; a dashed ten-character input with `-` at position 2 becomes `date[6:10]-date[0:2]-date[3:5]` |
| DateLayout.ChangeDateLayoutIdempotent | main/bmnp.py:316-358 | every result is `'nd'` or `YYYY-MM-DD`-shaped, and normalising it again leaves it as it is |
| DateLayout.FormattedDateUnchanged | main/bmnp.py:325-327 | a date written by `strftime('%Y-%m-%d')` passes through unchanged |
| DateLayout.ChangeDateLayoutExamples | main/bmnp.py:316-358 | `20020601`, `2002-06-01` and `06-01-2002` all give `2002-06-01`; `not-a-date` gives nothing; `June 1` gives `'nd'` |
| DateLayout.SlashBranchAsWritten | main/bmnp.py:342-348 | `06/01/2002` gives nothing, and `2002/06/01` gives `6/01-20-2/` |
| DateLayout.ChangeDateLayoutIntended | main/bmnp.py:342-348 | `changeDateLayout` with the ten-character slash guard testing positions 2 and 5; any result is the `'nd'` sentinel or ten characters long |
| DateLayout.IntendedSlashLayout | main/bmnp.py:342-348 | with the corrected guard, `MM/DD/YYYY` becomes `YYYY-MM-DD`, and every input outside the ten-character slash branch is treated as before |
| DateLayout.IntendedIdempotent | main/bmnp.py:316-358 | the corrected function is idempotent and yields `'nd'` or `YYYY-MM-DD`-shaped strings |
| DateLayout.IntendedExamples | main/bmnp.py:342-348 | the three spellings of 1 June 2002 agree under the corrected function; `not-a-date` gives nothing |
| Select.Where | main/bmnp.py:128-129 | `where(mask)[0]` is strictly increasing and holds exactly the positions where the mask is true |
| Select.FirstIndex | main/bmnp.py:874 | `where(s == x)[0][0]` is absent exactly when `x` is not in `s`, and is otherwise the first position of `x` |
| Ledger.DaysBetween | main/bmnp.py:300-302 | `(end - start).days + 1` consecutive days from the start to the end, or none when the end precedes the start |
| Ledger.MakeDateList | main/bmnp.py:296-305 | no list exactly when either bound fails `strptime('%Y-%m-%d')` |
| Ledger.MakeDateListDays | main/bmnp.py:298-305 | one entry per day of the range, in order: entry `i` parses to the day `i` days after the start |
| Ledger.MakeDateListEnds | main/bmnp.py:298-305 | a non-empty list begins with the start date and ends with the end date, as given |
| Ledger.MissingDates | main/bmnp.py:286-294 | the days of the range, in order, whose `<date>.nc` is not in the listing |
| Ledger.CollectMissing | main/bmnp.py:286-294 | the loop keeps, in order, the days whose `<date>.nc` is not in the listing |
| Ledger.CheckMissingDates | main/bmnp.py:276-294 | `checkMissingDates` fails exactly when `makeDateList` does, and otherwise filters the whole range by the listing |
| Ledger.MissingMembership | main/bmnp.py:289-292 | a day is reported missing if and only if it is in the range and its `.nc` file is not listed |
| Ledger.MissingSubsequence | main/bmnp.py:289-292 | the missing days are a subsequence of the range |
| Ledger.MissingAscending | main/bmnp.py:281-294 | the missing days come out in strictly ascending calendar order |
| Ledger.ParseBound | main/bmnp.py:197-198 | a bound is a date exactly when `changeDateLayout`, as written, returns a string that `strptime('%Y-%m-%d')` accepts, and that string is then the date's `strftime` form; the `'nd'` sentinel never gives a date |
| Ledger.ParseBoundExamples | main/bmnp.py:197-198 | `06/01/2002` gives no bound, while `20020601` and `2002-06-01` both give 1 June 2002 |
| Ingest.Crop | main/bmnp.py:128-133 | the grid and axes cut to the in-bounds latitude and longitude positions |
| Ingest.InBounds | main/bmnp.py:128-129 | the kept positions are increasing, each holds an in-bounds coordinate, and every in-bounds coordinate is kept |
| Ingest.CropExact | main/bmnp.py:128-133 | the crop keeps exactly the in-bounds coordinates in their order; the cropped grid has one row per kept latitude and one column per kept longitude, with the values of the original cells |
| Ingest.WithoutText | main/bmnp.py:114-116 | after the `.txt` cleanup the listing holds exactly the names that do not end in `.txt` |
| Ingest.WithoutTextInOrder | main/bmnp.py:114-116 | the cleaned listing is the listing read at the positions of its non-`.txt` names, in ascending order |
| Ingest.FirstKept | main/bmnp.py:118-120 | the name `listdir(...)[0]` picks after the cleanup is the first listed name not ending in `.txt`; every name before it ends in `.txt` |
| Ingest.Removed | main/bmnp.py:166 | removing the raw file leaves every other name |
| Ingest.Downloader.FixData | main/bmnp.py:97-168 | an empty download directory returns `False` and changes nothing. Otherwise the date is appended exactly once, before any processing. Then, in order: no data file, an unreadable file or a misshapen file raises; on success the cropped grid is stored as `<date>.nc` and the raw file is removed |
| Align.Sort | main/bmnp.py:760-763 | the sorted axis is ascending and a permutation of the input |
| Align.Min | main/bmnp.py:766-769 | the minimum is an element and no element is smaller |
| Align.Max | main/bmnp.py:766-769 | the maximum is an element and no element is larger |
| Align.AxisWindow | main/bmnp.py:772-775 | a found window is non-empty and lies within the axis |
| Align.AxisWindowCovers | main/bmnp.py:772-775 | the window is found exactly when both baseline extrema occur; it starts at the first occurrence of the minimum and ends just after the first occurrence of the maximum; a failure names a missing extremum |
| Align.SortKeepsCoordinates | main/bmnp.py:760-763 | sorting keeps the length and the set of coordinates |
| Align.WindowSlice | main/bmnp.py:784-785 | every coordinate of the sliced axis lies between the baseline minimum and maximum |
| Align.AxisFound | main/bmnp.py:772-775 | on the sorted SST axis the window is found exactly when both baseline extrema are SST coordinates |
| Align.AlignAxes | main/bmnp.py:750-785 | sort both SST axes, locate the baseline extrema in them and slice the axes between them, or report which extremum is missing |
| Align.AlignAxesCorrect | main/bmnp.py:750-785 | the aligner succeeds exactly when both baseline axes are non-empty and their extrema occur in the SST axes; then each new axis is ascending, non-empty, runs from the baseline minimum to the baseline maximum, and has its window's length |
| Dhw.InsertDistinct | main/bmnp.py:734-735 | inserting keeps the list strictly ascending and adds exactly the new name |
| Dhw.SortedDistinct | main/bmnp.py:734-735 | `sort(list(set(xs)))` is strictly ascending and holds exactly the names of `xs` |
| Dhw.ArchiveDates | main/bmnp.py:730-735 | the archive's dates are strictly ascending and are exactly the ten-character prefixes of the listing |
| Dhw.Excess | main/bmnp.py:817-823 | one day's clipped excess at a cell: the SST less 273.14 less the threshold, and 0 where that is negative |
| Dhw.Threshold | main/bmnp.py:746-747 | the bleaching threshold `mmm + 1.0`, with the shape of the baseline grid |
| Dhw.CellSumNonNegative | main/bmnp.py:820-829 | the accumulated heat stress of a cell is never negative |
| Dhw.CellSumZero | main/bmnp.py:820-829 | a cell's sum is zero if and only if no day of the window is above the threshold there |
| Dhw.CellSumMonotonic | main/bmnp.py:817-829 | warming any days of the window never lowers a cell's sum |
| Dhw.CellSumOneDay | main/bmnp.py:817-829 | changing one day's SST at a cell changes the sum by exactly the change in that day's clipped excess |
| Dhw.CellSumExtend | main/bmnp.py:825-829 | adding one more day to the window adds that day's clipped excess to each cell |
| Dhw.Flip | main/bmnp.py:835 | `flip(total_dhw, 0)`: the rows in reverse order, as many as before |
| Dhw.FlipInvolution | main/bmnp.py:835 | `flip(…, 0)` puts row `r` in place of row `rows-1-r`, and flipping twice gives the grid back |
| Dhw.Cut | main/bmnp.py:817 | the slice `[lat_lo:lat_hi, lon_lo:lon_hi]` has the windows' shape and the values of the corresponding cells |
| Dhw.Day | main/bmnp.py:814-820 | a day can be used exactly when its file opens, covers the windows and matches the threshold's shape; it is then the cropped grid |
| Dhw.Window | main/bmnp.py:804-820 | the cropped grids of list entries `k, k-1, …`, or the error of the first day that cannot be used |
| Dhw.WindowDays | main/bmnp.py:804-814 | a window is complete exactly when every day is usable, and day `i` is then the cropped grid of list entry `k - i` |
| Dhw.WindowStops | main/bmnp.py:814 | the first day that cannot be used stops the whole window, with its error |
| Dhw.WindowShaped | main/bmnp.py:817-820 | in a complete window the threshold and every day share the windows' shape |
| Dhw.WindowSum | main/bmnp.py:820-829 | the accumulated grid has the windows' shape, and each cell is that cell's clipped-excess sum |
| Dhw.WindowSumCells | main/bmnp.py:820-829 | every accumulated cell is non-negative, and is zero if and only if the cell never rose above its threshold |
| Dhw.AnchorDhw | main/bmnp.py:804-835 | the DHW file of an anchor: its 84-day window summed, flipped and labelled with the aligned axes |
| Dhw.AnchorDhwCells | main/bmnp.py:804-857 | the DHW file of an anchor exists exactly when its window is complete; it carries the aligned coordinates, and its row `r` holds the window sums of accumulated row `rows-1-r` |
| Dhw.Setup | main/bmnp.py:730-785 | an empty archive fails with its own error; a successful set-up holds the sorted dates, the alignment of the first file with the baseline, and the threshold |
| Dhw.AddDay | main/bmnp.py:825-829 | `total_dhw += …` brings every cell of the running total up to date with one more day |
| Dhw.AnchorGrid | main/bmnp.py:804-835 | the 84-iteration loop with its array total returns exactly the DHW grid the anchor defines, or the error of the first unusable day |
| Dhw.Sweep | main/bmnp.py:791-838 | the `delete_singles` loop over positions: skip existing outputs and positions below 84, otherwise write the anchor's DHW file or stop at its error |
| Dhw.SweepKeeps | main/bmnp.py:791-794 | the `delete_singles` sweep never rewrites or removes an existing DHW file |
| Dhw.SweepSound | main/bmnp.py:791-838 | every file the sweep writes holds the DHW grid of an anchor at position 84 or later, under that anchor's name |
| Dhw.SweepComplete | main/bmnp.py:791-838 | a sweep that finishes leaves a DHW file for every entry from position 84 on |
| Dhw.FileNameInjective | main/bmnp.py:920 | distinct dates get distinct DHW file names |
| Dhw.Refresh | main/bmnp.py:870-954 | the loop over downloaded dates: find each in the archive, skip positions below 84, otherwise rewrite the anchor's DHW file or stop at its error |
| Dhw.RefreshKeeps | main/bmnp.py:870-920 | a file the refresh would only rewrite with its present grid keeps it |
| Dhw.RefreshComplete | main/bmnp.py:870-920 | a refresh that finishes found every downloaded date in the archive, and left for each one at position 84 or later a file with that anchor's grid, whether or not a file existed before |
| Dhw.RefreshSound | main/bmnp.py:870-920 | every file the refresh adds or changes holds the grid of the anchor of a downloaded date at position 84 or later |
| Dhw.CreateDhwsRun | main/bmnp.py:790-956 | set-up, then the sweep when `delete_singles` is set, else the refresh when dates were downloaded, else nothing |
| Dhw.CreateDhwsPolicy | main/bmnp.py:790-956 | a failed set-up, or neither flag, leaves the DHW directory untouched; `delete_singles` keeps every existing file and, when it finishes, covers every position from 84; a finished refresh found every downloaded date |
| Dhw.DhwArchive.SweepAll | main/bmnp.py:790-869 | the imperative sweep leaves the outcome and the directory the sweep specification gives |
| Dhw.DhwArchive.RefreshAll | main/bmnp.py:870-954 | the imperative refresh leaves the outcome and the directory the refresh specification gives |
| Dhw.DhwArchive.CreateDhws | main/bmnp.py:720-956 | `createDHWs` ends with the outcome and the directory of the set-up followed by the sweep, the refresh or nothing |

## Left out

- Downloading, the `podaac-data-downloader` subprocess and `.netrc` credential handling (`main/bmnp.py:58-89, 171-174`) are external processes and user I/O. A download shows up only as the listing and the contents given to `FixData`.
- netCDF and CSV reading and writing are left out. Listings are sequences of names and file contents are a map from name to `GridFile`. `DataFrame.to_csv`, file closing and units attributes are omitted, and so are the CSV copies of refined and DHW grids.
- `databaseSetup`, `databaseReorder` and `dhwDatabase` (`main/bmnp.py:360-718`) are left out. Their only call site is commented out, and they use undefined names.
- `recreateCSVs` (`main/bmnp.py:958-1003`) is left out. It only exports CSV copies.
- Floating point is left out. Coordinates and temperatures are integer hundredths, so rounding to two places is the identity. float32 storage and masked values are not represented.
- The time dimension of `analysed_sst` is not modelled. Each downloaded file is taken to hold the single time step `[0]`, so the crop in `FixData` works on one grid, not on a stack.
- Ingest.Downloader.FixData and Dhw.Day: the refined file is written as a 2-D variable (`('lat', 'lon')`, `main/bmnp.py:149`), while `createDHWs` reads it with three indices, `analysed_sst[0, …, …]` (`main/bmnp.py:817, 899`). netCDF would reject that read. The model writes and reads the same 2-D `GridFile`, so it does not capture this mismatch: in the model the two sides always agree.
- Dhw.Day: numpy broadcasting is not modelled. It treats a day slice and a threshold of different shapes as an error, even where numpy would broadcast a size-1 axis. A day grid smaller than the alignment windows is also treated as an error, even though numpy would clamp the slice.
- Dhw.Setup: only the empty-archive error is characterised outright. The other failures (first file unopenable, no baseline, misalignment) are stated only through the success condition.
- Calendar.ParseIsoDate: stricter than `strptime`. It does not accept one-digit months and days, a `%d` with a leading space, or year and day digits outside ASCII: Python's `strptime` pattern uses `\d`, which matches any Unicode decimal digit, so `٢٠٠٢-06-01` is 1 June 2002 there and no date here. `Ledger.ParseBound` and `Ledger.MakeDateList` parse through it and share the gap.
- Calendar.Format: `strftime('%Y')` for years below 1000 is not modelled; the year is always written with four digits.
- `FixData` takes the first remaining name of the listing as the data file. The order `listdir` returns is an input, not something the model chooses.
- Logging (`getHrMnSc`, `getTime`, progress lines) and the wiring of `BMNP_Data.__init__` are left out, except the two `changeDateLayout` calls reflected in `Ledger.ParseBound`. The wiring includes the deletion of every DHW file when `delete_singles` is set, and the `self.download` attribute error when `downloadnew` is false.
- The dashboard (`dashboard/app.py`) and `main.py` are not part of this model.

## Findings

| source | as written | input that shows it | evidently intended | confidence | as-written member | corrected member |
|---|---|---|---|---|---|---|
| main/bmnp.py:342-348 | the ten-character slash branch checks `date[4] == '/' and date[7] == '/'` (the `YYYY/MM/DD` layout) but slices `date[6:10]`, `date[0:2]`, `date[3:5]` (the `MM/DD/YYYY` layout) | `06/01/2002` returns nothing; `2002/06/01` returns `6/01-20-2/` | check `date[2]` and `date[5]`, so that `06/01/2002` becomes `2002-06-01` | high (not executed) | DateLayout.SlashBranchAsWritten | DateLayout.IntendedSlashLayout |

# TrackMan session bookkeeping, modelled in Dafny

TrackMan data analysis is a set of front ends for golf range-practice data
fetched from the TrackMan service. There are two copies of a Dash web app
(`app.py`, `docker/app.py`), a Tkinter GUI (`interface.py`), the API client
and command line (`docker/trackman.py`), and two plotting scripts (`plot.py`,
`testplot.py`). Under the presentation they share a small amount of
deterministic bookkeeping, and this project models it and proves properties
about it:

- **Activities.** The session numbering of the activity feed: range-practice
  activities only, stably sorted by their time string, numbered from 1.
- **FileNames.** The session file-name codec. It covers the writer's
  `trackman_<YYYYMMDD>_session<N><_range|_pro>.csv`, the loaders'
  start-anchored pattern and the session id they derive, and the inventory
  scanner's suffix-specific search.
- **CsvExport.** The shot post-processing and the two CSV writers (single
  session and combined). The writers sort the caller's shot list in place,
  so a shot list is a field of a class.
- **Inventory.** `get_existing_sessions`: the (date, session) keys of the
  saved files, read from a directory listing.
- **Reconcile.** The missing-session check and the download that fills the
  gaps, in its web-app (scoped), GUI (always both ball types) and
  command-line forms.
- **ShotRows, Curation, Mishits and Stats.** The shot-curation store of the
  web app: table and store rows seeded from one frame, toggling, bulk
  exclusion of classifier hits and reset. Also the mishit classifier on exact
  reals, with Samuelson's inequality for what a small club can never flag.
  Finally, app.py's `delete_shot`, which physically removes rows.
- **Aggregate.** The per-(club, session) statistics of the club-comparison
  plot, and the order of clubs by the average of their session means.
- **Uploads.** The in-memory upload registry (duplicate detection, store,
  clear).
- **Selection.** The session and club dropdown helpers.
- **Gui.** The Tkinter `TrackManGUI` as a class over the fields its handlers
  update: the activity list, download-missing, and the session labels and
  club list of the analysis tab.
- **PlotScript.** `plot.py`: the comma-separated index prompt, the sessions
  it plots and the session numbers it puts in the output file name, its
  canonical club order and its ball-type choice.
- **Comparison.** `testplot.py`: extension dispatch, keying of session
  files, the premium/range comparison over the common clubs, and the
  percentage guard.
- **Tokens.** The saved-token files as maps, with save, invalidate and the
  validity check; the check reads a different file from the one the other
  two write (see Findings).
- **Text and Sorting.** Python's string order, `str(n)`, `split`/`join`,
  `lower`, `strip` and `isdigit`. Also `sorted`/`list.sort`, modelled as a
  stable insertion sort, and the comprehension filters.

Inputs the code gets from outside are parameters of the model:

- the activity feed and the fetched shot records;
- directory listings, as a map from a directory to the names it holds;
- `datetime.fromisoformat`/`strftime("%Y%m%d")`, as a partial function from
  a time string to an eight-digit date;
- the pandas reader of `testplot.py`, as a function from a path and a file
  kind to an optional frame;
- the MD5 digest of an upload, given with the file;
- the current time of the token check;
- console input.

The writers return `(path, text)` pairs instead of writing files.

Three behaviours of the code that a reader may not expect:

- The classifier runs over every store row, including rows already marked
  deleted, not only over the active rows (docker/app.py:3093-3186).
- PREMIUM files are saved under `premium/` (docker/trackman.py:694-695)
  while the inventory scanner reads `pro/` (docker/trackman.py:129). So a
  saved PREMIUM session is never found, and the save-then-scan round trip
  holds for RANGE only (`Inventory.PremiumSaveIsNeverScanned`,
  `Reconcile.PremiumDownloadIsNeverFound`).
- The combined writer drops `None` fields from a row instead of writing them
  as empty cells, so such a row is narrower than the header
  (docker/trackman.py:909-917).

## Model

| member | source | states |
|---|---|---|
| Activities.SessionTable | app.py:378-404 | one row per range-practice activity; row i has number i + 1 and its shot count is `totalCount`, or 0 when absent |
| Activities.SessionTablePermutation | docker/app.py:829-851 | the numbered activities are a permutation of the range-practice activities of the feed |
| Activities.SessionTableChronological | docker/app.py:835 | session numbers follow the time string, a missing time counting as "" |
| Activities.SessionTableStable | docker/app.py:835 | activities with the same time keep their feed order (Python's sort is stable) |
| Activities.SessionTableIdempotent | app.py:378-404 | numbering the numbered activities again changes nothing |
| FileNames.SaveDirName | docker/trackman.py:694-695 | the save directory is the lower-cased ball-type name |
| FileNames.MatchStem | app.py:24 | a match of `trackman_(\d+)_session(\d+)` yields two non-empty digit runs |
| FileNames.LoaderReadsWriterName | docker/trackman.py:714-718 | every loader accepts a dated writer name and reads back its date and session number |
| FileNames.SessionIdOfWriterName | app.py:43-49 | the loaders derive `YYYY-MM-DD (Session N)` from a dated writer name |
| FileNames.UndatedNameIsSkipped | docker/trackman.py:715-716 | a name written without a date is skipped by every loader and by the scanner |
| FileNames.ScannerReadsWriterName | docker/trackman.py:132-148 | the scanner finds the key `(date, N)` in a dated writer name of its own variant |
| FileNames.ScannedKeyHasDate | docker/trackman.py:135-137 | a scanned key always has a non-empty date |
| FileNames.StemOfDatedName | app.py:29-32 | the stem matcher splits a dated name into date, session and the rest |
| Inventory.KeysOf | docker/trackman.py:129-148 | a key is recorded exactly when some listed name scans to it |
| Inventory.ScanDirectory | docker/trackman.py:129-137 | the directory loop records exactly the keys of the listed names |
| Inventory.GetExistingSessions | docker/trackman.py:119-150 | the pro set comes from `<base>/pro` and the range set from `<base>/range` |
| Inventory.ScannedKeysAreDigits | docker/trackman.py:132-148 | every recorded key holds two non-empty digit strings |
| Inventory.RangeSaveIsScanned | docker/trackman.py:694-718 | a dated RANGE save adds exactly its `(d, str(n))` key to the range set and leaves the pro set alone |
| Inventory.PremiumSaveIsNeverScanned | docker/trackman.py:129 | a PREMIUM save lands in `premium/`, which is never scanned; both sets stay the same |
| Inventory.UndatedSaveIsNeverScanned | docker/trackman.py:715-716 | a save without a date changes neither set |
| CsvExport.Normalize | docker/trackman.py:587-609 | `null` becomes `{}`; `reducedAccuracy` is "Yes" iff it was present and neither "" nor []; otherwise "No"; a `null` `ballSpinEffective` becomes "None"; other keys are kept |
| CsvExport.NormalizeTwiceFlipsNo | docker/trackman.py:606-609 | post-processing a second time turns "No" into "Yes" (the rewrite is not idempotent) |
| CsvExport.ShotData.FromStrokes | docker/trackman.py:582-583 | the shot list is the `strokes` list |
| CsvExport.ShotData.PostProcess | docker/trackman.py:587-609 | every shot is replaced by its post-processed form, in place; the length is kept |
| CsvExport.PostProcessedShotsFlagged | docker/trackman.py:606-609 | after post-processing every shot carries `reducedAccuracy` as "Yes" or "No" |
| CsvExport.SessionDate | docker/trackman.py:702-708 | the file date comes from a non-empty text `session_time` of the first shot, or is left out |
| CsvExport.RowCells | docker/trackman.py:760-782 | the row for shot idx has 29 cells: its number, club ("Unknown" for None), bay, then each measurement field |
| CsvExport.BuildRow | docker/trackman.py:774-782 | the field loop builds exactly that row |
| CsvExport.SaveShots | docker/trackman.py:680-789 | an empty shot list writes nothing; otherwise the shots are sorted in place by time and the path and text are returned |
| CsvExport.RenderCsv | docker/app.py:1398-1440 | the text is the header line followed by one line per shot |
| CsvExport.SessionCsvReadsBack | docker/trackman.py:750-789 | a written file splits back into its header and rows; each row has its 29 cells, and the first cell is the shot number counting from 1 |
| CsvExport.HeaderClean | docker/trackman.py:751 | no heading holds a comma or a line break |
| CsvExport.CombinedRow | docker/trackman.py:898-922 | the row is skipped exactly when club or bay is not text; otherwise it has 29 cells minus the `None` fields, starting with the shot number |
| CsvExport.CombinedWidth | docker/trackman.py:910-917 | the cells plus the omitted `None` fields make up the header width |
| CsvExport.CombinedRowMatchesSingle | docker/trackman.py:898-917 | without `None` fields and with text club and bay, the combined row equals the single writer's row |
| CsvExport.BuildCombinedRow | docker/trackman.py:909-917 | the combined field loop builds exactly that row |
| CsvExport.RenderCombinedCsv | docker/trackman.py:891-922 | the combined text of one session, row by row |
| CsvExport.SessionFile | docker/trackman.py:867-870 | a session yields one file iff it has shots |
| CsvExport.CombinedFiles | docker/trackman.py:867-922 | at most one file per session, in list order |
| CsvExport.SaveCombined | docker/trackman.py:867-922 | each session's shots are sorted in place, and the files are those of the sessions' original shot lists |
| CsvExport.VisitSession | docker/trackman.py:867-922 | one loop step sorts session i only and yields its file |
| CsvExport.SaveSession | docker/trackman.py:868-895 | session d is sorted in place and its file is named from its original first shot |
| Reconcile.ActivityDate | app.py:487-495 | a missing time gives date ""; an unparsable time skips the activity; otherwise the date is the parsed one |
| Reconcile.Entry | app.py:497-513 | an activity is reported iff a variant its scope checks lacks its key; the variants are `[PREMIUM]`, `[RANGE]` or `[PREMIUM, RANGE]`, exactly the missing checked ones |
| Reconcile.FindMissingExact | app.py:485-513 | the report lists exactly the activities `Entry` reports, each once, in index order |
| Reconcile.CheckMissing | interface.py:1150-1180 | the check loop computes exactly that report |
| Reconcile.CliFindMissing | docker/trackman.py:1073-1099 | the command line's loop computes the `(idx, activity)` pairs of the same report |
| Reconcile.RerunReportsNothing | app.py:497-513 | once every reported key is added to the set of its variant, a re-run reports nothing |
| Reconcile.RequestsExact | app.py:520-522 | exactly the listed (activity, variant) pairs are fetched |
| Reconcile.RequestsCount | app.py:515-522 | a non-empty report fetches at least once per reported activity |
| Reconcile.Tag | app.py:524-527 | a fetched shot is tagged with `session_number = idx + 1`, the activity's time and the activity's kind; nothing else changes |
| Reconcile.TagShots | app.py:524-527 | the tagging loop tags every shot in place |
| Reconcile.TaggedPath | app.py:528 | a tagged session is saved under its variant's directory as `trackman_<date>_session<idx + 1>` |
| Reconcile.DownloadFilePath | app.py:522-528 | the file a fetch writes is named after the activity's date and number |
| Reconcile.DownloadMissing | app.py:480-531 | scan, check, then either "all saved" without a fetch or the fetches and files of exactly the reported pairs |
| Reconcile.DownloadEntry | app.py:521-529 | one report fetches each of its variants |
| Reconcile.FetchAndSave | app.py:522-528 | one fetch is saved when it yields shots |
| Reconcile.GatheredOf | interface.py:1226-1253 | a variant contributes a session iff it is listed and the fetch yields shots |
| Reconcile.FetchTagged | interface.py:1226-1253 | a fresh tagged session object exactly when the variant is listed and has shots |
| Reconcile.GatherMissing | interface.py:1220-1256 | the two gathered lists hold exactly the fetched premium and range sessions, as distinct fresh objects |
| Reconcile.GuiDownload | interface.py:1220-1262 | gather, then save each non-empty list with the combined writer |
| Reconcile.SaveGathered | interface.py:1257-1262 | the combined writer saves the gathered sessions |
| Reconcile.RangeDownloadIsFound | docker/trackman.py:694-718 | after a RANGE file is saved for a dated activity, its RANGE variant is no longer missing |
| Reconcile.PremiumDownloadIsNeverFound | docker/trackman.py:129 | PREMIUM saves never change what the check reports |
| Reconcile.UndatedActivityIsAlwaysMissing | app.py:487-501 | an activity without a time is reported for every checked variant, on every run |
| ShotRows.SeedRowsAreSelected | docker/app.py:3040-3047 | every seeded row is a selected record, with `row_id` its frame position, not deleted, glyph "❌" |
| ShotRows.SeedCoversSelected | docker/app.py:3040-3043 | every selected record of the frame is seeded |
| ShotRows.SeedIdsIncrease | docker/app.py:3043 | seeded ids increase strictly, so they are unique |
| Curation.RebuildTable | docker/app.py:1331-1340 | the table loop copies every row with the edit applied |
| Curation.RebuildStore | docker/app.py:1343-1349 | the store loop copies every row with the edit applied |
| Curation.PlotAndExcludedPartition | docker/app.py:1368-1389 | every store row is either plotted or counted as excluded |
| Curation.ShotStore.Load | docker/app.py:3040-3060 | both lists are the seeded rows, and the store invariant holds |
| Curation.ShotStore.ApplyEdit | docker/app.py:1331-1349 | both lists are rebuilt with the edit; the invariant is kept |
| Curation.ShotStore.ToggleDelete | docker/app.py:1308-1396 | a click on a row of the view flips `deleted` and the glyph of that `row_id` in both lists; otherwise nothing changes |
| Curation.ShotStore.RemoveMishits | docker/app.py:3093-3210 | the classifier runs on every store row; the flagged rows are marked deleted; an empty flagged set changes nothing |
| Curation.ShotStore.ResetAll | docker/app.py:1536-1595 | with no deleted row nothing changes; otherwise every row is restored; returns the count restored |
| Curation.EditKeepsConsistent | docker/app.py:1331-1349 | every edit keeps the same ids in the same order, agreeing flags, and the glyph "↶" iff deleted |
| Curation.UntargetedEditIsIdentity | docker/app.py:1331-1349 | an edit that targets no row changes nothing |
| Curation.ToggleTwiceRestores | docker/app.py:1331-1349 | toggling the same row twice restores both lists |
| Curation.UntargetedKeepsCount | docker/app.py:1389 | an edit that targets no row keeps the excluded count |
| Curation.ToggleMovesCountByOne | docker/app.py:1389 | a toggle moves the excluded count by exactly one |
| Curation.ClickedRowIsInTable | docker/app.py:1317-1326 | a toggled id is one of the table's ids |
| Curation.ExcludeIdempotent | docker/app.py:3196-3210 | marking the same flagged set twice equals marking it once |
| Curation.ExcludeHidesFlagged | docker/app.py:3196-3229 | flagged rows leave the plot, and rows already deleted stay deleted |
| Curation.RemoveMishitsIdempotent | docker/app.py:3093-3210 | a second `remove_mishits` flags the same rows and changes nothing |
| Curation.ResetRestoresEverything | docker/app.py:1551-1563 | after a reset every row is plotted, none is excluded, and no row is removed |
| Curation.Without | app.py:1466-1469 | the comprehension keeps only rows of its input |
| Curation.WithoutSubset | app.py:1466-1469 | the rows kept are input rows without the id |
| Curation.WithoutKeepsOthers | app.py:1466-1469 | every row without the id is kept |
| Curation.WithoutUniqueId | app.py:1466-1469 | removing an id that occurs once shortens a list by one |
| Curation.WithoutAbsent | app.py:1466-1469 | removing an absent id changes nothing |
| Curation.DeleteShotRemovesClickedRow | app.py:1444-1487 | the clicked row at `page * page_size + row` is removed from both lists, everything else is kept, and the lists stay consistent |
| Curation.DeleteShotOutOfRange | app.py:1454-1460 | an index past the table's end changes nothing |
| Mishits.Clubs | docker/app.py:3099 | the clubs in order of first appearance, each once |
| Mishits.GroupTests | docker/app.py:3107-3186 | one club's five blocks flag exactly its outliers |
| Mishits.GroupMishitsByTest | docker/app.py:3107-3186 | the flagged set is the union of the five tests of the present columns |
| Mishits.FindMishits | docker/app.py:3093-3187 | the loop over clubs, skipping those with fewer than three rows, computes the classifier's set |
| Mishits.BelowIsThreshold | docker/app.py:3114-3118 | the squared lower test is exactly `x < m - k·s` |
| Mishits.AboveIsThreshold | docker/app.py:3115-3119 | the squared upper test is exactly `x > m + k·s` |
| Mishits.DeviationNeedsRows | docker/app.py:3109-3110 | a value beyond k standard deviations needs `n·k² < (n - 1)²` |
| Mishits.FewerThanSixNeverTwoSigma | docker/app.py:3114-3152 | a club with fewer than six rows is never flagged by a 2σ test |
| Mishits.FewerThanNineNeverTwoAndHalfSigma | docker/app.py:3115-3169 | a club with fewer than nine rows is never flagged by a 2.5σ test |
| Mishits.SmallClubOnlySide | docker/app.py:3102-3186 | in a club of three to five rows only the side test can flag |
| Mishits.MidClubNoTwoAndHalfSigma | docker/app.py:3102-3186 | in a club of fewer than nine rows only carry-low, speed and side can flag |
| Mishits.ConstantColumnNeverOutlier | docker/app.py:3117-3184 | a value equal to its whole column is never an outlier (the tests are strict) |
| Mishits.ConstantClubFlagsNothing | docker/app.py:3107-3186 | a club with constant measurements flags nothing |
| Mishits.MishitsIgnoreDeletion | docker/app.py:3093 | the flagged set does not depend on the `deleted` flags |
| Stats.ConstantVariance | docker/app.py:3109-3110 | a constant column has mean c and variance 0 |
| Stats.VarianceNonNegative | docker/app.py:3110 | the sample variance is non-negative |
| Stats.Samuelson | docker/app.py:3109-3110 | `n·(x_i - m)² ≤ (n - 1)·Σ(x_j - m)²` |
| Stats.SamuelsonVariance | docker/app.py:3109-3110 | `n·(x_i - m)² ≤ (n - 1)²·var` |
| Stats.MeanWithinBounds | docker/app.py:2587 | a mean lies within any bounds of its values |
| Aggregate.CellValuesOfPoints | docker/app.py:2563-2567 | the values of a (club, session) cell of the plotted points are the attribute values of the rows with that club and session, in row order |
| Aggregate.CollectClubData | app.py:1070-1095 | the nested loops build exactly `club_data` |
| Aggregate.CellValuesEmpty | app.py:1074-1077 | a cell is empty exactly when no shot has that club and session |
| Aggregate.SessionStatsNonEmpty | app.py:1092-1095 | a club gets statistics exactly when it has data |
| Aggregate.ClubEntriesAreClubsWithData | docker/app.py:2563-2589 | the clubs of `club_data` are the selected clubs with data |
| Aggregate.SortedClubsSpec | docker/app.py:2591 | `sorted_clubs` lists exactly the selected clubs with data, by non-decreasing average mean |
| Aggregate.SortedClubsStable | app.py:1098 | clubs with equal averages keep their selection order |
| Aggregate.CountsCoverClubShots | app.py:1082 | the session counts add up to the club's shots in the selected sessions |
| Aggregate.ClubAverageWithinRange | app.py:1080-1094 | every session mean and the club's average lie within the range of the club's values |
| Uploads.Accepted | docker/app.py:979-1012 | at most the batch's files are accepted, in batch order |
| Uploads.AcceptedExactly | docker/app.py:986-998 | a batch accepts exactly its readable files whose content is not registered before the batch |
| Uploads.Registry.constructor | docker/app.py:1073-1074 | the registry starts empty |
| Uploads.Registry.IsDuplicate | docker/app.py:1081-1091 | duplicate iff some registered file has an equal hash and size; the first such file in insertion order is named |
| Uploads.Registry.Store | docker/app.py:1093-1105 | the frame is appended to the user's records and the batch metadata is merged |
| Uploads.Registry.Clear | docker/app.py:1123-1127 | both registries become empty |
| Uploads.Registry.HandleUpload | docker/app.py:963-1030 | returns the number of new files; nothing is stored when none is accepted; otherwise their rows are appended and their metadata merged |
| Uploads.Registry.CheckBatch | docker/app.py:979-1021 | the batch loop keeps exactly the accepted files, in order, with their metadata entries and the entry names in insertion order |
| Uploads.BatchMetaKeepsEntry | docker/app.py:1015-1020 | the batch metadata holds the entry of a file unless a later file of the same name replaced it |
| Uploads.StoredFilesAreDuplicates | docker/app.py:1081-1105 | uploading a stored file again is detected as a duplicate |
| Uploads.ClearedRegistryHasNoDuplicates | docker/app.py:1123-1127 | after clearing nothing is a duplicate |
| Uploads.StoreAppends | docker/app.py:1098-1102 | storing twice for a user appends both frames in order |
| Uploads.SameContentTwiceInOneBatch | docker/app.py:986-991 | two files with the same content in one batch are both accepted |
| Uploads.AcceptedOnce | docker/app.py:986-991 | the intended check compares also with the files accepted earlier in the batch |
| Uploads.AcceptedOnceHasNoRepeats | docker/app.py:986-991 | with the intended check no content is accepted twice, and every accepted file is readable and new |
| Uploads.AcceptedOnceWithoutRepeats | docker/app.py:986-1012 | on a batch whose accepted files all differ in content, the intended check accepts exactly what the code accepts |
| Selection.SessionOptionsSpec | docker/app.py:1186 | the session options list each session once, in increasing order |
| Selection.KeptSelectionSpec | docker/app.py:1197-1201 | the kept selection is exactly the selected sessions that are options |
| Selection.KeptSelectionIsStable | app.py:570-593 | re-running with the kept selection keeps it |
| Selection.ClubOptionsSpec | docker/app.py:1203-1209 | the club options are the non-null clubs of the kept sessions, or of all rows when none is kept, each once, sorted |
| Selection.ClubValueByMode | docker/app.py:1212-1218 | time mode gives a single-select dropdown with the first club; otherwise multi-select with none preselected |
| Selection.SelectAllClubsSpec | docker/app.py:2894-2903 | no click keeps the current value; a click selects all options, or only the first in time mode |
| Gui.ListedAfterFetch | interface.py:960-993 | fetching and listing number the feed exactly as the web app does |
| Gui.RelistKeepsNumbers | interface.py:973 | listing again renumbers nothing |
| Gui.KeepClubSpec | interface.py:369 | a club is kept iff it does not start with '-' and is not a number with at most one '.' |
| Gui.FilterClubs | interface.py:524-532 | the loop keeps exactly the real club names |
| Gui.ClubListSpec | interface.py:524-534 | the club list holds every real club name once, sorted, and nothing else |
| Gui.NewestFirstSpec | interface.py:511 | the session list shows each session once, newest first |
| Gui.ParseLabelOfSessionId | interface.py:351-353 | a label `"<session> (<n> shots)"` parses back to its session |
| Gui.LoaderLabelParses | interface.py:493-520 | labels of the session ids the loader builds parse back to them |
| Gui.ParsedSessionsOfLabels | interface.py:349-353 | labels that each parse give exactly their sessions, in order |
| Gui.TrackManGui.constructor | interface.py:142 | no activities, PREMIUM scope, no analysis frame, no selected sessions |
| Gui.TrackManGui.ReceiveActivities | interface.py:952-961 | an empty feed changes nothing; otherwise the range-practice activities replace the list |
| Gui.TrackManGui.UpdateActivityList | interface.py:967-995 | the list is re-sorted by time and row i is shown as number i + 1 |
| Gui.TrackManGui.DownloadMissing | interface.py:1131-1188 | with no activities nothing happens; otherwise the scope becomes BOTH, and the report and the files are those of the reconciliation |
| Gui.TrackManGui.LoadAnalysis | interface.py:500-534 | an empty frame changes nothing; otherwise it becomes the analysis frame and both lists are filled |
| Gui.TrackManGui.ContinueSessions | interface.py:338-371 | nothing chosen: only a warning; otherwise the parsed sessions are stored for the mode and the clubs are rebuilt from them |
| Gui.ChosenClubsSpec | interface.py:362-371 | the clubs offered after choosing are the real clubs played in the chosen sessions, a subset of those offered on load |
| PlotScript.PyInt | plot.py:21 | `int` succeeds only on non-blank text |
| PlotScript.ParseAll | plot.py:21 | all tokens parse, one integer per token, or the parse fails |
| PlotScript.GetMultiInputSpec | plot.py:11-30 | indices are returned iff the input is non-blank, not "0", and every token is an integer in 1..max; otherwise the default, or 0 for "0" |
| PlotScript.TypedIndicesRoundTrip | plot.py:13-27 | typing a comma-separated list of valid indices yields exactly that list |
| PlotScript.SelectedSessions | plot.py:329 | each picked index selects a session of the list |
| PlotScript.SessionNumbers | plot.py:339-344 | the loop collects exactly the numbers of `(Session N)`, skipping sessions without one |
| PlotScript.SearchTagAfter | plot.py:342 | the search finds the number of the first `(Session N)` |
| PlotScript.NumbersOfLoaderIds | plot.py:339-347 | for loader-built session ids the file name lists exactly their session numbers, in selection order |
| PlotScript.Rank | plot.py:358 | the position of a club in the canonical order |
| PlotScript.OrderClubsPermutation | plot.py:357-361 | the plotted clubs are the distinct clubs of the data, each once |
| PlotScript.OrderClubsCanonicalFirst | plot.py:360-361 | canonical clubs come first, in canonical order, then the others |
| PlotScript.PlotReadsSaveDir | plot.py:94-106 | "premium" selects premium; any other input reads the range directory, the one the writer saves to |
| Comparison.LastDot | testplot.py:21 | the position of the last '.' |
| Comparison.WriterFilesLoadAsCsv | testplot.py:19-33 | every file the writers name is loaded with the CSV reader |
| Comparison.WriterNamesAreCsv | testplot.py:21-25 | every writer name is loaded as CSV |
| Comparison.WriterNameKey | testplot.py:45-58 | a writer name for session n is keyed `_session<n>_`, dated or not |
| Comparison.SearchSkips | testplot.py:54 | the search skips a prefix where no key starts |
| Comparison.LastFiledSpec | testplot.py:65 | the last step filed under a key |
| Comparison.FoldLastWins | testplot.py:48-65 | a key is present iff some file is filed under it, and it holds the last such file |
| Comparison.FoldFails | testplot.py:59-60 | building fails exactly when some file's key lookup raises |
| Comparison.CollectSpec | testplot.py:48-65 | each key holds its directory's last file filed under it; failure iff a loaded file has no name key and an empty `session` column |
| Comparison.CrashSpec | testplot.py:54-60 | a file crashes the lookup exactly when it has no name key and an empty `session` column |
| Comparison.CollectDir | testplot.py:48-65 | the directory loop computes exactly that map |
| Comparison.FoldStops | testplot.py:59-60 | once building has failed it stays failed |
| Comparison.PremiumDir | testplot.py:16 | for a named user, the premium directory the script reads is the one the writers save premium sessions to |
| Comparison.RangeDir | testplot.py:17 | for a named user, the range directory the script reads is the one the writers save range sessions to |
| Comparison.FindSessionFiles | testplot.py:35-87 | both maps are built, premium first, or the call fails |
| Comparison.CommonClubsSpec | testplot.py:111-113 | the compared clubs are those in both tables, each once, in increasing order |
| Comparison.Distances | testplot.py:136-137 | a club present in a table has some distances |
| Comparison.Pct | testplot.py:152-155 | 0 when the base is 0; otherwise `diff / base · 100` |
| Comparison.Spread | testplot.py:140-147 | a spread exists iff there are at least two distances, and is then non-negative |
| Comparison.StatOf | testplot.py:138-171 | the differences of one club's premium and range means, and the percentages guarded against a zero range mean |
| Comparison.StatSpreads | testplot.py:140-147 | each of the four spreads of a summary is present iff its table holds at least two shots of the club, and is then non-negative |
| Comparison.SummarizeClub | testplot.py:138-171 | one pass of the loop body computes exactly `StatOf` of the club |
| Comparison.ClubStats | testplot.py:131-171 | the loop appends one summary per common club, in order, each equal to `StatOf` |
| Comparison.Compare | testplot.py:89-264 | the comparison's outcome once both maps are built |
| Comparison.OutcomeSpec | testplot.py:97-119 | not found iff a map lacks the key, saying which; missing columns named; no common clubs iff the intersection is empty |
| Comparison.ComparedSpec | testplot.py:111-158 | summaries follow the shared clubs, in increasing order, each played in both tables |
| Comparison.WriterSessionsAreCompared | testplot.py:93-97 | whatever the writers saved for session n is found by the answer `str(n)` |
| Tokens.AfterSave | docker/trackman.py:57-89 | an empty token or username leaves the file; otherwise only that user's entry is set |
| Tokens.AfterInvalidate | docker/trackman.py:91-117 | no file gives False; no username removes the file; a username removes only that entry |
| Tokens.ValidTokens | docker/trackman.py:25-55 | the users whose entry is younger than the maximum age, with their tokens |
| Tokens.TokenStore.constructor | docker/trackman.py:23-32 | the store holds the given home file (read by the check) and local file (written by save and invalidate) |
| Tokens.TokenStore.SaveToken | docker/trackman.py:57-89 | returns whether it saved; the local `token` file becomes `AfterSave` and the home file the check reads is unchanged |
| Tokens.TokenStore.InvalidateToken | docker/trackman.py:91-117 | the local file and the result are `AfterInvalidate`; the home file the check reads is unchanged |
| Tokens.TokenStore.CheckSavedTokens | docker/trackman.py:25-55 | the loop over the entries of the home file computes `ValidTokens` of that file |
| Tokens.FreshLoginIsNotListed | docker/trackman.py:23-32 | as written: with neither file present, a saved token is valid in the file written but the file read lists nobody |
| Tokens.LoggedOutUserIsStillListed | docker/trackman.py:91-117 | as written: invalidating a user empties the local file while the same entry in the home file stays valid |
| Tokens.SaveThenCheck | docker/trackman.py:57-89 | with one file for reading and writing, as intended: a token just saved is its user's valid token; other users keep theirs |
| Tokens.InvalidateThenCheck | docker/trackman.py:91-117 | with one file, as intended: after invalidating a user, that user has no valid token and the others keep theirs |
| Tokens.InvalidateAllThenCheck | docker/trackman.py:91-117 | with one file, as intended: invalidating everything leaves no valid token |
| Tokens.SaveIdempotent | docker/trackman.py:57-89 | saving the same token twice at the same time is saving it once |
| Tokens.SaveThenInvalidate | docker/trackman.py:57-117 | invalidating a user just saved into a file without it restores the file |

## Left out

- HTTP and GraphQL queries, the Selenium login and the PKCE helpers are not modelled; the fetched activities and shots are inputs.
- File-system and pandas I/O is not modelled: listings are inputs, writers return `(path, text)`, write failures and `read_csv` errors are absent.
- `datetime.fromisoformat`/`strftime` is a parameter; the displayed `"%Y-%m-%d %H:%M"` date strings of the activity tables are not modelled.
- Floating point: the classifier, the aggregation and the comparison use exact reals. `round`, the `ballSpeed × 3.6` conversion, NaN and pandas' skipna are not modelled.
- Mishits.GroupTests: the square root of pandas' `std()` is avoided by squaring both sides, an equivalence proved in `Mishits.BelowIsThreshold` and `Mishits.AboveIsThreshold`.
- Aggregate.CollectClubData: the spread of a cell is kept as the sample variance instead of its square root, and is absent where pandas gives NaN (a single shot).
- Comparison.StatOf: the four `std` values are kept as sample variances instead of their square roots, and are absent where pandas gives NaN (a single shot).
- CsvExport.RowCells: a `measurement` that is JSON `null` is represented like an absent key and written as empty cells, where `data.get` raises `AttributeError` (docker/trackman.py:761, 775, 909-911); the same holds for CsvExport.CombinedRow, CsvExport.SaveShots and CsvExport.SaveCombined. The shots they receive come from `get_shots`, which replaces a `null` measurement by `{}` (docker/trackman.py:586-590), so the path is not reached from there.
- CsvExport.SaveCombined: requires the session objects to be distinct. With aliased objects the second occurrence would be sorted again before it is written.
- The Dash layout, callback wiring (`PreventUpdate`, `n_clicks`, the triggering component), Plotly and Matplotlib figures, and the Tkinter widgets are presentation and are not modelled.
- The `remove_mishits` exception path, which returns the lists unchanged, is not modelled.
- Threads and `self.after` in interface.py are not modelled: each handler is one sequential method.
- Club labels with shot and session counts in the GUI list boxes and the dropdown label texts are not modelled.
- Gui: `str(club)` of numeric club values is not modelled; clubs are text or missing.
- PlotScript.PyInt: Python's `int` also accepts underscores between digits and non-ASCII digits; the model accepts ASCII digits only.
- Text.IsDigits: `str.isdigit` is true for some non-ASCII digits; the model recognises ASCII digits only, and so do the regex recognisers for `\d`.
- Upload handling: the `'Session ID'` default from the file name, the empty-file and decode errors (a file is readable or not), the status message and the upload time are not modelled; the MD5 digest is an input.
- Uploads.BatchMetaKeepsEntry: two accepted files with the same name in one batch keep only the last one's metadata; the lemma states the entry only when no later file of that name differs.
- Comparison: `os.path.isfile` and glob's hidden-file rule are reduced to a name test, the pandas reader is a parameter, and the console input of the session number and of the user is a parameter.
- The `plot.py` username prompt, its data loading loop and its IQR and `norm.fit` filtering are not modelled.
- The interactive command line `main()` of docker/trackman.py is left out except its missing-session loop (`Reconcile.CliFindMissing`); its displayed numbering `total - i` is not the numbering the saves use.
- Token expiry reads the clock; the current time is a parameter. The home file and the local `token` file are taken to be distinct files, which holds unless links make them one.
- Activities.SessionTable: a `time` that is JSON `null` or not a string cannot be represented (`time` is an optional string), so the `TypeError` Python raises when the sort compares such a key is not modelled; the same holds for Gui.TrackManGui.UpdateActivityList.
- CsvExport.SaveShots: a shot `time` that is JSON `null` or not a string cannot be represented, so the `TypeError` of the in-place sort on such a key is not modelled; the same holds for CsvExport.SaveCombined.
- Text.Lower: `str.lower` also lower-cases non-ASCII letters; the model lower-cases `A`-`Z` only.
- The dummy trackman fallback of docker/app.py is not modelled.
- Reconcile: activities without a time are looked up under the date "" and are reported again on every run (`Reconcile.UndatedActivityIsAlwaysMissing`); this is the code's behaviour and is kept.

## Findings

| source | as written | input that shows it | evidently intended | confidence | as-written member | corrected member |
|---|---|---|---|---|---|---|
| docker/app.py:986-991 | each file of a batch is checked only against the registry as it was before the batch; the batch's own metadata is merged only after the loop | one batch with `a.csv` and `b.csv` holding the same content: both are accepted and the records hold that content twice | a file whose content was already accepted earlier in the same batch is a duplicate | not executed | Uploads.SameContentTwiceInOneBatch | Uploads.AcceptedOnceHasNoRepeats |
| docker/trackman.py:23-65 | `check_saved_tokens` reads `~/tokens/trackman_tokens.json` while `save_token` writes `./token/trackman_tokens.json` | log in on a machine without either file: `save_token("t", "u")` writes the local file and the following `check_saved_tokens()` returns `{}` | one token file, read and written alike | not executed | Tokens.FreshLoginIsNotListed | Tokens.SaveThenCheck |
| docker/trackman.py:91-117 | `invalidate_token` removes entries from `./token/trackman_tokens.json` only, while the check reads `~/tokens/trackman_tokens.json` | both files hold a valid entry for `u`: `invalidate_token("u")` returns `True` and `check_saved_tokens()` still lists `u` | logging out removes the user from the file the check reads | not executed | Tokens.LoggedOutUserIsStillListed | Tokens.InvalidateThenCheck |

# Volleyball tagging and clip pipeline: a Dafny model

This project models the core of a volleyball video-tagging application and of its
machine-learning data pipeline.

In the browser front end:

- **Video keys and the storage sweep** (`frontend/src/util/helper.ts`). A loaded video file is
  filed in local storage under `video_<name>_<size>_<lastModified>`. `cleanupExpiredVideos`
  walks local storage and removes video records that are unreadable or older than the
  maximum age.
- **Tagging panel** (`frontend/src/components/TagPanel.tsx`). It holds three selections (event
  type, player, outcome) that start at the first option. "Add tag" builds a tag stamped with
  the clock, the current video time and that time rendered as `M:SS`.
- **Video player** (`frontend/src/components/VideoPlayer.tsx`). Its state is playing flag,
  current time, duration and volume, mirrored from the `<video>` element. The model covers
  the seek effect, play/pause toggling, seeking, volume, and skipping clamped to
  `[0, duration]`.
- **Excel export** (`frontend/src/util/exportHelper.ts`). A workbook with an Events sheet, a
  Player Statistics sheet and a Summary sheet; the file name token taken from the video id;
  and the download name `<token>-analysis-<date>.xlsx`, with an alert on failure.

In the back-end scripts:

- **`transform_csv.py`**. Reads tagged rows under several column aliases, parses `M:SS[.frac]`
  times or numeric timestamps, canonicalises actions and outcomes, and cleans the video name.
  It drops duplicate (video, time, action, player) keys and writes a numbered manifest with
  per-action counts.
- **`extract_clips.py`**. Checks the manifest headers, then walks the rows. It honours the
  overall and per-action limits, skips missing videos and unparsable times, computes the
  clip window clamped at 0 and builds a sanitised clip file name. It asks ffmpeg for the
  clip and appends an index row on success, keeping per-action and per-video tallies.
- **`make_splits.py`**. Loads the clip index, normalises actions, and groups rows by action
  in first-appearance order. It shuffles each group, caps it, and cuts it into test,
  validation and training parts of `round(n * frac)` rows, then writes three CSV files.

A separate module, `Pipeline`, connects the two ends. A tag's `M:SS` text, exported to the
Events sheet and read back by `transform_csv.py`'s time parser, gives back the whole
seconds of the tag's timestamp.

Values are exact: floating-point times are `real`s, and Python's `round` is round-half-even
on them. Text is ASCII `seq<char>`. Effects outside the program are parameters:

- the clock (`Date.now()`, `new Date()`);
- the file system (a set of existing names);
- ffmpeg's exit code (a function of the row number);
- `random.shuffle` (a function of the group number and the group).

Modules:

- `Text`, `Counting`, `Numeric`, `Slices` and `Wrappers`: shared helpers.
- `TimeFormat`: the `formatTime` shared by the panel and the player.
- One module per core source file.
- `Pipeline`: the lemmas that join them.

## Model

| member | source | states |
|---|---|---|
| VideoStorage.GenerateVideoKey | frontend/src/util/helper.ts:1-3 | the key starts with the `video_` prefix |
| VideoStorage.ParseGeneratedKey | frontend/src/util/helper.ts:1-3 | the key of (name, size, lastModified) reads back to exactly that triple, even when the name holds `_` |
| VideoStorage.GenerateVideoKeyInjective | frontend/src/util/helper.ts:1-3 | two files share a key only when name, size and modification time all agree |
| VideoStorage.RemoveKeyAt | frontend/src/util/helper.ts:15 | with unique keys, removing the key of item i leaves the items before and after i in order |
| VideoStorage.RemoveKeyMembers | frontend/src/util/helper.ts:15 | an item survives `removeItem(key)` exactly when it was there and has another key |
| VideoStorage.RemoveKeyAbsent | frontend/src/util/helper.ts:15 | removing a key that is not stored changes nothing |
| VideoStorage.SweepKeeps | frontend/src/util/helper.ts:9-21 | the sweep as written only deletes: survivors were stored before, and items before the start index or not expired all survive |
| VideoStorage.SweepRemovesOnlyExpired | frontend/src/util/helper.ts:11-18 | an item is removed only if its key starts with `video_` and its record is unparsable, or has a truthy `createdAt` more than `maxAge` ms before now |
| VideoStorage.SweepSkipsNextKey | frontend/src/util/helper.ts:9-16 | two adjacent unreadable video records: one pass removes the first and leaves the second |
| VideoStorage.KeepLive | frontend/src/util/helper.ts:9-21 | the intended sweep keeps exactly the stored items that are not expired |
| VideoStorage.KeepLiveIdempotent | frontend/src/util/helper.ts:9-21 | a second intended sweep with the same clock removes nothing more |
| VideoStorage.KeepLiveSkipExpired | frontend/src/util/helper.ts:14-18 | removing an expired item at i and staying at i keeps the loop invariant of the intended sweep |
| VideoStorage.KeepLiveSkipLive | frontend/src/util/helper.ts:14 | keeping a live item at i and advancing keeps the loop invariant of the intended sweep |
| VideoStorage.BrowserStore.constructor | frontend/src/util/helper.ts:9 | local storage starts with the given items, keys unique |
| VideoStorage.BrowserStore.RemoveItem | frontend/src/util/helper.ts:15 | the store becomes `RemoveKey` of the old store, and keys stay unique |
| VideoStorage.BrowserStore.RemoveKeyKeepsUnique | frontend/src/util/helper.ts:15 | removing an item keeps keys unique |
| VideoStorage.BrowserStore.CleanupExpiredVideos | frontend/src/util/helper.ts:5-22 | the loop as written, with the max age `maxAgeInDays * 24 * 60 * 60 * 1000` and `maxAgeInDays` defaulting to 7, leaves the store equal to `SweepFrom(old store, 0)` |
| VideoStorage.BrowserStore.CleanupExpiredVideosCorrected | frontend/src/util/helper.ts:5-22 | the corrected loop, with the same 7-day default, leaves exactly the live items, in order, and no expired item |
| TimeFormat.FieldsOfNonNegative | frontend/src/components/TagPanel.tsx:29-33 | for t >= 0, minutes = floor(t/60) >= 0, seconds = floor(t mod 60) < 60, and minutes*60 + seconds = floor(t) |
| TimeFormat.FormatTimeShape | frontend/src/components/TagPanel.tsx:29-33 | `formatTime(t)` for t >= 0 is digits, ':', exactly two digits, whose values are the minutes and seconds adding up to floor(t) |
| TimeFormat.FormatTimeFields | frontend/src/components/TagPanel.tsx:29-33 | the same shape, as the two digit strings around the colon |
| TimeFormat.TwoDigits | frontend/src/components/TagPanel.tsx:32 | `padStart(2, "0")` of a number below 100 is two digits with that value |
| TimeFormat.FormatTimeExamples | frontend/src/components/VideoPlayer.tsx:77-81 | 65 s renders as "1:05" and 75 s as "1:15" |
| TimeFormat.FormatTimeNegative | frontend/src/components/VideoPlayer.tsx:77-81 | a negative time renders with two signs, "-1:-5" for -5 s |
| TagPanel.InitialSelection | frontend/src/components/TagPanel.tsx:19-27 | a selection starts at the first option, and is absent exactly when there are no options |
| TagPanel.Panel.constructor | frontend/src/components/TagPanel.tsx:19-27 | each of the three selections starts at its list's first option |
| TagPanel.Panel.SelectEventType | frontend/src/components/TagPanel.tsx:55 | choosing an event type sets that selection only |
| TagPanel.Panel.SelectPlayer | frontend/src/components/TagPanel.tsx:67 | choosing a player sets that selection only |
| TagPanel.Panel.SelectOutcome | frontend/src/components/TagPanel.tsx:80 | choosing an outcome sets that selection only |
| TagPanel.Panel.HandleAddTag | frontend/src/components/TagPanel.tsx:35-45 | the tag carries id = the clock, the current time, its `formatTime` text and the three selections, each present exactly when its list is non-empty and then one of its options |
| VideoPlayer.MediaElement.constructor | frontend/src/components/VideoPlayer.tsx:87-95 | a fresh element is paused at time 0 with volume 1 |
| VideoPlayer.MediaElement.Play | frontend/src/components/VideoPlayer.tsx:27-36 | playing unpauses and changes nothing else |
| VideoPlayer.MediaElement.Pause | frontend/src/components/VideoPlayer.tsx:27-36 | pausing pauses and changes nothing else |
| VideoPlayer.SkipTarget | frontend/src/components/VideoPlayer.tsx:68-75 | the skip target is `current + seconds` clamped into [0, duration] |
| VideoPlayer.Player.constructor | frontend/src/components/VideoPlayer.tsx:15-19 | the player starts not playing, at time 0, duration 0, volume 1 |
| VideoPlayer.Player.SeekToEffect | frontend/src/components/VideoPlayer.tsx:21-25 | a pending seek moves the element's time there; without one the element is untouched |
| VideoPlayer.Player.TogglePlayPause | frontend/src/components/VideoPlayer.tsx:27-36 | with an element, playing flips and the element is paused exactly when it was playing, its time, volume and duration unchanged; without one nothing changes |
| VideoPlayer.Player.HandleTimeUpdate | frontend/src/components/VideoPlayer.tsx:38-44 | the current time follows the element and is reported to the parent |
| VideoPlayer.Player.HandleLoadedMetadata | frontend/src/components/VideoPlayer.tsx:46-50 | the duration follows the element |
| VideoPlayer.Player.HandleSeek | frontend/src/components/VideoPlayer.tsx:52-58 | seeking sets both the element's and the player's time to the slider value; the element's paused flag, volume and duration and the player's other state stay |
| VideoPlayer.Player.HandleVolumeChange | frontend/src/components/VideoPlayer.tsx:60-66 | the volume is set on the player, and on the element when there is one; the element's time, paused flag and duration and the player's other state stay |
| VideoPlayer.Player.HandlePlay | frontend/src/components/VideoPlayer.tsx:93 | the play event sets the playing flag only |
| VideoPlayer.Player.HandlePause | frontend/src/components/VideoPlayer.tsx:94 | the pause event clears the playing flag only |
| VideoPlayer.Player.SkipTime | frontend/src/components/VideoPlayer.tsx:68-75 | skipping moves the element to `SkipTarget` and leaves its paused flag, volume and duration as they were |
| ExcelExport.FilenameToken | frontend/src/util/exportHelper.ts:21 | the token is the id with its first "video_" removed, cut just before its first '_' (whole when there is none), so it has no '_' |
| ExcelExport.TokenOfGeneratedKey | frontend/src/util/exportHelper.ts:21 | for a key made by `generateVideoKey`, the token is the file name up to its first '_', or the whole name when it has none |
| ExcelExport.EventsRows | frontend/src/util/exportHelper.ts:25-33 | one Events row per event, in order, with the event's seven columns |
| ExcelExport.SuccessRate | frontend/src/util/exportHelper.ts:50-52 | the rate is successful/total * 100, and absent (NaN) exactly when total is 0 |
| ExcelExport.PlayerRows | frontend/src/util/exportHelper.ts:42-54 | one row per action of a player, in order |
| ExcelExport.CellsBeforePrefix | frontend/src/util/exportHelper.ts:41-55 | the rows before player p do not depend on the players after p |
| ExcelExport.StatsRowsOfLength | frontend/src/util/exportHelper.ts:41-55 | there is one statistics row per (player, action) pair |
| ExcelExport.StatsRowAt | frontend/src/util/exportHelper.ts:41-55 | the row at position (rows before player p) + a is action a of player p |
| ExcelExport.CellsBeforeMonotone | frontend/src/util/exportHelper.ts:41-55 | later players start at later rows |
| ExcelExport.BuildPlayerStats | frontend/src/util/exportHelper.ts:39-55 | the nested loop produces the player-major list of statistics rows |
| ExcelExport.EventTypes | frontend/src/util/exportHelper.ts:61-64 | the event types of the events, in order |
| ExcelExport.CountEventTypes | frontend/src/util/exportHelper.ts:61-64 | the reduce yields the distinct event types in first-seen order, each with its number of events (for event types that are neither integer-like nor `Object.prototype` names, see Left out) |
| ExcelExport.CountTypeStep | frontend/src/util/exportHelper.ts:61-64 | one step of the reduce keeps the accumulator's keys in first-seen order and its counts equal to the events seen |
| ExcelExport.EventTypesSnoc | frontend/src/util/exportHelper.ts:61-64 | one more event adds its type at the end |
| ExcelExport.TypeCountsSum | frontend/src/util/exportHelper.ts:61-76 | the breakdown counts add up to the number of events |
| ExcelExport.BreakdownRows | frontend/src/util/exportHelper.ts:72-75 | one breakdown row per event type |
| ExcelExport.SummaryRows | frontend/src/util/exportHelper.ts:66-76 | the Summary sheet is the five fixed rows (file, total, date, blank, heading) followed by the breakdown |
| ExcelExport.ExportCurrentVideoToExcel | frontend/src/util/exportHelper.ts:14-86 | fails with "No video loaded" when the id is empty, and with the parse error when the stored value under the id is not JSON; otherwise returns the token and the sheets Events, Player Statistics and Summary, the Summary starting with file, total, date, a blank row and the breakdown heading |
| ExcelExport.IsoDate | frontend/src/util/exportHelper.ts:107-109 | the date is the timestamp's part before the first 'T': the whole timestamp when it has none |
| ExcelExport.DownloadFileName | frontend/src/util/exportHelper.ts:107-109 | the download name is `<token>-analysis-<date>.xlsx`, field by field |
| ExcelExport.DownloadCurrentVideoExcelExport | frontend/src/util/exportHelper.ts:88-122 | alerts exactly when the export fails (empty id or unreadable stored value); otherwise downloads the workbook under the dated name, with the same Events, Player Statistics and Summary sheets the export builds |
| TransformCsv.FirstPresentAlias | backend/scripts/transform_csv.py:13-17 | the value of the first alias present in the row is returned, blank or not |
| TransformCsv.FirstNoAlias | backend/scripts/transform_csv.py:13-17 | with no alias present the result is "" |
| TransformCsv.MatchTimeSound | backend/scripts/transform_csv.py:19 | a match of the time pattern gives digit groups that spell the stripped text |
| TransformCsv.MatchTextSound | backend/scripts/transform_csv.py:19 | the unstripped matcher is sound in the same way |
| TransformCsv.MatchTimeComplete | backend/scripts/transform_csv.py:19 | every text that is whitespace, digits ':' digits [ '.' digits ], whitespace matches with those groups |
| TransformCsv.MatchTextComplete | backend/scripts/transform_csv.py:19 | the unstripped matcher is complete in the same way |
| TransformCsv.SplitAtFirst | backend/scripts/transform_csv.py:30 | the groups around the first ':' are recovered exactly |
| TransformCsv.ParseTimeToSecondsCases | backend/scripts/transform_csv.py:21-34 | a usable timestamp wins; the call fails, always with "Unparsable time", exactly when neither the timestamp, the pattern nor the time text as a number gives a value |
| TransformCsv.ParseMinutesSeconds | backend/scripts/transform_csv.py:27-31 | with no timestamp, `M:SS` parses to M*60 + SS, even when SS >= 60 |
| TransformCsv.CanonicalizeAction | backend/scripts/transform_csv.py:42-44 | the stripped, lower-cased action is mapped through ACTION_MAP (hit and attack to spike, assist to set, receive to pass) and any other action comes back stripped and lower-cased |
| TransformCsv.CanonicalizeActionIdempotent | backend/scripts/transform_csv.py:36-44 | canonicalising twice is canonicalising once |
| TransformCsv.NormalizeOutcome | backend/scripts/transform_csv.py:46-50 | the outcome is 1 exactly for the success words, otherwise 0 |
| TransformCsv.SearchExtension | backend/scripts/transform_csv.py:52 | finds the leftmost `.mp4`/`.mov`/`.m4v` (any case) followed by a word boundary (a helper of `video_id_to_filename`, which the transform loop never calls) |
| TransformCsv.VideoIdToFilename | backend/scripts/transform_csv.py:53-56 | the stripped id, cut just after its leftmost recognised extension, or whole when there is none (defined in the script but never called by the transform loop) |
| TransformCsv.CleanVideoName | backend/scripts/transform_csv.py:93-97 | the clean name is the id with every "video_" removed, cut at its first '_' (and before a ".mp4" that ends there); it has no '_' and no "video_" |
| TransformCsv.NoUnderscoreNoVideoPrefix | backend/scripts/transform_csv.py:93 | a name without '_' cannot hold "video_" |
| TransformCsv.CleanFilename | backend/scripts/transform_csv.py:100 | the file name is the clean name plus ".mp4" |
| TransformCsv.ProcessRowFields | backend/scripts/transform_csv.py:76-100 | a parsed row has the canonical action, the player, a 0/1 outcome and a clean name; a failed row fails with the `None` error or "Unparsable time" |
| TransformCsv.Actions | backend/scripts/transform_csv.py:122 | the actions of the written rows, in order |
| TransformCsv.AppendKeys | backend/scripts/transform_csv.py:103-107 | adding a new key keeps `seen` equal to the written keys and the keys distinct |
| TransformCsv.AppendCounts | backend/scripts/transform_csv.py:122 | incrementing the action's count keeps the counts equal to the tallies of the written rows |
| TransformCsv.StepConsistent | backend/scripts/transform_csv.py:74-127 | one row keeps the counters, `seen`, ids and counts consistent and adds one to the total |
| TransformCsv.TransformConsistent | backend/scripts/transform_csv.py:58-127 | after all rows the state is consistent and the total is the number of rows |
| TransformCsv.TransformCountsSum | backend/scripts/transform_csv.py:122-131 | the printed action counts add up to the rows written |
| TransformCsv.SeenGrows | backend/scripts/transform_csv.py:104-107 | `seen` only grows |
| TransformCsv.TransformComplete | backend/scripts/transform_csv.py:103-118 | every row that parses has its key among the written rows |
| TransformCsv.TransformSound | backend/scripts/transform_csv.py:110-121 | the i-th written row is built, with event id i + 1, from some row that parsed |
| TransformCsv.TransformCsvRowsClean | backend/scripts/transform_csv.py:93-121 | every manifest row has a 0/1 outcome, a clean name without '_' and that name + ".mp4" as file name |
| TransformCsv.StepAppends | backend/scripts/transform_csv.py:107-122 | a new key appends exactly one row with the next id and bumps the counters |
| TransformCsv.TransformSnoc | backend/scripts/transform_csv.py:74 | the rows are processed one at a time, in order |
| TransformCsv.TransformRows | backend/scripts/transform_csv.py:58-127 | the loop produces the specified rows and counts; total = rows read, written + skipped = total, ids are 1..written, keys distinct |
| TransformCsv.TransformCsv | backend/scripts/transform_csv.py:58-131 | the same, with the script's own row processing |
| ExtractClips.SpacesToUnderscores | backend/scripts/extract_clips.py:32 | every space becomes '_', nothing else changes |
| ExtractClips.KeepSafe | backend/scripts/extract_clips.py:33-36 | the kept text is safe and no longer than the input |
| ExtractClips.KeepSafeCounts | backend/scripts/extract_clips.py:33-36 | each alphanumeric, '_', '-' and '.' is kept as often as it occurs, and every other character is dropped |
| ExtractClips.KeepSafeAppend | backend/scripts/extract_clips.py:33-36 | the filter keeps the order: the kept characters of a concatenation are those of each part in turn |
| ExtractClips.KeepSafeOfSafe | backend/scripts/extract_clips.py:33-36 | a safe string is kept whole |
| ExtractClips.Sanitized | backend/scripts/extract_clips.py:30-37 | the result is safe and non-empty; it is "na" when no safe character survives or `maxlen` is 0, and otherwise the first `maxlen` kept characters |
| ExtractClips.Sanitize | backend/scripts/extract_clips.py:30-37 | the filtering loop computes `Sanitized` |
| ExtractClips.SafeHasNoSpace | backend/scripts/extract_clips.py:35 | a safe string has no space |
| ExtractClips.SanitizedOfSafe | backend/scripts/extract_clips.py:30-37 | a non-empty safe string is only truncated |
| ExtractClips.SanitizedIdempotent | backend/scripts/extract_clips.py:30-37 | sanitising twice is sanitising once |
| ExtractClips.SanitizedKeepsEverySpace | backend/scripts/extract_clips.py:32 | inner spaces of otherwise safe text become '_' one for one |
| ExtractClips.BaseName | backend/scripts/extract_clips.py:45 | the base name has no '/' and is never "." |
| ExtractClips.BaseNameIsLastPart | backend/scripts/extract_clips.py:45 | the base name is the last whole part of the path, after which only the '/' and "." parts pathlib drops may follow; it is "" only when the path is nothing but those |
| ExtractClips.Stem | backend/scripts/extract_clips.py:45 | the stem is the base name cut before its last '.' when that '.' is neither first nor last, and the whole base name otherwise |
| ExtractClips.StemOfFile | backend/scripts/extract_clips.py:45 | the stem of `dir/base.ext` is `base` |
| ExtractClips.StemOfBareFile | backend/scripts/extract_clips.py:45 | the stem of a bare `base.ext`, such as the manifest's `<name>.mp4`, is `base` |
| ExtractClips.OutcomeTag | backend/scripts/extract_clips.py:46 | the tag is "succ" exactly when the outcome is "1", else "fail" |
| ExtractClips.MillisText | backend/scripts/extract_clips.py:46 | the milliseconds text is safe |
| ExtractClips.BuildOutName | backend/scripts/extract_clips.py:42-46 | the clip name is safe, non-empty and at most 80 characters |
| ExtractClips.AllSafeConcat | backend/scripts/extract_clips.py:46 | joining safe parts gives a safe string |
| ExtractClips.SafeJoin | backend/scripts/extract_clips.py:46 | the six '_'-joined parts with ".mp4" are safe |
| ExtractClips.RawOutNameSafe | backend/scripts/extract_clips.py:46 | with a safe stem, action and event id, the unsanitised name is already safe |
| ExtractClips.BuildOutNameOfSafeParts | backend/scripts/extract_clips.py:42-46 | then the name is only truncated, and ends in ".mp4" when it fits in 80 |
| ExtractClips.ClipWindow | backend/scripts/extract_clips.py:139-146 | pre and post clamp at 0; start >= 0; start + dur = t + post; an early event starts at 0 |
| ExtractClips.MissingHeaders | backend/scripts/extract_clips.py:112-113 | the missing headers are exactly the required ones absent from the file |
| ExtractClips.PrepareRow | backend/scripts/extract_clips.py:123-155 | the action is stripped and lower-cased, the video stripped, and a clip exists exactly when the time parses; its time is `float(t_event_sec)` and its name `build_out_name` of the row's fields |
| ExtractClips.CutClipExit | backend/scripts/extract_clips.py:55-69 | an existing output without overwrite gives 0, otherwise ffmpeg's exit code |
| ExtractClips.VisitCountsMissing | backend/scripts/extract_clips.py:130-132 | a row within the per-action limit whose video is unavailable adds one to that video's missing count and indexes nothing; other rows keep the missing counts |
| ExtractClips.Visit | backend/scripts/extract_clips.py:123-178 | visiting a row does not change the rows-read count or the stop flag, and writes at most one index row |
| ExtractClips.IndexActions | backend/scripts/extract_clips.py:170 | one action per index row |
| ExtractClips.IndexVideos | backend/scripts/extract_clips.py:166 | one video per index row |
| ExtractClips.TallyCounts | backend/scripts/extract_clips.py:94-96 | a tally holds each value's number of occurrences |
| ExtractClips.TallySnoc | backend/scripts/extract_clips.py:177-178 | one more value increments its tally |
| ExtractClips.NonZeroGet | backend/scripts/extract_clips.py:94 | reading a defaultdict counts absent keys as 0 |
| ExtractClips.NonZeroTouch | backend/scripts/extract_clips.py:124 | reading a defaultdict entry, which creates it, does not change the counts |
| ExtractClips.NonZeroIncrement | backend/scripts/extract_clips.py:177 | incrementing a defaultdict entry increments that count |
| ExtractClips.IndexSnoc | backend/scripts/extract_clips.py:164-174 | an index row adds its action and its video at the end |
| ExtractClips.TalliedAppend | backend/scripts/extract_clips.py:164-178 | writing a row keeps the tallies equal to the index's counts |
| ExtractClips.TalliedKeep | backend/scripts/extract_clips.py:124-161 | a row that is skipped keeps the tallies |
| ExtractClips.StepTallied | backend/scripts/extract_clips.py:118-178 | one row keeps total out, per-action and per-video counts equal to the index |
| ExtractClips.StepWithinLimits | backend/scripts/extract_clips.py:121-125 | one row keeps the total and per-action limits |
| ExtractClips.StepIndexSound | backend/scripts/extract_clips.py:128-174 | one row only indexes clips of available videos |
| ExtractClips.StepConsistent | backend/scripts/extract_clips.py:118-178 | one row keeps all of these invariants |
| ExtractClips.FoldConsistent | backend/scripts/extract_clips.py:118 | a step that keeps the invariants keeps them over any number of rows |
| ExtractClips.RunConsistent | backend/scripts/extract_clips.py:118-178 | every prefix of the run is consistent |
| ExtractClips.StepScans | backend/scripts/extract_clips.py:119-122 | each row counts at most one more row read and never restarts after a stop |
| ExtractClips.FoldScans | backend/scripts/extract_clips.py:118-122 | rows read is at most the rows visited, and equal to them until a stop |
| ExtractClips.RunScansRows | backend/scripts/extract_clips.py:119-122 | the same for the run; a stop needs a non-zero limit |
| ExtractClips.RunLimits | backend/scripts/extract_clips.py:118-178 | after the run: index size = clips written <= limit, each action <= per-action limit, tallies match the index and sum to the clips written |
| ExtractClips.StepWritesOnlyOnSuccess | backend/scripts/extract_clips.py:130-164 | an index row is written only for an available video with a parsed time, and only if the output existed without overwrite or ffmpeg exited 0 |
| ExtractClips.FoldAfterStop | backend/scripts/extract_clips.py:121-122 | after the break nothing changes |
| ExtractClips.RunAfterStop | backend/scripts/extract_clips.py:121-122 | after the break the run's state is final |
| ExtractClips.VisitRow | backend/scripts/extract_clips.py:123-178 | the row body computes `Visit` |
| ExtractClips.RunBreak | backend/scripts/extract_clips.py:119-122 | reaching the limit counts the row and ends the run there |
| ExtractClips.RunVisit | backend/scripts/extract_clips.py:119-178 | below the limit, the row is counted and visited |
| ExtractClips.ExtractRows | backend/scripts/extract_clips.py:118-178 | the loop computes `Run` |
| ExtractClips.ExtractClips | backend/scripts/extract_clips.py:110-178 | exit 2 exactly when a required header is missing (with nothing done); otherwise exit 0 with the run's state |
| MakeSplits.LoadRow | backend/scripts/make_splits.py:49-56 | the action is stripped and lower-cased, the outcome stripped, other fields copied |
| MakeSplits.LoadRows | backend/scripts/make_splits.py:45-56 | the loading loop gives one loaded row per record, in order |
| MakeSplits.Loaded | backend/scripts/make_splits.py:45-56 | one loaded row per record |
| MakeSplits.LoadedActionsNormal | backend/scripts/make_splits.py:51 | loaded actions have no edge whitespace and no upper case |
| MakeSplits.Actions | backend/scripts/make_splits.py:61 | the actions of the rows, in order |
| MakeSplits.Group | backend/scripts/make_splits.py:59-61 | a group holds only rows of its action |
| MakeSplits.GroupCount | backend/scripts/make_splits.py:59-61 | a group's size is its action's number of rows |
| MakeSplits.GroupSnoc | backend/scripts/make_splits.py:61 | appending a row extends only its action's group |
| MakeSplits.GroupByAction | backend/scripts/make_splits.py:59-61 | the loop yields the actions in first-seen order (the dict's key order) and, for each, the rows of that action in input order |
| MakeSplits.DistinctActionsSnoc | backend/scripts/make_splits.py:61 | a new action joins the key order at the end |
| MakeSplits.ActionsSnoc | backend/scripts/make_splits.py:61 | one more row adds its action at the end |
| MakeSplits.GroupingContents | backend/scripts/make_splits.py:61 | one `append` keeps every list equal to its group |
| MakeSplits.GroupsOf | backend/scripts/make_splits.py:64 | the groups in key order |
| MakeSplits.FlattenSnoc | backend/scripts/make_splits.py:74-76 | concatenating one more group extends the flat list |
| MakeSplits.FlattenAddRow | backend/scripts/make_splits.py:61 | adding a row to its group adds it once to the union of the groups |
| MakeSplits.GroupsHoldAllRows | backend/scripts/make_splits.py:59-61 | the groups together hold exactly the rows (as a multiset) |
| MakeSplits.GroupsAddRow | backend/scripts/make_splits.py:61 | a row adds exactly itself to the groups |
| MakeSplits.GroupsAddSeen | backend/scripts/make_splits.py:61 | the same, for an action already seen |
| MakeSplits.GroupsAddNew | backend/scripts/make_splits.py:61 | the same, for a new action |
| MakeSplits.GroupsOfSnoc | backend/scripts/make_splits.py:61 | a row extends only its own group |
| MakeSplits.NewGroup | backend/scripts/make_splits.py:61 | a new action's group is that row alone |
| MakeSplits.Capped | backend/scripts/make_splits.py:66-67 | the capped list is a prefix: exactly `cap` rows when a positive cap is exceeded, the group less its last `-cap` rows for a negative cap, and whole when there is no cap or the group fits |
| MakeSplits.PartSize | backend/scripts/make_splits.py:70-71 | `int(round(n * frac))` is not negative for a non-negative fraction |
| MakeSplits.PartitionExact | backend/scripts/make_splits.py:74-76 | test, val and train concatenate back to the items, with the sizes Python's clamped slices give |
| MakeSplits.SplitGroupExact | backend/scripts/make_splits.py:64-76 | a group's three parts concatenate back to the shuffled, capped group |
| MakeSplits.SplitGroupCap | backend/scripts/make_splits.py:66-76 | with a cap, a group contributes at most the cap rows in all |
| MakeSplits.SplitEach | backend/scripts/make_splits.py:64-76 | each group is split with its own shuffle |
| MakeSplits.SplitGroups | backend/scripts/make_splits.py:63-76 | the loop computes the concatenation of the groups' parts |
| MakeSplits.SplitAllSnoc | backend/scripts/make_splits.py:74-76 | one more group appends its three parts |
| MakeSplits.CombineKeepsRows | backend/scripts/make_splits.py:74-76 | parts that each hold their group hold all groups together |
| MakeSplits.SplitGroupKeepsRows | backend/scripts/make_splits.py:65-76 | without a cap, a group's parts hold exactly its rows |
| MakeSplits.SplitAllKeepsRows | backend/scripts/make_splits.py:63-76 | without a cap, the three splits hold exactly the grouped rows |
| MakeSplits.SplittingKeepsRows | backend/scripts/make_splits.py:45-76 | without a cap, train, val and test hold exactly the loaded rows, none lost or repeated |
| MakeSplits.Picks | backend/scripts/make_splits.py:74-76 | one block per group |
| MakeSplits.CombineBlocks | backend/scripts/make_splits.py:74-76 | each split is the concatenation of its blocks |
| MakeSplits.Parts | backend/scripts/make_splits.py:74-76 | one block per group, from that group's split |
| MakeSplits.SplitAllBlocks | backend/scripts/make_splits.py:74-76 | each split is the blocks of the groups in key order |
| MakeSplits.SplitGroupMembers | backend/scripts/make_splits.py:65-76 | a group's part holds only rows of that group |
| MakeSplits.CountActionsAppend | backend/scripts/make_splits.py:74-76 | action counts add over concatenation |
| MakeSplits.CountActionsOfOne | backend/scripts/make_splits.py:74-76 | a block of one action counts only that action |
| MakeSplits.BlocksCount | backend/scripts/make_splits.py:74-76 | an action's count in a split is the size of its own block |
| MakeSplits.Rank | backend/scripts/make_splits.py:64 | the position of an action in the key order |
| MakeSplits.RankOf | backend/scripts/make_splits.py:64 | without duplicate keys, the i-th key has rank i |
| MakeSplits.BlocksInKeyOrder | backend/scripts/make_splits.py:64-76 | a split lists its rows action by action, in key order |
| MakeSplits.SplittingKeyed | backend/scripts/make_splits.py:64-76 | each block holds only its action's rows |
| MakeSplits.SplittingPartCount | backend/scripts/make_splits.py:64-76 | an action's count in a split is the size of its group's part, and 0 for an absent action |
| MakeSplits.SplittingCap | backend/scripts/make_splits.py:66-76 | with a cap, each action appears at most the cap times over the three splits |
| MakeSplits.SplittingInOrder | backend/scripts/make_splits.py:63-76 | each split lists its rows action by action, in first-seen action order |
| MakeSplits.WriteSplit | backend/scripts/make_splits.py:78-84 | writing fails exactly when train is empty (`train[0]`); otherwise the header and one record per row |
| MakeSplits.OutcomeFailsOnEmptyTrain | backend/scripts/make_splits.py:78-88 | the script fails exactly when the train split is empty; otherwise three files with the same header and the splits' sizes |
| MakeSplits.MakeSplits | backend/scripts/make_splits.py:41-88 | the script's steps compute `Outcome` |
| Pipeline.FormatTimeMatches | backend/scripts/transform_csv.py:19 | a `formatTime` text matches the time pattern, and its value is floor(t) |
| Pipeline.ParseOfMatch | backend/scripts/transform_csv.py:27-31 | without a timestamp, a matched time parses to its parts' value |
| Pipeline.DigitsAroundColon | backend/scripts/transform_csv.py:19 | digits ':' digits has no whitespace to strip |
| Pipeline.FormattedTimeParsesBack | backend/scripts/transform_csv.py:21-34 | `parse_time_to_seconds(formatTime(t), "")` is floor(t) for t >= 0 |
| Pipeline.ReadBack | frontend/src/util/exportHelper.ts:25-33 | an Events row read back has exactly the seven Events columns |
| Pipeline.ReadBackTimeColumns | backend/scripts/transform_csv.py:3-17 | read back, the time alias finds the "Time" text and the timestamp aliases find nothing |
| Pipeline.ExportedTagTime | backend/scripts/transform_csv.py:78-87 | an exported tag's time, read back by the transformer, gives the whole seconds of its timestamp |
| Numeric.RoundHalfEven | backend/scripts/make_splits.py:70-71 | `round(x)` is the nearest integer, ties to even |

## Left out

- File, CSV and XLSX input/output, `print`/`console` output, `argparse`, `pathlib` and `mkdir` are left out. CSV rows are maps or records, and the output files are sequences of records.
- React rendering and the `onAddTag`/`onTimeUpdate` callbacks to the parent are left out. The tag is returned; the reported time is an out-parameter.
- `Date.now()`, `new Date()` and `toISOString()` are parameters. `toLocaleDateString()` is an opaque string parameter.
- `toFixed(1)` on the success rate and the `:.3f` renderings are not modelled. The exact value is kept instead, so the NaN case of a player with zero attempts is `None`.
- `sumActions`, which builds the player statistics, is not part of this model. The aggregated statistics are a parameter in JavaScript object key order.
- ExcelExport.CountEventTypes: event types are assumed not integer-like and not `Object.prototype` names. `Object.entries` lists integer-like keys such as "3" and "12" first, in ascending order, and `acc[t] || 0` misreads inherited names such as "constructor" or "__proto__".
- VideoStorage.BrowserStore.CleanupExpiredVideos: `removeItem` is assumed to keep the relative order of the remaining keys. Web Storage leaves key order to the browser once the number of keys changes, so the skipped key is the one that moves down to index i under that assumption.
- `JSON.parse` of a stored record is an `Option` given with each storage item. JSON text is not parsed.
- ExcelExport.ExportCurrentVideoToExcel: the stored text read at exportHelper.ts:20 is not modelled, because its parsed value is never used. Only whether `JSON.parse` throws on it is an input (`storedParses`); the throw is rethrown and ends in the download's alert.
- Floating point is exact `real` arithmetic, so rounding error, overflow, `inf`, `nan`, exponents and underscores in `float()` are left out.
- `Math.floor(time % 60)` uses JavaScript's remainder, which takes the sign of the dividend, on exact reals. So negative times keep their odd rendering.
- Text is ASCII only. `isalnum`, `isspace`, `lower()` and `\d` have no Unicode cases.
- `random.seed` and `random.shuffle` are a shuffle function of the group number and the group. Lemmas that need it to permute say so (`Permutes`), and the seeded generator is not modelled.
- MakeSplits: `n_train` (make_splits.py:72) is left out, because the script computes it and never uses it.
- The `(row["action"] or "")` fallbacks for a missing CSV cell are left out. A cell is always a string, and `None` appears only as `First`'s result type.
- ffmpeg is an exit-code function of the row number, and the existing files are a set of names.
- The clip index's header row and the summary printing of extract_clips.py are left out. The per-video counts are kept in the loop state and stated by ExtractClips.VisitCountsMissing and ExtractClips.StepTallied.
- ExtractClips.MillisText: the body computes the `int(round(t * 1000))` digits exactly, but the contract states only that they are safe.
- TransformCsv.VideoIdToFilename: `video_id_to_filename` is modelled, but the transform loop never calls it; the loop builds the file name from the cleaned name instead.
- VideoPlayer.Player.TimeDisplay: the `M:SS / M:SS` display string has no contract of its own. Its parts are `TimeFormat.FormatTime`, which the TimeFormat lemmas describe.

## Findings

| source | as written | input that shows it | evidently intended | confidence | as-written member | corrected member |
|---|---|---|---|---|---|---|
| frontend/src/util/helper.ts:9-16 | `removeItem` shifts the next key down to index `i`, then `i++` skips it | two adjacent unreadable `video_` records: one pass removes only the first | every expired video record is removed in one pass | high, not executed | VideoStorage.SweepSkipsNextKey | VideoStorage.BrowserStore.CleanupExpiredVideosCorrected |

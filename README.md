# Padel match analysis: a Dafny model of its core logic

The system takes a padel match video from upload to analysis. A user uploads a
file through the web front end. The API builds the S3 object key that carries
the user id and a fresh media id. The video processor re-encodes the video,
streams it to S3 in multipart chunks and records the result in the
`users-media` table. The analyser finds the rallies, reconciles the player
tracks, bins the player positions into court heatmaps with zone shares, and
writes the clips back to the same table. The dashboard then plays each rally
in a trimmed video player with a chapter timeline, and shows the heatmap.

This project models the sequential logic of that pipeline and proves what the
code promises about it:

- **Trimmed-timeline playback** (`VideoPlayer`, `VideoModal`):
  - chapter normalisation (`Chapters`);
  - the effective duration, the trimmed or full timeline mapping, and the
    geometry of bands, masks, playhead and progress (`Timeline`);
  - WebVTT timestamps and chapter-cue text, with a parse-back round trip
    (`Vtt`);
  - the two components' state machines as classes whose methods are the
    React effects and handlers (`PlayerEngine`, `ModalEngine`).
- **Analysis post-processing**:
  - `_filter_tracks`, the player-id reconciliation loop (`TrackFilter`);
  - rally filtering, sorting and renumbering after the clustering, zone
    statistics, court binning, the full-clip entry and the thumbnail fit
    (`VideoAnalyser`);
  - processing dimensions, point masks and the expected field points
    (`FieldGeometry`).
- **Media bookkeeping**:
  - the upload key and its parse-back by the processor (`FileUpload`,
    `Uuids`, `VideoProcessor`, `UploadPipeline`);
  - multipart chunking, the ffmpeg progress-line parser, codec settings and
    the frame-count fallback (`VideoProcessor`);
  - the read-modify-write updates of the media table, over a
    `map<Uuid, MediaInfo>` (`Media`, `ProcessorMetadata`, `AnalyserMetadata`);
  - the float-to-decimal conversion of a stored item (`Json`).
- **Front-end rules**: the dashboard's player-name merge and player props
  (`Dashboard`), upload validation and upload flags (`VideoUpload`), the
  heatmap card's zone percentages and canvas mapping (`HeatmapView`), and the
  testimonial carousel's index (`Testimonials`).

Modelling conventions:

- Times are exact `real`s. Byte streams are sequences of a `byte` newtype.
- A JavaScript number that may come from an unguarded division is a
  `JsNumber.Num`: a finite value, an infinity or NaN. A zero divisor is
  modelled, never excluded by a precondition.
- JavaScript's `x || y` on numbers treats 0 as absent (`JsNumber.Or`,
  `Truthy`). JavaScript's `%` keeps the sign of the dividend (`Vtt.JsMod`,
  `Testimonials.JsRem`). Python's `int()` of a float truncates
  (`JsNumber.Trunc`).
- Plyr, the media element, timers and fetches are not modelled as code. What
  they deliver (a position, a paused flag, a media duration, an upload
  outcome) is a method parameter, and what the code writes to them is
  recorded in a sequence field (`elementWrites`, `plyrWrites`).
- The clock is a parameter (`now`). So are a fresh media id and the
  float parser of the progress reader.
- The table is a class holding a map from media id to record. A `Failure`
  result stands for the `ValueError` the code raises.
- The scipy clustering is a given partition: each detection row carries its
  cluster label, and `clusters` lists the labels in `value_counts` order.
- `_filter_tracks` picks "some element" of a set with `next(iter(...))`. The
  model states one iteration as a relation (`TrackFilter.Stepped`) that holds
  whatever element is picked, and the method picks one with `:|`.

Where the code and its design notes disagree, the model follows the code:

- Seeks are not clamped to the trimmed window.
- Percentages are not guarded against a zero divisor. A trimmed window of
  length 0 maps times to infinities, and a heatmap card without points shows
  NaN slices.
- Chapter normalisation is not idempotent and does not promise
  `end > start`. It promises only non-negative starts and ordered
  boundaries.
- The VideoPlayer's seek effect applies a pending seek only once the video is
  loaded. A seek requested earlier waits; it is not queued elsewhere.
- The modal's time handler tests `endTime !== undefined`, so an `endTime` of 0
  loops back at once. The player's loop-back effect tests a truthy `endTime`.
- The processor's record type has no `clips` field, so its status update
  drops stored clips.
- In `VideoUpload`, a failed upload revokes the preview URL that the handler
  saw when it started, not the one it has just created.

## Model

| member | source | states |
|---|---|---|
| Chapters.Processed | frontend/src/components/common/VideoPlayer.tsx:295-330 | `processChapters` as a value: [] for no chapters, else the stable start-sorted chapters normalised over the effective length; its shape and boundaries are stated by `ProcessedShape` and `ProcessedBoundaries` |
| Chapters.EffectiveLength | frontend/src/components/common/VideoPlayer.tsx:298 | the normalisation length is the duration when positive, else 3600; always positive |
| Chapters.Clamped | frontend/src/components/common/VideoPlayer.tsx:303-310 | a sorted chapter's start is raised to at least 0 and its own start; its end is filled and clamped into (0, effDur]; its title is kept |
| Chapters.Resolve | frontend/src/components/common/VideoPlayer.tsx:312-323 | the two chapters at a boundary keep their titles, the previous one its start and the current one its end |
| Chapters.Push | frontend/src/components/common/VideoPlayer.tsx:312-326 | a push adds exactly one chapter and keeps all but the last one pushed before |
| Chapters.PushAppends | frontend/src/components/common/VideoPlayer.tsx:314 | without an overlap the chapter is appended unchanged |
| Chapters.PushResolved | frontend/src/components/common/VideoPlayer.tsx:312-326 | with an overlap the last chapter and the new one are replaced by the resolved pair |
| Chapters.Normalise | frontend/src/components/common/VideoPlayer.tsx:302-327 | the first n loop iterations give n chapters |
| Chapters.ProcessChapters | frontend/src/components/common/VideoPlayer.tsx:295-330 | the method returns exactly `Processed(raw, duration)` |
| Chapters.NormaliseSorted | frontend/src/components/common/VideoPlayer.tsx:302-327 | the loop with its in-place edits of `prev.end` and `current.start` computes `Normalise` of all sorted chapters |
| Chapters.NormaliseInvariant | frontend/src/components/common/VideoPlayer.tsx:302-327 | after each iteration the titles follow the sorted order, starts are non-negative, ends positive, and boundaries are ordered |
| Chapters.PushNormalised | frontend/src/components/common/VideoPlayer.tsx:312-326 | one push keeps that invariant |
| Chapters.ResolveBoundary | frontend/src/components/common/VideoPlayer.tsx:314-323 | after resolution the previous end is at most the current start, and each side is either kept or moved onto the other |
| Chapters.PushedEnds | frontend/src/components/common/VideoPlayer.tsx:312-326 | the ends and starts on both sides of a resolved boundary keep the invariant |
| Chapters.ProcessedShape | frontend/src/components/common/VideoPlayer.tsx:295-330 | empty input gives []; otherwise one chapter per input, titles in stable start-sorted order, starts >= 0, and `out[i].end <= out[i+1].start` |
| Chapters.ProcessedBoundaries | frontend/src/components/common/VideoPlayer.tsx:304-324 | each end is the filled, clamped end or equals the next start; each start is the clamped start or equals the previous end; the last end is its clamped end |
| Chapters.NormaliseStep | frontend/src/components/common/VideoPlayer.tsx:314-322 | on an overlap the boundary moves to the midpoint of the two starts when that is after the previous start, else the previous chapter becomes 0.5 long and the new one starts at its end; without one the chapter is pushed as clamped |
| StableSort.SortCorrect | frontend/src/components/common/VideoPlayer.tsx:299 | the sort by start is sorted, a permutation of its input and of the same length |
| StableSort.SortStable | frontend/src/components/common/VideoPlayer.tsx:299 | chapters with equal starts keep their input order |
| StableSort.InsertElements | frontend/src/components/common/VideoPlayer.tsx:299 | insertion adds exactly one occurrence of the element |
| StableSort.InsertBounded | frontend/src/components/common/VideoPlayer.tsx:299 | a lower bound on all keys bounds the keys after insertion |
| StableSort.InsertSorted | frontend/src/components/common/VideoPlayer.tsx:299 | insertion into a sorted list keeps it sorted |
| StableSort.WithKeyAppend | frontend/src/components/common/VideoPlayer.tsx:299 | the elements of one key in a concatenation are those of each part, in order |
| StableSort.InsertWithKey | frontend/src/components/common/VideoPlayer.tsx:299 | insertion places the element after every element of its key already present |
| Timeline.Percentage | frontend/src/components/common/VideoPlayer.tsx:336-347 | `timeToPercentage`: in trimmed mode the time's offset from the start over the window's length, else the time over the base duration, times 100, with JavaScript's unguarded division; its mapping is stated by `PercentageMapping` |
| Timeline.ProgressWidth | frontend/src/components/common/VideoPlayer.tsx:349-358 | the progress bar's width: in full mode with a clip window the elapsed share of the window times the window's percentage; in trimmed mode the position's percentage capped at 100; before the start the position's own percentage |
| Timeline.ChapterBand | frontend/src/components/common/VideoPlayer.tsx:389-421 | one chapter's band on the timeline: a zero end counts as start + 60, a trimmed timeline drops chapters outside the window and clips the rest to it; position, width, the band is at least 0.5 wide, seeks to its drawn start and is highlighted while the time is in its drawn interval |
| Timeline.EffectiveDuration | frontend/src/components/common/VideoPlayer.tsx:332 | the external duration when it is truthy, else the media duration |
| Timeline.PercentageMapping | frontend/src/components/common/VideoPlayer.tsx:336-347 | trimmed mode maps the start to 0 and the window's end to 100 linearly and monotonically; full mode maps 0 to 0 and the duration to 100 |
| Timeline.TrimmedMapping | frontend/src/components/common/VideoPlayer.tsx:342-345 | in trimmed mode with a non-empty window the mapping is `(t - start) / (end - start) * 100` |
| Timeline.TrimmedMonotone | frontend/src/components/common/VideoPlayer.tsx:342-345 | over a positive window later times map to larger finite percentages |
| Timeline.FullMapping | frontend/src/components/common/VideoPlayer.tsx:346 | untrimmed with a non-zero duration the mapping is `t / duration * 100` |
| Timeline.PercentEnds | frontend/src/components/common/VideoPlayer.tsx:346 | 0 is 0% and the whole is 100% of a non-zero whole |
| Timeline.PercentageUnguarded | frontend/src/components/common/VideoPlayer.tsx:342-347 | with a zero divisor the percentage is an infinity or NaN: nothing guards the division |
| Timeline.Playhead | frontend/src/components/common/VideoPlayer.tsx:450-458 | the playhead is drawn iff the effective duration is positive, and when it is a number it lies in [0, 100] |
| Timeline.ProgressCapped | frontend/src/components/common/VideoPlayer.tsx:355-357 | in trimmed mode past the start the progress width is at most 100, and within the window it is the position's percentage |
| Timeline.SegmentProgress | frontend/src/components/common/VideoPlayer.tsx:466-473 | the blue bar of full mode is drawn iff untrimmed, `startTime > 0`, `endTime` truthy and the duration positive |
| Timeline.SegmentBar | frontend/src/components/common/VideoPlayer.tsx:423-431 | the green segment bar is drawn iff the timeline is not trimmed |
| Timeline.Masks | frontend/src/components/common/VideoModal.tsx:467-481 | the left mask shows iff untrimmed and `startTime > 0`; the right one iff untrimmed and `endTime` truthy |
| Timeline.MasksGeometry | frontend/src/components/common/VideoModal.tsx:467-481 | with a non-zero duration the left mask spans [0, start%) and the right mask's offset and width add up to 100 |
| Timeline.BandGeometry | frontend/src/components/common/VideoModal.tsx:429-439 | a band is at least 0.5 wide unless NaN; in trimmed mode a chapter wholly outside the window is not drawn, the others are clipped into it and highlighted iff the time is in [start, end) |
| Timeline.BandFull | frontend/src/components/common/VideoPlayer.tsx:389-421 | in full mode every chapter is drawn, seeks to its start and is highlighted iff the time is in [start, end) |
| Timeline.BandTrimmed | frontend/src/components/common/VideoPlayer.tsx:389-421 | in trimmed mode a chapter is drawn iff it meets the window, and then lies inside it |
| Vtt.FormatTime | frontend/src/components/common/VideoModal.tsx:330-336 | `formatTime`: the WebVTT `hh:mm:ss.ttt` timestamp of t, each field zero-padded; `FormatTimeParses` proves it reads back as t in whole milliseconds |
| Vtt.FormatTimeHMS | frontend/src/components/common/VideoModal.tsx:338-343 | `formatTimeHMS`: `H:MM:SS` when there are hours, else `M:SS` |
| Vtt.TimeFields | frontend/src/components/common/VideoModal.tsx:330-336 | for t >= 0, minutes and seconds are in 0-59 and milliseconds in 0-999, and h·3600 + m·60 + s + ms/1000 is t truncated to milliseconds |
| Vtt.FormatTimeParses | frontend/src/components/common/VideoModal.tsx:330-336 | for t >= 0 `formatTime` gives a WebVTT `hh:mm:ss.ttt` timestamp that parses back to t in whole milliseconds |
| Vtt.ParseFields | frontend/src/components/common/VideoModal.tsx:335 | four digit fields in the timestamp shape parse to their value |
| Vtt.PaddedField | frontend/src/components/common/VideoModal.tsx:335 | a padded field is all digits, at least the width long, and exactly that long below the width's power of ten |
| Vtt.FormatTimeHMSFields | frontend/src/components/common/VideoModal.tsx:338-343 | the display form omits zero hours (`M:SS`) and otherwise is `H:MM:SS`, minutes and seconds padded to two digits |
| Vtt.CueEnd | frontend/src/components/common/VideoModal.tsx:290-294 | a cue ends at the chapter's truthy end, else at the next chapter's start in the given order, else at the track duration |
| Vtt.CueParts | frontend/src/components/common/VideoModal.tsx:288-295 | one timing line and title per chapter, in the given order |
| Vtt.Blocks | frontend/src/components/common/VideoModal.tsx:295 | one `timing\ntitle` block per cue |
| Vtt.CueText | frontend/src/components/common/VideoModal.tsx:288-296 | the text starts with `WEBVTT` and a blank line |
| Vtt.ChapterTrack | frontend/src/components/common/VideoModal.tsx:280-299 | no track iff there are no chapters; a track starts with the `WEBVTT` header |
| Vtt.Lines | frontend/src/components/common/VideoModal.tsx:288-296 | a run of cues has three lines per cue, less the last blank line |
| Vtt.LinesAt | frontend/src/components/common/VideoModal.tsx:288-296 | line 3k is cue k's timing, line 3k+1 its title, line 3k+2 blank |
| Vtt.LinesJoin | frontend/src/components/common/VideoModal.tsx:296 | joining the cue lines with line breaks is the blocks joined by blank lines |
| Vtt.TextLines | frontend/src/components/common/VideoModal.tsx:288-296 | split at line breaks, the header-and-cues text is `WEBVTT`, a blank line, then the cue lines, when titles hold no line break |
| Vtt.CueTextLines | frontend/src/components/common/VideoModal.tsx:288-296 | read line by line, the track is `WEBVTT`, a blank line, then timing, title and blank line per cue |
| Vtt.TimingParses | frontend/src/components/common/VideoModal.tsx:289-295 | each timing line is two valid timestamps around ` --> `, denoting the chapter's start and its cue end |
| Vtt.TimingNoNewline | frontend/src/components/common/VideoModal.tsx:295 | a timing line holds no line break |
| PlayerEngine.Player.constructor | frontend/src/components/common/VideoPlayer.tsx:37-43 | first render: the duration starts as `externalDuration \|\| 0`, the current time at `startTime`, nothing loaded, no pending seek |
| PlayerEngine.Player.SetProps | frontend/src/components/common/VideoPlayer.tsx:19-35 | a re-render replaces the props |
| PlayerEngine.Player.SourceEffect | frontend/src/components/common/VideoPlayer.tsx:72-79 | a new source clears `videoLoaded` and any pending seek |
| PlayerEngine.Player.StartTimeEffect | frontend/src/components/common/VideoPlayer.tsx:82-89 | a new `startTime` becomes the current time and requests a seek |
| PlayerEngine.Player.DurationEffect | frontend/src/components/common/VideoPlayer.tsx:92-100 | a positive external duration is adopted, anything else changes nothing |
| PlayerEngine.Player.MetadataLoaded | frontend/src/components/common/VideoPlayer.tsx:116-123 | the video counts as loaded; the media duration is adopted only without a truthy external duration |
| PlayerEngine.Player.SeekEffect | frontend/src/components/common/VideoPlayer.tsx:135-154 | before the video is loaded nothing happens; after, a pending or differing time is written to the element, and to Plyr when initialised, and the request is cleared |
| PlayerEngine.Player.EndTimeEffect | frontend/src/components/common/VideoPlayer.tsx:157-163 | at or past a truthy `endTime` the time returns to `startTime` with a seek requested; otherwise nothing changes |
| PlayerEngine.Player.InitPlyr | frontend/src/components/common/VideoPlayer.tsx:168-181 | Plyr is created once the video is loaded and Plyr is not initialised |
| PlayerEngine.Player.PlyrReady | frontend/src/components/common/VideoPlayer.tsx:184-195 | Plyr counts as initialised, the chapter track is attached when there are chapters, and a seek to `startTime` is requested |
| PlayerEngine.Player.PlyrTimeUpdate | frontend/src/components/common/VideoPlayer.tsx:198-202 | Plyr's numeric position becomes the current time |
| PlayerEngine.Player.ElementTimeUpdate | frontend/src/components/common/VideoPlayer.tsx:381 | the element's position becomes the current time |
| PlayerEngine.Player.Poll | frontend/src/components/common/VideoPlayer.tsx:215-227 | once loaded, an unpaused Plyr's time wins, else an unpaused element's time, else nothing changes |
| PlayerEngine.Player.HandleSeek | frontend/src/components/common/VideoPlayer.tsx:262-266 | a chapter click only sets the current time and requests a seek, unclamped |
| PlayerEngine.Player.Unmount | frontend/src/components/common/VideoPlayer.tsx:54-67 | Plyr is destroyed and no longer initialised |
| PlayerEngine.Player.View | frontend/src/components/common/VideoPlayer.tsx:332-339 | the drawn timeline uses the effective duration, and is trimmed iff (`startTime > 0` or `endTime` given) and that duration is positive |
| PlayerEngine.Player.ClickBand | frontend/src/components/common/VideoPlayer.tsx:414 | a click on a drawn band seeks to the band's drawn start |
| PlayerEngine.DurationScenario | frontend/src/components/common/VideoPlayer.tsx:92-123 | after mount and metadata the duration is the truthy external one, else the media's, else 0 |
| PlayerEngine.SeekWaitsForLoad | frontend/src/components/common/VideoPlayer.tsx:135-154 | a chapter click before loading writes nothing; after loading it writes the target once |
| PlayerEngine.LoopBackScenario | frontend/src/components/common/VideoPlayer.tsx:157-163 | reaching a truthy `endTime` leads to exactly one write of `startTime` |
| ModalEngine.Modal.constructor | frontend/src/components/common/VideoModal.tsx:50-52 | first render: the current time starts at 0, the duration at `externalDuration \|\| 0` |
| ModalEngine.Modal.TimeUpdateHandler | frontend/src/components/common/VideoModal.tsx:139-148 | the time is recorded; at or past a defined `endTime` `startTime` is written once, to the Plyr instance passed in, else to the element |
| ModalEngine.Modal.HandleSeek | frontend/src/components/common/VideoModal.tsx:305-328 | the target goes to Plyr when present, else to the element, and the current time becomes the position read back; a throw retries on the element; a second throw changes nothing; no error escapes |
| ModalEngine.Modal.LoopBackEffect | frontend/src/components/common/VideoModal.tsx:119-124 | a truthy `endTime` reached by the current time seeks to `startTime` through `handleSeek`: to Plyr when present, else the element, or the element after a throw, and the time becomes the position read back; after two throws, and when `endTime` is not reached, nothing changes |
| ModalEngine.Modal.OpenMetadata | frontend/src/components/common/VideoModal.tsx:100-116 | metadata adopts a positive external duration, writes `startTime` to the element and makes it the current time |
| ModalEngine.Modal.PlyrMetadata | frontend/src/components/common/VideoModal.tsx:211-228 | a finite media duration is adopted only without a truthy external duration |
| ModalEngine.Modal.InitPlyr | frontend/src/components/common/VideoModal.tsx:162-177 | Plyr is created when the modal is open and not initialised |
| ModalEngine.Modal.PlyrReady | frontend/src/components/common/VideoModal.tsx:179-183 | the chapter track is attached when there are chapters |
| ModalEngine.Modal.DelayedStartSeek | frontend/src/components/common/VideoModal.tsx:193-199 | a positive `startTime` is written to Plyr and becomes the time; when a defined `endTime` is at or before it, the handler writes it to Plyr a second time; a non-positive one changes nothing |
| ModalEngine.Modal.Poll | frontend/src/components/common/VideoModal.tsx:230-236 | with Plyr present: a playing Plyr's numeric time becomes the time, and `startTime` is written back to Plyr iff a defined `endTime` is reached; else an unpaused element's time, written back to the element likewise; else nothing changes |
| ModalEngine.Modal.LoopBackWrite | frontend/src/components/common/VideoModal.tsx:141-147 | the handler writes `startTime` exactly when `endTime` is defined (even 0) and reached, and nothing otherwise |
| ModalEngine.Modal.View | frontend/src/components/common/VideoModal.tsx:127-136 | trimmed mode here tests the metadata duration, not the effective one |
| ModalEngine.Modal.Bands | frontend/src/components/common/VideoModal.tsx:351-379 | one band slot per chapter, over the same normalisation as the video player's |
| ModalEngine.ZeroEndTimeLoops | frontend/src/components/common/VideoModal.tsx:141 | an `endTime` of 0 is defined, so the handler writes `startTime` at every time update |
| ModalEngine.PollPastEndLoopsBack | frontend/src/components/common/VideoModal.tsx:230-236 | once Plyr is up, a poll finding it playing at or past a defined `endTime` writes `startTime` back to Plyr only |
| TrackFilter.Translate | video_analyzer/video_analyser/lib/player_heatmap/player_heatmap.py:24-25 | the two dictionary comprehensions: each raw id goes through `mappings.get(x, x)`, ids translated to None are dropped, and of raw ids translating to the same id the last one wins |
| TrackFilter.Stepped | video_analyzer/video_analyser/lib/player_heatmap/player_heatmap.py:22-51 | one loop iteration that does not fail: unseen ids completing the known set to four join it; a single unseen id is mapped onto any known id absent from the frame, or onto None when all known ids are present, and the frame is translated again |
| TrackFilter.Get | video_analyzer/video_analyser/lib/player_heatmap/player_heatmap.py:24 | `mappings.get(x, x)`: an id without a mapping translates to itself |
| TrackFilter.TranslateKeys | video_analyzer/video_analyser/lib/player_heatmap/player_heatmap.py:24-25 | an id is in the translated frame iff some raw id translates to it; ids mapped to None are dropped |
| TrackFilter.TranslateLast | video_analyzer/video_analyser/lib/player_heatmap/player_heatmap.py:24 | of raw ids translating to the same id, the last one's value wins |
| TrackFilter.UnknownIsUnmapped | video_analyzer/video_analyser/lib/player_heatmap/player_heatmap.py:24-27 | a translated id outside the known set is a raw id with no mapping |
| TrackFilter.AdoptKeeps | video_analyzer/video_analyser/lib/player_heatmap/player_heatmap.py:27-30 | adopting the unseen ids makes the known set exactly four ids and keeps the invariant |
| TrackFilter.MapKeeps | video_analyzer/video_analyser/lib/player_heatmap/player_heatmap.py:32-44 | mapping the one unseen id onto a known id absent from the frame, or None, keeps the invariant and the frame's ids known |
| TrackFilter.SteppedKeeps | video_analyzer/video_analyser/lib/player_heatmap/player_heatmap.py:22-51 | a step keeps the invariant, never shrinks the known set, enters each id into `mappings` once, and outputs only known ids |
| TrackFilter.LoneFirstDetectionDropped | video_analyzer/video_analyser/lib/player_heatmap/player_heatmap.py:32-44 | with nothing known, a frame with one id maps it to None and outputs only the frame number |
| TrackFilter.TwoFirstDetectionsFail | video_analyzer/video_analyser/lib/player_heatmap/player_heatmap.py:46-48 | a first frame with two distinct ids reaches the assertion failure |
| TrackFilter.Step | video_analyzer/video_analyser/lib/player_heatmap/player_heatmap.py:23-51 | one iteration fails exactly in the unhandled case and otherwise is a `Stepped` transition |
| TrackFilter.AppendRun | video_analyzer/video_analyser/lib/player_heatmap/player_heatmap.py:22-51 | a run of steps extends by one step |
| TrackFilter.FilterTracks | video_analyzer/video_analyser/lib/player_heatmap/player_heatmap.py:17-52 | one output per input in order with its frame number; known set empty or four ids; every output id known; failure at the first unhandled frame |
| VideoProcessor.CreateUploadParts | video_processor/video_processor/video_processor.py:339-375 | parts are numbered 1..n; every part but the last is at least 5 MiB; all are non-empty and under 5 MiB + 8192; the bodies concatenate to the bytes read; no bytes, no parts |
| VideoProcessor.CutWhileReading | video_processor/video_processor/video_processor.py:342-362 | reading stops at the first empty chunk; parts are cut at 5 MiB; cut parts and the buffer hold every byte read |
| VideoProcessor.CutPart | video_processor/video_processor/video_processor.py:349-362 | cutting a full buffer adds the next numbered part and keeps the bytes |
| VideoProcessor.FinishParts | video_processor/video_processor/video_processor.py:365-375 | a non-empty leftover becomes the last part, under 5 MiB |
| VideoProcessor.ReadOneMore | video_processor/video_processor/video_processor.py:343-347 | one more read extends the bytes read by that chunk |
| VideoProcessor.ProgressInfo.constructor | video_processor/video_processor/video_processor.py:30-40 | the record starts with the dataclass defaults |
| VideoProcessor.ProgressInfo.ParseProgressLine | video_processor/video_processor/video_processor.py:117-151 | the record becomes `ApplyLine`'s; when that is an error the call raises it and the record is left as it was |
| VideoProcessor.KeyValue | video_processor/video_processor/video_processor.py:128 | the line stripped of `str.isspace` whitespace, ASCII and Unicode, split at its first '=' only |
| VideoProcessor.SplitAtFirst | video_processor/video_processor/video_processor.py:128 | the parts before and after the first separator, which rejoin to the text |
| VideoProcessor.ApplyLine | video_processor/video_processor/video_processor.py:117-151 | `_parse_progress_line` as a value: a line without '=' or with a key that is no attribute leaves the record as it is; `__class__`, `__dict__` and `__weakref__` make `setattr` raise an error the handler does not catch; otherwise the named field takes the value, integers and floats only when they parse |
| VideoProcessor.ThumbnailKey | video_processor/video_processor/video_processor.py:436 | the thumbnail's key: the processed video's directory, then `thumbnail_270_150_` and the media id, then `.jpg` |
| VideoProcessor.FieldOf | video_processor/video_processor/video_processor.py:129 | `frame` names the frame field and `speed` the speed field, and no other key names either |
| VideoProcessor.NoEqualsUnchanged | video_processor/video_processor/video_processor.py:125-126 | a line without '=' changes nothing |
| VideoProcessor.UnknownKeyUnchanged | video_processor/video_processor/video_processor.py:129-150 | a key that names no field changes nothing, except the three attributes `setattr` refuses, which raise |
| VideoProcessor.RejectingKeyRaises | video_processor/video_processor/video_processor.py:129-150 | `__class__=v`, `__dict__=v` and `__weakref__=v` raise and leave the record alone |
| VideoProcessor.LeadingWhitespaceIgnored | video_processor/video_processor/video_processor.py:128 | a line led by any whitespace character, U+00A0 included, is parsed as the line without it |
| VideoProcessor.OnlyNamedField | video_processor/video_processor/video_processor.py:132-149 | every field other than the line's key keeps its value |
| VideoProcessor.KeyValueOf | video_processor/video_processor/video_processor.py:128 | a clean `key=value` line splits into that key and value |
| VideoProcessor.KeyLine | video_processor/video_processor/video_processor.py:128-149 | a clean line for a field assigns that field by its type |
| VideoProcessor.FrameLine | video_processor/video_processor/video_processor.py:143-145 | `frame=<n>` sets the frame count to n and nothing else |
| VideoProcessor.SpeedLine | video_processor/video_processor/video_processor.py:148-149 | `speed=<v>` stores v verbatim, even when v holds '=' |
| VideoProcessor.UnparsableFrameUnchanged | video_processor/video_processor/video_processor.py:143-147 | an int field whose value does not parse is left unchanged |
| VideoProcessor.CodecSettings | video_processor/video_processor/video_processor.py:77-115 | `_get_codec_settings` for H.264: the streaming settings, then the H.264 settings, then the pass's own settings |
| VideoProcessor.CodecSettingsOf | video_processor/video_processor/video_processor.py:108-115 | pass 1 adds `pass=1, f=null`; pass 2 `pass=2, format=mp4`; any other pass `crf=23, format=mp4` |
| VideoProcessor.FirstPass | video_processor/video_processor/video_processor.py:110-111 | the first pass's settings, in full |
| VideoProcessor.SecondPass | video_processor/video_processor/video_processor.py:112-113 | the second pass's settings, in full |
| VideoProcessor.SinglePass | video_processor/video_processor/video_processor.py:114-115 | the single pass's settings, in full |
| VideoProcessor.PassSettingsApart | video_processor/video_processor/video_processor.py:88-115 | no pass option overrides a streaming or H.264 option |
| VideoProcessor.StreamingSettingsKept | video_processor/video_processor/video_processor.py:88-91 | every pass keeps `acodec=none` and the streaming movflags |
| VideoProcessor.H264SettingsKept | video_processor/video_processor/video_processor.py:93-106 | every pass keeps the H.264 settings |
| VideoProcessor.GetMediaInfoFromKey | video_processor/video_processor/video_processor.py:391-393 | '/'-segments 2 and 4 parsed as (user, media) ids; an index error with too few segments, a value error for a malformed id |
| VideoProcessor.TargetKey | video_processor/video_processor/video_processor.py:415 | a leading `uploads` becomes `media`; any other key is kept |
| VideoProcessor.DirName | video_processor/video_processor/video_processor.py:436 | `os.path.dirname`: everything before the last '/', trailing slashes stripped |
| VideoProcessor.LastSlash | video_processor/video_processor/video_processor.py:436 | the index of the last '/', or -1 |
| VideoProcessor.DirNameOf | video_processor/video_processor/video_processor.py:436 | the directory of `d/name` is d |
| VideoProcessor.FrameRate | video_processor/video_processor/video_processor.py:204-212 | 30 when `r_frame_rate` is absent |
| VideoProcessor.FrameCount | video_processor/video_processor/video_processor.py:199-215 | `nb_frames` when present; otherwise a count, `int(duration * rate)` for a non-negative product |
| VideoProcessor.DefaultFrameCount | video_processor/video_processor/video_processor.py:205-215 | without `nb_frames` and rate the count is `int(duration * 30)` |
| VideoProcessor.FrameRateOf | video_processor/video_processor/video_processor.py:206-212 | a well-formed "num/den" gives num/den; a zero denominator falls back to 30 |
| VideoProcessor.SplitRate | video_processor/video_processor/video_processor.py:209 | a printed "num/den" splits into its two numbers |
| Uuids.Format | video_processor/video_processor/video_processor.py:393 | `str(u)`: 36 characters, the 32 hexadecimal digits in groups of 8-4-4-4-12 joined by hyphens |
| Uuids.Parse | video_processor/video_processor/video_processor.py:393 | `UUID(s)`: braces and hyphens are stripped, and exactly 32 hexadecimal digits give the UUID; anything else is an error |
| Uuids.FormatShape | video_processor/video_processor/video_processor.py:393 | `str(u)` is 36 characters, hyphens at 8, 13, 18 and 23, hexadecimal digits elsewhere |
| Uuids.FormatDigits | video_processor/video_processor/video_processor.py:393 | removing the hyphens of `str(u)` leaves its 32 digits |
| Uuids.FormatParse | video_processor/video_processor/video_processor.py:393 | `UUID(str(u)) == u` |
| Uuids.HexValue | video_processor/video_processor/video_processor.py:393 | a hexadecimal digit's value lies in 0..15 |
| FileUpload.SplitExt | api_service/ballskicker_api/api/routes/file_upload.py:38-39 | `os.path.splitext`: base and extension rejoin to the name; the extension is empty or a '.' followed by no '.' or '/' |
| FileUpload.LastIndexOf | api_service/ballskicker_api/api/routes/file_upload.py:38-39 | the last index of a character, or -1 |
| FileUpload.Sanitise | api_service/ballskicker_api/api/routes/file_upload.py:40 | only ASCII alphanumerics, '-' and '_' remain, lowercased |
| FileUpload.SanitiseAppend | api_service/ballskicker_api/api/routes/file_upload.py:40 | sanitising works character by character, keeping their order |
| FileUpload.SanitiseFixed | api_service/ballskicker_api/api/routes/file_upload.py:40 | a name made only of sanitised characters is left as it is |
| FileUpload.SanitiseIdempotent | api_service/ballskicker_api/api/routes/file_upload.py:40 | sanitising twice is sanitising once |
| FileUpload.ObjectName | api_service/ballskicker_api/api/routes/file_upload.py:38-50 | the object name holds no '/', so it stays the key's last segment |
| FileUpload.UploadKey | api_service/ballskicker_api/api/routes/file_upload.py:50 | the object key `uploads/users/<user>/videos/<media>/<name><ext>` with leading '/' stripped; its segments are stated by `UploadKeySegments` |
| FileUpload.UploadKeySegments | api_service/ballskicker_api/api/routes/file_upload.py:50 | the key splits on '/' into `uploads`, `users`, the user id, `videos`, the media id and the object name |
| FileUpload.KeySegments | api_service/ballskicker_api/api/routes/file_upload.py:50 | the same split for any segment texts free of '/' |
| FileUpload.RouteUploadFile | api_service/ballskicker_api/api/routes/file_upload.py:42-50 | the new record has the fresh media id, the requester as user, the raw file name as title and file name, state UPLOADING, the given upload time and no clips; the key's segments 2 and 4 are the two ids |
| UploadPipeline.MediaInfoFromUploadKey | video_processor/video_processor/video_processor.py:391-393 | the processor reads back the user and media ids the upload key was built from |
| UploadPipeline.RouteThenProcess | api_service/ballskicker_api/api/routes/file_upload.py:42-50 | the ids read from the key the route returns are the requester's and the new record's |
| UploadPipeline.TargetOfUploadKey | video_processor/video_processor/video_processor.py:415 | the processed video has the same path under `media/` |
| UploadPipeline.ThumbnailOfUploadKey | video_processor/video_processor/video_processor.py:436 | the thumbnail sits in the processed video's directory, named after the media id |
| UploadPipeline.UploadKeyText | api_service/ballskicker_api/api/routes/file_upload.py:50 | the key text is the six parts joined by '/' |
| UploadPipeline.TargetOf | video_processor/video_processor/video_processor.py:415 | the target of an upload-shaped key |
| UploadPipeline.ThumbnailDirOf | video_processor/video_processor/video_processor.py:436 | the directory of the target key |
| UploadPipeline.MediaInfoOfSegments | video_processor/video_processor/video_processor.py:391-393 | a key with those segments yields the two ids |
| UploadPipeline.MediaInfoOfParts | video_processor/video_processor/video_processor.py:391-393 | the same for a key built from the formatted ids |
| Json.Convert | video_analyzer/video_analyser/video_metadata_manager.py:68-75 | no float remains; a float becomes the decimal of its text; dict keys and list lengths are kept; other values are unchanged |
| Json.ConvertElements | video_analyzer/video_analyser/video_metadata_manager.py:71-74 | lists and dicts are converted element by element, in order |
| Json.ConvertFixed | video_analyzer/video_analyser/video_metadata_manager.py:68-75 | a float-free document is left unchanged |
| Json.ConvertIdempotent | video_analyzer/video_analyser/video_metadata_manager.py:68-75 | converting twice is converting once |
| AnalyserMetadata.DumpPlayer | video_analyzer/video_analyser/video_metadata_manager.py:15-29 | a dumped player is a dict holding floats (its three shares) |
| AnalyserMetadata.DumpMedia | video_analyzer/video_analyser/video_metadata_manager.py:52-65 | a dumped record has every field's key, and its clips entry is the dumped clips |
| AnalyserMetadata.MediaFloats | video_analyzer/video_analyser/video_metadata_manager.py:52-65 | of a record's fields only the clips can hold a float |
| AnalyserMetadata.ClipFloats | video_analyzer/video_analyser/video_metadata_manager.py:32-40 | a dumped clip holds a float iff it has a player |
| AnalyserMetadata.DumpFloats | video_analyzer/video_analyser/video_metadata_manager.py:148-149 | a record's dump holds a float iff one of its clips has a player |
| AnalyserMetadata.WithClips | video_analyzer/video_analyser/video_metadata_manager.py:144-146 | state COMPLETE, new update time and clips; every other field unchanged |
| AnalyserMetadata.AfterProcessing | video_analyzer/video_analyser/video_metadata_manager.py:115-118 | state PROCESSED, new update time and both keys; every other field, the clips included, unchanged |
| AnalyserMetadata.UpdateVideoStatus | video_analyzer/video_analyser/video_metadata_manager.py:78-124 | a missing id fails and writes nothing; otherwise the record is dumped without conversion, and is written back under its id when the dump holds no float, while a dump holding a float is refused by `put_item` and nothing is written |
| AnalyserMetadata.StatusDumpFloats | video_analyzer/video_analyser/video_metadata_manager.py:115-122 | the status update's dump holds a float, and so is refused, exactly when the stored record has a clip with a player |
| AnalyserMetadata.UpdateClips | video_analyzer/video_analyser/video_metadata_manager.py:127-151 | a missing id fails and writes nothing; otherwise the record gets the clips and the item written is float-free |
| AnalyserMetadata.StoredClips | video_analyzer/video_analyser/video_metadata_manager.py:146-151 | the written item has every field and one converted element per clip, in order |
| ProcessorMetadata.AfterProcessing | video_processor/video_processor/video_metadata_manager.py:61-69 | state PROCESSED, new update time, both keys, frame count and duration; identity and error kept; clips lost |
| ProcessorMetadata.AfterProcessingTwice | video_processor/video_processor/video_metadata_manager.py:61-69 | processing twice with the same results is processing once |
| ProcessorMetadata.UpdateVideoStatus | video_processor/video_processor/video_metadata_manager.py:33-75 | a missing id fails before any write; otherwise the updated record is written back under its own id |
| Media.Table.constructor | video_processor/video_processor/video_metadata_manager.py:48-49 | the `users-media` table holds the given records, each under its own media id |
| FieldGeometry.Padded | video_analyzer/video_analyser/lib/player_heatmap/find_homography.py:31 | padding adds 20 to both coordinates of every point |
| FieldGeometry.ExpectedPointsOnCourt | video_analyzer/video_analyser/lib/player_heatmap/find_homography.py:8-32 | thirteen distinct landmarks, all within [20, 270] x [20, 520] |
| FieldGeometry.ProcessingDimensions | video_analyzer/video_analyser/lib/player_heatmap/find_homography.py:35-50 | `_get_processing_dimensions`: a video wider than 16:9 gets width 1280 and height `int(1280 / aspect)`, any other width `int(720 * aspect)` and height 720; a zero height raises |
| FieldGeometry.ProcessingDimensionsFit | video_analyzer/video_analyser/lib/player_heatmap/find_homography.py:35-50 | the processing size fits 1280x720 with one side equal to its target |
| FieldGeometry.WideTarget | video_analyzer/video_analyser/lib/player_heatmap/find_homography.py:43-45 | a wider video gets width 1280 and height `int(1280 / aspect)` |
| FieldGeometry.TallTarget | video_analyzer/video_analyser/lib/player_heatmap/find_homography.py:46-48 | otherwise height 720 and width `int(720 * aspect)` |
| FieldGeometry.FindPoints | video_analyzer/video_analyser/lib/player_heatmap/find_homography.py:53-55 | one absolute point and one mask flag per relative point |
| FieldGeometry.MaskIsDetected | video_analyzer/video_analyser/lib/player_heatmap/find_homography.py:54 | on an image of non-zero size a flag is set iff the scaled point is off both axes |
| FieldGeometry.SelectPairs | video_analyzer/video_analyser/lib/player_heatmap/find_homography.py:61-62 | masking two lists alike keeps their entries paired index by index |
| FieldGeometry.SelectedFromMask | video_analyzer/video_analyser/lib/player_heatmap/find_homography.py:61-62 | a selected entry comes from a flagged position |
| FieldGeometry.HomographyInputs | video_analyzer/video_analyser/lib/player_heatmap/find_homography.py:58-64 | the two point lists handed to `findHomography`: the detected absolute points and the landmarks, both masked by the detection flags; a detector result of other than thirteen points raises |
| FieldGeometry.HomographyInputsPaired | video_analyzer/video_analyser/lib/player_heatmap/find_homography.py:58-64 | source and destination lists have the same length, and pair each detected point with its expected field point |
| VideoAnalyser.MembersAre | video_analyzer/video_analyser/video_analyser.py:61 | a cluster's members are exactly its labelled rows, in order |
| VideoAnalyser.ExtremesAre | video_analyzer/video_analyser/video_analyser.py:63-66 | the column extremes are attained and bound every row |
| VideoAnalyser.Ceil | video_analyzer/video_analyser/video_analyser.py:79-80 | `math.ceil`: the least integer at or above x |
| VideoAnalyser.RallyIs | video_analyzer/video_analyser/video_analyser.py:63-82 | a rally's frames are its cluster's first and last; its end time is at or after every detection; its count is the cluster's size |
| VideoAnalyser.ValidClusters | video_analyzer/video_analyser/video_analyser.py:56-57 | exactly the clusters with at least `min_detections` rows |
| VideoAnalyser.CandidatesAre | video_analyzer/video_analyser/video_analyser.py:59-85 | the loop appends the rally of each valid cluster spanning at least 3 s, and no other |
| VideoAnalyser.RenumberedKeeps | video_analyzer/video_analyser/video_analyser.py:88-89 | renumbering changes only the ids |
| VideoAnalyser.RenumberedSortIs | video_analyzer/video_analyser/video_analyser.py:87-89 | sorting and renumbering give a start-frame-sorted permutation numbered 1..n |
| VideoAnalyser.Rallies | video_analyzer/video_analyser/video_analyser.py:44-91 | `detect_rallies_clustering` from the labelled table on: [] below `min_detections` rows, else a rally per qualifying cluster, sorted by first frame and numbered from 1 |
| VideoAnalyser.RalliesAre | video_analyzer/video_analyser/video_analyser.py:44-91 | fewer rows than `min_detections` give []; the rallies are sorted by start frame, numbered 1..n, each from a qualifying cluster, and every qualifying cluster yields one |
| VideoAnalyser.DetectRalliesClustering | video_analyzer/video_analyser/video_analyser.py:44-91 | the method computes `Rallies` |
| VideoAnalyser.CollectRallies | video_analyzer/video_analyser/video_analyser.py:59-85 | the loop computes `Candidates` |
| VideoAnalyser.RenumberRallies | video_analyzer/video_analyser/video_analyser.py:88-89 | the in-place loop computes `Renumbered` |
| VideoAnalyser.FullClip | video_analyzer/video_analyser/video_analyser.py:200-210 | id 0, frames 0 to the total, lasting the video's whole seconds; none when the frame rate is 0 |
| VideoAnalyser.ClipIdsArePositions | video_analyzer/video_analyser/video_analyser.py:255 | after the full clip, every clip's id is its position |
| VideoAnalyser.ZoneOf | video_analyzer/video_analyser/video_analyser.py:264-272 | volley iff the distance from row 25, over 25, is below 0.4 (15 < y < 35); defence iff it is above 0.7 (y < 7.5 or y > 42.5); else transition |
| VideoAnalyser.ZonesAddUp | video_analyzer/video_analyser/video_analyser.py:263-272 | the three accumulators sum to the total |
| VideoAnalyser.ZoneValueBounds | video_analyzer/video_analyser/video_analyser.py:263-272 | with non-negative intensities each zone value lies between 0 and the total |
| VideoAnalyser.Shares | video_analyzer/video_analyser/video_analyser.py:257-281 | `_build_zone_stats`: each zone's summed count over the total count, or three zeros for a zero total |
| VideoAnalyser.SharesSumToOne | video_analyzer/video_analyser/video_analyser.py:277-281 | a non-zero total splits into shares summing to 1 |
| VideoAnalyser.SharesBounded | video_analyzer/video_analyser/video_analyser.py:274-281 | each share is in [0, 1]; a zero total gives zero shares |
| VideoAnalyser.BuildZoneStats | video_analyzer/video_analyser/video_analyser.py:257-281 | the accumulation loop computes `Shares` |
| VideoAnalyser.BinOf | video_analyzer/video_analyser/video_analyser.py:289 | `(clip(x // 10, 0, 25), clip(y // 10, 0, 50))`, inside the court grid |
| VideoAnalyser.TallyCounts | video_analyzer/video_analyser/video_analyser.py:288-290 | one entry per distinct cell with its positive count, and the counts sum to the number of positions |
| VideoAnalyser.PositionsAre | video_analyzer/video_analyser/video_analyser.py:286 | the positions are the player's, in frames from start to end frame inclusive, skipping missing ones |
| VideoAnalyser.PlayerIn | video_analyzer/video_analyser/video_analyser.py:287-296 | the player written into a rally: its id, the tally of its binned positions within the rally's frames, and that tally's zone shares |
| VideoAnalyser.PlayerInIs | video_analyzer/video_analyser/video_analyser.py:287-296 | a player's heatmap counts its binned positions in the rally, all in the grid, with shares in [0, 1] summing to 1 when seen |
| VideoAnalyser.PopulatePlayers | video_analyzer/video_analyser/video_analyser.py:283-296 | every rally gets its players; none when there are no tracks |
| VideoAnalyser.WritePlayers | video_analyzer/video_analyser/video_analyser.py:287-296 | one player per track column is written into the rally's players |
| VideoAnalyser.FitThumbnail | video_analyzer/video_analyser/video_analyser.py:145-160 | the resized frame's size and offsets on the 270x150 canvas: a wider frame fills the width, any other the height, and the picture is centred |
| VideoAnalyser.ThumbnailFits | video_analyzer/video_analyser/video_analyser.py:145-160 | one side fills 270x150, the other is the scaled side rounded down, and the placed picture lies inside the canvas |
| VideoAnalyser.WideFits | video_analyzer/video_analyser/video_analyser.py:145-147 | the wider case |
| VideoAnalyser.TallFits | video_analyzer/video_analyser/video_analyser.py:148-150 | the taller case |
| Dashboard.DefaultNamesText | frontend/src/pages/DashboardPage.tsx:221-226 | the names start as "Player 1" to "Player 4" |
| Dashboard.NameIn | frontend/src/pages/DashboardPage.tsx:282-286 | the name the merge leaves in a slot: that slot's last entry's name, else the slot's default |
| Dashboard.MergedNames | frontend/src/pages/DashboardPage.tsx:277-288 | the four names after merging the entries into fresh defaults, slot by slot |
| Dashboard.NameInDefault | frontend/src/pages/DashboardPage.tsx:279-286 | a slot without an entry keeps its default name |
| Dashboard.NameInLast | frontend/src/pages/DashboardPage.tsx:282-286 | a slot takes the name of its last entry |
| Dashboard.OutOfRangeIgnored | frontend/src/pages/DashboardPage.tsx:283 | an entry outside slots 0-3 changes nothing |
| Dashboard.Renamed | frontend/src/pages/DashboardPage.tsx:303-306 | `handlePlayerNameChange`'s copy: slot `index` gets the new name, or its default name when the new one is empty |
| Dashboard.RenamedIs | frontend/src/pages/DashboardPage.tsx:303-306 | a rename changes one slot, never leaves it empty, and keeps the rest |
| Dashboard.ChaptersOf | frontend/src/pages/DashboardPage.tsx:423-427 | the chapters shown for a recording: one per clip, from its start to its end, titled "Rally {id}" |
| Dashboard.ChaptersOfClips | frontend/src/pages/DashboardPage.tsx:423-427 | one chapter per clip in clip order, spanning the clip, titled "Rally {id}"; distinct ids give distinct titles |
| Dashboard.FirstClip | frontend/src/pages/DashboardPage.tsx:354 | the first clip, or none for a video without clips |
| Dashboard.PropsFor | frontend/src/pages/DashboardPage.tsx:623-630 | the `VideoPlayer` props for the selection: none without a recording or for id 0; with a clip its length, start and end (the recording's duration for a zero end) and chapters only when the clip does not start after 0; without one the recording's duration, start 0 and the chapters |
| Dashboard.ClipWindow | frontend/src/pages/DashboardPage.tsx:623-630 | with a clip the player is trimmed to exactly the clip, which is drawn from 0% to 100%; there are chapters iff the clip starts at 0 and the video has clips |
| Dashboard.WholeVideoWindow | frontend/src/pages/DashboardPage.tsx:623-630 | without a clip and with a positive duration the player is trimmed to the whole video, maps times as the untrimmed timeline would, and shows every clip as a chapter |
| Dashboard.Page.constructor | frontend/src/pages/DashboardPage.tsx:193-226 | nothing loaded or selected; four default names |
| Dashboard.Page.ReceiveRecordings | frontend/src/pages/DashboardPage.tsx:230-235 | the recordings become the answer's items |
| Dashboard.Page.ReceivePlayerNames | frontend/src/pages/DashboardPage.tsx:249-288 | an array is merged into four fresh default names; a 404 resets the names to the four defaults (the save's reply that follows is not an array); any other value changes nothing |
| Dashboard.Page.ChangePlayerName | frontend/src/pages/DashboardPage.tsx:303-306 | the names become `Renamed` |
| Dashboard.Page.SelectSlide | frontend/src/pages/DashboardPage.tsx:350-355 | the slide's recording and its first clip become the selection |
| Dashboard.Page.SelectVideo | frontend/src/pages/DashboardPage.tsx:465 | a picked recording becomes the selection |
| Dashboard.Page.SelectClip | frontend/src/pages/DashboardPage.tsx:574 | a picked clip becomes the selection |
| VideoUpload.Validate | frontend/src/components/common/VideoUpload.tsx:82-91 | the invalid-type error iff the type is not allowed; the too-large error, quoting the limit in MiB, iff allowed and over the limit; accepted otherwise |
| VideoUpload.SizeLimitInclusive | frontend/src/components/common/VideoUpload.tsx:88-91 | a file of exactly `maxSize` is accepted, one byte more refused; the default limit is 512 MiB |
| VideoUpload.Uploader.constructor | frontend/src/components/common/VideoUpload.tsx:20-27 | the limit defaults to 512 MiB; no error, no upload, no preview |
| VideoUpload.Uploader.SelectFile | frontend/src/components/common/VideoUpload.tsx:78-99 | no file changes nothing; a refused file only sets the error; an accepted one gets a preview, clears the error and starts the upload at progress 0; the run's closure keeps the preview URL it saw before its own |
| VideoUpload.Uploader.UploadSettled | frontend/src/components/common/VideoUpload.tsx:101-122 | a non-empty key is reported; anything else sets the retry error and revokes the preview URL that run's closure saw when it started, if any; either way the upload ends at progress 0 |
| VideoUpload.OverlappingDrops | frontend/src/components/common/VideoUpload.tsx:115-133 | a second drop starts a run while the first is in flight; the first failing then revokes nothing and leaves the second preview |
| HeatmapView.ZoneOf | frontend/src/components/visualization/Heatmap.tsx:29-40 | the card's zone rule on the distance of y from the net: under 0.4 volley, over 0.7 defence, else transition |
| HeatmapView.ZoneRuleMatchesAnalyser | frontend/src/components/visualization/Heatmap.tsx:29-40 | the card's zone rule is the analyser's |
| HeatmapView.ZonesAddUp | frontend/src/components/visualization/Heatmap.tsx:32-39 | the three zone values sum to the total |
| HeatmapView.Accumulate | frontend/src/components/visualization/Heatmap.tsx:23-40 | the accumulation computes the total and each zone's value |
| HeatmapView.Percentages | frontend/src/components/visualization/Heatmap.tsx:44-46 | the pie slices: each zone's value over the total value, times 100 |
| HeatmapView.PercentagesSumTo100 | frontend/src/components/visualization/Heatmap.tsx:44-46 | with a non-zero total the slices are finite and sum to 100 |
| HeatmapView.NoPointsNaN | frontend/src/components/visualization/Heatmap.tsx:44-46 | without points every slice is NaN |
| HeatmapView.ValuesMatchAnalyser | frontend/src/components/visualization/Heatmap.tsx:29-40 | on an analyser heatmap the card's values are the analyser's |
| HeatmapView.PercentagesMatchShares | frontend/src/components/visualization/Heatmap.tsx:44-46 | on an analyser heatmap the slices are 100 times the analyser's shares |
| HeatmapView.CanvasPoint | frontend/src/components/visualization/Heatmap.tsx:88-89 | a cell drawn on the canvas: x scaled from 25 to the width, y from 50 to the height, intensity kept |
| HeatmapView.CanvasCoversCourt | frontend/src/components/visualization/Heatmap.tsx:88-89 | cells of [0, 25] x [0, 50] land on the canvas, the corners on its corners, monotonically |
| HeatmapView.HeatmapOnCanvas | frontend/src/components/visualization/Heatmap.tsx:83-94 | every cell of an analyser heatmap lands on the canvas |
| Testimonials.Next | frontend/src/components/landing/Testimonials.tsx:25-27 | the next arrow: `(prev + 1) % length` with JavaScript's `%` |
| Testimonials.Prev | frontend/src/components/landing/Testimonials.tsx:29-33 | the previous arrow: `(prev - 1 + length) % length` with JavaScript's `%` |
| Testimonials.StepsStayInRange | frontend/src/components/landing/Testimonials.tsx:25-33 | from a valid index both arrows reach a valid one: the next, or the first after the last; the previous, or the last before the first |
| Testimonials.PrevUndoesNext | frontend/src/components/landing/Testimonials.tsx:25-33 | the arrows undo each other |
| Testimonials.NextTimesIs | frontend/src/components/landing/Testimonials.tsx:25-27 | k presses of next give `(i + k) mod n` |
| Testimonials.NextOfRemainder | frontend/src/components/landing/Testimonials.tsx:26 | one press adds one modulo the count |
| Testimonials.FullTurn | frontend/src/components/landing/Testimonials.tsx:25-27 | n presses of next come back to the start |
| Testimonials.JsRem | frontend/src/components/landing/Testimonials.tsx:31 | JavaScript's `%` keeps the dividend's sign |
| Testimonials.Carousel.constructor | frontend/src/components/landing/Testimonials.tsx:23 | the first testimonial is shown first |
| Testimonials.Carousel.NextClicked | frontend/src/components/landing/Testimonials.tsx:25-27 | the index becomes `Next` and stays valid |
| Testimonials.Carousel.PrevClicked | frontend/src/components/landing/Testimonials.tsx:29-33 | the index becomes `Prev` and stays valid |
| Testimonials.Carousel.DotClicked | frontend/src/components/landing/Testimonials.tsx:95 | a dot selects its testimonial |

## Left out

- Plyr, the DOM, media events, Blob and object URLs, and `setTimeout`/`setInterval` timing are abstract events: their values are method parameters. React's batching and effect order are not modelled; each effect is a method the caller fires after a render.
- The chapter-track blob URL is never revoked by the code; the model records the track text only.
- PlayerEngine.Player.SeekEffect: the `try`/`catch` around the writes is not modelled; a write that throws is not a case of this model.
- The YOLO/RTDETR inference, the OC-SORT tracker, `cv2.findHomography`, the field detector and scipy's `linkage`/`fcluster` are foreign calls. The cluster labelling is a given partition of the rows.
- ffmpeg subprocesses, pipes, progress threads, the `process_video` orchestration and thumbnail creation are left out; the encoder's output is a sequence of chunks.
- The SQS loops, the message-visibility threads, the API's auth, the repositories, the OpenAI insights and the presentational pages are outside this model.
- The `fetch` calls of the dashboard and the upload form are left out; their answers are method parameters. The save request of a renamed player is not modelled.
- Floating point is not modelled: times and shares are exact reals, so IEEE rounding in `%`, `float()` and division is absent. NaN appears only where a division by zero makes it (`JsNumber`).
- VideoProcessor.ProgressInfo.ParseProgressLine: float fields take the value of a parser passed in, so Python's `float()` syntax is not modelled.
- VideoProcessor.ApplyLine: the instance attribute that a key naming some other attribute (a method, `__doc__`) leaves on the record is not modelled, as no field and no later line reads it.
- FileUpload.Sanitise: `isalnum` and `lower` are modelled on ASCII only; Unicode letters and digits are dropped instead of kept.
- Uuids.Parse: the `urn:uuid:` prefix and other spellings `UUID()` accepts are not modelled.
- Text.ParseInt: underscores between digits and non-ASCII digits, both of which `int()` accepts, are not modelled; surrounding whitespace, ASCII and Unicode, is stripped.
- VideoProcessor.FrameCount: the ffprobe JSON lookup and `float(duration)` are left out; the duration is given as a real.
- VideoAnalyser.DetectRalliesClustering: the DataFrame sorting by timestamp before the clustering only changes the row order, which the model takes as given.
- VideoAnalyser.PopulatePlayers: pandas' `value_counts` orders cells by count; the model orders them by first occurrence, so `heatmap`'s order differs while its contents agree.
- VideoAnalyser.FullClip: `cap.get` values are taken as integers; OpenCV's capture is not modelled.
- The VideoModal's `createChapterTrack`, `formatTime`, `formatTimeHMS` and `processChapters` are the same code as the VideoPlayer's, so the same `Vtt` and `Chapters` functions model both.

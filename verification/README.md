# Background music remover: a Dafny model

The application is a small desktop tool. The user picks a video, an output
file and a list of time ranges (`HH:MM:SS` to `HH:MM:SS`). A worker thread
then extracts the soundtrack with ffmpeg and cuts each range out of it. Spleeter
separates the vocals of that cut, and the vocals are spliced back over the range,
which drops the background music there. Finally ffmpeg puts the new soundtrack
under the video. The model covers the two core files:

- `main.py`, the window (`AudioProcessorUI`) and its range rows (`TimeRangeFrame`):
  - how a row parses and checks its two times against the probed duration;
  - how rows are added, deleted and given a new duration;
  - the order of the checks `start_processing` makes before it starts the worker;
  - which rows' error labels it rewrites;
  - which worker messages give the controls back.
- `processing.py`, the worker (`AudioProcessor`):
  - its `processing` flag and the temporary directory;
  - `_process_video`, stated as a function of its environment: the messages
    it sends, the segments it cuts for separation, the audio it exports and
    the flag it leaves.

Modules, in dependency order:

- `PyBuiltins` (py_builtins.dfy): the Python built-ins the code relies on:
  `None`, exceptions as `Err(message)`, `str.split(':')`, `int()` on digit
  strings, `str()`, the `02d` format and `list.remove`.
- `TimeText` (time_text.dfy): `parse_time`, `validate_time`,
  `_time_to_seconds` and the duration text of `get_video_duration`,
  including the `timedelta` overflow.
- `AudioSplice` (audio_splice.dfy): pydub's millisecond slicing with
  clamped bounds, and the splice `a[:s] + vocals + a[e:]`.
- `RangeEntry` (range_entry.dfy): `TimeRangeFrame` as a class, and the checks
  of `get_times` as the function `CheckRange`.
- `Pipeline` (pipeline.dfy): the messages, the `Environment` that stands for
  everything outside the program, `RunSpec` (what a run does) and the class
  `AudioProcessor`. Its methods are proved to emit exactly what `RunSpec` says.
- `PipelineProperties` (pipeline_properties.dfy): what every run guarantees:
  - progress starts at 0, never goes down and stays within 0..100;
  - a run sends at most one completion and at most one error;
  - a failure other than a non-zero ffmpeg exit ends with one error and then
    "Processing failed"; a cancelled run ends "Processing was cancelled" and
    sends no error; a non-zero ffmpeg exit ends with its error, and an
    undecodable ffmpeg stderr leaves neither message;
  - Cancel stops the loop;
  - each segment is its own range of the extracted audio;
  - the exported audio keeps every millisecond no range covers.
- `MainWindow` (main_window.dfy): the class `AudioProcessorUI` and the
  submission checks as the function `CheckSubmission`.

Two behaviours of the code fall short of what a caller of the worker would
expect, and the model states what the code does:

- A run does not always end with exactly one completion message. The handler
  for `CalledProcessError` (processing.py:221-226) sends only an error. When
  ffmpeg's stderr is not valid UTF-8, decoding it inside that handler raises,
  and the run sends neither an error nor a completion (`RunEnds`).
- The temporary directory is not always gone after a run. `_cleanup_temp_dir`
  (processing.py:90-97) only logs a failed removal, so the directory then stays
  (`CleanupTempDir`, `ProcessVideo`).

Some consequences of the code as written:

- A worker run whose ffmpeg call exits non-zero sends an error and no completion
  message (`RunEnds`). Only a completion gives the controls back (`EnabledAfterCompletes`),
  so after such a run the Process button stays disabled.
- While the duration is still the placeholder `"00:00:00"`, every range of unsigned
  times is refused (`ZeroDurationRejectsAll`, `DefaultDurationBlocksStart`). A signed
  time such as "0:0:-1" could pass, because `int()` accepts a sign (see the line on
  `int()` under "Left out").
- `validate_time` is defined but no entry uses it. Its pattern and `parse_time`
  disagree on the empty text, on partial texts and on durations of 100 hours and
  more (`EmptyValidatesButFails`, `PartialValidatesButFails`, `LongHoursParses`,
  `LongHoursFailsCheck`, `FormattedDurationValidates`).

## Model

| member | source | states |
|---|---|---|
| PyBuiltins.Split | main.py:117 | `str.split(':')`, with at least one piece; its meaning is stated by `SplitParts` and `SplitJoin` |
| PyBuiltins.Value | main.py:119 | `int()` on a string of ASCII digits; stated by `DecimalValue` (the inverse of `str()`) and `LeadingZero` |
| PyBuiltins.Decimal | processing.py:146 | `str(n)` of a natural number; stated by `DecimalValue` |
| PyBuiltins.DecimalValue | processing.py:146 | `str(n)` is a numeral that reads back as `n`; it has one digit exactly when `n < 10` and no leading zero |
| PyBuiltins.Pad2 | processing.py:56 | the `02d` text of `n` is a numeral reading back as `n`, at least two digits long and exactly two when `n < 100`; from 10 on it is `str(n)` itself, with no padding |
| PyBuiltins.LeadingZero | main.py:119 | `int()` ignores a leading zero: "0"+s reads as s does |
| PyBuiltins.SplitParts | main.py:117 | no piece of `split(':')` holds a colon, and joining the pieces with ':' gives the text back |
| PyBuiltins.SplitJoin | main.py:117 | splitting undoes joining colon-free pieces |
| PyBuiltins.IndexOf | main.py:314 | the position found holds the element, and no earlier position does |
| PyBuiltins.RemoveFirst | main.py:314 | `list.remove` drops the first occurrence of `x` and keeps the order of the rest: one element shorter, and the multiset loses `x` once |
| TimeText.Timedelta | main.py:120 | `timedelta(hours=h, minutes=m, seconds=s).total_seconds()`, or the OverflowError past 999999999 days; its effect on both parsers is stated by `ParseTimeAccepts` and `ParsersAgree` |
| TimeText.ParseTime | main.py:115-123 | `parse_time`; its contract is `ParseTimeOutcome` and `ParseTimeAccepts` |
| TimeText.TimeToSeconds | processing.py:241-248 | `_time_to_seconds`; its contract is `ParsersAgree` (the same acceptance and seconds as `ParseTime`) |
| TimeText.ValidateTime | main.py:88-92 | `validate_time`; its contract is `ValidateTimeShape` |
| TimeText.ParseTimeAccepts | main.py:115-123 | three numerals joined by ':' parse to 3600h+60m+s exactly when that stays below the timedelta limit, and raise the one fixed message otherwise |
| TimeText.ParseTimeOutcome | main.py:115-123 | `parse_time` accepts exactly the texts of three numerals below the limit, returns their seconds, and raises "Invalid time format (Use HH:MM:SS)" for everything else |
| TimeText.ParseTimePadded | main.py:117-120 | "01:02:03" parses to 3723 |
| TimeText.ParseTimeUnpadded | main.py:117-120 | "1:2:3" also parses to 3723: no padding is required |
| TimeText.ParseTimeNoRangeCheck | main.py:119-120 | minutes and seconds are not range-checked: "00:99:99" is 6039 |
| TimeText.LeadingZeroParsesAlike | main.py:117-120 | a leading zero on any field changes neither `parse_time`'s nor `_time_to_seconds`'s outcome |
| TimeText.ParseTimeRejectsNoColon | main.py:118-123 | an example: "abc", with no colon, raises the fixed message (the general rule is `ParseTimeOutcome`) |
| TimeText.ParseTimeRejectsTwoParts | main.py:118-123 | an example: "1:2", two parts, raises the fixed message (the general rule is `ParseTimeOutcome`) |
| TimeText.ParseTimeRejectsFourParts | main.py:118-123 | an example: "1:2:3:4", four parts, raises the fixed message (the general rule is `ParseTimeOutcome`) |
| TimeText.ParseTimeRejectsEmptyPart | main.py:119-123 | an example: the empty part of "1::3" fails `int()` and raises the fixed message (the general rule is `ParseTimeOutcome`) |
| TimeText.ParsersAgree | processing.py:241-248 | `_time_to_seconds` accepts exactly what `parse_time` accepts, with the same seconds; a text of the wrong shape raises a message naming it |
| TimeText.FormatDuration | processing.py:53-56 | the duration text splits into hours (two digits or more, with no leading zero once longer than two), minutes and seconds (two digits, below 60) that add back to the duration |
| TimeText.FormatParseRoundTrip | processing.py:53-56 | formatting a duration and parsing it back with either parser gives the duration |
| TimeText.PatternMatchesSplit | main.py:91-92 | the regular expression body matches exactly the texts of at most groups+1 colon-separated pieces of at most two digits each |
| TimeText.ValidateTimeShape | main.py:88-92 | `validate_time` accepts exactly the texts of at most three colon-separated pieces of at most two digits, optionally followed by one newline (the `$` of `re`) |
| TimeText.ParsedShortTextValidates | main.py:88-123 | every text `parse_time` accepts whose pieces have at most two digits passes `validate_time` |
| TimeText.EmptyValidatesButFails | main.py:88-123 | the empty text passes `validate_time` but does not parse |
| TimeText.PartialValidatesButFails | main.py:88-123 | "12:3" passes `validate_time` but does not parse |
| TimeText.LongHoursParses | main.py:115-123 | "100:00:00" parses: the hours are unbounded |
| TimeText.LongHoursFailsCheck | main.py:88-92 | "100:00:00" fails `validate_time` |
| TimeText.FormattedDurationValidates | processing.py:53-56 | a probed duration's text passes `validate_time` exactly when the duration is below 100 hours |
| TimeText.PaddedLength | processing.py:56 | the `02d` text has at most two digits exactly when the number is below 100 |
| AudioSplice.Clamp | processing.py:158 | a slice bound is `min(bound, length)`: kept inside the audio, cut down to the length past it |
| AudioSplice.Slice | processing.py:158 | `audio[a:b]` is the plain subsequence for bounds inside the audio, the rest of the audio from `a` when `b` runs past the end, and empty from the end on or for a reversed span |
| AudioSplice.Before | processing.py:168 | `audio[:s]` is the prefix of the clamped length |
| AudioSplice.After | processing.py:168 | `audio[e:]` is the suffix after the clamped bound |
| AudioSplice.Splice | processing.py:168 | the splice keeps the audio before the clamped start and after the clamped end, and holds exactly the vocals in between |
| AudioSplice.SpliceInPlace | processing.py:168 | a span inside the audio replaced by as many units keeps the length, and holds the vocals exactly in that span |
| AudioSplice.SpliceKeepsOutside | processing.py:168 | every unit outside such a span keeps its value |
| AudioSplice.SpliceBeyondEnd | processing.py:168 | a span starting at or past the end appends the vocals |
| AudioSplice.SpliceClamped | processing.py:158-168 | vocals as long as the clamped cut keep the length, and every unit outside the span, even when the span runs past the end |
| RangeEntry.CheckRange | main.py:94-112 | the checks of `get_times`; its contract is `CheckRangeOutcome` |
| RangeEntry.CheckRangeOutcome | main.py:94-112 | a range is accepted exactly when both times parse, the end is after the start and, under a truthy duration, the duration parses and the end does not pass it; the result is the two original texts; a refusal carries the message of its cause: "Invalid time format (Use HH:MM:SS)" when the start, the end or the duration does not parse, the order message when the end is not after the start, "Time range exceeds video duration" when the end passes the duration |
| RangeEntry.OrderCheckedFirst | main.py:96-105 | an end not after the start is refused for that reason whatever the duration |
| RangeEntry.EndAtDurationAccepted | main.py:102-108 | a range may end exactly at the duration |
| RangeEntry.NoDurationOnlyOrder | main.py:102 | without a truthy duration only the order is checked |
| RangeEntry.ZeroTimeParses | main.py:50 | the initial text "00:00:00" parses to 0 |
| RangeEntry.ZeroDurationRejectsAll | main.py:102-105 | under the duration "00:00:00" every range of unsigned times is refused (a signed time is outside the model; see the line on `int()` under "Left out") |
| RangeEntry.TimeRangeFrame.constructor | main.py:14-86 | a new row holds "00:00:00" in both entries, an empty error label, its label index and the duration it was given |
| RangeEntry.TimeRangeFrame.GetTimes | main.py:94-112 | `get_times` returns the accepted pair and clears the label, or returns `None` and shows the refusal's message |
| RangeEntry.TimeRangeFrame.Destroy | main.py:315 | a destroyed row no longer exists |
| Pipeline.Portion | processing.py:150 | the progress share `k*90/n` lies within 0..90 for `k <= n` |
| Pipeline.ToolFailure | processing.py:221-236 | what the handlers send for an ffmpeg call that does not exit 0; stated by `ToolFailureViews` |
| Pipeline.RangeStep | processing.py:144-173 | one pass of the loop body; stated by `StepProgress`, `StepInputs`, `StepKeepsAt` and implemented by `AudioProcessor.ProcessRange` |
| Pipeline.LoopFrom | processing.py:140-173 | the loop over the ranges; stated by `LoopProgress`, `LoopInputs`, `LoopCancel`, `LoopFlag`, `LoopKeepsOutside` and implemented by `AudioProcessor.RunRanges` |
| Pipeline.PassFrom | processing.py:143-173 | the loop from a range whose flag check passed: that range's pass, then `LoopFrom` on the next range unless the pass raised; stated with `LoopFrom` by the same lemmas |
| Pipeline.AfterLoop | processing.py:175-236 | the export, the mux and the handlers after the loop; stated by `AfterLoopViews`, `AfterLoopEnds` and `AfterLoopProgress` |
| Pipeline.RunSpec | processing.py:99-238 | a whole run; stated by `RunProgress`, `RunEnds`, `RunFailureEnds`, `RunCancelled`, `RunInputs`, `RunKeepsOutside`, `RunSucceeds` and implemented by `AudioProcessor.ProcessVideo` |
| Pipeline.AudioProcessor.constructor | processing.py:15-19 | a new processor is not processing and has no temporary directory |
| Pipeline.AudioProcessor.StartProcessing | processing.py:68-77 | the flag is raised and the job recorded for the worker |
| Pipeline.AudioProcessor.CancelProcessing | processing.py:79-82 | the flag is lowered |
| Pipeline.AudioProcessor.CreateTempDir | processing.py:84-88 | a directory that did not exist is created |
| Pipeline.AudioProcessor.CleanupTempDir | processing.py:90-97 | the cleanup runs on the directory; it is removed unless removal fails, which is only logged |
| Pipeline.AudioProcessor.ProcessRange | processing.py:144-173 | one pass of the loop emits, cuts for separation and splices what `RangeStep` says |
| Pipeline.AudioProcessor.LoopTurn | processing.py:140-173 | one turn of the loop, flag check included, agrees with `LoopFrom`: it either ends the loop as `LoopFrom` does or lets the rest of `LoopFrom` go on |
| Pipeline.AudioProcessor.RunRanges | processing.py:139-173 | the loop over the ranges emits the messages of `LoopFrom`, separates its segments, and ends and leaves the flag as it says |
| Pipeline.AudioProcessor.RunJob | processing.py:102-236 | the `try` block and its handlers emit the messages of `RunSpec`, separate its segments, export its audio and leave its flag |
| Pipeline.AudioProcessor.ProcessVideo | processing.py:99-238 | `_process_video` does what `RunSpec` says, and runs the cleanup exactly once on the one directory it created, whatever the outcome |
| PipelineProperties.PortionRises | processing.py:150-172 | the progress share grows with the number of ranges done |
| PipelineProperties.StepQuiet | processing.py:144-173 | a pass of the loop sends only status and progress messages |
| PipelineProperties.LoopQuiet | processing.py:140-173 | the whole loop sends only status and progress messages |
| PipelineProperties.StepProgress | processing.py:148-173 | a pass reports the share before it, then, if it completes, the share including it |
| PipelineProperties.LoopProgress | processing.py:140-173 | from range k on, the loop's progress never goes down and stays between the share of k ranges and 90 |
| PipelineProperties.LoopStartRises | processing.py:140-173 | the whole loop's progress rises within 0..90 |
| PipelineProperties.StepInputs | processing.py:154-163 | a pass cuts at most one segment for separation, its own range's cut, and a pass that goes on has cut it |
| PipelineProperties.LoopInputs | processing.py:140-163 | the segments separated from range k on are those ranges' cuts of the extracted audio, in order |
| PipelineProperties.LoopCancel | processing.py:140-142 | a Cancel before range idx's check keeps that range and later ones from separation, and the loop from finishing |
| PipelineProperties.LoopFlag | processing.py:140-142 | the loop only lowers the flag, keeps it up without a Cancel before a flag check, and lowers it exactly when it ends cancelled |
| PipelineProperties.LoopLowersFlag | processing.py:140-142 | the flag the loop leaves is never raised; it is down when the loop ended on a Cancel, and, when a range was still to do, only then |
| PipelineProperties.LoopKeepsFlag | processing.py:140-142 | with no Cancel pressed, a raised flag stays raised through the whole loop |
| PipelineProperties.StepKeepsLength | processing.py:158-168 | a pass over a forward range, with separation keeping lengths, keeps the audio's length |
| PipelineProperties.LoopKeepsLength | processing.py:140-168 | so does the whole loop |
| PipelineProperties.StepKeepsAt | processing.py:158-168 | a pass keeps every millisecond its range does not cover |
| PipelineProperties.LoopKeepsAt | processing.py:140-168 | the loop keeps a millisecond that no later range covers |
| PipelineProperties.LoopKeepsOutside | processing.py:140-168 | a finished loop keeps the length and every millisecond no range covers |
| PipelineProperties.LoopCompletes | processing.py:140-173 | with no Cancel, times that convert and separation that succeeds, the loop finishes and separates every range |
| PipelineProperties.CompletionTextsDiffer | processing.py:206-236 | the success, failure and cancellation texts are distinct |
| PipelineProperties.ToolFailureViews | processing.py:221-236 | a failed ffmpeg call reports no progress; one error unless the handler raised on an undecodable stderr; a completion "Processing failed" only when ffmpeg never started |
| PipelineProperties.AfterLoopProgress | processing.py:175-236 | after the loop, progress 100 is reported once exactly on success, and no other progress |
| PipelineProperties.AfterLoopViews | processing.py:175-236 | after the loop: one error on each failure except an undecodable mux stderr; a completion unless muxing exits non-zero; the last message tells success, cancellation and mux failure apart |
| PipelineProperties.MuxStageViews | processing.py:175-236 | the same once every range is done: the export and mux steps and their handlers |
| PipelineProperties.RunViews | processing.py:99-236 | a run past loading counts the loop's and the handlers' completions and errors, and ends with the handlers' last message |
| PipelineProperties.RunProgressViews | processing.py:106-236 | a run past loading reports 0, the loop's progress, then the handlers' |
| PipelineProperties.EarlyExitProgress | processing.py:106-236 | a run that fails extracting or loading reports only progress 0 and exports nothing |
| PipelineProperties.LoopCaseProgress | processing.py:135-236 | progress of a run past loading starts at 0, rises within 0..100 and ends at 100 on success |
| PipelineProperties.RunProgress | processing.py:99-238 | every run's progress starts at 0, never goes down, stays within 0..100, and ends at 100 when the run succeeds |
| PipelineProperties.LoopCaseEnds | processing.py:135-236 | a run past loading sends at most one completion and one error; the completion is missing exactly when muxing exits non-zero (the run then ends with the error) or its handler raises (the run then sends neither) |
| PipelineProperties.RunEnds | processing.py:99-238 | every run sends at most one completion and one error; an ffmpeg call that exits non-zero leaves only the error, last; an undecodable ffmpeg stderr leaves neither; every other run ends with its completion (which one is `RunFailureEnds`) |
| PipelineProperties.RunFailureEnds | processing.py:211-236 | a run that fails other than by a non-zero ffmpeg exit (ffmpeg not starting, loading, a time that does not convert, separation, export) sends exactly one error and one completion and ends with "Error during processing: " + the reason, then "Processing failed"; a cancelled run sends no error and ends "Processing cancelled", "Processing was cancelled" |
| PipelineProperties.EarlyFailureEnds | processing.py:106-236 | the same for a run that fails extracting (ffmpeg not starting) or loading |
| PipelineProperties.LoopCaseFailureEnds | processing.py:135-236 | the same for a run that reaches the loop: a failed range, a failed export, a mux ffmpeg that did not start, a Cancel |
| PipelineProperties.AfterLoopEnds | processing.py:175-236 | after the loop, the last two messages are the generic handler's for a failed range, export or unstarted mux, and the cancel handler's for a cancelled loop |
| PipelineProperties.RunCancelled | processing.py:140-220 | a run only lowers the flag; started with it raised on a non-empty list, and with Cancel arriving only before a flag check, it ends lowered exactly when the run ends "Processing was cancelled" |
| PipelineProperties.LoweredFlagRunsNothing | processing.py:140-142 | a run whose flag is already down separates and exports nothing |
| PipelineProperties.CancelStopsRun | processing.py:140-142 | a Cancel before range idx's check keeps that range and the later ones from separation, and nothing is exported |
| PipelineProperties.RunInputs | processing.py:135-163 | every segment cut for separation (exported, then separated unless the export raised) is its range's cut of the extracted soundtrack, in the order of the ranges |
| PipelineProperties.RunKeepsOutside | processing.py:135-182 | with separation keeping lengths and forward ranges, the exported audio is as long as the extracted one and equal to it wherever no range lies |
| PipelineProperties.RunSucceeds | processing.py:99-209 | with no Cancel, convertible times and every outside step succeeding, a run separates every range and ends with the success text |
| MainWindow.CollectUpTo | main.py:392-399 | the loop of `start_processing` over the first n rows; stated by `CollectUpToAccepts` and `CollectUpToRefusal` |
| MainWindow.Collect | main.py:392-399 | that loop over all rows; stated by `CollectOutcome` and implemented by `AudioProcessorUI.ReadRows` |
| MainWindow.CheckSubmission | main.py:383-402 | the checks of `start_processing` in order; stated by `SubmissionOutcome` and `PathsCheckedFirst`, implemented by `AudioProcessorUI.Validate` |
| MainWindow.EnabledAfter | main.py:360-381 | whether the controls are enabled after the window handles a list of messages; stated by `EnabledAfterCompletes` |
| MainWindow.CollectOutcome | main.py:392-399 | the rows are accepted exactly when every living row is; one pair per living row, its own texts; a refusal names the first refused living row |
| MainWindow.CollectUpToAccepts | main.py:392-399 | the same for the first n rows |
| MainWindow.CollectUpToRefusal | main.py:392-398 | a refusal of the first n rows names the first refused living row |
| MainWindow.CollectAllLiving | main.py:392-399 | when the rows all exist, an accepted collection has one pair per row |
| MainWindow.LivingRows | main.py:395 | the rows looked at are exactly those that still exist |
| MainWindow.PathsCheckedFirst | main.py:386-390 | without a video nothing else is checked; without an output the rows are not looked at |
| MainWindow.SubmissionOutcome | main.py:383-402 | a submission is accepted exactly when both paths are set, every living row is accepted and one row lives; the job then has one pair per living row |
| MainWindow.NoRangesNeverShown | main.py:401-402 | with all rows existing and at least one of them, "No valid time ranges specified" is never shown |
| MainWindow.DefaultDurationBlocksStart | main.py:383-399 | with both paths set and the placeholder duration, Process is refused at the first row |
| MainWindow.ProbedRowAccepted | main.py:350-355 | after a probe of d seconds, a row is accepted exactly when its start parses below d |
| MainWindow.EnabledAfterCompletes | main.py:360-381 | the controls come back exactly when a completion message arrives |
| MainWindow.AudioProcessorUI.constructor | main.py:125-139 | the window opens with no paths, the placeholder duration, one row, enabled controls and an idle processor |
| MainWindow.AudioProcessorUI.AddRange | main.py:302-310 | a fresh row labelled with the list's length and the current duration is appended |
| MainWindow.AudioProcessorUI.DeleteRange | main.py:312-315 | a row is removed and destroyed unless it is the only one; the list keeps no repeats |
| MainWindow.AudioProcessorUI.UpdateDuration | main.py:350-355 | the window and every row take the new duration, and every row's end shows it |
| MainWindow.AudioProcessorUI.ReadRows | main.py:392-399 | the loop over the rows yields `Collect` of them, and exactly the rows it reaches show their `get_times` label |
| MainWindow.AudioProcessorUI.ReadStep | main.py:394-399 | one row of that loop advances the collection and the labels by that row |
| MainWindow.AudioProcessorUI.Validate | main.py:383-402 | the checks give `CheckSubmission` of the rows as they stood; labels change only when both paths are set |
| MainWindow.AudioProcessorUI.StartProcessing | main.py:383-414 | an accepted submission disables the controls, enables Cancel and starts the worker with the pairs; a refused one shows its message under "Validation Error" and changes nothing else |
| MainWindow.AudioProcessorUI.Launch | main.py:404-411 | Process is disabled, Cancel enabled, and the worker started with the job |
| MainWindow.AudioProcessorUI.ShowError | main.py:413-414 | one more message box, with the given title and text |
| MainWindow.AudioProcessorUI.CancelProcessing | main.py:418-421 | the worker's flag is lowered, Cancel is disabled and the status reads "Cancelling..." |

## Left out

- Widgets: layout, fonts and colours, the header and footer, the progress bar and status
  label as drawn, and the `__main__` block are not modelled.
- browse_video and browse_output are not modelled. They only store the chosen path in
  the window and start the duration probe. The model takes both paths as the window's
  state.
- get_video_duration: `ffmpeg.probe` and its float arithmetic are left out, and so is
  its error message. Only the text written for a whole number of seconds is modelled
  (`FormatDuration`). The source truncates each field with `int()`, so this equals the
  text of the duration rounded down.
- check_queue: the queue and the 100 ms polling with `after` are left out. The window's
  handling of a run is modelled only as `EnabledAfter` over the list of messages, which
  says when the controls come back. Message boxes for errors and completions are not
  recorded. Neither is the window's own `processing` attribute, which nothing reads.
- start_processing's handler for exceptions other than ValueError is not modelled.
  Inside that `try`, only starting the thread could raise, and the model's
  `AudioProcessor.StartProcessing` cannot fail.
- Concurrency: the worker runs as a separate call, `ProcessVideo`. A Cancel pressed
  while it runs is given as the set of ranges before whose flag check it arrives
  (`Environment.cancelBefore`). Interleavings other than at the flag check are not
  modelled. RunCancelled and LoopFlag hold only for such a Cancel: in the source a
  Cancel pressed after the last flag check (main.py:418-421, processing.py:79-82)
  lowers the flag while the run still ends "Processing complete!".
- ffmpeg, Spleeter and pydub file input and output are parameters of the `Environment`:
  - how each ffmpeg call exits;
  - the loaded soundtrack, or the reason loading or initialising Spleeter failed;
  - what separating each segment returns;
  - whether the final export fails;
  - whether removing the temporary directory fails.

  The intermediate file names are not modelled.
- Audio is a sequence of one-millisecond units. pydub's frames, sample rate and
  channels, and its rounding of frame counts, are left out. Every bound is a whole
  number of milliseconds, because the times are whole seconds.
- Floating point: `total_seconds()` and the progress values are floats in the source
  and exact numbers here.
  - The seconds are whole numbers, so the float is exact below 2^53.
  - The progress value `(idx - 1) * 90 / total_ranges` (processing.py:150) is the
    correctly rounded float of `Portion`, which is exact. For most inputs, such as
    90/7, they differ.
  - `RunProgress` still holds of the floats: rounding is monotone, and 0, 90 and
    100 are exact floats.
- AudioProcessor.CreateTempDir: a failure of `mkdir` or `mkdtemp` is not modelled. It
  happens before the `try` and would end the thread without any message.
- setup_logging, get_app_data_path, get_ffmpeg_path and every logging call are left
  out. They send nothing to the window.
- ParseTime and TimeToSeconds accept only components made of ASCII digits. Python's
  `int()` also accepts a sign, surrounding whitespace, underscores between digits and
  other Unicode digits. So the source accepts texts such as "-1:00:00" or " 1:2:3",
  and the model refuses them. In the other direction, `int()` raises ValueError on a
  numeral of more than 4300 digits. The model reads any numeral, so a field padded
  past 4300 digits with leading zeros is refused by the source and accepted here.
- PipelineProperties.RunKeepsOutside and PipelineProperties.LoopKeepsOutside assume
  two things the source does not guarantee:
  - separation returns as much audio as it is given (`KeepsLength`);
  - the ranges run forward (`Forward`).

  Without them the splice may shift later audio, and nothing is claimed.

# Video trimmer: the trim-session controller

A Dafny model of the controller in `src/App.tsx`, a browser video trimmer.
The user drops a video, chooses a start and an end in one of two ways: a
two-thumb range slider in percent of the duration, or two text boxes that
show and accept times as `M:SS.mmm`. The user can preview the selection
in a loop, then export it. The export runs the transcoding engine with a
stream-copy trim command and shows progress in a dialog. Progress moves
through fixed milestones, and log lines from the engine move it within
the 20–80 % band.

The model has six modules:

- `Wrappers`: the `Option` type that stands for an absent or refused value.
- `TimeText`: the time-text codec (`formatTime` / `parseTime`) on whole
  milliseconds. Its main result is the round trip `Parse(Format(t)) == Some(t)`.
- `LogProgress`: the log-line progress parser. It finds the leftmost
  `time=HH:MM:SS.ss` marker and maps it into the 20–80 band, clamped at 80.
- `Range`: the selection. It covers percent ↔ time conversion, the edit a
  typed time makes (`handleTimeInputChange`) and the preview clamp
  (`handleTimeUpdate`).
- `ExportCommand`: the eleven-argument trim command, and what an engine
  that reads options by flag takes from it.
- `App`: the component as a class `Trimmer`. It has the player state, the
  export state and a trace of every progress value written, with one
  method per event handler.
  - An export (`trimVideo`) is asynchronous, so it is split at its three
    engine calls: `ClickTrim`, `WriteDone`, `ExecDone`, `ReadDone`.
  - Each engine call's outcome is a success/failure argument.
  - Runs still in flight are kept in a map, because `cancelProcessing`
    re-enables the Trim button without stopping the run.
  - Three whole sessions are proved end to end: preview, export and
    cancelled export.

The 20–80 band of the log progress holds only for a selection of positive
length. The time boxes can set an end before the start
(`Range.EditMayInvertRange`). A run started then keeps a negative selection
length, hands the engine a negative `-t`, and any log line announcing
a positive elapsed time sets the progress below 20, even below 0
(`LogProgress.InvertedSelectionLeavesBand`). The model keeps this behaviour
as the code has it. `ExportCommand.OptionValue` is not code of the
trimmer: it describes how the engine reads an option from the command, so
that the command's meaning can be stated.

Where the model deliberately departs from the code, it says so below. The
main departures are:

- the typed time is read with a strict digit reader in place of `parseInt`;
- IEEE NaN results are not representable.

## Model

| member | source | states |
|---|---|---|
| TimeText.NatToString | src/App.tsx:15-17 | rendering a natural number gives a non-empty run of digits with no leading zero (except for 0 itself), at most two digits below 100 and at most three below 1000 |
| TimeText.NatToStringValue | src/App.tsx:15-17 | the rendering of `n` reads back as `n` |
| TimeText.PaddedNumber | src/App.tsx:15-17 | a number below 10^width, zero-padded at the front to width 2 or 3, is exactly `width` digits and keeps its value |
| TimeText.LeadingZerosValue | src/App.tsx:15-17 | leading zeros (`padStart`) do not change the value of a run of digits |
| TimeText.TrailingZerosValue | src/App.tsx:24 | trailing zeros (`padEnd`) multiply the value of a run of digits by a power of ten |
| TimeText.ZerosValue | src/App.tsx:22-24 | a run of zeros is digits of value 0 |
| TimeText.Split | src/App.tsx:21-22 | `split` always yields at least one piece |
| TimeText.JoinSplit | src/App.tsx:21-22 | joining the pieces of a split with the separator gives back the text: the split loses nothing |
| TimeText.SplitWithoutSeparator | src/App.tsx:21-22 | text without the separator splits into itself alone |
| TimeText.SplitAtFirst | src/App.tsx:21-22 | the first separator ends the first piece; the remaining pieces are the split of the remainder |
| TimeText.PadStart | src/App.tsx:15-17 | `padStart`: zeros in front up to the width; `TimeText.PaddedNumber` and `TimeText.LeadingZerosValue` state what it keeps |
| TimeText.PadEnd | src/App.tsx:24 | `padEnd`: zeros behind up to the width; `TimeText.TrailingZerosValue` and `TimeText.PaddedFraction` state what it does to the value |
| TimeText.ParseDigits | src/App.tsx:24 | the strict stand-in for `parseInt`: a value exactly for a non-empty run of digits |
| TimeText.Format | src/App.tsx:11-18 | `formatTime` of t / 1000 seconds: minutes, seconds padded to two digits, milliseconds padded to three; `TimeText.FormatFields` and `TimeText.RoundTrip` state its properties |
| TimeText.Parse | src/App.tsx:20-26 | `parseTime` in milliseconds: split at `:`, refused without one, otherwise `TimeText.ParseClock` of the first two pieces; `TimeText.RoundTrip` makes it the inverse of `TimeText.Format` |
| TimeText.ParseClock | src/App.tsx:22-24 | the seconds piece split at `.`, the fraction defaulting to "0" and right-padded to three digits |
| TimeText.Total | src/App.tsx:23-25 | minutes * 60 + seconds + milliseconds / 1000, in milliseconds; any unreadable field makes the sum unreadable |
| TimeText.ClockArithmetic | src/App.tsx:12-14 | minutes, seconds within the minute and milliseconds within the second recompose the time exactly |
| TimeText.FormatFields | src/App.tsx:11-18 | the three rendered fields hold no `:` or `.` and read back as t / 60000, t / 1000 mod 60 and t mod 1000 |
| TimeText.ParseClockText | src/App.tsx:20-26 | text of the shape minutes `:` seconds `.` fraction reads as minutes * 60000 + seconds * 1000 + padded fraction |
| TimeText.RoundTrip | src/App.tsx:11-26 | reading a rendered time gives back exactly the same milliseconds |
| TimeText.RoundTripWithinOneMillisecond | src/App.tsx:11-26 | a real position, rendered (floored to the millisecond) and read back, changes by less than 1 ms and never grows |
| TimeText.NoColonFails | src/App.tsx:20-22 | text without `:` is refused, the case in which `parseTime` throws |
| TimeText.PaddedFraction | src/App.tsx:22-24 | a fraction of one to three digits, right-padded to three, counts tenths, hundredths or thousandths of a second |
| TimeText.ShortFraction | src/App.tsx:20-26 | with a fraction of one to three digits the text reads as minutes, seconds and the fraction as decimals of a second |
| TimeText.EmptyFraction | src/App.tsx:22-24 | a `.` with nothing after it counts 0 ms |
| TimeText.ParseNoFractionText | src/App.tsx:20-26 | text minutes `:` seconds without a `.` reads as minutes * 60000 + seconds * 1000 |
| TimeText.MissingFraction | src/App.tsx:22 | without a fraction the milliseconds default to "0", so 0 ms |
| TimeText.ShortFractionExample | src/App.tsx:20-26 | "1:05.5" reads as 65 500 ms |
| TimeText.MissingFractionExample | src/App.tsx:20-26 | "2:03" reads as 123 000 ms |
| TimeText.NoColonExample | src/App.tsx:20-22 | "105" is refused |
| LogProgress.MatchAt | src/App.tsx:162 | the pattern `time=(\d{2}):(\d{2}):(\d{2}\.\d{2})` matches at a position |
| LogProgress.CentisecondsAt | src/App.tsx:164-168 | hours * 3600 + minutes * 60 + seconds of a match, in centiseconds |
| LogProgress.TwoDigits | src/App.tsx:164-168 | a two-digit field of the marker is below 100 |
| LogProgress.FindMarker | src/App.tsx:162 | the match found is a match of the pattern and no earlier position matches; no result means no position from there on matches |
| LogProgress.ElapsedCentiseconds | src/App.tsx:162-168 | a line has an elapsed time exactly when the pattern matches somewhere in it, and the time is that of the leftmost match |
| LogProgress.ProgressAt | src/App.tsx:170-174 | the progress is never above 80; over a selection of positive length it is at least 20, exactly elapsed / total * 60 + 20 below the end of the selection and 80 from there on; on a zero-length selection it is 80 for a positive elapsed time and nothing (NaN) at 0; on a negative length it is elapsed / total * 60 + 20, at most 20 and below 20 for a positive elapsed time |
| LogProgress.LogUpdate | src/App.tsx:162-175 | the value one log line sets: `ProgressAt` of the leftmost marker's time, nothing for a line without a marker |
| LogProgress.ProgressAfterLines | src/App.tsx:160-177 | the progress after the listener has handled a run of lines in order |
| LogProgress.UnmatchedLineIgnored | src/App.tsx:162-163 | a line without the marker leaves the progress alone |
| LogProgress.ProgressMonotone | src/App.tsx:170-174 | over a selection of positive length, a later elapsed time never gives a lower progress |
| LogProgress.LinesNeverExceed80 | src/App.tsx:160-177 | starting at most 80, any run of log lines leaves the progress at most 80 |
| LogProgress.LinesStayAbove20 | src/App.tsx:160-177 | over a selection of positive length, starting at least 20, any run of log lines leaves the progress at least 20 |
| LogProgress.LinesNeverFallBelow | src/App.tsx:160-177 | over a selection of positive length, once the progress stands at the value for an elapsed time `c`, lines whose markers all announce at least `c` never bring it lower |
| LogProgress.InvertedSelectionLeavesBand | src/App.tsx:170-175 | on a selection of negative length a line announcing a positive elapsed time sets the progress below 20 |
| LogProgress.InvertedProgressExample | src/App.tsx:170-174 | on a selection of -3 s, 1.5 s elapsed gives -10 |
| LogProgress.UnmatchedLineTransparent | src/App.tsx:160-177 | dropping an unmatched line anywhere in a run of lines does not change the resulting progress |
| LogProgress.ProgressExamples | src/App.tsx:170-174 | on a 10 s selection 5 s elapsed gives 50 and 12 s gives the clamp 80 |
| LogProgress.LineExample | src/App.tsx:162-174 | "time=00:01:05.25" announces 6 525 cs and on a 10 s selection sets 80 |
| LogProgress.HalfwayLineExample | src/App.tsx:162-174 | "time=00:00:01.50" on a 3 s selection sets 50 |
| Range.StartTime | src/App.tsx:150 | the absolute start time, `trimValues[0] / 100 * duration` (also lines 57, 227, 375) |
| Range.EndTime | src/App.tsx:151 | the absolute end time, `trimValues[1] / 100 * duration` (also line 58) |
| Range.AcceptedSeconds | src/App.tsx:76-77 | the typed time in seconds when it parses and lies within 0 and the duration; `Range.Accepted` and `Range.EditRejected` state both sides (refused at a duration of 0, where the source stores NaN) |
| Range.PreviewJump | src/App.tsx:56-63 | while previewing, a position before the start or after the end jumps to the start; `Range.ClampKeepsCursorInSelection` states what that achieves |
| Range.CursorAfterUpdate | src/App.tsx:56-63 | the position after an update: the jump target if there is one, otherwise the reported position |
| Range.ShareOfDuration | src/App.tsx:77-78 | a time within the duration is a share between 0 and 100 % |
| Range.ShareInverse | src/App.tsx:57-58 | a share computed from a time converts back to that time |
| Range.BoundWithinDuration | src/App.tsx:57-58 | a bound within 0–100 % stands for a time within the duration |
| Range.EditBound | src/App.tsx:74-86 | an edit keeps two bounds and never changes the bound that was not edited |
| Range.Accepted | src/App.tsx:76-77 | text that reads as a time within the duration is accepted as that time in seconds |
| Range.EditAccepted | src/App.tsx:74-86 | an accepted time replaces exactly the edited bound, with its share of the duration, which lies within 0–100 % |
| Range.EditRejected | src/App.tsx:74-86 | unreadable text, or a time past the duration, leaves both bounds unchanged |
| Range.EditWithShownTime | src/App.tsx:74-86 | typing back a rendered time within the video sets the bound to that time's share |
| Range.EditKeepsPercentRange | src/App.tsx:74-86 | any edit keeps both bounds within 0–100 % |
| Range.EditMayInvertRange | src/App.tsx:74-86 | an end time typed before the start is accepted and the selection then ends before it starts: the edit does not enforce start ≤ end |
| Range.ClampKeepsCursorInSelection | src/App.tsx:56-63 | while previewing a well-ordered selection the cursor is inside the selection after every update, and stays where it was exactly when it was already inside |
| Range.JumpTargetIsStable | src/App.tsx:56-63 | on a selection whose start is not after its end, the position jumped to causes no further jump |
| Range.InvertedSelectionAlwaysJumps | src/App.tsx:56-63 | with the start after the end every update while previewing jumps to the start |
| Range.NoJumpWhenNotPreviewing | src/App.tsx:56 | outside preview mode the position is never changed |
| Range.PreviewExample | src/App.tsx:56-63 | selection 2–5 s of 10 s: 1 s and 6 s jump to 2 s, 3 s does not |
| ExportCommand.TrimCommand | src/App.tsx:179-191 | the command has eleven arguments |
| ExportCommand.SeekInputLength | src/App.tsx:179-185 | the command seeks to the start, reads `input.mp4` and takes end − start seconds |
| ExportCommand.CopyProgressOutput | src/App.tsx:186-190 | the command copies the streams, reports progress to `pipe:1` and ends with `output.mp4` |
| ExportCommand.CommandMeaning | src/App.tsx:179-191 | every option of the command carries its intended value and the output file is last |
| ExportCommand.CommandDeterminesWindow | src/App.tsx:179-191 | equal commands have equal start and end times |
| ExportCommand.CommandExample | src/App.tsx:149-191 | the selection 10–20 % of 30 s is cut from 3 s for 3 s |
| App.Started | src/App.tsx:140-152 | a run's start raises the processing, loading and dialog flags, sets progress to 0, keeps end − start for the log listener, and registers the run under a fresh number |
| App.Finished | src/App.tsx:215-222 | a run's end lowers the three flags, sets progress to 0 and forgets that run, leaving the other runs unchanged |
| App.Trimmer.constructor | src/App.tsx:29-45 | the initial state: no video, selection 0–100, engine not loaded, no progress written |
| App.Trimmer.EngineLoaded | src/App.tsx:96-99 | the engine's load sets `ffmpegLoaded` and nothing else |
| App.Trimmer.LoadVideo | src/App.tsx:105-117 | dropping a video file attaches a fresh element at position 0; other files change nothing |
| App.Trimmer.OnLoadedMetadata | src/App.tsx:68-72 | the duration becomes the element's duration |
| App.Trimmer.Clear | src/App.tsx:395-404 | Clear stops the preview, detaches the video and resets the selection to 0–100 |
| App.Trimmer.OnTimeInput | src/App.tsx:74-86 | a typed time applies `Range.EditBound` to the selection and changes nothing else |
| App.Trimmer.OnSliderChange | src/App.tsx:372-378 | the slider sets the selection, and outside preview mode moves the cursor to the new start |
| App.Trimmer.OnTimeUpdate | src/App.tsx:51-66 | a time update records the position and returns and applies the preview jump, if any |
| App.Trimmer.StartPreview | src/App.tsx:225-232 | preview moves the cursor to the start of the selection, plays, and enters preview mode |
| App.Trimmer.StopPreview | src/App.tsx:234-239 | stopping pauses and leaves preview mode; stopping a stopped player changes nothing |
| App.Trimmer.OnEnded | src/App.tsx:322 | at the end of the video the element pauses, and in preview mode the preview restarts from the start |
| App.Trimmer.TrimButtonEnabled | src/App.tsx:410 | the Trim button is enabled when not loading and the engine is loaded |
| App.Trimmer.ClickTrim | src/App.tsx:136-152 | the Trim button starts a run exactly when it is enabled and a video is attached, over the selection's absolute times, writing progress 0 |
| App.Trimmer.Finish | src/App.tsx:215-222 | the `finally` block and its delayed reset end the run and write progress 0 |
| App.Trimmer.WriteDone | src/App.tsx:155-194 | after the input is written progress goes to 20, the log listener is on, and the command handed to the engine is the trim command of that run; a failed write ends the run |
| App.Trimmer.OnLog | src/App.tsx:160-177 | once the listener is registered, a log line with a marker sets the progress to its `LogProgress.LogUpdate` value; anything else changes nothing |
| App.Trimmer.ExecDone | src/App.tsx:194-196 | a successful execution sets progress 80; a failed one ends the run |
| App.Trimmer.ReadDone | src/App.tsx:199-222 | a successful read writes 90, hands out one download, writes 100 and ends the run; a failed one ends the run with no download |
| App.Trimmer.Cancel | src/App.tsx:129-134 | cancelling closes the dialog, lowers the loading and processing flags and writes progress 0, but leaves the runs in flight untouched |
| App.PreviewSession | src/App.tsx:51-66 | in a whole preview session over 2–5 s of a 10 s video the preview starts at 2 s and only positions outside the selection jump back to 2 s |
| App.ExportSession | src/App.tsx:136-223 | a whole successful export writes the progress values 0, 20, the log value 50, 80, 90, 100, 0, hands the engine the command for 3 s to 6 s and downloads once |
| App.CancelledSession | src/App.tsx:129-223 | after a cancel the Trim button is enabled again while the cancelled run still goes on to write 20, 80, 90, 100, 0 and download its file |

## Left out

These parts of the core are not modelled, or are modelled differently:

- TimeText.ParseDigits / TimeText.Parse: `parseInt` is lenient. It skips leading blanks, takes a sign, and stops at the first non-digit (`"1x"` reads as 1). The typed text has to be fully digits here, so lenient inputs are refused rather than read as a prefix. Text with `:` and well-formed digit fields reads the same in both.
- TimeText.Format: the source computes with binary floating point on seconds. `Math.floor((seconds % 1) * 1000)` can come out one millisecond low for values such as 1.001 s. The model renders a whole number of milliseconds exactly. `TimeText.RoundTripWithinOneMillisecond` covers the floor from a real position.
- TimeText.NatToString: `Number.prototype.toString` is modelled only for natural numbers, which is all `formatTime` gives it for non-negative times. Negative times and exponent notation (for huge numbers) are not modelled.
- Range.AcceptedSeconds / Range.EditBound: at a duration of 0, a typed time of 0 passes the source's range test and stores `0 / 0`, which is NaN. The model has no NaN, so it refuses that edit and leaves the selection unchanged.
- LogProgress.ProgressAt: on a zero-length selection at elapsed time 0, the source sets the progress to NaN (`0 / 0`). The model writes nothing (`None`). For a positive elapsed time on a zero-length selection, the quotient is +Infinity, clamped to 80, which is modelled exactly.
- ExportCommand.TrimCommand: the start and the length are passed to the engine through `Number.prototype.toString`. The model keeps them as exact numbers (`Seconds`); the decimal text is not modelled.
- App.Trimmer.ClickTrim: `trimVideo` reads the duration from the video element (line 149). The other handlers use the `duration` state. The model holds one duration, set by `OnLoadedMetadata`, so both read the same value once the metadata has arrived.
- App.Finished: the `finally` block lowers `isProcessing` at once, and lowers `loading` and the dialog and zeroes the progress after a 1000 ms timer. The model does all of it in one step. The interleavings in which a timer from an earlier run resets the flags of a later run are not modelled.
- App.Trimmer.OnLog: every run of `trimVideo` registers one more log listener on the engine, and the listeners are never removed. All of them compute the same value from the shared selection length, so the model has one listener flag that is set on the first successful write. The `load` listener only logs to the console and is left out.
- App.Trimmer.ReadDone: the `Blob`, the object URL and the anchor click that start the download are modelled as a download counter.
- The transcoding engine: loading it, writing, executing and reading are abstract operations whose success or failure is the argument of the next handler. `fetchFile`, the engine's real trimming and any log lines beyond the ones given to `OnLog` are not modelled.
- The `<video>` element: playback itself and the native controls are reduced to three things: a cursor, a playing flag, and the positions reported to `OnTimeUpdate`.
- React rendering: handlers read the state of the render that created them. The model reads the current state, as if every handler ran after the last render.
- The drag-over and drop animations (`isDragging`, `isDropping`, `isClearing`) and the 300 ms and 50 ms timers of drop and Clear are left out. The video is attached, or cleared, in one step.
- The JSX, the styling, the displayed percentage (`Math.round`) and the progress ring's stroke are left out, as is console logging.
- Errors in `load` are left out (the engine then never becomes loaded, so `EngineLoaded` is never called). Errors thrown by the engine are modelled as the failure argument.

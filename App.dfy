/**
  The trimmer component's state and its event handlers. The component
  holds the selection, the duration, the preview flag and the export
  flags as state and changes them one handler at a time; the `<video>`
  element it drives contributes the playback cursor and whether it is
  playing. The state is grouped into two records, the player and the
  export, that the handlers reassign. An export (`trimVideo`) is
  asynchronous: it suspends at each call into the transcoding engine, so
  each resumption is a method of its own, with the engine's answer
  (success or failure) as its argument.
*/
module App {
  import opened Wrappers
  import Range
  import LogProgress
  import ExportCommand

  /** Where one run of `trimVideo` is suspended. */
  datatype Stage =
    | AwaitWrite(start: real, end: real)  // writing the input file; the run's start and end times
    | AwaitExec                           // the engine is executing the trim command
    | AwaitRead                           // reading the output file

  /** The state the selection and preview handlers work on. */
  datatype PlayerState = PlayerState(
    attached: bool,         // a video is loaded and its element is mounted
    trimValues: seq<real>,  // start and end of the selection, in percent of the duration
    duration: real,
    currentTime: real,      // the component's copy of the last reported position
    isPreviewing: bool,
    cursor: real,           // the element's playback position
    playing: bool)

  /** The state the export handlers work on. */
  datatype ExportState = ExportState(
    ffmpegLoaded: bool,
    loading: bool,
    progress: real,
    modalOpen: bool,
    isProcessing: bool,
    totalDuration: real,       // length of the selection of the latest run, read by the log listener
    logListening: bool,        // a progress listener has been registered on the engine
    jobs: map<nat, Stage>,     // the runs of trimVideo still in flight
    nextJob: nat,
    downloads: nat)            // output files handed to the browser

  predicate PlayerOk(p: PlayerState) {
    && Range.InPercentRange(p.trimValues)
    && p.duration >= 0.0
    && (!p.attached ==> !p.isPreviewing && !p.playing)
  }

  predicate JobsOk(e: ExportState) {
    forall id :: id in e.jobs ==> id < e.nextJob
  }

  /**
    The start of a run of `trimVideo` over the absolute times `start` and
    `end`: the flags go up, progress goes to 0, the selection's length is
    kept for the log listener, and the run waits for the input file under
    a fresh job number.
  */
  function Started(e: ExportState, start: real, end: real): (r: ExportState)
    requires JobsOk(e)
    ensures JobsOk(r)
    ensures r.isProcessing && r.loading && r.modalOpen && r.progress == 0.0
    ensures r.totalDuration == end - start
    ensures e.nextJob !in e.jobs && r.jobs == e.jobs[e.nextJob := AwaitWrite(start, end)]
    ensures r.nextJob == e.nextJob + 1 && r.downloads == e.downloads && r.ffmpegLoaded == e.ffmpegLoaded
  {
    e.(loading := true, progress := 0.0, modalOpen := true, isProcessing := true,
       totalDuration := end - start, jobs := e.jobs[e.nextJob := AwaitWrite(start, end)],
       nextJob := e.nextJob + 1)
  }

  /**
    The `finally` block of `trimVideo` followed by the delayed reset, as
    one step: the flags go down, progress goes back to 0, and the run is
    no longer in flight. Other runs are untouched.
  */
  function Finished(e: ExportState, id: nat): (r: ExportState)
    requires JobsOk(e)
    ensures JobsOk(r)
    ensures !r.isProcessing && !r.loading && !r.modalOpen && r.progress == 0.0
    ensures id !in r.jobs && forall j :: j in e.jobs && j != id ==> j in r.jobs && r.jobs[j] == e.jobs[j]
    ensures r.ffmpegLoaded == e.ffmpegLoaded && r.downloads == e.downloads && r.nextJob == e.nextJob
  {
    e.(isProcessing := false, loading := false, modalOpen := false, progress := 0.0, jobs := e.jobs - {id})
  }

  class Trimmer {
    var player: PlayerState
    var exporter: ExportState

    /** Every value ever given to `setProgress`, oldest first. */
    var progressHistory: seq<real>

    ghost predicate Valid()
      reads this
    {
      PlayerOk(player) && JobsOk(exporter)
    }

    /** The initial state: no video, the whole range selected, the engine not yet loaded. */
    constructor ()
      ensures Valid()
      ensures player == PlayerState(false, [0.0, 100.0], 0.0, 0.0, false, 0.0, false)
      ensures exporter == ExportState(false, false, 0.0, false, false, 0.0, false, map[], 0, 0)
      ensures progressHistory == []
    {
      player := PlayerState(false, [0.0, 100.0], 0.0, 0.0, false, 0.0, false);
      exporter := ExportState(false, false, 0.0, false, false, 0.0, false, map[], 0, 0);
      progressHistory := [];
    }

    // -------------------------------------------------------------------------
    // Loading

    /** The engine finished loading. */
    method EngineLoaded()
      requires Valid()
      modifies this
      ensures Valid()
      ensures player == old(player) && progressHistory == old(progressHistory)
      ensures exporter == old(exporter).(ffmpegLoaded := true)
    {
      exporter := exporter.(ffmpegLoaded := true);
    }

    /** A file was dropped while no video is loaded; a video file is loaded and a fresh element mounted. */
    method LoadVideo(isVideo: bool)
      requires Valid() && !player.attached
      modifies this
      ensures Valid()
      ensures exporter == old(exporter) && progressHistory == old(progressHistory)
      ensures player == if isVideo then old(player).(attached := true, cursor := 0.0, playing := false)
                        else old(player)
    {
      if isVideo {
        player := player.(attached := true, cursor := 0.0, playing := false);
      }
    }

    /** The element's metadata arrived: the duration becomes known. */
    method OnLoadedMetadata(d: real)
      requires Valid() && d >= 0.0
      modifies this
      ensures Valid()
      ensures exporter == old(exporter) && progressHistory == old(progressHistory)
      ensures player == if old(player).attached then old(player).(duration := d) else old(player)
    {
      if player.attached {
        player := player.(duration := d);
      }
    }

    /** The Clear button: stop the preview, unload the video and select the whole range again. */
    method Clear()
      requires Valid()
      modifies this
      ensures Valid()
      ensures exporter == old(exporter) && progressHistory == old(progressHistory)
      ensures player == old(player).(attached := false, trimValues := [0.0, 100.0], isPreviewing := false, playing := false)
    {
      StopPreview();
      player := player.(attached := false, trimValues := [0.0, 100.0]);
    }

    // -------------------------------------------------------------------------
    // Selection and preview

    /** `handleTimeInputChange`: a time typed into the start (index 0) or end (index 1) box. */
    method OnTimeInput(index: nat, text: string)
      requires Valid() && index < 2
      modifies this
      ensures Valid()
      ensures exporter == old(exporter) && progressHistory == old(progressHistory)
      ensures player == old(player).(trimValues := Range.EditBound(old(player).trimValues, old(player).duration, index, text))
    {
      Range.EditKeepsPercentRange(player.trimValues, player.duration, index, text);
      player := player.(trimValues := Range.EditBound(player.trimValues, player.duration, index, text));
    }

    /** The range slider moved; outside preview mode the cursor follows the start bound. */
    method OnSliderChange(newValues: seq<real>)
      requires Valid() && Range.InPercentRange(newValues)
      modifies this
      ensures Valid()
      ensures exporter == old(exporter) && progressHistory == old(progressHistory)
      ensures player == old(player).(
        trimValues := newValues,
        cursor := if old(player).attached && !old(player).isPreviewing
                  then Range.StartTime(newValues, old(player).duration) else old(player).cursor)
    {
      player := player.(trimValues := newValues);
      if player.attached && !player.isPreviewing {
        player := player.(cursor := Range.StartTime(newValues, player.duration));
      }
    }

    /**
      `handleTimeUpdate`: the element reports that it is at `t`. The
      component records `t`, and while previewing sends the element back to
      the start of the selection when `t` lies outside it. `jump` is the
      commanded jump, if any.
    */
    method OnTimeUpdate(t: real) returns (jump: Option<real>)
      requires Valid()
      modifies this
      ensures Valid()
      ensures exporter == old(exporter) && progressHistory == old(progressHistory)
      ensures var p := old(player);
        jump == if p.attached then Range.PreviewJump(p.isPreviewing, p.trimValues, p.duration, t) else None
      ensures var p := old(player);
        player == if p.attached
          then p.(currentTime := t, cursor := Range.CursorAfterUpdate(p.isPreviewing, p.trimValues, p.duration, t))
          else p
    {
      jump := None;
      if player.attached {
        jump := Range.PreviewJump(player.isPreviewing, player.trimValues, player.duration, t);
        player := player.(currentTime := t, cursor := if jump.Some? then jump.value else t);
      }
    }

    /** `startPreview`: jump to the start of the selection, play, and enter preview mode. */
    method StartPreview()
      requires Valid()
      modifies this
      ensures Valid()
      ensures exporter == old(exporter) && progressHistory == old(progressHistory)
      ensures var p := old(player);
        player == if p.attached
          then p.(cursor := Range.StartTime(p.trimValues, p.duration), playing := true, isPreviewing := true)
          else p
    {
      if player.attached {
        player := player.(cursor := Range.StartTime(player.trimValues, player.duration), playing := true, isPreviewing := true);
      }
    }

    /** `stopPreview`: pause and leave preview mode. Stopping a stopped player changes nothing. */
    method StopPreview()
      requires Valid()
      modifies this
      ensures Valid()
      ensures exporter == old(exporter) && progressHistory == old(progressHistory)
      ensures player == if old(player).attached then old(player).(playing := false, isPreviewing := false) else old(player)
      ensures !old(player).isPreviewing && !old(player).playing ==> player == old(player)
    {
      if player.attached {
        player := player.(playing := false, isPreviewing := false);
      }
    }

    /** The element played to its end and paused; in preview mode the preview starts over. */
    method OnEnded()
      requires Valid() && player.attached
      modifies this
      ensures Valid()
      ensures exporter == old(exporter) && progressHistory == old(progressHistory)
      ensures var p := old(player);
        player == if p.isPreviewing
          then p.(cursor := Range.StartTime(p.trimValues, p.duration), playing := true)
          else p.(playing := false)
    {
      player := player.(playing := false);
      if player.isPreviewing {
        StartPreview();
      }
    }

    // -------------------------------------------------------------------------
    // Export

    /** The Trim button is disabled while loading and until the engine is loaded. */
    predicate TrimButtonEnabled()
      reads this
    {
      !exporter.loading && exporter.ffmpegLoaded
    }

    /**
      A click on the Trim button. When enabled, it starts a run of
      `trimVideo` over the selection's absolute times; `id` names the run.
    */
    method ClickTrim() returns (started: bool, id: nat)
      requires Valid()
      modifies this
      ensures Valid()
      ensures player == old(player)
      ensures started == (old(TrimButtonEnabled()) && old(player).attached)
      ensures var p := old(player);
        started ==> && id == old(exporter).nextJob
                    && exporter == Started(old(exporter), Range.StartTime(p.trimValues, p.duration), Range.EndTime(p.trimValues, p.duration))
                    && progressHistory == old(progressHistory) + [0.0]
      ensures !started ==> exporter == old(exporter) && progressHistory == old(progressHistory)
    {
      started, id := false, 0;
      if TrimButtonEnabled() && player.attached {
        started, id := true, exporter.nextJob;
        var start := Range.StartTime(player.trimValues, player.duration);
        var end := Range.EndTime(player.trimValues, player.duration);
        exporter := Started(exporter, start, end);
        progressHistory := progressHistory + [0.0];
      }
    }

    /** The `finally` block and the reset that follows it. */
    method Finish(id: nat)
      requires Valid()
      modifies this
      ensures Valid()
      ensures player == old(player)
      ensures exporter == Finished(old(exporter), id)
      ensures progressHistory == old(progressHistory) + [0.0]
    {
      exporter := Finished(exporter, id);
      progressHistory := progressHistory + [0.0];
    }

    /**
      The input file has been written (`ok`) or writing failed. On success
      progress goes to 20, the log listener is registered and the trim
      command is handed to the engine; on failure the run ends.
    */
    method WriteDone(id: nat, ok: bool) returns (command: seq<ExportCommand.Arg>)
      requires Valid() && id in exporter.jobs && exporter.jobs[id].AwaitWrite?
      modifies this
      ensures Valid()
      ensures player == old(player)
      ensures var e := old(exporter);
        ok ==> && command == ExportCommand.TrimCommand(e.jobs[id].start, e.jobs[id].end)
               && exporter == e.(progress := 20.0, logListening := true, jobs := e.jobs[id := AwaitExec])
               && progressHistory == old(progressHistory) + [20.0]
      ensures !ok ==> command == [] && exporter == Finished(old(exporter), id)
      ensures !ok ==> progressHistory == old(progressHistory) + [0.0]
    {
      var stage := exporter.jobs[id];
      if ok {
        exporter := exporter.(progress := 20.0, logListening := true, jobs := exporter.jobs[id := AwaitExec]);
        progressHistory := progressHistory + [20.0];
        command := ExportCommand.TrimCommand(stage.start, stage.end);
      } else {
        command := [];
        Finish(id);
      }
    }

    /** A log line from the engine; once a listener is registered, a time marker moves the progress. */
    method OnLog(line: string)
      requires Valid()
      modifies this
      ensures Valid()
      ensures player == old(player)
      ensures var e := old(exporter);
        var update := if e.logListening then LogProgress.LogUpdate(line, e.totalDuration) else None;
        && exporter == (if update.Some? then e.(progress := update.value) else e)
        && progressHistory == old(progressHistory) + (if update.Some? then [update.value] else [])
    {
      if exporter.logListening {
        var update := LogProgress.LogUpdate(line, exporter.totalDuration);
        if update.Some? {
          exporter := exporter.(progress := update.value);
          progressHistory := progressHistory + [update.value];
        }
      }
    }

    /** The engine finished executing the command (`ok`) or failed; on success progress goes to 80. */
    method ExecDone(id: nat, ok: bool)
      requires Valid() && id in exporter.jobs && exporter.jobs[id] == AwaitExec
      modifies this
      ensures Valid()
      ensures player == old(player)
      ensures ok ==> exporter == old(exporter).(progress := 80.0, jobs := old(exporter).jobs[id := AwaitRead])
      ensures ok ==> progressHistory == old(progressHistory) + [80.0]
      ensures !ok ==> exporter == Finished(old(exporter), id) && progressHistory == old(progressHistory) + [0.0]
    {
      if ok {
        exporter := exporter.(progress := 80.0, jobs := exporter.jobs[id := AwaitRead]);
        progressHistory := progressHistory + [80.0];
      } else {
        Finish(id);
      }
    }

    /**
      The output file has been read (`ok`) or reading failed. On success
      progress goes to 90, the file is handed to the browser as a download,
      progress goes to 100, and the run ends either way.
    */
    method ReadDone(id: nat, ok: bool)
      requires Valid() && id in exporter.jobs && exporter.jobs[id] == AwaitRead
      modifies this
      ensures Valid()
      ensures player == old(player)
      ensures ok ==> exporter == Finished(old(exporter), id).(downloads := old(exporter).downloads + 1)
      ensures ok ==> progressHistory == old(progressHistory) + [90.0, 100.0, 0.0]
      ensures !ok ==> exporter == Finished(old(exporter), id) && progressHistory == old(progressHistory) + [0.0]
    {
      if ok {
        exporter := exporter.(progress := 90.0);
        exporter := exporter.(downloads := exporter.downloads + 1);
        exporter := exporter.(progress := 100.0);
        progressHistory := progressHistory + [90.0, 100.0];
      }
      Finish(id);
    }

    /**
      `cancelProcessing` (the Cancel button, or closing the dialog): the
      dialog closes and the flags and progress reset. Runs in flight are
      not stopped and go on to their end.
    */
    method Cancel()
      requires Valid()
      modifies this
      ensures Valid()
      ensures player == old(player)
      ensures exporter == old(exporter).(modalOpen := false, loading := false, progress := 0.0, isProcessing := false)
      ensures progressHistory == old(progressHistory) + [0.0]
    {
      exporter := exporter.(modalOpen := false, loading := false, progress := 0.0, isProcessing := false);
      progressHistory := progressHistory + [0.0];
    }
  }

  // ---------------------------------------------------------------------------
  // Whole sessions

  /**
    A 10 s video with the selection 20-50 %, i.e. 2 s to 5 s: the preview
    starts at 2 s; updates at 1 s and 6 s jump back to 2 s; 3 s does not.
  */
  method PreviewSession() returns (start: real, j1: Option<real>, j2: Option<real>, j3: Option<real>)
    ensures start == 2.0
    ensures j1 == Some(2.0) && j2 == None && j3 == Some(2.0)
  {
    var app := new Trimmer();
    app.LoadVideo(true);
    app.OnLoadedMetadata(10.0);
    app.OnSliderChange([20.0, 50.0]);
    app.StartPreview();
    start := app.player.cursor;
    j1 := app.OnTimeUpdate(1.0);
    j2 := app.OnTimeUpdate(3.0);
    j3 := app.OnTimeUpdate(6.0);
  }

  /**
    A trimmer with the engine loaded, a video of `d` seconds attached and
    the selection `trim` chosen on the slider.
  */
  method LoadedTrimmer(d: real, trim: seq<real>) returns (app: Trimmer)
    requires d >= 0.0 && Range.InPercentRange(trim)
    ensures fresh(app) && app.Valid()
    ensures app.player == PlayerState(true, trim, d, 0.0, false, Range.StartTime(trim, d), false)
    ensures app.exporter == ExportState(true, false, 0.0, false, false, 0.0, false, map[], 0, 0)
    ensures app.progressHistory == []
  {
    app := new Trimmer();
    app.EngineLoaded();
    app.LoadVideo(true);
    app.OnLoadedMetadata(d);
    app.OnSliderChange(trim);
  }

  /**
    A 30 s video with the selection 10-20 %: the command cuts 3 s from 3 s,
    and a successful run with one log line at 1.5 s writes the progress
    values 0, 20, 50, 80, 90, 100 and finally 0, and downloads the file once.
  */
  method ExportSession() returns (command: seq<ExportCommand.Arg>, history: seq<real>, downloads: nat, processing: bool)
    ensures command == ExportCommand.TrimCommand(3.0, 6.0)
    ensures history == [0.0, 20.0, 50.0, 80.0, 90.0, 100.0, 0.0]
    ensures downloads == 1 && !processing
  {
    var app := LoadedTrimmer(30.0, [10.0, 20.0]);
    assert Range.StartTime([10.0, 20.0], 30.0) == 3.0 && Range.EndTime([10.0, 20.0], 30.0) == 6.0;
    var started, id := app.ClickTrim();
    command := app.WriteDone(id, true);
    LogProgress.HalfwayLineExample();
    app.OnLog("time=00:00:01.50");
    app.ExecDone(id, true);
    app.ReadDone(id, true);
    history, downloads, processing := app.progressHistory, app.exporter.downloads, app.exporter.isProcessing;
  }

  /**
    Cancelling while the input file is written resets the dialog, but the
    run goes on: it still sets the progress milestones and still downloads
    the file. The Trim button is enabled again right after the cancel.
  */
  method CancelledSession() returns (enabledAfterCancel: bool, history: seq<real>, downloads: nat)
    ensures enabledAfterCancel
    ensures history == [0.0, 0.0, 20.0, 80.0, 90.0, 100.0, 0.0]
    ensures downloads == 1
  {
    var app := LoadedTrimmer(30.0, [0.0, 100.0]);
    var started, id := app.ClickTrim();
    app.Cancel();
    enabledAfterCancel := app.TrimButtonEnabled();
    var _ := app.WriteDone(id, true);
    app.ExecDone(id, true);
    app.ReadDone(id, true);
    history, downloads := app.progressHistory, app.exporter.downloads;
  }
}

/** The conversion flow of `Video2GIFConverter`: the convert-button handler,
    the worker `run_ffmpeg` and `on_thread_done`. Processes, the file system
    and the user interface are state of the model: the exit codes and output
    of ffmpeg and ffprobe are inputs, the file system is a set of paths, every
    command started is logged, and the user interface is the ordered list of
    what it is asked to do (dialogs, and the callbacks the worker queues with
    `GLib.idle_add`, which the main loop runs in order). */
module Converter {
  import opened Optional
  import opened Text
  import opened Paths
  import opened Validation
  import opened Commands
  import opened Progress

  /** The messages the converter shows, by meaning. */
  datatype Message =
    | NoFileSelected
    | InvalidFileName
    | UnsupportedExtensions
    | FrameCountFailed
    | ConversionCompleted
    | ConversionFailed

  /** One request to the user interface. `ProgressFraction(c, t)` is
      `set_fraction(c / t)`, kept as the pair because the quotient is not
      clamped; `ProgressCleared` is `set_fraction(0.0)`; `ThreadDone` is the
      queued `on_thread_done`. */
  datatype UiEvent =
    | ErrorDialog(message: Message)
    | InfoDialog(message: Message)
    | ProgressVisible(visible: bool)
    | ProgressCleared
    | ProgressFraction(current: nat, total: nat)
    | ThreadDone

  /** One ffmpeg run as observed: exit code, output lines (stdout and stderr
      merged), and whether it wrote its output file. */
  datatype EncoderRun = EncoderRun(exitCode: int, lines: seq<string>, writesOutput: bool)

  /** One ffprobe run as observed: exit code and printed text. */
  datatype ProbeRun = ProbeRun(exitCode: int, output: string)

  /** The arguments the click hands to the worker thread. */
  datatype Worker = Worker(command: seq<string>, output: string, usePalette: bool, palette: Option<string>)

  /** The outcome of the click handler's checks. */
  datatype Selection = Proceed(video: string) | Reject(message: Message)

  /** The checks of the click handler, in order: a file is selected; while the
      flag set by a command-line name is up (only an invalid name lowers it),
      the selected name has no space or `#`; its extension is supported. */
  function CheckSelection(videoFile: Option<string>, isFileArgumentProvided: bool): Selection {
    if videoFile.None? || videoFile.value == "" then Reject(NoFileSelected)
    else if isFileArgumentProvided && !IsValidFilename(videoFile.value) then Reject(InvalidFileName)
    else if !IsSupportedFileType(videoFile.value) then Reject(UnsupportedExtensions)
    else Proceed(videoFile.value)
  }

  /** A click goes ahead with exactly the selected file, when that file has a
      supported type and, while the command-line flag is up, a valid name. */
  lemma CheckSelectionProceeds(videoFile: Option<string>, isFileArgumentProvided: bool, video: string)
    ensures CheckSelection(videoFile, isFileArgumentProvided) == Proceed(video) <==>
            videoFile == Some(video) && IsSupportedFileType(video)
            && (isFileArgumentProvided ==> IsValidFilename(video))
  {
    assert SplitExt("") == PathSplit("", "");
  }

  /** Exactly when a click fails the extension check (the earlier checks having
      passed), and exactly when it fails the name check. */
  lemma CheckSelectionRejects(videoFile: Option<string>, isFileArgumentProvided: bool)
    ensures CheckSelection(videoFile, isFileArgumentProvided) == Reject(UnsupportedExtensions) <==>
            videoFile.Some? && videoFile.value != "" && !IsSupportedFileType(videoFile.value)
            && (isFileArgumentProvided ==> IsValidFilename(videoFile.value))
    ensures CheckSelection(videoFile, isFileArgumentProvided) == Reject(InvalidFileName) <==>
            videoFile.Some? && videoFile.value != "" && isFileArgumentProvided
            && !IsValidFilename(videoFile.value)
  {
  }

  /** The flag outlives the command-line name: a name picked later in the
      file chooser is still rejected for a space. */
  lemma ChosenNameStillChecked()
    ensures CheckSelection(Some("my clip.mp4"), true) == Reject(InvalidFileName)
  {
    assert "my clip.mp4"[2] == ' ';
  }

  /** The frame total the worker goes on with; 0 stands for every failure of
      the probe (a non-zero exit, output that is not all digits, or zero). */
  function FrameTotal(probe: ProbeRun): nat {
    if probe.exitCode != 0 then 0 else ParseFrameTotal(probe.output)
  }

  /** The progress update, if any, that one encoder line causes. */
  function LineEvents(line: string, total: nat): seq<UiEvent> {
    match FindFrame(line)
    case Some(n) => [ProgressFraction(n, total)]
    case None => []
  }

  /** The progress updates for the lines read so far, in order. */
  function ProgressEvents(lines: seq<string>, total: nat): seq<UiEvent>
    decreases |lines|
  {
    if lines == [] then []
    else ProgressEvents(lines[..|lines| - 1], total) + LineEvents(lines[|lines| - 1], total)
  }

  /** Progress updates of consecutive stretches of output concatenate. */
  lemma {:induction false} ProgressEventsAppend(a: seq<string>, b: seq<string>, total: nat)
    ensures ProgressEvents(a + b, total) == ProgressEvents(a, total) + ProgressEvents(b, total)
    decreases |b|
  {
    if b == [] {
      assert a + b == a;
    } else {
      var b' := b[..|b| - 1];
      assert (a + b)[..|a + b| - 1] == a + b';
      ProgressEventsAppend(a, b', total);
    }
  }

  /** The number of lines that report a frame number. */
  function CountMatching(lines: seq<string>): nat
    decreases |lines|
  {
    if lines == [] then 0
    else (if FindFrame(lines[0]).Some? then 1 else 0) + CountMatching(lines[1..])
  }

  /** Exactly one progress update per line that reports a frame number, and
      each update carries that line's number over the probe's total. */
  lemma {:induction false} ProgressEventsPerLine(lines: seq<string>, total: nat)
    ensures |ProgressEvents(lines, total)| == CountMatching(lines)
    ensures forall e :: e in ProgressEvents(lines, total) ==>
              e.ProgressFraction? && e.total == total
              && exists i :: 0 <= i < |lines| && FindFrame(lines[i]) == Some(e.current)
    decreases |lines|
  {
    if lines != [] {
      var rest := lines[1..];
      assert lines == [lines[0]] + rest;
      ProgressEventsAppend([lines[0]], rest, total);
      assert [lines[0]][..0] == [];
      assert ProgressEvents([lines[0]], total) == LineEvents(lines[0], total);
      ProgressEventsPerLine(rest, total);
      forall e | e in ProgressEvents(rest, total)
        ensures exists i :: 0 <= i < |lines| && FindFrame(lines[i]) == Some(e.current)
      {
        var i :| 0 <= i < |rest| && FindFrame(rest[i]) == Some(e.current);
        assert lines[i + 1] == rest[i];
      }
    }
  }

  /** The reported fraction is not clamped: a frame number beyond the total
      is passed on as it is. */
  lemma ProgressNotClamped()
    ensures ProgressEvents(["frame=150"], 100) == [ProgressFraction(150, 100)]
  {
    assert Digits(150) == "150";
    assert "frame=150" == [] + FramePrefix + [] + Digits(150) + [];
    FrameReported([], [], 150, []);
    assert ["frame=150"][..0] == [];
  }

  /** The verdict the worker shows once the encoder has exited. */
  function Verdict(exitCode: int): UiEvent {
    if exitCode == 0 then InfoDialog(ConversionCompleted) else ErrorDialog(ConversionFailed)
  }

  /** What the worker asks of the user interface, in order: show the progress
      bar at 0; then either the probe error, or one update per reporting line
      followed by the verdict; then hide the bar and queue `on_thread_done`. */
  function WorkerEvents(total: nat, encoder: EncoderRun): seq<UiEvent> {
    [ProgressVisible(true), ProgressCleared]
    + (if total == 0 then [ErrorDialog(FrameCountFailed)]
       else ProgressEvents(encoder.lines, total) + [Verdict(encoder.exitCode)])
    + [ProgressVisible(false), ThreadDone]
  }

  predicate IsDialog(e: UiEvent) {
    e.ErrorDialog? || e.InfoDialog?
  }

  predicate IsProgressUpdate(e: UiEvent) {
    e.ProgressFraction?
  }

  /** The requests of one kind, in order. */
  function Filter(events: seq<UiEvent>, keep: UiEvent -> bool): seq<UiEvent>
    decreases |events|
  {
    if events == [] then []
    else (if keep(events[0]) then [events[0]] else []) + Filter(events[1..], keep)
  }

  lemma {:induction false} FilterAppend(a: seq<UiEvent>, b: seq<UiEvent>, keep: UiEvent -> bool)
    ensures Filter(a + b, keep) == Filter(a, keep) + Filter(b, keep)
    decreases |a|
  {
    if a == [] {
      assert a + b == b;
    } else {
      var c := a + b;
      assert c[0] == a[0] && c[1..] == a[1..] + b;
      FilterAppend(a[1..], b, keep);
      var h := if keep(a[0]) then [a[0]] else [];
      assert Filter(c, keep) == h + Filter(c[1..], keep);
      assert Filter(a, keep) == h + Filter(a[1..], keep);
    }
  }

  /** Filtering the progress updates: no dialog among them, and all of them are updates. */
  lemma {:induction false} FilterProgress(lines: seq<string>, total: nat)
    ensures Filter(ProgressEvents(lines, total), IsDialog) == []
    ensures Filter(ProgressEvents(lines, total), IsProgressUpdate) == ProgressEvents(lines, total)
    decreases |lines|
  {
    if lines != [] {
      var init, last := ProgressEvents(lines[..|lines| - 1], total), LineEvents(lines[|lines| - 1], total);
      FilterProgress(lines[..|lines| - 1], total);
      FilterAppend(init, last, IsDialog);
      FilterAppend(init, last, IsProgressUpdate);
      if last != [] {
        assert last[1..] == [];
      }
    }
  }

  /** Filtering a worker run framed by the progress bar's show and hide and
      the queued `on_thread_done`, none of which is kept. */
  lemma FilterFramed(p: seq<UiEvent>, x: UiEvent, keep: UiEvent -> bool)
    requires !keep(ProgressVisible(true)) && !keep(ProgressCleared)
    requires !keep(ProgressVisible(false)) && !keep(ThreadDone)
    ensures Filter([ProgressVisible(true), ProgressCleared] + (p + [x]) + [ProgressVisible(false), ThreadDone], keep)
            == Filter(p, keep) + (if keep(x) then [x] else [])
  {
    var head := [ProgressVisible(true), ProgressCleared];
    var tail := [ProgressVisible(false), ThreadDone];
    assert Filter(head, keep) == [] by {
      assert head[1..][1..] == [];
    }
    assert Filter(tail, keep) == [] by {
      assert tail[1..][1..] == [];
    }
    assert Filter([x], keep) == (if keep(x) then [x] else []) by {
      assert [x][1..] == [];
    }
    FilterAppend(p, [x], keep);
    FilterAppend(head, p + [x], keep);
    FilterAppend(head + (p + [x]), tail, keep);
  }

  /** Every run of the worker shows exactly one dialog, the probe error when
      no frame total was found, otherwise success exactly when the encoder
      exited with 0; and the progress updates it queues are those of the
      encoder's lines, none at all after a probe failure. */
  lemma WorkerShowsOneVerdict(total: nat, encoder: EncoderRun)
    ensures Filter(WorkerEvents(total, encoder), IsDialog) ==
            [if total == 0 then ErrorDialog(FrameCountFailed)
             else if encoder.exitCode == 0 then InfoDialog(ConversionCompleted)
             else ErrorDialog(ConversionFailed)]
    ensures Filter(WorkerEvents(total, encoder), IsProgressUpdate) ==
            if total == 0 then [] else ProgressEvents(encoder.lines, total)
  {
    var p := if total == 0 then [] else ProgressEvents(encoder.lines, total);
    var x := if total == 0 then ErrorDialog(FrameCountFailed) else Verdict(encoder.exitCode);
    assert WorkerEvents(total, encoder) ==
           [ProgressVisible(true), ProgressCleared] + (p + [x]) + [ProgressVisible(false), ThreadDone];
    FilterFramed(p, x, IsDialog);
    FilterFramed(p, x, IsProgressUpdate);
    if total > 0 {
      FilterProgress(encoder.lines, total);
    }
  }

  /** `on_thread_done` is queued exactly once, as the last request, and no
      progress update follows the verdict. */
  lemma WorkerEndsWithThreadDone(total: nat, encoder: EncoderRun)
    ensures var ev := WorkerEvents(total, encoder);
            && |ev| >= 5 && ev[|ev| - 1] == ThreadDone && ev[|ev| - 2] == ProgressVisible(false)
            && IsDialog(ev[|ev| - 3])
            && forall k :: 0 <= k < |ev| - 1 ==> ev[k] != ThreadDone
  {
    var ev := WorkerEvents(total, encoder);
    if total > 0 {
      ProgressEventsPerLine(encoder.lines, total);
      var p := ProgressEvents(encoder.lines, total);
      forall k | 0 <= k < |ev| - 1 ensures ev[k] != ThreadDone {
        if 2 <= k < 2 + |p| {
          assert ev[k] == p[k - 2];
          assert p[k - 2] in p;
        }
      }
    }
  }

  /** The requests of a run that reached the encoder, in the order the worker makes them. */
  lemma WorkerEventsRan(total: nat, encoder: EncoderRun)
    requires total > 0
    ensures WorkerEvents(total, encoder) ==
            [ProgressVisible(true), ProgressCleared] + ProgressEvents(encoder.lines, total)
            + [Verdict(encoder.exitCode), ProgressVisible(false), ThreadDone]
  {
  }

  lemma Regroup(a: seq<UiEvent>, b: seq<UiEvent>, c: seq<UiEvent>, d: seq<UiEvent>)
    ensures a + b + c + d == a + (b + c + d)
  {
  }

  /** The commands the worker starts: the probe, and the encoder only when
      the probe gave a positive total. */
  function WorkerProcesses(source: string, worker: Worker, total: nat): seq<seq<string>> {
    [ProbeCommand(source)] + (if total > 0 then [worker.command] else [])
  }

  /** The file system after the worker: unchanged after a probe failure;
      otherwise the encoder's output added if it wrote one and, in palette
      mode, the palette removed whatever the exit code. */
  function AfterWorker(files: set<string>, worker: Worker, total: nat, encoder: EncoderRun): set<string> {
    if total == 0 then files
    else
      var written := if encoder.writesOutput then files + {worker.output} else files;
      if worker.usePalette && worker.palette.Some? then written - {worker.palette.value} else written
  }

  /** Cleanup: once the encoder has run in palette mode the palette is gone,
      whatever the exit code; a probe failure leaves the file system as it
      was, palette included; other files are untouched. */
  lemma AfterWorkerCleanup(files: set<string>, worker: Worker, total: nat, encoder: EncoderRun)
    ensures total > 0 && worker.usePalette && worker.palette.Some? ==>
              worker.palette.value !in AfterWorker(files, worker, total, encoder)
    ensures total == 0 ==> AfterWorker(files, worker, total, encoder) == files
    ensures forall f :: f in files && f != worker.output && (worker.palette.Some? ==> f != worker.palette.value)
              ==> f in AfterWorker(files, worker, total, encoder)
    ensures forall f :: f in AfterWorker(files, worker, total, encoder) ==> f in files || f == worker.output
  {
  }

  /** The converter window's state: the selected file, whether a name was
      given on the command line (until an invalid name clears it), the ok
      button's sensitivity, the fixed frame rate,
      the scratch directory, and the model's view of the outside world. */
  class Video2GifConverter {
    var videoFile: Option<string>
    var isFileArgumentProvided: bool
    var okSensitive: bool
    const fps: string
    const tempDir: string
    /** The existing files. */
    var files: set<string>
    /** Every command started, in order. */
    var processes: seq<seq<string>>
    /** Every request to the user interface, in order. */
    var ui: seq<UiEvent>

    /** The fields `__init__` sets; `video_file or None` turns an empty name into none. */
    constructor (videoFile: Option<string>, tempDir: string, files: set<string>)
      ensures this.videoFile == (if videoFile == Some("") then None else videoFile)
      ensures isFileArgumentProvided == videoFile.Some?
      ensures okSensitive && fps == "10" && this.tempDir == tempDir && this.files == files
      ensures processes == [] && ui == []
    {
      this.videoFile := if videoFile == Some("") then None else videoFile;
      isFileArgumentProvided := videoFile.Some?;
      okSensitive := true;
      fps := "10";
      this.tempDir := tempDir;
      this.files := files;
      processes := [];
      ui := [];
    }

    /** `on_file_set`: the chosen file becomes the selection even when its
        extension is rejected. */
    method OnFileSet(filename: string)
      modifies this`videoFile, this`ui
      ensures videoFile == Some(filename)
      ensures ui == old(ui) + (if IsSupportedFileType(filename) then [] else [ErrorDialog(UnsupportedExtensions)])
    {
      videoFile := Some(filename);
      if !IsSupportedFileType(filename) {
        ui := ui + [ErrorDialog(UnsupportedExtensions)];
      }
    }

    /** `on_convert_button_clicked` with the size id and palette check box as
        read from the widgets and the palette stage's run as observed. It
        returns the worker's arguments when the worker thread is started. */
    method OnConvertButtonClicked(sizeId: string, usePalette: bool, paletteRun: EncoderRun)
      returns (worker: Option<Worker>)
      modifies this`okSensitive, this`isFileArgumentProvided, this`files, this`processes, this`ui
      ensures var sel := CheckSelection(old(videoFile), old(isFileArgumentProvided));
              sel.Reject? ==> worker.None? && processes == old(processes) && files == old(files)
                              && ui == old(ui) + [ErrorDialog(sel.message)]
      ensures var sel := CheckSelection(old(videoFile), old(isFileArgumentProvided));
              okSensitive == (if sel == Reject(NoFileSelected) then old(okSensitive)
                              else sel == Reject(InvalidFileName))
      ensures var sel := CheckSelection(old(videoFile), old(isFileArgumentProvided));
              isFileArgumentProvided == (old(isFileArgumentProvided) && sel != Reject(InvalidFileName))
      ensures var sel := CheckSelection(old(videoFile), old(isFileArgumentProvided));
              sel.Proceed? ==> ui == old(ui)
      ensures var sel := CheckSelection(old(videoFile), old(isFileArgumentProvided));
              sel.Proceed? ==>
                var plan := BuildPlan(sel.video, sizeId, fps, usePalette, tempDir);
                && processes == old(processes) + (if usePalette then [plan.paletteStage.value] else [])
                && files == (if usePalette && paletteRun.writesOutput then old(files) + {plan.palette.value}
                             else old(files))
                && worker == (if usePalette && paletteRun.exitCode != 0 then None
                              else Some(Worker(plan.finalStage, plan.output, usePalette, plan.palette)))
    {
      ghost var sel := CheckSelection(videoFile, isFileArgumentProvided);
      if videoFile.None? || videoFile.value == "" {
        assert sel == Reject(NoFileSelected);
        ui := ui + [ErrorDialog(NoFileSelected)];
        return None;
      }
      var video := videoFile.value;
      okSensitive := false;
      if isFileArgumentProvided && !IsValidFilename(video) {
        assert sel == Reject(InvalidFileName);
        ui := ui + [ErrorDialog(InvalidFileName)];
        okSensitive := true;
        isFileArgumentProvided := false;
        return None;
      }
      if !IsSupportedFileType(video) {
        // the handler ends here: the button stays insensitive
        assert sel == Reject(UnsupportedExtensions);
        ui := ui + [ErrorDialog(UnsupportedExtensions)];
        return None;
      }
      assert sel == Proceed(video);
      worker := StartWorker(video, sizeId, usePalette, paletteRun);
    }

    /** The part of the click handler after the checks: build the commands,
        run the palette stage in palette mode, and hand over to the worker
        unless that stage failed. */
    method StartWorker(video: string, sizeId: string, usePalette: bool, paletteRun: EncoderRun)
      returns (worker: Option<Worker>)
      modifies this`files, this`processes
      ensures var plan := BuildPlan(video, sizeId, fps, usePalette, tempDir);
              && processes == old(processes) + (if usePalette then [plan.paletteStage.value] else [])
              && files == (if usePalette && paletteRun.writesOutput then old(files) + {plan.palette.value}
                           else old(files))
              && worker == (if usePalette && paletteRun.exitCode != 0 then None
                            else Some(Worker(plan.finalStage, plan.output, usePalette, plan.palette)))
    {
      var plan := BuildPlan(video, sizeId, fps, usePalette, tempDir);
      if usePalette {
        // stage 1 runs synchronously with check=True
        processes := processes + [plan.paletteStage.value];
        if paletteRun.writesOutput {
          files := files + {plan.palette.value};
        }
        if paletteRun.exitCode != 0 {
          // CalledProcessError leaves the handler before the worker starts
          return None;
        }
      }
      worker := Some(Worker(plan.finalStage, plan.output, usePalette, plan.palette));
    }

    /** `run_ffmpeg`: probe the selected file for its frame total, then run
        the encoder, report each line that carries a frame number, show the
        verdict of its exit code and remove the palette. */
    method RunFfmpeg(worker: Worker, probe: ProbeRun, encoder: EncoderRun)
      requires videoFile.Some?
      modifies this`files, this`processes, this`ui
      ensures processes == old(processes) + WorkerProcesses(videoFile.value, worker, FrameTotal(probe))
      ensures ui == old(ui) + WorkerEvents(FrameTotal(probe), encoder)
      ensures files == AfterWorker(old(files), worker, FrameTotal(probe), encoder)
    {
      ui := ui + [ProgressVisible(true), ProgressCleared];
      var total := CountFrames(probe);
      if total == 0 {
        ui := ui + [ErrorDialog(FrameCountFailed), ProgressVisible(false), ThreadDone];
        assert WorkerProcesses(videoFile.value, worker, total) == [ProbeCommand(videoFile.value)];
        assert WorkerEvents(total, encoder) == [ProgressVisible(true), ProgressCleared]
                 + [ErrorDialog(FrameCountFailed), ProgressVisible(false), ThreadDone];
        return;
      }
      RunEncoder(worker, total, encoder);
      Regroup(old(ui), [ProgressVisible(true), ProgressCleared], ProgressEvents(encoder.lines, total),
              [Verdict(encoder.exitCode), ProgressVisible(false), ThreadDone]);
      WorkerEventsRan(total, encoder);
    }

    /** The part of `run_ffmpeg` after a successful probe: run the encoder,
        follow its output, and finish. */
    method RunEncoder(worker: Worker, total: nat, encoder: EncoderRun)
      requires total > 0
      modifies this`files, this`processes, this`ui
      ensures processes == old(processes) + [worker.command]
      ensures ui == old(ui) + ProgressEvents(encoder.lines, total)
                    + [Verdict(encoder.exitCode), ProgressVisible(false), ThreadDone]
      ensures files == AfterWorker(old(files), worker, total, encoder)
    {
      processes := processes + [worker.command];
      if encoder.writesOutput {
        files := files + {worker.output};
      }
      ReportProgress(encoder.lines, total);
      FinishRun(worker, encoder.exitCode);
    }

    /** The end of `run_ffmpeg` once the encoder has exited: the verdict,
        hiding the progress bar, removing the palette in palette mode, and
        queueing `on_thread_done`. */
    method FinishRun(worker: Worker, exitCode: int)
      modifies this`files, this`ui
      ensures ui == old(ui) + [Verdict(exitCode), ProgressVisible(false), ThreadDone]
      ensures files == if worker.usePalette && worker.palette.Some? then old(files) - {worker.palette.value}
                       else old(files)
    {
      if exitCode == 0 {
        ui := ui + [InfoDialog(ConversionCompleted)];
      } else {
        ui := ui + [ErrorDialog(ConversionFailed)];
      }
      ui := ui + [ProgressVisible(false)];
      if worker.usePalette && worker.palette.Some? && worker.palette.value in files {
        files := files - {worker.palette.value};
      }
      ui := ui + [ThreadDone];
    }

    /** The probe of `run_ffmpeg`: ffprobe counts the selected file's frames;
        a failed run counts as 0. */
    method CountFrames(probe: ProbeRun) returns (total: nat)
      requires videoFile.Some?
      modifies this`processes
      ensures processes == old(processes) + [ProbeCommand(videoFile.value)]
      ensures total == FrameTotal(probe)
    {
      processes := processes + [ProbeCommand(videoFile.value)];
      if probe.exitCode != 0 {
        // CalledProcessError
        return 0;
      }
      total := ParseFrameTotal(probe.output);
    }

    /** The loop of `run_ffmpeg` over the encoder's output: one progress
        update for each line that reports a frame number. */
    method ReportProgress(lines: seq<string>, total: nat)
      modifies this`ui
      ensures ui == old(ui) + ProgressEvents(lines, total)
    {
      var i := 0;
      while i < |lines|
        invariant 0 <= i <= |lines|
        invariant ui == old(ui) + ProgressEvents(lines[..i], total)
      {
        assert lines[..i + 1][..i] == lines[..i];
        var m := FindFrame(lines[i]);
        if m.Some? {
          ui := ui + [ProgressFraction(m.value, total)];
        }
        i := i + 1;
      }
      assert lines[..i] == lines;
    }

    /** `on_thread_done`: the ok button becomes sensitive again. */
    method OnThreadDone()
      modifies this`okSensitive
      ensures okSensitive
    {
      okSensitive := true;
    }

    /** One press of the convert button followed by the worker it starts and
        the main loop delivering the worker's queued `on_thread_done`. */
    method Convert(sizeId: string, usePalette: bool, paletteRun: EncoderRun, probe: ProbeRun, encoder: EncoderRun)
      returns (worker: Option<Worker>)
      modifies this`okSensitive, this`isFileArgumentProvided, this`files, this`processes, this`ui
      ensures var sel := CheckSelection(old(videoFile), old(isFileArgumentProvided));
              worker.Some? <==> sel.Proceed? && (usePalette ==> paletteRun.exitCode == 0)
      ensures var sel := CheckSelection(old(videoFile), old(isFileArgumentProvided));
              okSensitive == (if sel == Reject(NoFileSelected) then old(okSensitive)
                              else sel == Reject(InvalidFileName) || worker.Some?)
      ensures isFileArgumentProvided ==
              (old(isFileArgumentProvided)
               && CheckSelection(old(videoFile), old(isFileArgumentProvided)) != Reject(InvalidFileName))
      ensures var sel := CheckSelection(old(videoFile), old(isFileArgumentProvided));
              sel.Reject? ==> processes == old(processes) && files == old(files)
                              && ui == old(ui) + [ErrorDialog(sel.message)]
      ensures var sel := CheckSelection(old(videoFile), old(isFileArgumentProvided));
              sel.Proceed? && worker.None? ==>
                var plan := BuildPlan(sel.video, sizeId, fps, usePalette, tempDir);
                && usePalette && paletteRun.exitCode != 0
                && processes == old(processes) + [plan.paletteStage.value]
                && files == (if paletteRun.writesOutput then old(files) + {plan.palette.value} else old(files))
                && ui == old(ui)
      ensures var sel := CheckSelection(old(videoFile), old(isFileArgumentProvided));
              worker.Some? ==>
                var plan := BuildPlan(sel.video, sizeId, fps, usePalette, tempDir);
                && worker.value == Worker(plan.finalStage, plan.output, usePalette, plan.palette)
                && processes == old(processes) + (if usePalette then [plan.paletteStage.value] else [])
                                + WorkerProcesses(sel.video, worker.value, FrameTotal(probe))
                && files == AfterWorker(if usePalette && paletteRun.writesOutput then old(files) + {plan.palette.value}
                                        else old(files), worker.value, FrameTotal(probe), encoder)
      ensures var sel := CheckSelection(old(videoFile), old(isFileArgumentProvided));
              worker.Some? ==> ui == old(ui) + WorkerEvents(FrameTotal(probe), encoder)
      ensures var sel := CheckSelection(old(videoFile), old(isFileArgumentProvided));
              worker.Some? && usePalette ==>
                var palette := PaletteFile(tempDir, sel.video);
                && (FrameTotal(probe) > 0 ==> palette !in files)
                && (FrameTotal(probe) == 0 && paletteRun.writesOutput ==> palette in files)
    {
      ghost var sel := CheckSelection(videoFile, isFileArgumentProvided);
      worker := OnConvertButtonClicked(sizeId, usePalette, paletteRun);
      if worker.Some? {
        PlanPaths(sel.video, sizeId, fps, usePalette, tempDir);
        ghost var before := files;
        RunWorker(worker.value, probe, encoder);
        AfterWorkerCleanup(before, worker.value, FrameTotal(probe), encoder);
      }
    }

    /** The worker thread followed by the main loop delivering its queued
        `on_thread_done`. */
    method RunWorker(worker: Worker, probe: ProbeRun, encoder: EncoderRun)
      requires videoFile.Some?
      modifies this`okSensitive, this`files, this`processes, this`ui
      ensures processes == old(processes) + WorkerProcesses(videoFile.value, worker, FrameTotal(probe))
      ensures ui == old(ui) + WorkerEvents(FrameTotal(probe), encoder)
      ensures files == AfterWorker(old(files), worker, FrameTotal(probe), encoder)
      ensures okSensitive
    {
      RunFfmpeg(worker, probe, encoder);
      OnThreadDone();
    }
  }
}

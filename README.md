# video2gif, modelled in Dafny

video2gif is a small GTK tool that turns a video (`.mp4`, `.webm`, `.avi`,
`.mkv`) into an animated GIF with ffmpeg.

When the convert button is pressed, `on_convert_button_clicked`:

1. Checks the selection: a file is chosen. If a name was given on the
   command line and the flag has not since been cleared, the selected name
   holds no space or `#`. That holds even for a file picked later in the
   chooser, because only an invalid name clears the flag. Its extension is
   supported.
2. Derives the output path, the source's `splitext` root plus `.gif`.
3. In palette mode, derives a palette path in the temporary directory.
4. Builds the ffmpeg commands. In palette mode it also runs the
   palette-generation stage synchronously.
5. Starts the worker `run_ffmpeg`.

The worker:

1. Asks ffprobe for the frame total.
2. Runs the encoder and scans every output line for `frame=\s*(\d+)` to move
   the progress bar.
3. Shows a success or failure dialog from the exit code.
4. Hides the bar and removes the palette.
5. Queues `on_thread_done`, which re-enables the button.

The model has seven modules:

- `Optional` is the option type.
- `Text` covers `str.strip`, `str.isdigit`, `int`, `str` and `str.lower`.
  Digits and case are ASCII only.
- `Paths` covers `str.rfind`, `os.path.splitext`, `os.path.basename` and
  two-argument `os.path.join`.
- `Validation` holds the two name checks.
- `Commands` holds the scale filter, the output and palette paths, and the
  ffmpeg and ffprobe argument lists. It also has a small reader of ffmpeg
  argument lists that says what each list means.
- `Progress` holds the frame-total parser and the frame-number search.
- `Converter` is the window as a class. Its state is:
  - the ok button's sensitivity;
  - the selected file;
  - the command-line flag, which only an invalid name clears;
  - the set of existing files;
  - the log of every command started;
  - the ordered log of requests to the user interface, meaning dialogs and
    the callbacks queued with `GLib.idle_add`.

ffmpeg and ffprobe are inputs: their exit codes, their output lines and
whether they wrote their output file.

The model follows the code as written:

- The progress fraction is not clamped.
- A probe failure does not remove a palette that stage 1 left behind.
- An unsupported extension at click time leaves the ok button insensitive.

## Model

| member | source | states |
|---|---|---|
| Text.Strip | usr/local/bin/video2gif.py:195 | `str.strip()`: removes leading and trailing whitespace. `StripPadded` shows it returns the core of a padded string, and `StripParts` shows every string is whitespace, its strip, then whitespace. |
| Text.AllDigits | usr/local/bin/video2gif.py:196 | `str.isdigit()`: the string is non-empty and every character is a digit. |
| Text.Value | usr/local/bin/video2gif.py:196-215 | `int()` on a digit string. `ValueOfDigits` shows it reads back every printed number (the inverse of `str`), and `ValueLeadingZeros` shows leading zeros do not change it. |
| Text.Lower | usr/local/bin/video2gif.py:104 | `str.lower()`: the same length, with each character lower-cased. |
| Validation.IsSupportedFileType | usr/local/bin/video2gif.py:101-104 | `is_supported_file_type`: the lower-cased `splitext` extension is one of the four. Its declarative reading is `SupportedIff`. |
| Validation.IsValidFilename | usr/local/bin/video2gif.py:107-109 | `is_valid_filename`: neither a space nor `#` occurs in the name. `ValidFilenameIff` states it per character. |
| Validation.SupportedIff | usr/local/bin/video2gif.py:101-104 | A name is supported exactly when it ends, in any letter case, in `.mp4`, `.webm`, `.avi` or `.mkv`, and a non-dot character precedes that extension in the last path component. |
| Validation.UpperCaseAccepted | usr/local/bin/video2gif.py:104 | The extension is compared after lower-casing, so `CLIP.MKV` is accepted. |
| Validation.UnknownExtensionRejected | usr/local/bin/video2gif.py:102-104 | `clip.xyz` is rejected. |
| Validation.NoExtensionRejected | usr/local/bin/video2gif.py:103-104 | Every name without a dot is rejected. |
| Validation.DotFileRejected | usr/local/bin/video2gif.py:103-104 | `.mkv` alone has no extension under `splitext`, so it is rejected. |
| Validation.ValidFilenameIff | usr/local/bin/video2gif.py:107-109 | A name is valid exactly when no character is a space or `#`. |
| Paths.SplitExt | usr/local/bin/video2gif.py:103 | `os.path.splitext`: the extension starts at the last dot of the last component, unless only dots precede it there. `SplitExtSound` and `SplitExtOf` characterise it. |
| Paths.Basename | usr/local/bin/video2gif.py:148 | `os.path.basename`: it holds no slash, it is a suffix of the path, and either it is the whole path or a slash precedes it. |
| Paths.SplitExtSound | usr/local/bin/video2gif.py:103 | The root and extension from `splitext` concatenate to the path. A non-empty extension is one dot followed by no dot or slash, and it follows a real stem. |
| Paths.SplitExtOf | usr/local/bin/video2gif.py:103 | Splitting a stem followed by an extension returns exactly that pair. |
| Paths.Join | usr/local/bin/video2gif.py:148 | Two-argument `os.path.join`. `JoinRelativeSplit` shows that a slash-free name is appended after one separator, which is added unless the directory is empty or already ends in one. |
| Paths.JoinRelative | usr/local/bin/video2gif.py:148 | Joining a directory and a slash-free name keeps the directory as a prefix. The name ends the result and is its basename. |
| Commands.ScaleOption | usr/local/bin/video2gif.py:136 | The scale filter for the chosen size id: lanczos scaling to that width, or even dimensions for "-1". Its inverse `ScaleIdOf` is proved in `ScaleOptionRoundTrip`. |
| Commands.ScaleOptionRoundTrip | usr/local/bin/video2gif.py:136 | The size id can be read back out of the scale filter it selects. |
| Commands.ScaleOptionInjective | usr/local/bin/video2gif.py:136 | Distinct size ids give distinct filters. |
| Commands.OutputFile | usr/local/bin/video2gif.py:145 | The GIF path: the `splitext` root plus `.gif`. Its properties are in the `OutputFile…` lemmas below. |
| Commands.OutputFileShape | usr/local/bin/video2gif.py:145 | The output is the source's `splitext` root followed by `.gif`, and that root is a prefix of the source. |
| Commands.OutputFileIgnoresExtension | usr/local/bin/video2gif.py:145 | Sources differing only in their extension share one output. |
| Commands.OutputFileIdempotent | usr/local/bin/video2gif.py:145 | Deriving the output of an output gives the same name whenever the root has a stem. |
| Commands.OutputFileOfEmpty | usr/local/bin/video2gif.py:145 | The exception: the empty name gives `.gif`, whose output is `.gif.gif`. |
| Commands.OutputFileNotSource | usr/local/bin/video2gif.py:145 | The output of a supported source is never the source itself. |
| Commands.OutputFileValid | usr/local/bin/video2gif.py:145 | A source name without spaces or `#` gives an output name without them. |
| Commands.PaletteFile | usr/local/bin/video2gif.py:148 | The palette path: the temporary directory joined with the basename stem plus `_palette.png`. `PaletteFileLocation`, `PaletteFileEnds` and `PaletteFileDistinct` state its properties. |
| Commands.PaletteFileLocation | usr/local/bin/video2gif.py:148 | The palette lies directly in the temporary directory: the path starts with the directory, its basename is the source's basename stem plus `_palette.png`, and at most one separator lies between the two. |
| Commands.PaletteFileEnds | usr/local/bin/video2gif.py:148 | The palette path ends in `_palette.png`. |
| Commands.PaletteSuffixUnsupported | usr/local/bin/video2gif.py:102-104 | No name ending in `_palette.png` is a supported source. |
| Commands.PaletteFileDistinct | usr/local/bin/video2gif.py:145-148 | The palette is neither the GIF output nor any supported source. |
| Commands.PaletteGenCommand | usr/local/bin/video2gif.py:150-155 | The stage-1 argument list. Its meaning is given by `ReadPaletteGen`. |
| Commands.PaletteUseCommand | usr/local/bin/video2gif.py:157-163 | The stage-2 argument list. Its meaning is given by `ReadPaletteUse`. |
| Commands.GifCommand | usr/local/bin/video2gif.py:165-171 | The single-stage argument list. Its meaning is given by `ReadGif`. |
| Commands.ProbeCommand | usr/local/bin/video2gif.py:185-194 | The ffprobe argument list that counts the video stream's frames of the selected file. |
| Commands.BuildPlan | usr/local/bin/video2gif.py:136-171 | The commands and paths one click builds in each mode. `PlanMeaning`, `PlanOverwritesLast` and `PlanNeverWritesSource` state what they mean. |
| Commands.ReadPaletteGen | usr/local/bin/video2gif.py:150-155 | ffmpeg reads stage 1 as: source input, the `palettegen` filter, overwrite, the palette as output. |
| Commands.ReadPaletteUse | usr/local/bin/video2gif.py:157-163 | ffmpeg reads stage 2 as: source input, palette input, the `paletteuse` filter graph, overwrite, the GIF as output. |
| Commands.ReadGif | usr/local/bin/video2gif.py:165-171 | ffmpeg reads the single stage as: source input, the `fps` and scale filter, the gif codec, overwrite, the GIF as output. |
| Commands.PlanMeaning | usr/local/bin/video2gif.py:136-171 | What each stage of the click's plan means to ffmpeg, in both modes. A palette stage exists exactly in palette mode. |
| Commands.PlanOverwritesLast | usr/local/bin/video2gif.py:150-171 | Every stage ends with `-y` followed by its own output: the palette for stage 1, the GIF for the final stage. |
| Commands.PlanNeverWritesSource | usr/local/bin/video2gif.py:145-171 | For a supported source, no stage names the source as its output, and the palette is not the GIF. |
| Progress.ParseFrameTotal | usr/local/bin/video2gif.py:195-196 | The stripped probe output as an integer when it is all digits, else 0. `ParseFrameTotalIff` characterises it. |
| Progress.ParseFrameTotalIff | usr/local/bin/video2gif.py:195-196 | For every n > 0, the output gives n exactly when it is whitespace, one digit run of value n, then whitespace. Any other output gives 0. |
| Progress.SeparatedRunsRejected | usr/local/bin/video2gif.py:195-196 | `1 2` gives 0. |
| Progress.ParseFrameTotalOfCount | usr/local/bin/video2gif.py:195-196 | A count printed with any surrounding whitespace is read back as that count. |
| Progress.ParseFrameTotalLeadingZeros | usr/local/bin/video2gif.py:196 | Leading zeros are accepted, as `int` accepts them. |
| Progress.ParseFrameTotalRejects | usr/local/bin/video2gif.py:195-196 | Output holding a character that is neither a digit nor whitespace (such as `N/A`) gives 0. |
| Progress.ParseFrameTotalBlank | usr/local/bin/video2gif.py:195-196 | Empty or blank output gives 0. |
| Progress.FindFrame | usr/local/bin/video2gif.py:210-213 | `frame_pattern.search(line)` with the value of group 1. `FindFrameLeftmost` characterises it. |
| Progress.FindFrameLeftmost | usr/local/bin/video2gif.py:210-215 | The search reports the number at the leftmost position where `frame=`, optional whitespace and at least one digit match. No earlier position matches. |
| Progress.NoTokenNoFrame | usr/local/bin/video2gif.py:210-214 | A line without `frame=` reports nothing. |
| Progress.FrameReported | usr/local/bin/video2gif.py:210-215 | After a prefix without `frame=`, the line `frame=`, whitespace, the digits of n, and a non-digit reports n. |
| Progress.StatusLineExample | usr/local/bin/video2gif.py:210-215 | `frame=   42 fps=25` reports 42. |
| Converter.CheckSelection | usr/local/bin/video2gif.py:112-131 | The click's three checks in order, with the message of the first that fails. `CheckSelectionProceeds` and `CheckSelectionRejects` characterise it. |
| Converter.CheckSelectionProceeds | usr/local/bin/video2gif.py:111-131 | A click goes ahead with exactly the selected file when the file is supported and, while the command-line flag is up, validly named. |
| Converter.CheckSelectionRejects | usr/local/bin/video2gif.py:120-131 | Says exactly when the click fails the name check and exactly when it fails the extension check. |
| Converter.ChosenNameStillChecked | usr/local/bin/video2gif.py:93-125 | The flag outlives the command-line name: `my clip.mp4` picked later is still rejected for its space. |
| Converter.FrameTotal | usr/local/bin/video2gif.py:195-201 | The total the worker goes on with. A failed probe (the CalledProcessError) counts as 0, as unparsable or zero output does. |
| Converter.LineEvents | usr/local/bin/video2gif.py:213-217 | The update one encoder line causes: the reported number over the total, or nothing. |
| Converter.ProgressEvents | usr/local/bin/video2gif.py:212-217 | The updates of a run of lines, in order. `ProgressEventsAppend`, `ProgressEventsPerLine` and `ReportProgress` state its properties. |
| Converter.Verdict | usr/local/bin/video2gif.py:221-224 | The dialog for the encoder's exit code: success for 0, failure otherwise. |
| Converter.WorkerProcesses | usr/local/bin/video2gif.py:185-209 | The commands the worker starts: the probe on the selected file, then the encoder only when a frame total was found. `RunFfmpeg`, `RunWorker` and `Convert` are proved against it. |
| Converter.WorkerEvents | usr/local/bin/video2gif.py:180-234 | Every request one worker run makes, in order. `WorkerShowsOneVerdict` and `WorkerEndsWithThreadDone` state its properties. |
| Converter.AfterWorker | usr/local/bin/video2gif.py:209-231 | The files after the worker. `AfterWorkerCleanup` states its properties. |
| Converter.ProgressEventsAppend | usr/local/bin/video2gif.py:212-217 | The progress updates of consecutive stretches of encoder output concatenate. |
| Converter.ProgressEventsPerLine | usr/local/bin/video2gif.py:212-217 | There is one update per line that reports a frame number. Each update carries a reported number over the probe's total. |
| Converter.ProgressNotClamped | usr/local/bin/video2gif.py:215-217 | A frame number beyond the total is passed on unclamped: `frame=150` over 100 frames gives 150/100. |
| Converter.FilterProgress | usr/local/bin/video2gif.py:212-217 | Progress updates hold no dialog, and are all updates. |
| Converter.WorkerShowsOneVerdict | usr/local/bin/video2gif.py:198-224 | Every worker run shows exactly one dialog. It is the probe error when no total was found; otherwise it is success exactly when the encoder exited with 0. The progress updates are those of the encoder's lines, and there are none after a probe failure. |
| Converter.WorkerEndsWithThreadDone | usr/local/bin/video2gif.py:203-234 | `on_thread_done` is queued exactly once, last, right after the bar is hidden, which itself follows the dialog. |
| Converter.AfterWorkerCleanup | usr/local/bin/video2gif.py:198-231 | After the encoder ran in palette mode, the palette is gone whatever the exit code. A probe failure leaves the files as they were. No other file is removed, and only the output is added. |
| Converter.Video2GifConverter.constructor | usr/local/bin/video2gif.py:26-76 | The command-line flag is whether a name was given. An empty name becomes no selection. The frame rate is 10. Nothing has run yet. |
| Converter.Video2GifConverter.OnFileSet | usr/local/bin/video2gif.py:93-98 | The chosen name becomes the selection even when rejected. The unsupported-extension dialog appears exactly when the extension is unsupported. |
| Converter.Video2GifConverter.OnConvertButtonClicked | usr/local/bin/video2gif.py:111-176 | When a check fails: its dialog, no command, no worker. The button is untouched with no file, re-enabled after an invalid name, and left disabled after an unsupported extension; the command-line flag is cleared only by an invalid name. When the click proceeds: the button is disabled, the palette stage runs and may write the palette, and the worker starts with the planned final command unless stage 1 failed. |
| Converter.Video2GifConverter.StartWorker | usr/local/bin/video2gif.py:133-176 | Builds the plan, runs stage 1 in palette mode, and returns the worker arguments unless stage 1 exited non-zero. |
| Converter.Video2GifConverter.RunFfmpeg | usr/local/bin/video2gif.py:178-234 | The commands started are the probe, then the encoder only when a total was found. The requests are exactly the worker's requests. The files afterwards are those that the cleanup describes. |
| Converter.Video2GifConverter.CountFrames | usr/local/bin/video2gif.py:185-199 | Starts the probe on the selected file. A failed probe counts as 0; otherwise the total is the parsed output. |
| Converter.Video2GifConverter.ReportProgress | usr/local/bin/video2gif.py:212-217 | The loop queues exactly the progress updates of the lines read, in order. |
| Converter.Video2GifConverter.RunEncoder | usr/local/bin/video2gif.py:209-234 | Starts the encoder, records its output file if written, queues the updates, the verdict, the hide and `on_thread_done`, and removes the palette. |
| Converter.Video2GifConverter.FinishRun | usr/local/bin/video2gif.py:219-234 | Queues the verdict for the exit code, the hide and `on_thread_done`. In palette mode it removes the palette. |
| Converter.Video2GifConverter.OnThreadDone | usr/local/bin/video2gif.py:237-241 | The ok button is sensitive again. |
| Converter.Video2GifConverter.RunWorker | usr/local/bin/video2gif.py:178-241 | The worker followed by its queued `on_thread_done`. The commands, requests and files are those of `RunFfmpeg`, and the button ends sensitive. |
| Converter.Video2GifConverter.Convert | usr/local/bin/video2gif.py:111-241 | One press, its worker and the delivery of `on_thread_done`, with the whole new state on every path. The command-line flag ends cleared exactly when the name check failed. A rejected click shows its dialog and changes no command or file. If stage 1 fails, only stage 1 was started and its palette may stay. Otherwise the worker carries the planned final command, and the commands run in order: stage 1 in palette mode, the probe, then the encoder only if a total was found. The requests are the worker's, the files are those after the worker, and the button ends sensitive. The palette is gone once the encoder ran, and it survives a probe failure when stage 1 wrote it. |

## Left out

- GTK widgets, the builder, the window title, dialogs as windows, `gettext` translation and the window-destroy and cancel handlers are left out. Dialogs are logged by meaning (`Message`), not by translated text.
- The detail text of the probe error is dropped. That is `str(e)` appended after "Failed to retrieve total frame count: ".
- Command-line parsing and the program's entry point are left out. The constructor receives the name.
- Converter.Video2GifConverter.constructor: does not replay the `on_file_set` call that `__init__` makes for a command-line name, or its `set_filename`. What the file chooser then returns (an absolute path, or nothing for a missing file) is GTK behaviour. `OnFileSet` models the handler itself.
- The file chooser's `unselect_all` after a rejected extension is left out, because it is widget state. At click time, the reference to the never-assigned `self.file_chooser_button` (line 130) raises an AttributeError. That ends the handler just after the dialog, as a return would, and the model ends it there.
- Threads and `GLib.idle_add` are modelled as an ordered log of requests, which the main loop runs in order. Interleaving with other events is not modelled, including a second click and the worker reading `self.video_file` while it is concurrently changed. Convert delivers `on_thread_done` right after the worker.
- Processes are not run. The exit code, the output and whether the output file was written are inputs (`EncoderRun`, `ProbeRun`). The merged stdout and stderr of the encoder arrive already split into lines. `universal_newlines` decoding is not modelled. A program that fails to start is not modelled either. A missing ffprobe (line 195) or ffmpeg (line 209) raises FileNotFoundError, which the handler at line 201 does not catch. The worker thread then ends with no dialog, no hiding of the bar and no `on_thread_done`, so the button stays insensitive. `ProbeRun` and `EncoderRun` always carry an exit code.
- When stage 1 exits non-zero, `check=True` raises CalledProcessError and leaves the handler: no worker is started and the button stays off. This is modelled as the handler returning no worker. The traceback is not modelled.
- `tempfile.gettempdir()` is a constructor parameter. The file system is a set of paths; `os.path.isfile` is membership and `os.remove` is removal.
- The progress fraction is IEEE floating-point `current / total`. It is kept as the exact pair (`ProgressFraction`), and rounding is not modelled. Python raises an uncaught OverflowError at line 216 when the quotient exceeds the float range, for example a frame number of about 310 digits over a small total. That ends the worker thread with no verdict, no hiding of the bar and no `on_thread_done`, so the button stays insensitive. The model emits the update and carries on.
- `str.isspace` and `\s` use Python's full whitespace set. `str.isdigit`, `\d` and `str.lower` are modelled on ASCII only; Unicode digits and case mappings are not modelled.
- Python's integers are unbounded, and so are the model's. The limit of 4300 digits that Python 3.11 and later put on `int()` of a string is not modelled. At line 196 a longer total raises a ValueError, which leads to the probe-error path. At line 215 a longer frame number raises an uncaught ValueError, which ends the worker thread with no verdict and no `on_thread_done`. The model lets `ParseFrameTotal` and `FindFrame` read numbers of any length.

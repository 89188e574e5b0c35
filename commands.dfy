/** How `on_convert_button_clicked` derives the output and palette paths and
    builds the ffmpeg argument lists, plus the ffprobe command of `run_ffmpeg`.
    A small reader of ffmpeg argument lists (`ReadArgs`) gives the commands a
    meaning independent of the list literals. */
module Commands {
  import opened Optional
  import opened Text
  import opened Paths
  import opened Validation

  /** The filter chosen for the size id "-1": both dimensions rounded down to even. */
  const EvenScale: string := "scale=trunc(iw/2)*2:trunc(ih/2)*2"
  const LanczosSuffix: string := ":-1:flags=lanczos"

  /** The scale filter for a size id from the size combo box. */
  function ScaleOption(sizeId: string): string {
    if sizeId != "-1" then "scale=" + sizeId + LanczosSuffix else EvenScale
  }

  /** Reads the size id back out of a scale filter. */
  function ScaleIdOf(option: string): Option<string> {
    if option == EvenScale then Some("-1")
    else if |option| >= 6 + |LanczosSuffix| && option[..6] == "scale="
            && option[|option| - |LanczosSuffix|..] == LanczosSuffix
    then Some(option[6..|option| - |LanczosSuffix|])
    else None
  }

  /** The size id can be read back from the filter it selects, so distinct
      ids select distinct filters. */
  lemma ScaleOptionRoundTrip(sizeId: string)
    ensures ScaleIdOf(ScaleOption(sizeId)) == Some(sizeId)
  {
    if sizeId != "-1" {
      var o := "scale=" + sizeId + LanczosSuffix;
      assert o[|o| - 1] == 's';
      assert EvenScale[|EvenScale| - 1] == '2';
      assert o[..6] == "scale=";
      assert o[|o| - |LanczosSuffix|..] == LanczosSuffix;
      assert o[6..|o| - |LanczosSuffix|] == sizeId;
    }
  }

  lemma ScaleOptionInjective(a: string, b: string)
    requires ScaleOption(a) == ScaleOption(b)
    ensures a == b
  {
    ScaleOptionRoundTrip(a);
    ScaleOptionRoundTrip(b);
  }

  /** The GIF written next to the source: its `splitext` root plus ".gif". */
  function OutputFile(video: string): string {
    SplitExt(video).root + ".gif"
  }

  /** The output keeps everything of the source before its extension and ends in ".gif". */
  lemma OutputFileShape(video: string)
    ensures |OutputFile(video)| >= 4
    ensures OutputFile(video)[|OutputFile(video)| - 4..] == ".gif"
    ensures OutputFile(video)[..|OutputFile(video)| - 4] == SplitExt(video).root
    ensures SplitExt(video).root == video[..|SplitExt(video).root|]
  {
    SplitExtSound(video);
  }

  /** Sources that differ only in their extension map to the same output. */
  lemma OutputFileIgnoresExtension(stem: string, e1: string, e2: string)
    requires HasStem(stem) && IsExtension(e1) && IsExtension(e2)
    ensures OutputFile(stem + e1) == OutputFile(stem + e2) == stem + ".gif"
  {
    SplitExtOf(stem, e1);
    SplitExtOf(stem, e2);
  }

  /** Converting the output name again gives the same name, unless the
      source's root has no stem (the source "" gives ".gif", then ".gif.gif"). */
  lemma OutputFileIdempotent(video: string)
    requires HasStem(SplitExt(video).root)
    ensures OutputFile(OutputFile(video)) == OutputFile(video)
  {
    SplitExtSound(video);
    SplitExtOf(SplitExt(video).root, ".gif");
  }

  /** The empty name is the exception: its output ".gif" is a dot-file and
      gains a second ".gif". */
  lemma OutputFileOfEmpty()
    ensures OutputFile("") == ".gif"
    ensures OutputFile(OutputFile("")) == ".gif.gif"
  {
    assert SplitExt("") == PathSplit("", "");
    assert SplitExt(".gif") == PathSplit(".gif", "");
  }

  /** The output never overwrites a supported source. */
  lemma OutputFileNotSource(video: string)
    requires IsSupportedFileType(video)
    ensures OutputFile(video) != video
  {
    SplitExtSound(video);
    var s := SplitExt(video);
    var o := OutputFile(video);
    assert o[|s.root|..] == ".gif";
    assert video[|s.root|..] == s.ext;
    assert Lower(".gif") == ".gif";
    assert s.ext != ".gif";
  }

  /** Keeping a name free of spaces and `#` keeps its output free of them. */
  lemma OutputFileValid(video: string)
    requires IsValidFilename(video)
    ensures IsValidFilename(OutputFile(video))
  {
    OutputFileShape(video);
    var r := SplitExt(video).root;
    assert forall k :: 0 <= k < |r| ==> r[k] == video[k];
  }

  const PaletteSuffix: string := "_palette.png"

  /** The temporary palette: the scratch directory joined with the source's
      basename stem plus "_palette.png". */
  function PaletteFile(tempDir: string, video: string): string {
    Join(tempDir, SplitExt(Basename(video)).root + PaletteSuffix)
  }

  /** The stem of a basename holds no slash. */
  lemma BasenameStemNoSlash(video: string)
    ensures '/' !in SplitExt(Basename(video)).root
  {
    var b := Basename(video);
    SplitExtSound(b);
    var stem := SplitExt(b).root;
    forall k | 0 <= k < |stem| ensures stem[k] != '/' {
      assert stem[k] == b[k];
    }
  }

  /** The palette lies directly in the scratch directory (at most one
      separator between the two) and is named after the source's basename
      without its extension. */
  lemma PaletteFileLocation(tempDir: string, video: string)
    ensures |tempDir| <= |PaletteFile(tempDir, video)|
    ensures PaletteFile(tempDir, video)[..|tempDir|] == tempDir
    ensures Basename(PaletteFile(tempDir, video)) == SplitExt(Basename(video)).root + PaletteSuffix
    ensures |PaletteFile(tempDir, video)| <= |tempDir| + 1 + |SplitExt(Basename(video)).root + PaletteSuffix|
  {
    var stem := SplitExt(Basename(video)).root;
    BasenameStemNoSlash(video);
    PaletteNameLocation(tempDir, stem);
    NoSlashAppend(stem, PaletteSuffix);
    JoinRelativeSplit(tempDir, stem + PaletteSuffix);
  }

  lemma PaletteNameLocation(tempDir: string, stem: string)
    requires '/' !in stem
    ensures |tempDir| <= |Join(tempDir, stem + PaletteSuffix)|
    ensures Join(tempDir, stem + PaletteSuffix)[..|tempDir|] == tempDir
    ensures Basename(Join(tempDir, stem + PaletteSuffix)) == stem + PaletteSuffix
    ensures EndsWith(Join(tempDir, stem + PaletteSuffix), PaletteSuffix)
  {
    var name := stem + PaletteSuffix;
    assert '/' !in name by {
      assert '/' !in PaletteSuffix;
      NoSlashAppend(stem, PaletteSuffix);
    }
    JoinRelative(tempDir, name);
    EndsWithPart(Join(tempDir, name), stem, PaletteSuffix);
  }

  lemma NoSlashAppend(a: string, b: string)
    requires '/' !in a && '/' !in b
    ensures '/' !in a + b
  {
    forall k | 0 <= k < |a + b| ensures (a + b)[k] != '/' {
      if k < |a| { assert (a + b)[k] == a[k]; } else { assert (a + b)[k] == b[k - |a|]; }
    }
  }

  /** A string ending in `a + b` ends in `b`. */
  lemma EndsWithPart(p: string, a: string, b: string)
    requires EndsWith(p, a + b)
    ensures EndsWith(p, b)
  {
    assert p[|p| - |b|..] == p[|p| - |a + b|..][|a|..];
  }

  /** The palette path ends with the palette suffix. */
  lemma PaletteFileEnds(tempDir: string, video: string)
    ensures EndsWith(PaletteFile(tempDir, video), PaletteSuffix)
  {
    BasenameStemNoSlash(video);
    PaletteNameLocation(tempDir, SplitExt(Basename(video)).root);
  }

  /** No name ending in the palette suffix is a supported source. */
  lemma PaletteSuffixUnsupported(p: string)
    requires EndsWith(p, PaletteSuffix)
    ensures !IsSupportedFileType(p)
  {
    forall e | e in SupportedExtensions ensures !EndsWithExtension(p, e) {
      var tail := p[|p| - |e|..];
      assert |e| == 4 ==> tail == ".png";
      assert |e| == 5 ==> tail == "e.png";
      assert Lower(".png") == ".png" && Lower("e.png") == "e.png";
    }
    SupportedIff(p);
  }

  /** The palette, ending in ".png", is never the output (".gif") nor a supported source. */
  lemma PaletteFileDistinct(tempDir: string, video: string, source: string)
    requires IsSupportedFileType(source)
    ensures PaletteFile(tempDir, video) != OutputFile(video)
    ensures PaletteFile(tempDir, video) != source
  {
    var p := PaletteFile(tempDir, video);
    PaletteFileEnds(tempDir, video);
    assert p[|p| - 1] == 'g';
    OutputFileShape(video);
    var o := OutputFile(video);
    assert o[|o| - 1] == 'f';
    PaletteSuffixUnsupported(p);
  }

  /** The reference reading of the ffmpeg options the converter passes. */
  datatype FfmpegArg =
    | Input(path: string)
    | VideoFilter(graph: string)
    | FilterComplex(graph: string)
    | VideoCodec(codec: string)
    | Overwrite
    | OutputPath(path: string)

  /** Reads an ffmpeg argument list (after the program name): "-i", "-vf",
      "-lavfi" and "-c:v" take the next argument, "-y" stands alone and any
      other argument names an output. */
  function ReadArgs(args: seq<string>): seq<FfmpegArg>
    decreases |args|
  {
    if args == [] then []
    else if |args| >= 2 && args[0] == "-i" then [Input(args[1])] + ReadArgs(args[2..])
    else if |args| >= 2 && args[0] == "-vf" then [VideoFilter(args[1])] + ReadArgs(args[2..])
    else if |args| >= 2 && args[0] == "-lavfi" then [FilterComplex(args[1])] + ReadArgs(args[2..])
    else if |args| >= 2 && args[0] == "-c:v" then [VideoCodec(args[1])] + ReadArgs(args[2..])
    else if args[0] == "-y" then [Overwrite] + ReadArgs(args[1..])
    else [OutputPath(args[0])] + ReadArgs(args[1..])
  }

  predicate IsOption(a: string) {
    a == "-i" || a == "-vf" || a == "-lavfi" || a == "-c:v" || a == "-y"
  }

  /** Stage 1 of palette mode: write the palette generated from the scaled source. */
  function PaletteGenCommand(video: string, scale: string, palette: string): seq<string> {
    ["ffmpeg", "-i", video, "-vf", scale + ",palettegen", "-y", palette]
  }

  /** Stage 2 of palette mode: map the scaled source onto the palette. */
  function PaletteUseCommand(video: string, palette: string, scale: string, output: string): seq<string> {
    ["ffmpeg", "-i", video, "-i", palette, "-lavfi", scale + " [x]; [x][1:v] paletteuse", "-y", output]
  }

  /** The single stage without a palette: fixed frame rate, scale, gif codec. */
  function GifCommand(video: string, fps: string, scale: string, output: string): seq<string> {
    ["ffmpeg", "-i", video, "-vf", "fps=" + fps + "," + scale, "-c:v", "gif", "-y", output]
  }

  /** The frame-count query of `run_ffmpeg`. */
  function ProbeCommand(video: string): seq<string> {
    ["ffprobe", "-v", "error", "-select_streams", "v:0", "-count_frames",
     "-show_entries", "stream=nb_read_frames", "-of", "default=nokey=1:noprint_wrappers=1", video]
  }

  /** The commands one click builds: an optional palette stage, the final
      stage, the GIF output and, in palette mode, the palette file. */
  datatype EncodePlan = EncodePlan(paletteStage: Option<seq<string>>, finalStage: seq<string>,
                                   output: string, palette: Option<string>)

  function BuildPlan(video: string, sizeId: string, fps: string, usePalette: bool, tempDir: string): EncodePlan {
    var scale := ScaleOption(sizeId);
    var output := OutputFile(video);
    if usePalette then
      var palette := PaletteFile(tempDir, video);
      EncodePlan(Some(PaletteGenCommand(video, scale, palette)),
                 PaletteUseCommand(video, palette, scale, output), output, Some(palette))
    else
      EncodePlan(None, GifCommand(video, fps, scale, output), output, None)
  }

  /** The paths a plan writes: the output always, the palette in palette mode. */
  lemma PlanPaths(video: string, sizeId: string, fps: string, usePalette: bool, tempDir: string)
    ensures BuildPlan(video, sizeId, fps, usePalette, tempDir).output == OutputFile(video)
    ensures BuildPlan(video, sizeId, fps, usePalette, tempDir).palette
              == (if usePalette then Some(PaletteFile(tempDir, video)) else None)
  {
  }

  /** A path ending in 'g', or longer than three characters and ending in
      'f', is not an option. */
  lemma NotOptionByShape(p: string)
    requires p != [] && (p[|p| - 1] == 'g' || (|p| > 3 && p[|p| - 1] == 'f'))
    ensures !IsOption(p)
  {
  }

  lemma OutputNotOption(video: string)
    ensures !IsOption(OutputFile(video))
  {
    OutputFileShape(video);
    var o := OutputFile(video);
    assert o[|o| - 1] == ".gif"[3];
    NotOptionByShape(o);
  }

  lemma PaletteNotOption(tempDir: string, video: string)
    ensures !IsOption(PaletteFile(tempDir, video))
  {
    PaletteFileEnds(tempDir, video);
    var p := PaletteFile(tempDir, video);
    assert p[|p| - 1] == PaletteSuffix[|PaletteSuffix| - 1];
    NotOptionByShape(p);
  }

  lemma ReadOverwriteOutput(output: string)
    requires !IsOption(output)
    ensures ReadArgs(["-y", output]) == [Overwrite, OutputPath(output)]
  {
    assert ["-y", output][1..] == [output];
    assert ReadArgs([output]) == [OutputPath(output)] + ReadArgs([output][1..]);
    assert [output][1..] == [];
  }

  /** ffmpeg reads the palette-generation command as: the source, the
      palettegen filter, overwrite, the palette. */
  lemma ReadPaletteGen(video: string, scale: string, palette: string)
    requires !IsOption(palette)
    ensures ReadArgs(PaletteGenCommand(video, scale, palette)[1..]) ==
            [Input(video), VideoFilter(scale + ",palettegen"), Overwrite, OutputPath(palette)]
  {
    var t2 := ["-y", palette];
    var t1 := ["-vf", scale + ",palettegen"] + t2;
    var t0 := ["-i", video] + t1;
    assert PaletteGenCommand(video, scale, palette)[1..] == t0;
    ReadOverwriteOutput(palette);
    assert t1[2..] == t2 && t0[2..] == t1;
  }

  /** ffmpeg reads the palette-use command as: the source, then the palette,
      the paletteuse filter graph, overwrite, the output. */
  lemma ReadPaletteUse(video: string, palette: string, scale: string, output: string)
    requires !IsOption(output)
    ensures ReadArgs(PaletteUseCommand(video, palette, scale, output)[1..]) ==
            [Input(video), Input(palette), FilterComplex(scale + " [x]; [x][1:v] paletteuse"),
             Overwrite, OutputPath(output)]
  {
    var t3 := ["-y", output];
    var t2 := ["-lavfi", scale + " [x]; [x][1:v] paletteuse"] + t3;
    var t1 := ["-i", palette] + t2;
    var t0 := ["-i", video] + t1;
    assert PaletteUseCommand(video, palette, scale, output)[1..] == t0;
    ReadOverwriteOutput(output);
    assert t2[2..] == t3 && t1[2..] == t2 && t0[2..] == t1;
    assert ReadArgs(t2) == [FilterComplex(scale + " [x]; [x][1:v] paletteuse")] + ReadArgs(t3);
    assert ReadArgs(t1) == [Input(palette)] + ReadArgs(t2);
    assert ReadArgs(t0) == [Input(video)] + ReadArgs(t1);
  }

  /** ffmpeg reads the single-stage command as: the source, the fps and scale
      filter, the gif codec, overwrite, the output. */
  lemma ReadGif(video: string, fps: string, scale: string, output: string)
    requires !IsOption(output)
    ensures ReadArgs(GifCommand(video, fps, scale, output)[1..]) ==
            [Input(video), VideoFilter("fps=" + fps + "," + scale), VideoCodec("gif"),
             Overwrite, OutputPath(output)]
  {
    var t3 := ["-y", output];
    var t2 := ["-c:v", "gif"] + t3;
    var t1 := ["-vf", "fps=" + fps + "," + scale] + t2;
    var t0 := ["-i", video] + t1;
    assert GifCommand(video, fps, scale, output)[1..] == t0;
    ReadOverwriteOutput(output);
    assert t2[2..] == t3 && t1[2..] == t2 && t0[2..] == t1;
    assert ReadArgs(t2) == [VideoCodec("gif")] + ReadArgs(t3);
    assert ReadArgs(t1) == [VideoFilter("fps=" + fps + "," + scale)] + ReadArgs(t2);
    assert ReadArgs(t0) == [Input(video)] + ReadArgs(t1);
  }

  /** What each stage of the plan means to ffmpeg. Non-palette mode runs one
      command: the source, the filter "fps=<fps>,<scale>", the gif codec.
      Palette mode runs two: the first writes the palette generated from the
      source, the second reads the source and then the palette. Every stage
      ends with the overwrite flag followed by its output, and the final
      stage writes the source's GIF name. */
  lemma PlanMeaning(video: string, sizeId: string, fps: string, usePalette: bool, tempDir: string)
    ensures var plan := BuildPlan(video, sizeId, fps, usePalette, tempDir);
            var scale := ScaleOption(sizeId);
            && plan.paletteStage.Some? == usePalette
            && plan.palette.Some? == usePalette
            && plan.output == OutputFile(video)
            && plan.finalStage[0] == "ffmpeg"
            && (usePalette ==>
                  && plan.paletteStage.value[0] == "ffmpeg"
                  && ReadArgs(plan.paletteStage.value[1..]) ==
                       [Input(video), VideoFilter(scale + ",palettegen"), Overwrite, OutputPath(plan.palette.value)]
                  && ReadArgs(plan.finalStage[1..]) ==
                       [Input(video), Input(plan.palette.value),
                        FilterComplex(scale + " [x]; [x][1:v] paletteuse"), Overwrite, OutputPath(plan.output)])
            && (!usePalette ==>
                  ReadArgs(plan.finalStage[1..]) ==
                    [Input(video), VideoFilter("fps=" + fps + "," + scale), VideoCodec("gif"),
                     Overwrite, OutputPath(plan.output)])
  {
    var scale := ScaleOption(sizeId);
    var output := OutputFile(video);
    OutputNotOption(video);
    if usePalette {
      var palette := PaletteFile(tempDir, video);
      PaletteNotOption(tempDir, video);
      ReadPaletteGen(video, scale, palette);
      ReadPaletteUse(video, palette, scale, output);
    } else {
      ReadGif(video, fps, scale, output);
    }
  }

  /** In every stage the argument before the last is "-y" and the last is the
      stage's output: the palette for stage 1, the GIF for the final stage. */
  lemma PlanOverwritesLast(video: string, sizeId: string, fps: string, usePalette: bool, tempDir: string)
    ensures var plan := BuildPlan(video, sizeId, fps, usePalette, tempDir);
            var f := plan.finalStage;
            && |f| >= 2 && f[|f| - 2] == "-y" && f[|f| - 1] == plan.output
            && (usePalette ==>
                  var g := plan.paletteStage.value;
                  |g| >= 2 && g[|g| - 2] == "-y" && g[|g| - 1] == plan.palette.value)
  {
  }

  /** No stage of the plan for a supported source names the source as an output. */
  lemma PlanNeverWritesSource(video: string, sizeId: string, fps: string, usePalette: bool, tempDir: string)
    requires IsSupportedFileType(video)
    ensures var plan := BuildPlan(video, sizeId, fps, usePalette, tempDir);
            && plan.output != video
            && (usePalette ==> plan.palette.value != video && plan.palette.value != plan.output)
  {
    OutputFileNotSource(video);
    PaletteFileDistinct(tempDir, video, video);
  }
}

/** The two checks the converter applies to the selected file name
    (`is_supported_file_type`, `is_valid_filename`). */
module Validation {
  import opened Text
  import opened Paths

  /** The extensions accepted, compared after lower-casing. */
  const SupportedExtensions: seq<string> := [".mp4", ".webm", ".avi", ".mkv"]

  /** `is_supported_file_type`: the lower-cased `splitext` extension is one of
      the supported ones. */
  predicate IsSupportedFileType(filename: string) {
    Lower(SplitExt(filename).ext) in SupportedExtensions
  }

  /** `is_valid_filename`: neither a space nor a `#` occurs in the name. */
  predicate IsValidFilename(filename: string) {
    ' ' !in filename && '#' !in filename
  }

  /** `f` ends, ignoring case, in extension `e` that follows a real stem. */
  ghost predicate EndsWithExtension(f: string, e: string) {
    |e| <= |f| && Lower(f[|f| - |e|..]) == e && HasStem(f[..|f| - |e|])
  }

  lemma SupportedAreExtensions(e: string)
    requires e in SupportedExtensions
    ensures IsExtension(e)
  {
  }

  /** Lower-casing maps a character to '.' or '/' only if it already was one. */
  lemma LowerKeepsSeparators(c: char)
    ensures (LowerChar(c) == '.') == (c == '.')
    ensures (LowerChar(c) == '/') == (c == '/')
  {
  }

  /** A supported name ends, case aside, in one of the supported extensions. */
  lemma SupportedOnlyIf(f: string)
    requires IsSupportedFileType(f)
    ensures exists e :: e in SupportedExtensions && EndsWithExtension(f, e)
  {
    var s := SplitExt(f);
    SplitExtSound(f);
    var e := Lower(s.ext);
    assert f[|f| - |e|..] == s.ext && f[..|f| - |e|] == s.root;
    assert EndsWithExtension(f, e);
  }

  /** A supported extension, case aside, is extension-shaped. */
  lemma LowerToExtension(ext: string, e: string)
    requires e in SupportedExtensions && Lower(ext) == e
    ensures IsExtension(ext)
  {
    SupportedAreExtensions(e);
    forall k | 0 <= k < |ext| ensures (ext[k] == '.') == (k == 0) && ext[k] != '/' {
      LowerKeepsSeparators(ext[k]);
      assert LowerChar(ext[k]) == e[k];
      if k > 0 { assert e[k] == e[1..][k - 1]; }
    }
    forall j | 0 <= j < |ext[1..]| ensures ext[1..][j] != '.' && ext[1..][j] != '/' {
      assert ext[1..][j] == ext[j + 1];
    }
  }

  lemma SupportedIf(f: string, e: string)
    requires e in SupportedExtensions && EndsWithExtension(f, e)
    ensures IsSupportedFileType(f)
  {
    var root, ext := f[..|f| - |e|], f[|f| - |e|..];
    LowerToExtension(ext, e);
    assert root + ext == f;
    SplitExtOf(root, ext);
  }

  /** A name is supported exactly when it ends, in any letter case, in one of
      the supported extensions and something other than dots precedes it in
      the final path component. */
  lemma SupportedIff(f: string)
    ensures IsSupportedFileType(f) <==>
            exists e :: e in SupportedExtensions && EndsWithExtension(f, e)
  {
    if IsSupportedFileType(f) {
      SupportedOnlyIf(f);
    }
    if exists e :: e in SupportedExtensions && EndsWithExtension(f, e) {
      var e :| e in SupportedExtensions && EndsWithExtension(f, e);
      SupportedIf(f, e);
    }
  }

  /** Upper-case extensions are accepted. */
  lemma UpperCaseAccepted()
    ensures IsSupportedFileType("CLIP.MKV")
  {
    assert "CLIP.MKV"[..4] == "CLIP" && "CLIP"[0] != '.' && '/' !in "CLIP"[0..];
    assert Lower("CLIP.MKV"[4..]) == ".mkv";
    SupportedIf("CLIP.MKV", ".mkv");
  }

  /** An unknown extension is rejected. */
  lemma UnknownExtensionRejected()
    ensures !IsSupportedFileType("clip.xyz")
  {
    assert "clip.xyz" == "clip" + ".xyz";
    assert "clip"[0] != '.' && '/' !in "clip"[0..];
    SplitExtOf("clip", ".xyz");
    assert Lower(".xyz") == ".xyz";
  }

  /** A name without any dot is rejected. */
  lemma NoExtensionRejected(f: string)
    requires '.' !in f
    ensures !IsSupportedFileType(f)
  {
    assert LastIndexOf(f, '.') == -1;
  }

  /** A dot-file named after an extension has no extension and is rejected. */
  lemma DotFileRejected()
    ensures !IsSupportedFileType(".mkv")
  {
    assert SplitExt(".mkv") == PathSplit(".mkv", "");
  }

  /** `is_valid_filename` holds exactly when no character is a space or `#`. */
  lemma ValidFilenameIff(f: string)
    ensures IsValidFilename(f) <==> forall k :: 0 <= k < |f| ==> f[k] != ' ' && f[k] != '#'
  {
  }
}

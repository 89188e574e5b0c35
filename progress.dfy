/** The two parsers of `run_ffmpeg`: the frame total read from ffprobe's
    output, and the `frame=\s*(\d+)` search run on every encoder line. */
module Progress {
  import opened Optional
  import opened Text

  /** The frame total: the stripped probe output as an integer when it is all
      digits, otherwise 0 (which `run_ffmpeg` treats as a failure). */
  function ParseFrameTotal(output: string): nat {
    var s := Strip(output);
    if AllDigits(s) then Value(s) else 0
  }

  lemma DigitsNotSpace(n: nat)
    ensures !IsSpace(Digits(n)[0]) && !IsSpace(Digits(n)[|Digits(n)| - 1])
  {
  }

  /** A count printed by the probe, with any surrounding whitespace or
      newline, is read back as that count. */
  lemma ParseFrameTotalOfCount(a: string, n: nat, b: string)
    requires AllSpace(a) && AllSpace(b)
    ensures ParseFrameTotal(a + Digits(n) + b) == n
  {
    DigitsNotSpace(n);
    StripPadded(a, Digits(n), b);
    ValueOfDigits(n);
  }

  /** Leading zeros are accepted, as `int` accepts them. */
  lemma ParseFrameTotalLeadingZeros(z: string, n: nat)
    requires forall k :: 0 <= k < |z| ==> z[k] == '0'
    ensures ParseFrameTotal(z + Digits(n)) == n
  {
    var d := z + Digits(n);
    ZerosThenDigits(z, n);
    assert [] + d + [] == d;
    StripPadded([], d, []);
    ValueLeadingZeros(z, Digits(n));
    ValueOfDigits(n);
  }

  /** Zeros followed by a printed count are digits with no whitespace at
      either end. */
  lemma ZerosThenDigits(z: string, n: nat)
    requires forall k :: 0 <= k < |z| ==> z[k] == '0'
    ensures var d := z + Digits(n); AllDigits(d) && !IsSpace(d[0]) && !IsSpace(d[|d| - 1])
  {
    var d := z + Digits(n);
    assert d[|d| - 1] == Digits(n)[|Digits(n)| - 1];
    DigitsNotSpace(n);
    assert forall k :: 0 <= k < |d| ==> IsDigit(d[k]) by {
      forall k | 0 <= k < |d| ensures IsDigit(d[k]) {
        if k < |z| { assert d[k] == z[k]; } else { assert d[k] == Digits(n)[k - |z|]; }
      }
    }
  }

  /** Output holding anything besides digits and whitespace (such as "N/A")
      gives 0. */
  lemma ParseFrameTotalRejects(output: string, k: nat)
    requires k < |output| && !IsDigit(output[k]) && !IsSpace(output[k])
    ensures ParseFrameTotal(output) == 0
  {
    StripKeeps(output, k);
  }

  /** A positive total is read exactly from output that is one run of digits
      with that value, padded by whitespace on either side; every other
      output gives 0 (so do several runs, as in "1 2"). */
  lemma ParseFrameTotalIff(output: string, n: nat)
    requires n > 0
    ensures ParseFrameTotal(output) == n <==>
            exists a, d, b :: output == a + d + b && AllSpace(a) && AllSpace(b)
                              && AllDigits(d) && Value(d) == n
  {
    if ParseFrameTotal(output) == n {
      var a, b := StripParts(output);
      var d := Strip(output);
      assert AllDigits(d) && Value(d) == n;
      assert output == a + d + b;
    }
    if exists a, d, b :: output == a + d + b && AllSpace(a) && AllSpace(b)
                         && AllDigits(d) && Value(d) == n {
      var a, d, b :| output == a + d + b && AllSpace(a) && AllSpace(b)
                     && AllDigits(d) && Value(d) == n;
      ParseFrameTotalPadded(a, d, b);
    }
  }

  /** Whitespace around a digit run is ignored. */
  lemma ParseFrameTotalPadded(a: string, d: string, b: string)
    requires AllSpace(a) && AllSpace(b) && AllDigits(d)
    ensures ParseFrameTotal(a + d + b) == Value(d)
  {
    assert IsDigit(d[0]) && IsDigit(d[|d| - 1]);
    StripPadded(a, d, b);
  }

  /** Output with no whitespace at either end is parsed as it stands. */
  lemma ParseFrameTotalUnpadded(s: string)
    requires s != [] && !IsSpace(s[0]) && !IsSpace(s[|s| - 1])
    ensures ParseFrameTotal(s) == if AllDigits(s) then Value(s) else 0
  {
    assert [] + s + [] == s;
    StripPadded([], s, []);
  }

  /** Two digit runs separated by a space give 0. */
  lemma SeparatedRunsRejected()
    ensures ParseFrameTotal("1 2") == 0
  {
    var s := "1 2";
    ParseFrameTotalUnpadded(s);
    assert !IsDigit(s[1]);
  }

  /** Empty or blank output gives 0. */
  lemma ParseFrameTotalBlank(output: string)
    requires AllSpace(output)
    ensures ParseFrameTotal(output) == 0
  {
    StripLeadingPadded(output, []);
    assert output + [] == output;
  }

  /** The literal the frame pattern starts with. */
  const FramePrefix: string := "frame="

  /** The end of the whitespace run starting at `i` (the greedy `\s*`). */
  function SkipSpace(line: string, i: nat): (r: nat)
    requires i <= |line|
    ensures i <= r <= |line|
    decreases |line| - i
  {
    if i < |line| && IsSpace(line[i]) then SkipSpace(line, i + 1) else i
  }

  /** The end of the digit run starting at `i` (the greedy `\d+`). */
  function SkipDigits(line: string, i: nat): (r: nat)
    requires i <= |line|
    ensures i <= r <= |line|
    ensures forall k :: i <= k < r ==> IsDigit(line[k])
    decreases |line| - i
  {
    if i < |line| && IsDigit(line[i]) then SkipDigits(line, i + 1) else i
  }

  /** The whitespace run from `s` ends at `k` when everything in between is
      whitespace and `line[k]` is not. */
  lemma {:induction false} SkipSpaceTo(line: string, s: nat, k: nat)
    requires s <= k <= |line|
    requires forall q :: s <= q < k ==> IsSpace(line[q])
    requires k == |line| || !IsSpace(line[k])
    ensures SkipSpace(line, s) == k
    decreases k - s
  {
    if s < k {
      SkipSpaceTo(line, s + 1, k);
    }
  }

  /** The digit run from `k` ends at `m` when everything in between is a
      digit and `line[m]` is not. */
  lemma {:induction false} SkipDigitsTo(line: string, k: nat, m: nat)
    requires k <= m <= |line|
    requires forall q :: k <= q < m ==> IsDigit(line[q])
    requires m == |line| || !IsDigit(line[m])
    ensures SkipDigits(line, k) == m
    decreases m - k
  {
    if k < m {
      SkipDigitsTo(line, k + 1, m);
    }
  }

  /** "frame=" occurs in `s` at position `i`. */
  predicate TokenAt(s: string, i: nat) {
    i + |FramePrefix| <= |s| && s[i..i + |FramePrefix|] == FramePrefix
  }

  /** The pattern anchored at position `i`: "frame=", optional whitespace,
      then at least one digit; the value of the whole digit run. */
  function MatchAt(line: string, i: nat): Option<nat>
    requires i <= |line|
  {
    if TokenAt(line, i) then NumberAt(line, SkipSpace(line, i + |FramePrefix|)) else None
  }

  /** The greedy `(\d+)` at position `k`: the value of the digit run there,
      if the run is not empty. */
  function NumberAt(line: string, k: nat): Option<nat>
    requires k <= |line|
  {
    var m := SkipDigits(line, k);
    if k < m then Some(Value(line[k..m])) else None
  }

  /** `re.search` from position `i` on: the first position that matches. */
  function FindFrameFrom(line: string, i: nat): Option<nat>
    requires i <= |line|
    decreases |line| - i
  {
    if i == |line| then None
    else if MatchAt(line, i).Some? then MatchAt(line, i)
    else FindFrameFrom(line, i + 1)
  }

  /** The frame number a line reports, if any. */
  function FindFrame(line: string): Option<nat> {
    FindFrameFrom(line, 0)
  }

  /** The leftmost matching position from `i` on, or `|line|` when none matches. */
  function FirstMatch(line: string, i: nat): (j: nat)
    requires i <= |line|
    ensures i <= j <= |line|
    ensures j < |line| ==> MatchAt(line, j).Some?
    ensures forall k :: i <= k < j ==> MatchAt(line, k).None?
    decreases |line| - i
  {
    if i == |line| || MatchAt(line, i).Some? then i else FirstMatch(line, i + 1)
  }

  /** The search returns the value at the leftmost matching position. */
  lemma {:induction false} FindFrameFromFirst(line: string, i: nat)
    requires i <= |line|
    ensures FindFrameFrom(line, i) ==
            if FirstMatch(line, i) < |line| then MatchAt(line, FirstMatch(line, i)) else None
    decreases |line| - i
  {
    if i < |line| && MatchAt(line, i).None? {
      FindFrameFromFirst(line, i + 1);
    }
  }

  /** The search from `i` returns the match at `j` when nothing matches in between. */
  lemma {:induction false} FindFrameFromAt(line: string, i: nat, j: nat)
    requires i <= j <= |line| && MatchAt(line, j).Some?
    requires forall k :: i <= k < j ==> MatchAt(line, k).None?
    ensures FindFrameFrom(line, i) == MatchAt(line, j)
    decreases j - i
  {
    if i < j {
      FindFrameFromAt(line, i + 1, j);
    }
  }

  /** `re.search` semantics: a line reports `n` exactly when some position
      matches with value `n` and no earlier position matches. */
  lemma FindFrameLeftmost(line: string, n: nat)
    ensures FindFrame(line) == Some(n) <==>
            exists j :: 0 <= j <= |line| && MatchAt(line, j) == Some(n)
                        && forall k :: 0 <= k < j ==> MatchAt(line, k).None?
  {
    FindFrameFromFirst(line, 0);
    var f := FirstMatch(line, 0);
    if exists j :: 0 <= j <= |line| && MatchAt(line, j) == Some(n)
                   && forall k :: 0 <= k < j ==> MatchAt(line, k).None? {
      var j :| 0 <= j <= |line| && MatchAt(line, j) == Some(n)
               && forall k :: 0 <= k < j ==> MatchAt(line, k).None?;
      assert !(j < f) && !(f < j);
    }
  }

  /** "frame=" does not occur in `s`. */
  ghost predicate NoFrameToken(s: string) {
    forall i: nat :: !TokenAt(s, i)
  }

  /** A line without "frame=" reports nothing. */
  lemma {:induction false} NoTokenNoFrame(line: string, i: nat)
    requires i <= |line| && NoFrameToken(line)
    ensures FindFrameFrom(line, i) == None
    decreases |line| - i
  {
    if i < |line| {
      NoTokenNoFrame(line, i + 1);
    }
  }

  /** Before a "frame=" that follows a token-free prefix, no position matches:
      "frame=" cannot overlap itself. */
  lemma NoMatchInPrefix(pre: string, rest: string, j: nat)
    requires NoFrameToken(pre) && |rest| >= |FramePrefix| && rest[..|FramePrefix|] == FramePrefix
    requires j < |pre|
    ensures !TokenAt(pre + rest, j)
  {
    var line := pre + rest;
    if j + |FramePrefix| <= |line| {
      var w := line[j..j + |FramePrefix|];
      if j + |FramePrefix| <= |pre| {
        assert !TokenAt(pre, j);
        assert w == pre[j..j + |FramePrefix|];
      } else {
        assert w[|pre| - j] == line[|pre|] == rest[0] == 'f';
        assert forall x :: 1 <= x < |FramePrefix| ==> FramePrefix[x] != 'f';
      }
      assert w != FramePrefix;
    }
  }

  /** A line that reads `a + b` from `i` reads `a` at `i` and `b` after it. */
  lemma SplitAt(line: string, i: nat, a: string, b: string)
    requires i <= |line| && line[i..] == a + b
    ensures i + |a| <= |line| && line[i..i + |a|] == a && line[i + |a|..] == b
  {
    assert line[i..i + |a|] == line[i..][..|a|];
    assert line[i + |a|..] == line[i..][|a|..];
  }

  /** The whitespace run at `s` covers exactly `ws` when a non-space follows it. */
  lemma SpaceRun(line: string, s: nat, ws: string, rest: string)
    requires s <= |line| && line[s..] == ws + rest
    requires AllSpace(ws) && (rest == [] || !IsSpace(rest[0]))
    ensures SkipSpace(line, s) == s + |ws|
    ensures line[s + |ws|..] == rest
  {
    SplitAt(line, s, ws, rest);
    forall q | s <= q < s + |ws| ensures IsSpace(line[q]) {
      assert line[q] == line[s..s + |ws|][q - s];
    }
    assert s + |ws| == |line| || line[s + |ws|] == rest[0];
    SkipSpaceTo(line, s, s + |ws|);
  }

  /** The number at `k` is `n` when its digits are followed by a non-digit. */
  lemma NumberRun(line: string, k: nat, n: nat, rest: string)
    requires k <= |line| && line[k..] == Digits(n) + rest
    requires rest == [] || !IsDigit(rest[0])
    ensures NumberAt(line, k) == Some(n)
  {
    var d := Digits(n);
    SplitAt(line, k, d, rest);
    forall q | k <= q < k + |d| ensures IsDigit(line[q]) {
      assert line[q] == line[k..k + |d|][q - k];
    }
    assert k + |d| == |line| || line[k + |d|] == rest[0];
    SkipDigitsTo(line, k, k + |d|);
    ValueOfDigits(n);
  }

  /** At a "frame=" followed by whitespace, a number and a non-digit, the
      pattern matches with that number. */
  lemma MatchAfterToken(line: string, i: nat, ws: string, n: nat, post: string)
    requires AllSpace(ws)
    requires post == [] || !IsDigit(post[0])
    requires i <= |line| && line[i..] == FramePrefix + (ws + (Digits(n) + post))
    ensures MatchAt(line, i) == Some(n)
  {
    var s := i + |FramePrefix|;
    SplitAt(line, i, FramePrefix, ws + (Digits(n) + post));
    DigitsNotSpace(n);
    SpaceRun(line, s, ws, Digits(n) + post);
    NumberRun(line, s + |ws|, n, post);
    MatchAtToken(line, i, s + |ws|);
  }

  lemma MatchAtToken(line: string, i: nat, k: nat)
    requires i + |FramePrefix| <= |line| && line[i..i + |FramePrefix|] == FramePrefix
    requires SkipSpace(line, i + |FramePrefix|) == k
    ensures MatchAt(line, i) == NumberAt(line, k)
  {
  }

  lemma RegroupText(a: string, b: string, c: string, d: string, e: string)
    ensures a + b + c + d + e == a + (b + (c + (d + e)))
  {
  }

  /** The number after "frame=" (and any whitespace) is what a line reports,
      whatever precedes the token and whatever non-digit follows the number. */
  lemma FrameReported(pre: string, ws: string, n: nat, post: string)
    requires NoFrameToken(pre) && AllSpace(ws)
    requires post == [] || !IsDigit(post[0])
    ensures FindFrame(pre + FramePrefix + ws + Digits(n) + post) == Some(n)
  {
    var rest := FramePrefix + (ws + (Digits(n) + post));
    var line := pre + rest;
    RegroupText(pre, FramePrefix, ws, Digits(n), post);
    assert forall j :: 0 <= j < |pre| ==> MatchAt(line, j).None? by {
      assert rest[..|FramePrefix|] == FramePrefix;
      forall j | 0 <= j < |pre| ensures MatchAt(line, j).None? {
        NoMatchInPrefix(pre, rest, j);
      }
    }
    assert MatchAt(line, |pre|) == Some(n) by {
      assert line[|pre|..] == rest;
      MatchAfterToken(line, |pre|, ws, n, post);
    }
    FindFrameFromAt(line, 0, |pre|);
  }

  /** A typical ffmpeg status line reports its frame number. */
  lemma StatusLineExample()
    ensures FindFrame("frame=   42 fps=25") == Some(42)
  {
    assert Digits(42) == "42";
    assert "frame=   42 fps=25" == [] + FramePrefix + "   " + Digits(42) + " fps=25";
    FrameReported([], "   ", 42, " fps=25");
  }
}

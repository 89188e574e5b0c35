/** The parts of Python's `posixpath` the converter uses: `str.rfind`,
    `os.path.splitext`, `os.path.basename` and `os.path.join` (two arguments). */
module Paths {

  /** `s.rfind(c)`: the index of the last `c` in `s`, or -1 when there is none. */
  function LastIndexOf(s: string, c: char): (r: int)
    ensures -1 <= r < |s|
    ensures r >= 0 ==> s[r] == c
    ensures forall j :: r < j < |s| ==> s[j] != c
  {
    if s == [] then -1
    else if s[|s| - 1] == c then |s| - 1
    else LastIndexOf(s[..|s| - 1], c)
  }

  datatype PathSplit = PathSplit(root: string, ext: string)

  /** Positions `lo` up to `hi` of `p` hold only dots: the scan `splitext`
      makes from the start of the final component up to its last dot. */
  predicate OnlyDots(p: string, lo: nat, hi: nat)
    requires lo <= hi <= |p|
    decreases hi - lo
  {
    lo == hi || (p[lo] == '.' && OnlyDots(p, lo + 1, hi))
  }

  lemma {:induction false} OnlyDotsIff(p: string, lo: nat, hi: nat)
    requires lo <= hi <= |p|
    ensures OnlyDots(p, lo, hi) <==> forall i :: lo <= i < hi ==> p[i] == '.'
    decreases hi - lo
  {
    if lo < hi {
      OnlyDotsIff(p, lo + 1, hi);
    }
  }

  /** `os.path.splitext(p)`: the extension starts at the last `.` of the final
      path component, provided some character before that dot in the
      component is not a dot (leading dots never start an extension). */
  function SplitExt(p: string): PathSplit {
    var sep := LastIndexOf(p, '/');
    var dot := LastIndexOf(p, '.');
    if dot > sep && !OnlyDots(p, sep + 1, dot) then
      PathSplit(p[..dot], p[dot..])
    else
      PathSplit(p, "")
  }

  /** The final component of `r` holds a character other than `.`. */
  ghost predicate HasStem(r: string) {
    exists i :: 0 <= i < |r| && r[i] != '.' && '/' !in r[i..]
  }

  /** `e` has the shape of an extension: a dot, then no dot and no slash. */
  ghost predicate IsExtension(e: string) {
    |e| > 0 && e[0] == '.' && '.' !in e[1..] && '/' !in e[1..]
  }

  /** What SplitExt returns is a split of `p`: the two parts concatenate to `p`,
      and a non-empty extension is extension-shaped and follows a real stem. */
  lemma SplitExtSound(p: string)
    ensures SplitExt(p).root + SplitExt(p).ext == p
    ensures SplitExt(p).ext == [] || (IsExtension(SplitExt(p).ext) && HasStem(SplitExt(p).root))
  {
    var sep := LastIndexOf(p, '/');
    var dot := LastIndexOf(p, '.');
    if dot > sep && !OnlyDots(p, sep + 1, dot) {
      OnlyDotsIff(p, sep + 1, dot);
      var i :| sep < i < dot && p[i] != '.';
      var root, ext := p[..dot], p[dot..];
      assert root + ext == p;
      assert '/' !in root[i..] by {
        forall j | i <= j < |root| ensures root[j] != '/' {
          assert root[j] == p[j];
        }
      }
      assert HasStem(root);
      assert '.' !in ext[1..] by {
        forall j | 1 <= j < |ext| ensures ext[j] != '.' {
          assert ext[j] == p[dot + j];
        }
      }
      assert '/' !in ext[1..] by {
        forall j | 1 <= j < |ext| ensures ext[j] != '/' {
          assert ext[j] == p[dot + j];
        }
      }
    } else {
      assert p + "" == p;
    }
  }

  /** Splitting a stem followed by an extension gives back exactly that pair:
      SplitExt finds a split whenever one exists, and there is only one. */
  lemma SplitExtOf(r: string, e: string)
    requires HasStem(r) && IsExtension(e)
    ensures SplitExt(r + e) == PathSplit(r, e)
  {
    var p := r + e;
    var sep := LastIndexOf(p, '/');
    var dot := LastIndexOf(p, '.');
    assert p[|r|] == '.';
    forall j | |r| < j < |p| ensures p[j] != '.' && p[j] != '/' {
      assert p[j] == e[1..][j - |r| - 1];
    }
    assert dot == |r|;
    var i :| 0 <= i < |r| && r[i] != '.' && '/' !in r[i..];
    forall j | i <= j < |r| ensures p[j] != '/' {
      assert p[j] == r[i..][j - i];
    }
    assert sep < i;
    assert p[i] == r[i];
    OnlyDotsIff(p, sep + 1, dot);
    assert p[..dot] == r && p[dot..] == e;
  }

  /** `os.path.basename(p)`: what follows the last slash. */
  function Basename(p: string): (r: string)
    ensures '/' !in r
    ensures |r| <= |p| && r == p[|p| - |r|..]
    ensures r == p || p[|p| - |r| - 1] == '/'
  {
    var sep := LastIndexOf(p, '/');
    p[sep + 1..]
  }

  /** The basename of a directory prefix ending in a slash, followed by a
      name without slashes, is that name. */
  lemma BasenameAfterSlash(d: string, name: string)
    requires d == [] || d[|d| - 1] == '/'
    requires '/' !in name
    ensures Basename(d + name) == name
  {
    var p := d + name;
    var sep := LastIndexOf(p, '/');
    assert sep >= |d| - 1 by {
      if d != [] { assert p[|d| - 1] == '/'; }
    }
    forall j | |d| <= j < |p| ensures p[j] != '/' {
      assert p[j] == name[j - |d|];
    }
    assert p[sep + 1..] == name;
  }

  /** `os.path.join(a, b)` for two components. */
  function Join(a: string, b: string): string {
    if |b| > 0 && b[0] == '/' then b
    else if a == [] || a[|a| - 1] == '/' then a + b
    else a + "/" + b
  }

  /** Joining a relative name puts a separator between the two parts unless
      the directory is empty or already ends in one. */
  lemma JoinRelativeSplit(a: string, name: string)
    requires '/' !in name
    ensures Join(a, name) == (if a == [] || a[|a| - 1] == '/' then a else a + "/") + name
  {
    if name != [] {
      assert name[0] in name;
    }
  }

  /** Joining a relative name keeps the directory as a prefix, puts the name
      last, and the name is the basename of the result. */
  lemma JoinRelative(a: string, name: string)
    requires '/' !in name
    ensures |a| + |name| <= |Join(a, name)|
    ensures Join(a, name)[..|a|] == a
    ensures Join(a, name)[|Join(a, name)| - |name|..] == name
    ensures Basename(Join(a, name)) == name
  {
    var d := if a == [] || a[|a| - 1] == '/' then a else a + "/";
    JoinRelativeSplit(a, name);
    BasenameAfterSlash(d, name);
    assert (d + name)[..|a|] == a;
  }
}

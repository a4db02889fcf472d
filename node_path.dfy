/**
 * The two functions of Node's POSIX `path` module that lib/splitter.js uses to name the parts of
 * a split episode: `path.dirname` and `path.join` (which normalises the joined text).
 */
module NodePath {

  /** Nothing in `s` is a `/`. */
  predicate NoSlash(s: string) {
    forall k :: 0 <= k < |s| ==> s[k] != '/'
  }

  // ---------------------------------------------------------------------------------------------
  // path.dirname
  // ---------------------------------------------------------------------------------------------

  /** Node's scan from the right down to index 1: skip the trailing slashes, then the last segment,
      and stop at the first slash before it; -1 when there is none. `matchedSlash` says that only
      slashes have been seen so far. */
  function DirEnd(p: string, i: int, matchedSlash: bool): (r: int)
    requires i < |p|
    ensures r == -1 || 1 <= r <= i
    decreases i
  {
    if i < 1 then -1
    else if p[i] == '/' then (if !matchedSlash then i else DirEnd(p, i - 1, true))
    else DirEnd(p, i - 1, false)
  }

  /** `path.dirname(p)`: "." for the empty path and for a path with no directory part, "/" or "//" for
      the root, otherwise everything before the slash that precedes the last segment. */
  function Dirname(p: string): (r: string)
    ensures r != []
  {
    if p == [] then "."
    else
      var end := DirEnd(p, |p| - 1, true);
      if end == -1 then (if p[0] == '/' then "/" else ".")
      else if p[0] == '/' && end == 1 then "//"
      else p[..end]
  }

  /** A scan that is inside the last segment stops at the slash just before it. */
  lemma {:induction false} DirEndInSegment(p: string, j: nat, i: int, matchedSlash: bool)
    requires 1 <= j <= i < |p| && p[j] == '/'
    requires forall k :: j < k <= i ==> p[k] != '/'
    requires i == j ==> !matchedSlash
    ensures DirEnd(p, i, matchedSlash) == j
    decreases i
  {
    if i > j {
      DirEndInSegment(p, j, i - 1, false);
    }
  }

  /** The directory of `dir/file`, when `file` is one non-empty segment and `dir` is a non-empty
      directory not ending in a slash, is `dir`. */
  lemma DirnameOfFile(dir: string, file: string)
    requires dir != [] && dir[|dir| - 1] != '/'
    requires file != [] && NoSlash(file)
    ensures Dirname(dir + "/" + file) == dir
  {
    var p := dir + "/" + file;
    var j := |dir|;
    assert p[j] == '/';
    forall k | j < k <= |p| - 1
      ensures p[k] != '/'
    {
      assert p[k] == file[k - j - 1];
    }
    if j >= 1 {
      DirEndInSegment(p, j, |p| - 1, true);
    }
    assert p[..j] == dir;
  }

  /** A bare file name has "." as its directory. */
  lemma {:induction false} DirnameOfBareName(file: string)
    requires file != [] && NoSlash(file)
    ensures Dirname(file) == "."
  {
    NoSlashScan(file, |file| - 1, true);
  }

  lemma {:induction false} NoSlashScan(p: string, i: int, m: bool)
    requires i < |p| && NoSlash(p)
    ensures DirEnd(p, i, m) == -1
    decreases i
  {
    if i >= 1 {
      NoSlashScan(p, i - 1, false);
    }
  }

  // ---------------------------------------------------------------------------------------------
  // path.join and path.normalize
  // ---------------------------------------------------------------------------------------------

  /** The index of the last slash of `p`, or -1. */
  function LastSlash(p: string): (r: int)
    ensures -1 <= r < |p|
    ensures r >= 0 ==> p[r] == '/' && NoSlash(p[r + 1..])
    ensures r == -1 ==> NoSlash(p)
  {
    if p == [] then -1
    else if p[|p| - 1] == '/' then |p| - 1
    else
      var r := LastSlash(p[..|p| - 1]);
      assert r >= 0 ==> p[r + 1..] == p[..|p| - 1][r + 1..] + [p[|p| - 1]];
      assert r == -1 ==> p == p[..|p| - 1] + [p[|p| - 1]];
      r
  }

  /** The segments of `p` between its slashes (empty segments included). */
  function Segments(p: string): (r: seq<string>)
    ensures |r| >= 1
    decreases |p|
  {
    var j := LastSlash(p);
    if j == -1 then [p] else Segments(p[..j]) + [p[j + 1..]]
  }

  /** The segments with `/` between them. */
  function Unsplit(segs: seq<string>): string {
    if segs == [] then ""
    else if |segs| == 1 then segs[0]
    else Unsplit(segs[..|segs| - 1]) + "/" + segs[|segs| - 1]
  }

  /** One segment of the normalisation: empty and "." segments vanish; ".." removes the previous
      segment, or is kept when there is nothing to remove in a relative path. */
  function NormalizeStep(stack: seq<string>, seg: string, absolute: bool): seq<string> {
    if seg == "" || seg == "." then stack
    else if seg == ".." then
      (if stack != [] && stack[|stack| - 1] != ".." then stack[..|stack| - 1]
       else if absolute then stack
       else stack + [".."])
    else stack + [seg]
  }

  function NormalizeSegments(segs: seq<string>, absolute: bool): seq<string> {
    if segs == [] then []
    else NormalizeStep(NormalizeSegments(segs[..|segs| - 1], absolute), segs[|segs| - 1], absolute)
  }

  /** `path.normalize(p)`. */
  function Normalize(p: string): string {
    if p == [] then "."
    else
      var absolute := p[0] == '/';
      var trailing := p[|p| - 1] == '/';
      var body := Unsplit(NormalizeSegments(Segments(p), absolute));
      if body == [] then (if absolute then "/" else if trailing then "./" else ".")
      else
        var b := if trailing then body + "/" else body;
        if absolute then "/" + b else b
  }

  /** `path.join(dir, name)`: the non-empty arguments joined by `/`, then normalised. */
  function Join(dir: string, name: string): string {
    if dir == [] && name == [] then "."
    else if dir == [] then Normalize(name)
    else if name == [] then Normalize(dir)
    else Normalize(dir + "/" + name)
  }

  /** A name that normalisation keeps as it is: one non-empty segment that is neither "." nor "..". */
  predicate PlainName(name: string) {
    name != [] && NoSlash(name) && name != "." && name != ".."
  }

  /** What `Join(dir, name)` puts before a plain name: the normalised directory and a slash. */
  function JoinPrefix(dir: string): string
    requires dir != []
  {
    var stack := NormalizeSegments(Segments(dir), dir[0] == '/');
    (if dir[0] == '/' then "/" else "") + (if stack == [] then "" else Unsplit(stack) + "/")
  }

  /** Splitting `dir/name` adds `name` as a last segment. */
  lemma SegmentsOfJoined(dir: string, name: string)
    requires NoSlash(name)
    ensures Segments(dir + "/" + name) == Segments(dir) + [name]
  {
    var p := dir + "/" + name;
    assert p == (dir + "/") + name;
    LastSlashOfSuffix(dir + "/", name);
    assert p[..|dir|] == dir && p[|dir| + 1..] == name;
  }

  lemma UnsplitSnoc(stack: seq<string>, name: string)
    ensures Unsplit(stack + [name]) == (if stack == [] then name else Unsplit(stack) + "/" + name)
  {
    assert (stack + [name])[..|stack + [name]| - 1] == stack;
  }

  /** Joining a plain name to a non-empty directory gives a prefix that depends on the directory
      only, followed by the name. */
  lemma JoinPlainName(dir: string, name: string)
    requires dir != [] && PlainName(name)
    ensures Join(dir, name) == JoinPrefix(dir) + name
  {
    var p := dir + "/" + name;
    SegmentsOfJoined(dir, name);
    var absolute := dir[0] == '/';
    assert p[0] == dir[0];
    var segs := Segments(dir) + [name];
    assert segs[..|segs| - 1] == Segments(dir);
    var stack := NormalizeSegments(Segments(dir), absolute);
    assert NormalizeSegments(Segments(p), absolute) == stack + [name];
    UnsplitSnoc(stack, name);
    assert p[|p| - 1] == name[|name| - 1];
  }

  lemma {:induction false} LastSlashOfSuffix(a: string, name: string)
    requires a != [] && a[|a| - 1] == '/' && NoSlash(name)
    ensures LastSlash(a + name) == |a| - 1
    decreases |name|
  {
    if name == [] {
      assert a + name == a;
    } else {
      var q := a + name;
      assert q[|q| - 1] == name[|name| - 1];
      assert q[..|q| - 1] == a + name[..|name| - 1];
      LastSlashOfSuffix(a, name[..|name| - 1]);
    }
  }

  /** Two plain names joined to the same directory give the same path only when they are equal. */
  lemma JoinInjective(dir: string, m: string, n: string)
    requires dir != [] && PlainName(m) && PlainName(n)
    requires Join(dir, m) == Join(dir, n)
    ensures m == n
  {
    JoinPlainName(dir, m);
    JoinPlainName(dir, n);
    var pre := JoinPrefix(dir);
    assert (pre + m)[|pre|..] == m && (pre + n)[|pre|..] == n;
  }

  lemma NormalizeDot()
    ensures Segments(".") == ["."]
    ensures NormalizeSegments(["."], false) == []
  {
    assert ["."][..0] == [];
  }

  lemma PrefixBelowCurrentDir(d: string)
    requires PlainName(d)
    ensures JoinPrefix("." + "/" + d) == d + "/"
  {
    SegmentsOfJoined(".", d);
    NormalizeDot();
    var segs := ["."] + [d];
    assert segs[..1] == ["."];
    assert NormalizeSegments(segs, false) == [d];
    assert Unsplit([d]) == d;
  }

  /** The leading "./" of a relative directory disappears from the joined path. */
  lemma JoinBelowCurrentDir(d: string, name: string)
    requires PlainName(d) && PlainName(name)
    ensures Join("./" + d, name) == d + "/" + name
  {
    assert "./" + d == "." + "/" + d;
    JoinPlainName("." + "/" + d, name);
    PrefixBelowCurrentDir(d);
  }

  /** A part in the current directory is named by the bare name. */
  lemma JoinInCurrentDir(name: string)
    requires PlainName(name)
    ensures Join(".", name) == name
  {
    JoinPlainName(".", name);
    NormalizeDot();
  }
}

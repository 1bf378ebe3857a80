/** POSIX path arithmetic as Python's posixpath module performs it, for the
    handful of functions the backend calls: join, basename, dirname,
    splitext and isabs.  Normalisation (abspath, relpath) depends on the
    process's working directory and is passed around as an oracle. */
module Paths {
  import opened Common

  predicate IsAbs(p: string) { |p| > 0 && p[0] == '/' }

  /** os.path.join(a, b) for two components. */
  function JoinPath(a: string, b: string): (r: string)
    ensures IsAbs(b) ==> r == b
    ensures !IsAbs(b) ==> StartsWith(r, a) && EndsWith(r, b)
    ensures !IsAbs(b) && a != "" && a[|a| - 1] != '/' ==> r == a + "/" + b
  {
    if IsAbs(b) then b
    else if a == "" || a[|a| - 1] == '/' then a + b
    else a + "/" + b
  }

  /** os.path.basename: everything after the last '/'. */
  function Basename(p: string): (r: string)
    ensures '/' !in r
    ensures EndsWith(p, r)
    ensures |r| < |p| ==> p[|p| - |r| - 1] == '/'
  {
    var i := LastIndexOf(p, '/');
    assert p[i + 1..] == p[|p| - |p[i + 1..]|..];
    p[i + 1..]
  }

  predicate AllSlashes(s: string) { forall i :: 0 <= i < |s| ==> s[i] == '/' }

  function RStripSlashes(s: string): (r: string)
    ensures StartsWith(s, r)
    ensures |r| == 0 || r[|r| - 1] != '/'
  {
    if |s| == 0 || s[|s| - 1] != '/' then s else RStripSlashes(s[..|s| - 1])
  }

  /** os.path.dirname: the text up to the last '/', with trailing slashes
      removed unless it consists of slashes only. */
  function Dirname(p: string): (r: string)
    ensures '/' !in p ==> r == ""
    ensures StartsWith(p, r)
  {
    var head := p[..LastIndexOf(p, '/') + 1];
    if head != "" && !AllSlashes(head) then RStripSlashes(head) else head
  }

  /** Index of the dot that starts the extension, or -1: the last '.' after
      the last '/', provided some non-dot character precedes it within the
      final component (so ".bashrc" has no extension). */
  function ExtStart(p: string): (i: int)
    ensures -1 <= i < |p|
    ensures i >= 0 ==> p[i] == '.' && '/' !in p[i..] && '.' !in p[i + 1..]
  {
    var sep := LastIndexOf(p, '/');
    var dot := LastIndexOf(p, '.');
    if dot > sep && exists k :: sep + 1 <= k < dot && p[k] != '.' then dot else -1
  }

  /** os.path.splitext: (root, ext) with root + ext == p. */
  function SplitExt(p: string): (r: (string, string))
    ensures r.0 + r.1 == p
    ensures r.1 == "" || (r.1[0] == '.' && '/' !in r.1 && '.' !in r.1[1..])
  {
    var i := ExtStart(p);
    if i == -1 then (p, "") else (p[..i], p[i..])
  }

  /** The path abstraction the model cannot compute: os.path.abspath and
      os.path.relpath depend on the working directory and the file system. */
  datatype PathOps = PathOps(normalize: string -> string, relpath: (string, string) -> string)
}

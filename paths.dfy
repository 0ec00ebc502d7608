/**
 * The parts of Node's POSIX `path` module that the build tool uses, for the
 * normalized paths it builds and receives: `join` of two segments, `dirname`,
 * `basename` and `extname`.
 */
module Paths {
  import opened Wrappers
  import opened Text

  /** The index of the last `c` in `s`, if there is one. */
  function LastIndexOf(s: string, c: char): (r: Option<nat>)
    ensures r.Some? ==> r.value < |s| && s[r.value] == c
    ensures r.Some? ==> forall j :: r.value < j < |s| ==> s[j] != c
    ensures r.None? ==> forall j :: 0 <= j < |s| ==> s[j] != c
  {
    if s == [] then None
    else if s[|s| - 1] == c then Some(|s| - 1)
    else LastIndexOf(s[..|s| - 1], c)
  }

  /** `path.join(a, b)` where neither segment needs normalizing. */
  function Join(a: string, b: string): string {
    if a == "" && b == "" then "."
    else if a == "" then b
    else if b == "" then a
    else if a[|a| - 1] == '/' then a + b
    else a + "/" + b
  }

  /** `path.dirname(p)`: everything before the last separator. */
  function Dirname(p: string): string {
    match LastIndexOf(p, '/')
    case None => "."
    case Some(k) => if k == 0 then "/" else p[..k]
  }

  /** `path.basename(p)`: everything after the last separator. */
  function Basename(p: string): string {
    match LastIndexOf(p, '/')
    case None => p
    case Some(k) => p[k + 1..]
  }

  /**
   * `path.extname(p)`: the base name from its last dot on, or "" when the
   * base name has no dot, starts with its only dot, or is "..".
   */
  function Extname(p: string): string {
    var b := Basename(p);
    match LastIndexOf(b, '.')
    case None => ""
    case Some(j) => if j == 0 || b == ".." then "" else b[j..]
  }

  /** The directory part of a path is never longer than the path. */
  lemma DirnameNotLonger(p: string)
    requires p != ""
    ensures |Dirname(p)| <= |p|
  {
  }

  /** A directory path Join can extend without producing a doubled separator. */
  predicate IsDirPath(dir: string) {
    dir != "" && (dir == "/" || dir[|dir| - 1] != '/')
  }

  /** A single path segment: no separator in it. */
  predicate IsSegment(name: string) {
    name != "" && forall j :: 0 <= j < |name| ==> name[j] != '/'
  }

  /** Joining a segment to a directory is undone by `dirname` and `basename`. */
  lemma SplitJoin(dir: string, name: string)
    requires IsDirPath(dir) && IsSegment(name)
    ensures Dirname(Join(dir, name)) == dir
    ensures Basename(Join(dir, name)) == name
  {
    var s := Join(dir, name);
    var k := if dir == "/" then 0 else |dir|;
    assert s == (if dir == "/" then "/" + name else dir + "/" + name);
    assert s[k] == '/';
    assert forall j :: k < j < |s| ==> s[j] == name[j - k - 1];
    var r := LastIndexOf(s, '/');
    assert r.Some?;
    assert r.value == k;
    assert s[k + 1..] == name;
  }

  /** The base name of every path ends with its extension. */
  lemma {:induction false} BasenameEndsWithExtname(p: string)
    ensures EndsWith(Basename(p), Extname(p))
  {
    var b := Basename(p);
    match LastIndexOf(b, '.')
    case None =>
    case Some(j) =>
  }

  /** No two separators in a row: the paths `path.join` produces. */
  predicate Normalized(p: string) {
    forall j :: 0 < j < |p| ==> !(p[j - 1] == '/' && p[j] == '/')
  }

  /** The base name never holds a separator. */
  lemma BasenameHasNoSeparator(p: string)
    ensures forall j :: 0 <= j < |Basename(p)| ==> Basename(p)[j] != '/'
  {
    match LastIndexOf(p, '/')
    case None =>
    case Some(k) =>
  }

  /** The directory part of a normalized path can be extended by Join. */
  lemma DirnameIsDirPath(p: string)
    requires Normalized(p)
    ensures IsDirPath(Dirname(p))
  {
    match LastIndexOf(p, '/')
    case None =>
    case Some(k) =>
      if k > 0 {
        assert p[..k][k - 1] == p[k - 1];
      }
  }

  /** A suffix without `c` leaves the last `c` where it was. */
  lemma {:induction false} LastIndexOfAppend(p: string, suffix: string, c: char)
    requires forall j :: 0 <= j < |suffix| ==> suffix[j] != c
    ensures LastIndexOf(p + suffix, c) == LastIndexOf(p, c)
    decreases |suffix|
  {
    if suffix == [] {
      assert p + suffix == p;
    } else {
      var shorter := suffix[..|suffix| - 1];
      assert (p + suffix)[..|p + suffix| - 1] == p + shorter;
      LastIndexOfAppend(p, shorter, c);
    }
  }

  /** Appending a suffix without a separator (such as `.map`) keeps the directory part. */
  lemma DirnameAppend(p: string, suffix: string)
    requires forall j :: 0 <= j < |suffix| ==> suffix[j] != '/'
    ensures Dirname(p + suffix) == Dirname(p)
  {
    LastIndexOfAppend(p, suffix, '/');
    match LastIndexOf(p, '/')
    case None =>
    case Some(k) =>
      assert (p + suffix)[..k] == p[..k];
  }
}

/**
 * The JavaScript string operations the build tool relies on, on strings seen
 * as sequences of characters: `indexOf`, `endsWith`, `String.prototype.replace`
 * with a literal pattern (first occurrence only) and `replace` with a global
 * regular expression that matches a literal (every non-overlapping occurrence,
 * scanning left to right).
 */
module Text {
  import opened Wrappers

  predicate IsPrefix(p: string, s: string) {
    |p| <= |s| && s[..|p|] == p
  }

  predicate EndsWith(s: string, suffix: string) {
    |suffix| <= |s| && s[|s| - |suffix|..] == suffix
  }

  /** `pat` occurs in `s` starting at index `i`. */
  predicate OccursAt(pat: string, s: string, i: int) {
    0 <= i && i + |pat| <= |s| && s[i..i + |pat|] == pat
  }

  predicate Contains(s: string, pat: string) {
    exists i :: 0 <= i <= |s| - |pat| && OccursAt(pat, s, i)
  }

  /** Concatenation regroups freely. */
  lemma AppendAssociative<T>(a: seq<T>, b: seq<T>, c: seq<T>)
    ensures a + (b + c) == (a + b) + c
  {
  }

  /** `s.indexOf(pat)`: the first index at which `pat` occurs, if any. */
  function IndexOf(s: string, pat: string): (r: Option<nat>)
    ensures r.Some? ==> OccursAt(pat, s, r.value)
    ensures r.Some? ==> forall j :: 0 <= j < r.value ==> !OccursAt(pat, s, j)
    ensures r.None? ==> forall j :: !OccursAt(pat, s, j)
  {
    if IsPrefix(pat, s) then
      assert s[0..|pat|] == s[..|pat|];
      Some(0)
    else if s == [] then
      None
    else
      OccursInTail(pat, s);
      match IndexOf(s[1..], pat)
      case None => None
      case Some(k) => Some(k + 1)
  }

  /** Past the first character, `pat` occurs in `s` exactly where it occurs in `s[1..]`, one place later. */
  lemma OccursInTail(pat: string, s: string)
    requires s != []
    ensures !IsPrefix(pat, s) ==> !OccursAt(pat, s, 0)
    ensures forall j :: 0 < j ==> (OccursAt(pat, s, j) <==> OccursAt(pat, s[1..], j - 1))
  {
    if OccursAt(pat, s, 0) {
      assert s[..|pat|] == s[0..|pat|];
    }
    forall j | 0 < j
      ensures OccursAt(pat, s, j) <==> OccursAt(pat, s[1..], j - 1)
    {
      if j + |pat| <= |s| {
        assert s[1..][j - 1..j - 1 + |pat|] == s[j..j + |pat|];
      }
    }
  }

  /**
   * `s.replace(pat, rep)` with a string pattern: only the first occurrence
   * is replaced; without one, `s` is returned unchanged.
   */
  function ReplaceFirst(s: string, pat: string, rep: string): (r: string)
  {
    match IndexOf(s, pat)
    case None => s
    case Some(k) => s[..k] + rep + s[k + |pat|..]
  }

  /**
   * `s.replace(/pat/g, rep)` for a pattern that matches only the literal
   * `pat`: every occurrence found scanning left to right, resuming after
   * each replaced occurrence, is replaced.
   */
  function ReplaceAll(s: string, pat: string, rep: string): (r: string)
    requires |pat| > 0
    decreases |s|
  {
    if s == [] then []
    else if IsPrefix(pat, s) then rep + ReplaceAll(s[|pat|..], pat, rep)
    else [s[0]] + ReplaceAll(s[1..], pat, rep)
  }

  /** `x` occurs in `a + x + b` right after `a`. */
  lemma OccursBetween(a: string, x: string, b: string)
    ensures OccursAt(x, a + x + b, |a|)
  {
    assert (a + x + b)[|a|..|a| + |x|] == x;
  }

  /** An occurrence survives text added on either side, shifted by what is added before. */
  lemma OccursWidened(x: string, s: string, i: int, before: string, after: string)
    requires OccursAt(x, s, i)
    ensures OccursAt(x, before + s + after, |before| + i)
  {
    assert (before + s + after)[|before| + i..|before| + i + |x|] == s[i..i + |x|];
  }

  /** An occurrence survives text appended after it. */
  lemma OccursExtended(x: string, s: string, i: int, after: string)
    requires OccursAt(x, s, i)
    ensures OccursAt(x, s + after, i)
  {
    assert (s + after)[i..i + |x|] == s[i..i + |x|];
  }

  lemma ContainsAfter(a: string, b: string)
    ensures Contains(a + b, b)
  {
    assert (a + b)[|a|..|a| + |b|] == b;
    assert OccursAt(b, a + b, |a|);
  }

  lemma PrefixOfConcat(p: string, s: string)
    ensures IsPrefix(p, p + s)
  {
    assert (p + s)[..|p|] == p;
  }
}

/** The two regular expressions of the driver, with Go's RE2 semantics:
    unanchored search, leftmost match first, greedy `.+`, and `.` matching
    every character except a newline. */
module Matchers {
  import opened Wrappers
  import opened Text

  // ---------------------------------------------------------------------
  // `HEAD branch: (.+)` over the output of `git remote show origin`

  const HeadBranchPrefix := "HEAD branch: "

  /** The head-branch expression matches at `s`: the literal prefix, then at
      least one character that is not a newline. */
  predicate HeadMatchAt(out: string, s: int) {
    0 <= s && s + |HeadBranchPrefix| < |out|
    && out[s..s + |HeadBranchPrefix|] == HeadBranchPrefix
    && out[s + |HeadBranchPrefix|] != '\n'
  }

  /** The leftmost match position at or after `from`. */
  function FirstHeadMatch(out: string, from: nat): (r: Option<nat>)
    requires from <= |out|
    ensures r.Some? ==> from <= r.value && HeadMatchAt(out, r.value)
    ensures r.Some? ==> forall k :: from <= k < r.value ==> !HeadMatchAt(out, k)
    ensures r.None? ==> forall k :: from <= k ==> !HeadMatchAt(out, k)
    decreases |out| - from
  {
    if from == |out| then None
    else if HeadMatchAt(out, from) then Some(from)
    else FirstHeadMatch(out, from + 1)
  }

  /** The `branch` group of `HEAD branch: (.+)` in `out`, or "" when the
      expression does not match: the rest of the line after the leftmost
      match of the expression (the prefix followed by a character other
      than a newline), neither trimmed nor empty. */
  function HeadBranch(out: string): (branch: string)
    ensures branch == [] <==> forall s :: 0 <= s ==> !HeadMatchAt(out, s)
    ensures branch != [] ==>
      exists s :: HeadMatchAt(out, s)
        && (forall k :: 0 <= k < s ==> !HeadMatchAt(out, k))
        && branch == out[s + |HeadBranchPrefix|..LineEnd(out, s + |HeadBranchPrefix|)]
    ensures '\n' !in branch
  {
    match FirstHeadMatch(out, 0)
    case None => []
    case Some(s) =>
      var start := s + |HeadBranchPrefix|;
      out[start..LineEnd(out, start)]
  }

  /** The first head-branch line wins: when nothing before `pre`'s end
      starts a match, the branch is the text after the prefix up to the end
      of its line, white space included. */
  lemma {:induction false} HeadBranchOfLine(pre: string, name: string, rest: string)
    requires name != [] && '\n' !in name
    requires rest == [] || rest[0] == '\n'
    requires forall k :: 0 <= k < |pre| ==> !HeadMatchAt(pre + HeadBranchPrefix + name + rest, k)
    ensures HeadBranch(pre + HeadBranchPrefix + name + rest) == name
  {
    var out := pre + HeadBranchPrefix + name + rest;
    var n := |pre| + |HeadBranchPrefix|;
    assert out[|pre|..n] == HeadBranchPrefix;
    assert out[n] == name[0];
    assert HeadMatchAt(out, |pre|);
    var e := LineEnd(out, n);
    assert forall k :: n <= k < n + |name| ==> out[k] == name[k - n];
    assert forall k :: n <= k < n + |name| ==> out[k] != '\n';
    assert n + |name| == |out| || out[n + |name|] == '\n';
    assert e == n + |name|;
    assert out[n..e] == name;
  }

  /** `HEAD branch: develop` yields `develop`. */
  lemma HeadBranchExample()
    ensures HeadBranch("HEAD branch: develop") == "develop"
  {
    HeadBranchOfLine([], "develop", []);
    assert [] + HeadBranchPrefix + "develop" + [] == "HEAD branch: develop";
  }

  // ---------------------------------------------------------------------
  // `(.+) linguist-generated=true` over one line of `.gitattributes`

  const GeneratedMarker := " linguist-generated=true"

  /** The marker occurs at `e`. */
  predicate MarkerAt(line: string, e: int) {
    OccursAt(line, GeneratedMarker, e)
  }

  /** The expression matches `line[s..e + |marker|]` with the `path` group
      spanning `line[s..e]`. */
  predicate GeneratedMatch(line: string, s: int, e: int) {
    0 <= s < e && MarkerAt(line, e)
    && forall k :: s <= k < e ==> line[k] != '\n'
  }

  /** The largest marker position in `(lo, hi]`. */
  function LastMarker(line: string, lo: nat, hi: nat): (r: Option<nat>)
    requires hi <= |line|
    ensures r.Some? ==> lo < r.value <= hi && MarkerAt(line, r.value)
    ensures r.Some? ==> forall e :: r.value < e <= hi ==> !MarkerAt(line, e)
    ensures r.None? ==> forall e :: lo < e <= hi ==> !MarkerAt(line, e)
    decreases hi
  {
    if hi <= lo then None
    else if MarkerAt(line, hi) then Some(hi)
    else LastMarker(line, lo, hi - 1)
  }

  /** The leftmost-first match starting at or after `from`: the smallest
      start, and for it the longest `path` the greedy `.+` can take. */
  function FirstGenerated(line: string, from: nat): (r: Option<(nat, nat)>)
    requires from <= |line|
    ensures r.Some? ==> from <= r.value.0 && GeneratedMatch(line, r.value.0, r.value.1)
    ensures r.Some? ==> forall s, e :: from <= s < r.value.0 ==> !GeneratedMatch(line, s, e)
    ensures r.Some? ==> forall e :: r.value.1 < e ==> !GeneratedMatch(line, r.value.0, e)
    ensures r.None? ==> forall s, e :: from <= s ==> !GeneratedMatch(line, s, e)
    decreases |line| - from
  {
    if from == |line| then None
    else
      var end := LineEnd(line, from);
      assert forall e :: GeneratedMatch(line, from, e) ==> e <= end by {
        assert end < |line| ==> line[end] == '\n';
      }
      match LastMarker(line, from, end)
      case Some(e) => Some((from, e))
      case None => FirstGenerated(line, from + 1)
  }

  /** The `path` group of `(.+) linguist-generated=true` in `line`, if the
      expression matches. */
  function GeneratedPath(line: string): (path: Option<string>)
    ensures path.None? <==> forall s, e :: !GeneratedMatch(line, s, e)
    ensures path.Some? ==>
      exists s, e :: GeneratedMatch(line, s, e) && path.value == line[s..e]
        && (forall s', e' :: s' < s ==> !GeneratedMatch(line, s', e'))
        && (forall e' :: e < e' ==> !GeneratedMatch(line, s, e'))
  {
    match FirstGenerated(line, 0)
    case None => None
    case Some((s, e)) => Some(line[s..e])
  }

  /** On a single line (no newline, as a line scanner delivers it) the match
      is anchored at the start: it exists exactly when the marker follows a
      non-empty prefix, and the path is the longest such prefix. The marker
      need not end the line. */
  lemma GeneratedPathOfLine(line: string)
    requires '\n' !in line
    ensures GeneratedPath(line).None? <==> forall e :: 0 < e ==> !MarkerAt(line, e)
    ensures GeneratedPath(line).Some? ==>
      var p := GeneratedPath(line).value;
      p != [] && p == line[..|p|] && MarkerAt(line, |p|)
      && forall e :: |p| < e ==> !MarkerAt(line, e)
  {
  }

  /** The path is the whole text before the marker when no later marker
      follows, whatever comes after it. */
  lemma {:induction false} GeneratedPathOfEntry(path: string, rest: string)
    requires path != [] && '\n' !in path
    requires forall e :: |path| < e ==> !MarkerAt(path + GeneratedMarker + rest, e)
    ensures GeneratedPath(path + GeneratedMarker + rest) == Some(path)
  {
    var line := path + GeneratedMarker + rest;
    assert line[|path|..|path| + |GeneratedMarker|] == GeneratedMarker;
    assert forall k :: 0 <= k < |path| ==> line[k] == path[k];
    assert GeneratedMatch(line, 0, |path|);
    match FirstGenerated(line, 0)
    case Some((s, e)) =>
      assert s == 0;
      assert e == |path|;
      assert line[s..e] == path;
  }
}

/** The rewrite of an attributes-file glob into a regular-expression
    fragment: every `**` becomes `*`, then every `*` becomes `.*`. Dots and
    other metacharacters are left as they are. */
module Glob {
  import opened Text

  const Star: char := '*'
  const Wildcard := ".*"

  /** First pass, character by character: a `**` collapses to `*`, scanning
      left to right without overlap. */
  function Collapse(s: string): string {
    if |s| == 0 then []
    else if |s| >= 2 && s[0] == Star && s[1] == Star then [Star] + Collapse(s[2..])
    else [s[0]] + Collapse(s[1..])
  }

  /** Second pass, character by character: each `*` widens to `.*`. */
  function Widen(s: string): string {
    if |s| == 0 then []
    else (if s[0] == Star then Wildcard else [s[0]]) + Widen(s[1..])
  }

  /** The inverse of `Widen`: each `.*` token narrows back to `*`. */
  function Narrow(t: string): string {
    if |t| == 0 then []
    else if |t| >= 2 && t[0] == '.' && t[1] == Star then [Star] + Narrow(t[2..])
    else [t[0]] + Narrow(t[1..])
  }

  /** Every `*` is immediately preceded by a `.`. */
  predicate StarsGuarded(t: string) {
    forall i :: 0 <= i < |t| && t[i] == Star ==> 0 < i && t[i - 1] == '.'
  }

  /** No two `*` are adjacent. */
  predicate NoDoubleStar(t: string) {
    forall i :: 0 < i < |t| && t[i] == Star ==> t[i - 1] != Star
  }

  /** The characters of `s` other than `*`, in order. */
  function Literals(s: string): (r: string)
    ensures Star !in r
    ensures |r| <= |s|
  {
    if |s| == 0 then []
    else (if s[0] == Star then [] else [s[0]]) + Literals(s[1..])
  }

  /** `Collapse` is Go's `strings.ReplaceAll(s, "**", "*")`. */
  lemma {:induction false} CollapseIsReplaceAll(s: string)
    ensures ReplaceAll(s, "**", "*") == Collapse(s)
    decreases |s|
  {
    if |s| >= 2 && s[0] == Star && s[1] == Star {
      assert "**" <= s;
      CollapseIsReplaceAll(s[2..]);
    } else if |s| > 0 {
      assert !("**" <= s);
      CollapseIsReplaceAll(s[1..]);
    }
  }

  /** `Widen` is Go's `strings.ReplaceAll(s, "*", ".*")`. */
  lemma {:induction false} WidenIsReplaceAll(s: string)
    ensures ReplaceAll(s, "*", Wildcard) == Widen(s)
    decreases |s|
  {
    if |s| > 0 {
      if s[0] == Star {
        assert "*" <= s;
      } else {
        assert !("*" <= s);
      }
      WidenIsReplaceAll(s[1..]);
    }
  }

  /** The literal characters of a concatenation are those of its parts. */
  lemma {:induction false} LiteralsAppend(a: string, b: string)
    ensures Literals(a + b) == Literals(a) + Literals(b)
    decreases |a|
  {
    if |a| > 0 {
      assert (a + b)[1..] == a[1..] + b;
      LiteralsAppend(a[1..], b);
    } else {
      assert a + b == b;
    }
  }

  /** After widening, every `*` is guarded by a `.`, so the output neither
      starts with `*` nor contains `**`. */
  lemma {:induction false} WidenGuarded(s: string)
    ensures StarsGuarded(Widen(s))
    decreases |s|
  {
    if |s| > 0 {
      WidenGuarded(s[1..]);
      var head := if s[0] == Star then Wildcard else [s[0]];
      var tail := Widen(s[1..]);
      assert Widen(s) == head + tail;
      forall i | 0 <= i < |head + tail| && (head + tail)[i] == Star
        ensures 0 < i && (head + tail)[i - 1] == '.'
      {
        if i >= |head| {
          assert tail[i - |head|] == Star;
        }
      }
    }
  }

  /** A guarded string has no doubled `*`. */
  lemma GuardedHasNoDoubleStar(t: string)
    requires StarsGuarded(t)
    ensures NoDoubleStar(t)
  {
  }

  /** Narrowing undoes widening: the `.*` occurrences of the output are
      exactly the wildcard tokens, since a `.` of the input is never
      followed by a `*` of the output. */
  lemma {:induction false} NarrowUndoesWiden(s: string)
    ensures Narrow(Widen(s)) == s
    decreases |s|
  {
    if |s| > 0 {
      NarrowUndoesWiden(s[1..]);
      var tail := Widen(s[1..]);
      WidenGuarded(s[1..]);
      var w := Widen(s);
      if s[0] == Star {
        assert w == Wildcard + tail;
        assert w[2..] == tail;
      } else {
        assert w == [s[0]] + tail;
        assert |tail| > 0 ==> tail[0] != Star;
        if |w| >= 2 {
          assert w[1] == tail[0];
        }
        assert w[1..] == tail;
      }
    }
  }

  /** Collapsing `**` removes stars only: the literal characters survive in
      order. */
  lemma {:induction false} CollapseKeepsLiterals(s: string)
    ensures Literals(Collapse(s)) == Literals(s)
    decreases |s|
  {
    if |s| >= 2 && s[0] == Star && s[1] == Star {
      CollapseKeepsLiterals(s[2..]);
      LiteralsAppend([Star], Collapse(s[2..]));
      assert s[1..][1..] == s[2..];
    } else if |s| > 0 {
      CollapseKeepsLiterals(s[1..]);
      LiteralsAppend([s[0]], Collapse(s[1..]));
    }
  }

  /** `AutoGeneratedFilePatterns`' rewrite of one glob: Go's two
      `strings.ReplaceAll` calls. The result is the character-by-character
      rewrite; every `*` in it is guarded by a `.`; and narrowing its
      wildcard tokens gives back the collapsed glob. */
  function ToRegex(glob: string): (r: string)
    ensures r == Widen(Collapse(glob))
    ensures StarsGuarded(r) && NoDoubleStar(r)
    ensures Narrow(r) == Collapse(glob)
  {
    var c := ReplaceAll(glob, "**", "*");
    CollapseIsReplaceAll(glob);
    WidenIsReplaceAll(c);
    WidenGuarded(c);
    GuardedHasNoDoubleStar(Widen(c));
    NarrowUndoesWiden(c);
    ReplaceAll(c, "*", Wildcard)
  }

  /** Neither pass touches a string without `*`. */
  lemma {:induction false} StarFreeUntouched(s: string)
    requires Star !in s
    ensures Collapse(s) == s && Widen(s) == s
    decreases |s|
  {
    if |s| > 0 {
      StarFreeUntouched(s[1..]);
    }
  }

  /** A glob without `*` passes through unchanged: neither `**` nor `*`
      occurs in it, so both `strings.ReplaceAll` calls leave it alone. */
  lemma ToRegexStarFree(glob: string)
    requires Star !in glob
    ensures ToRegex(glob) == glob
  {
    AbsentHead(glob, "**");
    AbsentHead(glob, "*");
    ReplaceAllAbsent(glob, "**", "*");
    ReplaceAllAbsent(glob, "*", Wildcard);
  }

  /** The characters other than `*` keep their order: narrowing the
      wildcard tokens and dropping every `*` gives the glob's own literal
      characters. */
  lemma ToRegexKeepsLiterals(glob: string)
    ensures Literals(Narrow(ToRegex(glob))) == Literals(glob)
  {
    CollapseKeepsLiterals(glob);
  }

  /** Widening works character by character, so it distributes over
      concatenation. */
  lemma {:induction false} WidenAppend(a: string, b: string)
    ensures Widen(a + b) == Widen(a) + Widen(b)
    decreases |a|
  {
    if |a| > 0 {
      assert (a + b)[1..] == a[1..] + b;
      WidenAppend(a[1..], b);
    } else {
      assert a + b == b;
    }
  }

  /** Collapsing distributes over a concatenation whose seam does not fall
      inside a run of stars. */
  lemma {:induction false} CollapseAppend(a: string, b: string)
    requires a == [] || b == [] || a[|a| - 1] != Star || b[0] != Star
    ensures Collapse(a + b) == Collapse(a) + Collapse(b)
    decreases |a|, 1
  {
    if |a| >= 2 && a[0] == Star && a[1] == Star {
      CollapseAppendAfterPair(a, b);
    } else if |a| > 0 {
      CollapseAppendAfterOne(a, b);
    } else {
      assert a + b == b;
    }
  }

  /** `CollapseAppend` when `a` starts with `**`. */
  lemma {:induction false} CollapseAppendAfterPair(a: string, b: string)
    requires |a| >= 2 && a[0] == Star && a[1] == Star
    requires b == [] || a[|a| - 1] != Star || b[0] != Star
    ensures Collapse(a + b) == Collapse(a) + Collapse(b)
    decreases |a|, 0
  {
    var ab := a + b;
    assert ab[0] == Star && ab[1] == Star;
    assert ab[2..] == a[2..] + b;
    assert |a| > 2 ==> a[2..][|a| - 3] == a[|a| - 1];
    CollapseAppend(a[2..], b);
  }

  /** `CollapseAppend` when `a` does not start with `**`. */
  lemma {:induction false} CollapseAppendAfterOne(a: string, b: string)
    requires |a| > 0 && !(|a| >= 2 && a[0] == Star && a[1] == Star)
    requires b == [] || a[|a| - 1] != Star || b[0] != Star
    ensures Collapse(a + b) == Collapse(a) + Collapse(b)
    decreases |a|, 0
  {
    var ab := a + b;
    assert !(|ab| >= 2 && ab[0] == Star && ab[1] == Star) by {
      if |a| == 1 && |ab| >= 2 {
        assert ab[1] == b[0];
      }
    }
    assert ab[1..] == a[1..] + b;
    assert |a| > 1 ==> a[1..][|a| - 2] == a[|a| - 1];
    CollapseAppend(a[1..], b);
  }

  /** The shape of the usual vendored-code entry, a directory prefix, a
      double star, a separator, a single star and an extension: both
      wildcards become `.*` and the dots stay unescaped, so the usual entry
      for Go files under `vendor` becomes `vendor/`, `.*`, `/`, `.*` and
      `.go` in a row. */
  lemma ToRegexNestedGlob(p: string, m: string, q: string)
    requires Star !in p && Star !in m && Star !in q && m != []
    ensures ToRegex(p + ([Star, Star] + (m + ([Star] + q)))) == p + (Wildcard + (m + (Wildcard + q)))
  {
    StarFreeUntouched(p);
    StarFreeUntouched(m);
    StarFreeUntouched(q);
    CollapseNestedGlob(p, m, q);
    WidenNestedGlob(p, m, q);
  }

  /** The first pass on that shape. */
  lemma CollapseNestedGlob(p: string, m: string, q: string)
    requires Collapse(p) == p && Collapse(m) == m && Collapse(q) == q
    requires p == [] || p[|p| - 1] != Star
    requires m != [] && m[0] != Star && m[|m| - 1] != Star
    requires q == [] || q[0] != Star
    ensures Collapse(p + ([Star, Star] + (m + ([Star] + q)))) == p + ([Star] + (m + ([Star] + q)))
  {
    var s1 := [Star] + q;
    var s2 := m + s1;
    var s3 := [Star, Star] + s2;
    assert s1[1..] == q;
    assert s3[2..] == s2;
    assert |q| > 0 ==> s1[1] == q[0];
    assert Collapse(s1) == s1;
    CollapseAppend(m, s1);
    assert Collapse(s3) == [Star] + s2;
    CollapseAppend(p, s3);
  }

  /** The second pass on that shape. */
  lemma WidenNestedGlob(p: string, m: string, q: string)
    requires Widen(p) == p && Widen(m) == m && Widen(q) == q
    ensures Widen(p + ([Star] + (m + ([Star] + q)))) == p + (Wildcard + (m + (Wildcard + q)))
  {
    var s1 := [Star] + q;
    var s2 := m + s1;
    assert s1[1..] == q;
    assert Widen(s1) == Wildcard + q;
    WidenAppend(m, s1);
    assert ([Star] + s2)[1..] == s2;
    assert Widen([Star] + s2) == Wildcard + Widen(s2);
    WidenAppend(p, [Star] + s2);
  }
}

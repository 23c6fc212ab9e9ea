/**
 * The two `java.lang.String` operations the announcement uses:
 * `replace(target, replacement)` and `String.join(separator, list)`.
 */
module Text {

  /** True iff `pat` occurs in `s` starting at index `i`. */
  predicate MatchAt(s: string, pat: string, i: nat) {
    i + |pat| <= |s| && s[i..i + |pat|] == pat
  }

  /** True iff `pat` occurs nowhere in `s`. */
  predicate Absent(s: string, pat: string) {
    forall i: nat | i <= |s| :: !MatchAt(s, pat, i)
  }

  /**
   * `s.replace(pat, rep)`: scans left to right and replaces every
   * non-overlapping occurrence of `pat`, resuming after each replaced
   * occurrence; replaced text is never rescanned.
   */
  function Replace(s: string, pat: string, rep: string): string
    requires |pat| > 0
    decreases |s|
  {
    if |s| < |pat| then s
    else if s[..|pat|] == pat then rep + Replace(s[|pat|..], pat, rep)
    else [s[0]] + Replace(s[1..], pat, rep)
  }

  /** Text without an occurrence of the target is returned unchanged. */
  lemma {:induction false} ReplaceAbsent(s: string, pat: string, rep: string)
    requires |pat| > 0
    requires Absent(s, pat)
    ensures Replace(s, pat, rep) == s
    decreases |s|
  {
    if |s| >= |pat| {
      assert !MatchAt(s, pat, 0);
      assert Absent(s[1..], pat) by {
        forall i: nat | i <= |s[1..]|
          ensures !MatchAt(s[1..], pat, i)
        {
          assert !MatchAt(s, pat, i + 1);
          if i + |pat| <= |s[1..]| {
            assert s[1..][i..i + |pat|] == s[i + 1..i + 1 + |pat|];
          }
        }
      }
      ReplaceAbsent(s[1..], pat, rep);
    }
  }

  /**
   * The first occurrence is replaced and scanning resumes right after it:
   * the text before it is kept, the replacement is inserted once.
   */
  lemma {:induction false} ReplaceFirst(s: string, pat: string, rep: string, k: nat)
    requires |pat| > 0
    requires MatchAt(s, pat, k)
    requires forall i: nat | i < k :: !MatchAt(s, pat, i)
    ensures Replace(s, pat, rep) == s[..k] + rep + Replace(s[k + |pat|..], pat, rep)
    decreases k, 1
  {
    if k == 0 {
      ReplaceAtMatch(s, pat, rep);
      assert s[..0] + rep == rep;
    } else {
      FirstStep(s, pat, rep, k);
    }
  }

  /** The step of ReplaceFirst: an occurrence at `k > 0` is one at `k - 1` in the tail. */
  lemma {:induction false} FirstStep(s: string, pat: string, rep: string, k: nat)
    requires 0 < |pat| && 0 < k && MatchAt(s, pat, k)
    requires forall i: nat | i < k :: !MatchAt(s, pat, i)
    ensures Replace(s, pat, rep) == s[..k] + rep + Replace(s[k + |pat|..], pat, rep)
    decreases k, 0
  {
    var t := s[1..];
    ShiftMatches(s, pat, k);
    ReplaceFirst(t, pat, rep, k - 1);
    assert t[k - 1 + |pat|..] == s[k + |pat|..];
    assert [s[0]] + t[..k - 1] == s[..k];
    assert !MatchAt(s, pat, 0);
    ReplaceAtMiss(s, pat, rep);
    Regroup(Replace(s, pat, rep), s[0], Replace(t, pat, rep), t[..k - 1], rep,
      Replace(s[k + |pat|..], pat, rep), s[..k]);
  }

  /** Regrouping a leading character into the text before an occurrence. */
  lemma Regroup(whole: string, c: char, rest: string, pre: string, mid: string, post: string, left: string)
    requires whole == [c] + rest && rest == pre + mid + post && left == [c] + pre
    ensures whole == left + mid + post
  {
  }

  /** Dropping the first character shifts every match one place left. */
  lemma ShiftMatches(s: string, pat: string, k: nat)
    requires 0 < k && MatchAt(s, pat, k)
    requires forall i: nat | i < k :: !MatchAt(s, pat, i)
    ensures MatchAt(s[1..], pat, k - 1)
    ensures forall i: nat | i < k - 1 :: !MatchAt(s[1..], pat, i)
  {
    var t := s[1..];
    assert t[k - 1..k - 1 + |pat|] == s[k..k + |pat|];
    forall i: nat | i < k - 1
      ensures !MatchAt(t, pat, i)
    {
      assert !MatchAt(s, pat, i + 1);
      assert t[i..i + |pat|] == s[i + 1..i + 1 + |pat|];
    }
  }

  /** Replacing a target by itself changes nothing. */
  lemma {:induction false} ReplaceBySelf(s: string, pat: string)
    requires |pat| > 0
    ensures Replace(s, pat, pat) == s
    decreases |s|
  {
    if |s| >= |pat| {
      if s[..|pat|] == pat {
        ReplaceBySelf(s[|pat|..], pat);
        assert s == s[..|pat|] + s[|pat|..];
      } else {
        ReplaceBySelf(s[1..], pat);
        assert s == [s[0]] + s[1..];
      }
    }
  }

  lemma ReplaceAtMatch(s: string, pat: string, rep: string)
    requires 0 < |pat| <= |s| && s[..|pat|] == pat
    ensures Replace(s, pat, rep) == rep + Replace(s[|pat|..], pat, rep)
  {
  }

  lemma ReplaceAtMiss(s: string, pat: string, rep: string)
    requires 0 < |pat| <= |s| && s[..|pat|] != pat
    ensures Replace(s, pat, rep) == [s[0]] + Replace(s[1..], pat, rep)
  {
  }

  lemma ReplaceShort(s: string, pat: string, rep: string)
    requires |s| < |pat|
    ensures Replace(s, pat, rep) == s
  {
  }

  /** A match at the front of `a + b` lies inside `a` when `b` starts with a character `pat` lacks. */
  lemma MatchInsideFirst(a: string, b: string, pat: string)
    requires 0 < |pat| <= |a + b| && (a + b)[..|pat|] == pat
    requires |b| > 0 && b[0] !in pat
    ensures |pat| <= |a|
    ensures a[..|pat|] == pat && (a + b)[|pat|..] == a[|pat|..] + b
  {
    var s := a + b;
    assert s[|a|] == b[0];
    assert forall j | 0 <= j < |pat| :: s[j] == pat[j];
  }

  /** The step of ReplaceSplit when `a + b` starts with the target. */
  lemma SplitAtMatch(a: string, b: string, pat: string, rep: string)
    requires 0 < |pat| <= |a + b| && (a + b)[..|pat|] == pat
    requires |b| > 0 && b[0] !in pat
    requires |pat| <= |a| && (a + b)[|pat|..] == a[|pat|..] + b
    requires Replace(a[|pat|..] + b, pat, rep) == Replace(a[|pat|..], pat, rep) + Replace(b, pat, rep)
    ensures Replace(a + b, pat, rep) == Replace(a, pat, rep) + Replace(b, pat, rep)
  {
    ReplaceAtMatch(a + b, pat, rep);
    assert a[..|pat|] == (a + b)[..|pat|];
    ReplaceAtMatch(a, pat, rep);
  }

  /** The step of ReplaceSplit when `a + b` does not start with the target. */
  lemma {:induction false} SplitAtMiss(a: string, b: string, pat: string, rep: string)
    requires 0 < |pat| <= |a + b| && (a + b)[..|pat|] != pat && |a| > 0
    requires |b| > 0 && b[0] !in pat
    ensures Replace(a + b, pat, rep) == Replace(a, pat, rep) + Replace(b, pat, rep)
    decreases |a|, 0
  {
    var s, a' := a + b, a[1..];
    ReplaceSplit(a', b, pat, rep);
    assert s[1..] == a' + b && s[0] == a[0];
    if |a| >= |pat| {
      assert a[..|pat|] == s[..|pat|];
    }
    HeadStep(a, pat, rep);
    ReplaceAtMiss(s, pat, rep);
    Assemble(Replace(s, pat, rep), Replace(a' + b, pat, rep), Replace(a', pat, rep),
      Replace(b, pat, rep), Replace(a, pat, rep), a[0]);
  }

  /** Regrouping a leading character: `[c] + (ra + rb)` is `([c] + ra) + rb`. */
  lemma Assemble(whole: string, rest: string, ra: string, rb: string, left: string, c: char)
    requires whole == [c] + rest && rest == ra + rb && left == [c] + ra
    ensures whole == left + rb
  {
  }

  /** Without a match at the front of `a`, the first character of `a` is kept. */
  lemma HeadStep(a: string, pat: string, rep: string)
    requires 0 < |pat| && |a| > 0
    requires |a| >= |pat| ==> a[..|pat|] != pat
    ensures Replace(a, pat, rep) == [a[0]] + Replace(a[1..], pat, rep)
  {
    if |a| < |pat| {
      ReplaceShort(a, pat, rep);
      ReplaceShort(a[1..], pat, rep);
      assert a == [a[0]] + a[1..];
    } else {
      ReplaceAtMiss(a, pat, rep);
    }
  }

  /**
   * Text that the target cannot straddle may be replaced piecewise: when the
   * second part starts with a character the target lacks, replacing in the
   * whole is replacing in each part.
   */
  lemma {:induction false} ReplaceSplit(a: string, b: string, pat: string, rep: string)
    requires |pat| > 0
    requires |b| > 0 && b[0] !in pat
    ensures Replace(a + b, pat, rep) == Replace(a, pat, rep) + Replace(b, pat, rep)
    decreases |a|, 1
  {
    if |a| == 0 {
      assert a + b == b;
    } else if |a + b| < |pat| {
      ReplaceShort(a + b, pat, rep);
      ReplaceShort(a, pat, rep);
      ReplaceShort(b, pat, rep);
    } else if (a + b)[..|pat|] == pat {
      MatchInsideFirst(a, b, pat);
      ReplaceSplit(a[|pat|..], b, pat, rep);
      SplitAtMatch(a, b, pat, rep);
    } else {
      SplitAtMiss(a, b, pat, rep);
    }
  }

  /**
   * A text that starts with a character the target lacks keeps that
   * character and is replaced in the rest.
   */
  lemma ReplaceSkipFirst(s: string, pat: string, rep: string)
    requires |pat| > 0 && |s| > 0 && s[0] !in pat
    ensures Replace(s, pat, rep) == [s[0]] + Replace(s[1..], pat, rep)
  {
    if |s| >= |pat| {
      assert s[..|pat|][0] == s[0];
    }
  }

  /** A target occurrence that is the whole text is replaced by the replacement alone. */
  lemma ReplaceWhole(pat: string, rep: string)
    requires |pat| > 0
    ensures Replace(pat, pat, rep) == rep
  {
  }

  /** `String.join(sep, xs)`: the elements in order with `sep` between neighbours. */
  function Join(xs: seq<string>, sep: string): string
  {
    if |xs| == 0 then ""
    else if |xs| == 1 then xs[0]
    else xs[0] + sep + Join(xs[1..], sep)
  }

  /** Appending an element to a non-empty list appends one separator and that element. */
  lemma {:induction false} JoinSnoc(xs: seq<string>, x: string, sep: string)
    requires |xs| > 0
    ensures Join(xs + [x], sep) == Join(xs, sep) + sep + x
    decreases |xs|
  {
    assert (xs + [x])[0] == xs[0];
    assert (xs + [x])[1..] == xs[1..] + [x];
    if |xs| > 1 {
      JoinSnoc(xs[1..], x, sep);
    } else {
      assert xs[1..] + [x] == [x];
    }
  }
}

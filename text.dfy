/**
 * Python's `str.replace(pat, rep)` with no count: every non-overlapping
 * occurrence of `pat`, found from left to right, is replaced by `rep`; an
 * empty `pat` matches before every character and at the end.
 */
module PyText {

  /** `pat` occurs in `s` starting at index `i`. */
  predicate OccursAt(s: string, pat: string, i: nat) {
    i + |pat| <= |s| && s[i..i + |pat|] == pat
  }

  /** `pat in s`. */
  predicate Contains(s: string, pat: string) {
    exists i: nat :: i + |pat| <= |s| && OccursAt(s, pat, i)
  }

  /** `s.replace(pat, rep)`. */
  function Replace(s: string, pat: string, rep: string): string
    decreases |s|
  {
    if pat == [] then InsertEverywhere(s, rep)
    else if |s| < |pat| then s
    else if s[..|pat|] == pat then rep + Replace(s[|pat|..], pat, rep)
    else [s[0]] + Replace(s[1..], pat, rep)
  }

  /** `s.replace("", rep)`: `rep` before each character and once more at the end. */
  function InsertEverywhere(s: string, rep: string): string {
    if s == [] then rep else rep + [s[0]] + InsertEverywhere(s[1..], rep)
  }

  /** A string without an occurrence is returned unchanged. */
  lemma {:induction false} ReplaceAbsent(s: string, pat: string, rep: string)
    requires pat != "" && !Contains(s, pat)
    ensures Replace(s, pat, rep) == s
  {
    if |s| >= |pat| {
      assert !OccursAt(s, pat, 0);
      assert !Contains(s[1..], pat) by {
        forall i: nat | OccursAt(s[1..], pat, i) ensures false {
          assert s[1..][i..i + |pat|] == s[i + 1..i + 1 + |pat|];
          assert OccursAt(s, pat, i + 1);
        }
      }
      ReplaceAbsent(s[1..], pat, rep);
      assert [s[0]] + s[1..] == s;
    }
  }

  /**
   * The scan finds the leftmost occurrence: when no occurrence starts in
   * `a`, the result is `a`, then `rep`, then the rest replaced in turn.
   */
  lemma {:induction false} ReplaceLeftmost(a: string, pat: string, b: string, rep: string)
    requires pat != ""
    requires forall i: nat :: i < |a| ==> !OccursAt(a + pat + b, pat, i)
    ensures Replace(a + pat + b, pat, rep) == a + rep + Replace(b, pat, rep)
  {
    var s := a + pat + b;
    if a == [] {
      assert s == pat + b;
      assert s[..|pat|] == pat && s[|pat|..] == b;
    } else {
      assert !OccursAt(s, pat, 0);
      assert s[1..] == a[1..] + pat + b;
      forall i: nat | i < |a[1..]| ensures !OccursAt(a[1..] + pat + b, pat, i) {
        assert !OccursAt(s, pat, i + 1);
        assert s[i + 1..i + 1 + |pat|] == s[1..][i..i + |pat|];
      }
      ReplaceLeftmost(a[1..], pat, b, rep);
      assert s[0] == a[0];
      assert [a[0]] + (a[1..] + rep + Replace(b, pat, rep)) == a + rep + Replace(b, pat, rep);
    }
  }

  /** `b in a + b + c`. */
  lemma ContainsMiddle(a: string, b: string, c: string)
    ensures Contains(a + b + c, b)
  {
    assert (a + b + c)[|a|..|a| + |b|] == b;
    assert OccursAt(a + b + c, b, |a|);
  }

  /**
   * A character that `pat` lacks splits the search: an occurrence in
   * `x + [c] + y` would have to lie in `x` or in `y`.
   */
  lemma NoOccurrenceAcross(x: string, c: char, y: string, pat: string)
    requires c !in pat && !Contains(x, pat) && |y| < |pat|
    ensures !Contains(x + [c] + y, pat)
  {
    var s := x + [c] + y;
    forall i: nat | i + |pat| <= |s| ensures !OccursAt(s, pat, i) {
      if i + |pat| <= |x| {
        assert s[i..i + |pat|] == x[i..i + |pat|];
        assert !OccursAt(x, pat, i);
      } else if i <= |x| {
        assert s[i..i + |pat|][|x| - i] == c;
      }
    }
  }

  /** A string shorter than the pattern has no occurrence. */
  lemma ShortHasNone(s: string, pat: string)
    requires |s| < |pat|
    ensures !Contains(s, pat)
  {
  }

  /** No occurrence starts inside `a` when `a` lacks the pattern's first character. */
  lemma NoneStartsIn(a: string, pat: string, b: string)
    requires pat != "" && pat[0] !in a
    ensures forall i: nat :: i < |a| ==> !OccursAt(a + pat + b, pat, i)
  {
    forall i: nat | i < |a| ensures !OccursAt(a + pat + b, pat, i) {
      assert (a + pat + b)[i] == a[i];
    }
  }

  /** `basename.replace(".md", "")`: the part of a page name that appears in its URL. */
  function Stem(basename: string): string {
    Replace(basename, ".md", "")
  }
}

/**
 * The ordering-prefix matcher of the plugin, fixed to its default pattern
 * `^\d+--`: one or more ASCII digits at the very start of a name, followed
 * by two dashes. `IsPrefixed` is `re.match` with that pattern and `StripPrefix`
 * is `re.sub("", name)`; the pattern is anchored, so at most the one
 * leading prefix is ever removed.
 */
module Prefix {

  predicate IsDigit(c: char) {
    '0' <= c <= '9'
  }

  predicate AllDigits(s: string) {
    forall i :: 0 <= i < |s| ==> IsDigit(s[i])
  }

  /** Length of the run of digits at the start of `s` (what greedy `\d+` consumes). */
  function DigitRun(s: string): (n: nat)
    ensures n <= |s|
    ensures AllDigits(s[..n])
    ensures n < |s| ==> !IsDigit(s[n])
  {
    if s == [] || !IsDigit(s[0]) then 0
    else
      var n := 1 + DigitRun(s[1..]);
      assert s[..n] == [s[0]] + s[1..][..n - 1];
      n
  }

  /** `^\d+--` matches at the start of `s`. */
  predicate IsPrefixed(s: string) {
    var n := DigitRun(s);
    1 <= n && n + 2 <= |s| && s[n] == '-' && s[n + 1] == '-'
  }

  /** `p` is, as a whole, one ordering prefix: digits then "--" (it matches `^\d+--$`). */
  predicate IsOrderingPrefix(p: string) {
    |p| >= 3 && AllDigits(p[..|p| - 2]) && p[|p| - 2] == '-' && p[|p| - 1] == '-'
  }

  /**
   * The anchored substitution: a prefixed name loses exactly one ordering
   * prefix (the result is what follows it); any other name is returned
   * unchanged.
   */
  function StripPrefix(s: string): (r: string)
    ensures IsPrefixed(s) ==> |r| + 3 <= |s| && s == s[..|s| - |r|] + r && IsOrderingPrefix(s[..|s| - |r|])
    ensures !IsPrefixed(s) ==> r == s
  {
    if IsPrefixed(s) then
      var n := DigitRun(s);
      assert s == s[..n + 2] + s[n + 2..];
      assert s[..n + 2][..n] == s[..n];
      s[n + 2..]
    else s
  }

  /** The digit run is determined by any position that ends a block of digits. */
  lemma {:induction false} DigitRunIs(s: string, k: nat)
    requires k <= |s| && AllDigits(s[..k])
    requires k < |s| ==> !IsDigit(s[k])
    ensures DigitRun(s) == k
  {
    if k > 0 {
      assert IsDigit(s[..k][0]);
      assert s[1..][..k - 1] == s[..k][1..];
      DigitRunIs(s[1..], k - 1);
    } else if s != [] {
      assert !IsDigit(s[0]);
    }
  }

  /**
   * `IsPrefixed` is exactly the regular expression `^\d+--` read as a
   * string property: some non-empty block of digits at the start is
   * followed by "--".
   */
  lemma IsPrefixedIff(s: string)
    ensures IsPrefixed(s) <==>
      exists k :: 1 <= k && k + 2 <= |s| && AllDigits(s[..k]) && s[k] == '-' && s[k + 1] == '-'
  {
    if k :| 1 <= k && k + 2 <= |s| && AllDigits(s[..k]) && s[k] == '-' && s[k + 1] == '-' {
      DigitRunIs(s, k);
    }
  }

  /**
   * Only one prefix is removed, and it is the one the pattern matches:
   * whenever a name is an ordering prefix `p` followed by `t`, stripping yields
   * exactly `t`.
   */
  lemma StripRemovesExactlyThePrefix(p: string, t: string)
    requires IsOrderingPrefix(p)
    ensures IsPrefixed(p + t)
    ensures StripPrefix(p + t) == t
  {
    var s := p + t;
    var k := |p| - 2;
    assert s[..k] == p[..k];
    assert s[k] == '-';
    DigitRunIs(s, k);
    assert s[k + 2..] == t;
  }

  /** Stripping never grows a name, and shrinks every prefixed one. */
  lemma StripShrinks(s: string)
    ensures |StripPrefix(s)| <= |s|
    ensures IsPrefixed(s) <==> |StripPrefix(s)| < |s|
  {
  }

  /** The names the default pattern is documented to accept. */
  lemma DefaultPatternAccepts()
    ensures IsPrefixed("123--file.md")
    ensures IsPrefixed("01--intro.md")
    ensures IsPrefixed("999--appendix.md")
  {
    DigitRunIs("123--file.md", 3);
    DigitRunIs("01--intro.md", 2);
    DigitRunIs("999--appendix.md", 3);
  }

  /** The names the default pattern is documented to reject. */
  lemma DefaultPatternRejects()
    ensures !IsPrefixed("file.md")
    ensures !IsPrefixed("123-file.md")
    ensures !IsPrefixed("abc--file.md")
  {
    DigitRunIs("file.md", 0);
    DigitRunIs("123-file.md", 3);
    DigitRunIs("abc--file.md", 0);
  }

  /** The substitution is anchored: a second prefix survives, so stripping is not idempotent. */
  lemma StripRemovesOnePrefix()
    ensures StripPrefix("1--2--a.md") == "2--a.md"
    ensures IsPrefixed(StripPrefix("1--2--a.md"))
    ensures StripPrefix("010--guide.md") == "guide.md"
  {
    assert IsOrderingPrefix("1--") && IsOrderingPrefix("2--") && IsOrderingPrefix("010--");
    assert "1--2--a.md" == "1--" + "2--a.md";
    assert "2--a.md" == "2--" + "a.md";
    assert "010--guide.md" == "010--" + "guide.md";
    StripRemovesExactlyThePrefix("1--", "2--a.md");
    StripRemovesExactlyThePrefix("2--", "a.md");
    StripRemovesExactlyThePrefix("010--", "guide.md");
  }
}

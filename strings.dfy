/** Ordinal string operations of the base library used by the services. */
module Strings {
  /** `part` occurs in `s` starting at position i. */
  predicate OccursAt(s: string, part: string, i: int)
  {
    0 <= i <= |s| - |part| && s[i..i + |part|] == part
  }

  /** String.Contains with ordinal comparison. */
  predicate Contains(s: string, part: string)
  {
    exists i | 0 <= i <= |s| - |part| :: OccursAt(s, part, i)
  }

  predicate EndsWith(s: string, suffix: string)
  {
    |suffix| <= |s| && s[|s| - |suffix|..] == suffix
  }

  /**
   * String.Replace(pattern, ""): the input is scanned left to right and every
   * occurrence found is dropped, the scan resuming right after it.
   */
  function RemoveAll(s: string, pattern: string): (r: string)
    requires pattern != ""
    decreases |s|
    ensures |r| <= |s|
  {
    if |s| < |pattern| then s
    else if s[..|pattern|] == pattern then RemoveAll(s[|pattern|..], pattern)
    else [s[0]] + RemoveAll(s[1..], pattern)
  }

  /** An occurrence in the text after its first character is an occurrence in the text. */
  lemma ContainsOfTail(s: string, pattern: string)
    requires |s| > 0 && Contains(s[1..], pattern)
    ensures Contains(s, pattern)
  {
    var i :| 0 <= i <= |s[1..]| - |pattern| && OccursAt(s[1..], pattern, i);
    assert s[i + 1..i + 1 + |pattern|] == s[1..][i..i + |pattern|];
    assert OccursAt(s, pattern, i + 1);
  }

  /**
   * The scan drops the first occurrence and resumes right after it: when the
   * first occurrence in `a + pattern + b` starts at |a|, the text before it is
   * kept and the rest is what removal from `b` gives.
   */
  lemma {:induction false} RemoveAllFirstOccurrence(a: string, pattern: string, b: string)
    requires pattern != ""
    requires !Contains(a + pattern[..|pattern| - 1], pattern)
    decreases |a|
    ensures RemoveAll(a + pattern + b, pattern) == a + RemoveAll(b, pattern)
  {
    var s := a + pattern + b;
    if a == [] {
      assert s == pattern + b;
      assert s[..|pattern|] == pattern;
      assert s[|pattern|..] == b;
    } else {
      var c := a + pattern[..|pattern| - 1];
      assert s[..|pattern|] != pattern by {
        assert c[..|pattern|] == s[..|pattern|];
        assert !OccursAt(c, pattern, 0);
      }
      assert c[1..] == a[1..] + pattern[..|pattern| - 1];
      if Contains(c[1..], pattern) {
        ContainsOfTail(c, pattern);
      }
      RemoveAllFirstOccurrence(a[1..], pattern, b);
      assert s[1..] == a[1..] + pattern + b;
      assert a + RemoveAll(b, pattern) == [s[0]] + (a[1..] + RemoveAll(b, pattern));
    }
  }

  /** Text without an occurrence of the pattern is returned unchanged. */
  lemma {:induction false} RemoveAllWithoutOccurrence(s: string, pattern: string)
    requires pattern != "" && !Contains(s, pattern)
    decreases |s|
    ensures RemoveAll(s, pattern) == s
  {
    if |s| >= |pattern| {
      assert !OccursAt(s, pattern, 0);
      if Contains(s[1..], pattern) {
        ContainsOfTail(s, pattern);
      }
      RemoveAllWithoutOccurrence(s[1..], pattern);
      assert s == [s[0]] + s[1..];
    }
  }
}

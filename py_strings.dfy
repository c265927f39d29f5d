/** The few pieces of Python's `str` behaviour that the resume parser relies on:
    the whitespace class shared by `str.isspace`, `str.strip` and the regular
    expression class `\s`, and the prefix, suffix and substring tests. */
module PyStrings {

  /** `c.isspace()` in Python 3, which is also what `\s` matches in a pattern
      over `str`: the ASCII controls TAB..CR and FS..US, SPACE, NEL, NBSP and
      the Unicode space separators. */
  predicate IsSpace(c: char) {
    var n := c as int;
    (9 <= n <= 13) || (28 <= n <= 32) || n == 0x85 || n == 0xA0 || n == 0x1680
    || (0x2000 <= n <= 0x200A) || n == 0x2028 || n == 0x2029 || n == 0x202F
    || n == 0x205F || n == 0x3000
  }

  predicate AllSpace(s: string) {
    forall i :: 0 <= i < |s| ==> IsSpace(s[i])
  }

  /** No whitespace at either end: what `str.strip()` leaves. */
  predicate IsTrimmed(s: string) {
    s == [] || (!IsSpace(s[0]) && !IsSpace(s[|s| - 1]))
  }

  predicate StartsWith(s: string, prefix: string) {
    |prefix| <= |s| && s[..|prefix|] == prefix
  }

  predicate EndsWith(s: string, suffix: string) {
    |suffix| <= |s| && s[|s| - |suffix|..] == suffix
  }

  /** `needle in s` */
  predicate Contains(s: string, needle: string)
    decreases |s|
  {
    StartsWith(s, needle) || (s != [] && Contains(s[1..], needle))
  }

  /** A needle in the second part of a concatenation is in the whole. */
  lemma {:induction false} ContainsAfter(a: string, b: string, needle: string)
    requires Contains(b, needle)
    ensures Contains(a + b, needle)
    decreases |a|
  {
    if a == [] {
      assert a + b == b;
    } else {
      assert (a + b)[1..] == a[1..] + b;
      ContainsAfter(a[1..], b, needle);
    }
  }

  /** A string lacking one of the needle's characters does not contain it. */
  lemma {:induction false} NotContainsMissingChar(s: string, needle: string, j: nat)
    requires j < |needle| && forall k :: 0 <= k < |s| ==> s[k] != needle[j]
    ensures !Contains(s, needle)
    decreases |s|
  {
    if s != [] {
      if |needle| <= |s| {
        assert s[..|needle|][j] == s[j];
      }
      forall k | 0 <= k < |s[1..]|
        ensures s[1..][k] != needle[j]
      {
        assert s[1..][k] == s[k + 1];
      }
      NotContainsMissingChar(s[1..], needle, j);
    }
  }

  /** A concatenation starts with its first part and leaves the second after it. */
  lemma PrefixThenRest(p: string, r: string)
    ensures StartsWith(p + r, p) && (p + r)[|p|..] == r
  {
  }

  /** `s.lstrip()`: removes the longest all-whitespace prefix. */
  function TrimStart(s: string): (r: string)
    ensures |r| <= |s|
    ensures r != [] ==> !IsSpace(r[0])
    decreases |s|
  {
    if s != [] && IsSpace(s[0]) then TrimStart(s[1..]) else s
  }

  /** What `lstrip()` removes is a whitespace prefix: it keeps a suffix. */
  lemma {:induction false} TrimStartCut(s: string) returns (k: nat)
    ensures k <= |s| && TrimStart(s) == s[k..] && AllSpace(s[..k])
    decreases |s|
  {
    if s != [] && IsSpace(s[0]) {
      var k1 := TrimStartCut(s[1..]);
      k := k1 + 1;
      assert s[1..][k1..] == s[k..];
      assert s[..k] == [s[0]] + s[1..][..k1];
    } else {
      k := 0;
    }
  }

  /** `s.rstrip()`: removes the longest all-whitespace suffix. */
  function TrimEnd(s: string): (r: string)
    ensures |r| <= |s| && r == s[..|r|]
    ensures AllSpace(s[|r|..])
    ensures r != [] ==> !IsSpace(r[|r| - 1])
    decreases |s|
  {
    if s != [] && IsSpace(s[|s| - 1]) then
      var r := TrimEnd(s[..|s| - 1]);
      assert s[|r|..] == s[..|s| - 1][|r|..] + [s[|s| - 1]];
      r
    else
      s
  }

  /** `s.strip()` */
  function Strip(s: string): (r: string)
    ensures IsTrimmed(r)
  {
    TrimEnd(TrimStart(s))
  }

  /** `strip()` keeps a contiguous piece and removes only whitespace around it. */
  lemma StripIsSlice(s: string) returns (i: nat, j: nat)
    ensures i <= j <= |s| && Strip(s) == s[i..j]
    ensures AllSpace(s[..i]) && AllSpace(s[j..])
  {
    var t := TrimStart(s);
    var r := TrimEnd(t);
    i := TrimStartCut(s);
    j := i + |r|;
    assert Strip(s) == s[i..j] by {
      assert r == t[..|r|];
      assert t[..|r|] == s[i..j];
    }
    assert s[j..] == t[|r|..];
  }

  /** A non-space character bounds what `rstrip()` can remove. */
  lemma TrimEndKeepsNonSpace(s: string, k: nat)
    requires k < |s| && !IsSpace(s[k])
    ensures k < |TrimEnd(s)|
  {
    var r := TrimEnd(s);
    forall j | |r| <= j < |s|
      ensures IsSpace(s[j])
    {
      assert s[|r|..][j - |r|] == s[j];
    }
  }

  /** Leading whitespace is skipped as a block: lstrip(w + t) == lstrip(t). */
  lemma {:induction false} TrimStartSkipsSpace(w: string, t: string)
    requires AllSpace(w)
    ensures TrimStart(w + t) == TrimStart(t)
    decreases |w|
  {
    if w != [] {
      assert (w + t)[0] == w[0] && (w + t)[1..] == w[1..] + t;
      TrimStartSkipsSpace(w[1..], t);
    } else {
      assert w + t == t;
    }
  }

  /** Trailing whitespace is skipped as a block: rstrip(t + w) == rstrip(t). */
  lemma {:induction false} TrimEndSkipsSpace(t: string, w: string)
    requires AllSpace(w)
    ensures TrimEnd(t + w) == TrimEnd(t)
    decreases |w|
  {
    if w != [] {
      assert (t + w)[|t + w| - 1] == w[|w| - 1];
      assert (t + w)[..|t + w| - 1] == t + w[..|w| - 1];
      TrimEndSkipsSpace(t, w[..|w| - 1]);
    } else {
      assert t + w == t;
    }
  }

  /** A string that has no whitespace at either end is its own `strip()`. */
  lemma StripOfTrimmed(s: string)
    requires IsTrimmed(s)
    ensures Strip(s) == s
  {
  }
}

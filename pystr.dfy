/**
 * The parts of Python's `str` that the services use: `isspace`, `strip`,
 * `startswith`, `find`, `rfind`, `lower`, slicing `s[:n]`, `in` on strings
 * and `str(n)` for a natural number.
 */
module PyStr {

  /** Python's `str.isspace()` on one character (Unicode whitespace). */
  predicate IsSpace(c: char) {
    || c == ' '
    || ('\t' <= c <= '\r')
    || ('\U{1c}' <= c <= '\U{1f}')
    || c == '\U{85}' || c == '\U{a0}' || c == '\U{1680}'
    || ('\U{2000}' <= c <= '\U{200a}')
    || c == '\U{2028}' || c == '\U{2029}' || c == '\U{202f}' || c == '\U{205f}' || c == '\U{3000}'
  }

  /** Index of the first non-whitespace character (or |s|). */
  function StripStart(s: string): (a: nat)
    ensures a <= |s|
    ensures forall k :: 0 <= k < a ==> IsSpace(s[k])
    ensures a < |s| ==> !IsSpace(s[a])
  {
    if |s| == 0 || !IsSpace(s[0]) then 0 else 1 + StripStart(s[1..])
  }

  /** One past the last non-whitespace character at or after `a` (or `a`). */
  function StripEndFrom(s: string, a: nat): (b: nat)
    requires a <= |s|
    ensures a <= b <= |s|
    ensures forall k :: b <= k < |s| ==> IsSpace(s[k])
    ensures b > a ==> !IsSpace(s[b - 1])
    decreases |s|
  {
    if |s| == a || !IsSpace(s[|s| - 1]) then |s| else StripEndFrom(s[..|s| - 1], a)
  }

  /** Python's `s.strip()`: remove leading and trailing whitespace. */
  function Strip(s: string): (r: string)
    ensures |r| <= |s|
    ensures r == "" <==> forall k :: 0 <= k < |s| ==> IsSpace(s[k])
    ensures r != "" ==> !IsSpace(r[0]) && !IsSpace(r[|r| - 1])
  {
    var a := StripStart(s);
    var b := StripEndFrom(s, a);
    s[a..b]
  }

  /** Stripping a string that neither starts nor ends with whitespace leaves it as it is. */
  lemma StripTrimmed(s: string)
    requires s != [] ==> !IsSpace(s[0]) && !IsSpace(s[|s| - 1])
    ensures Strip(s) == s
  {
    if s != [] {
      assert StripStart(s) == 0;
      assert StripEndFrom(s, 0) == |s|;
    }
  }

  /** `strip` is idempotent. */
  lemma StripIdempotent(s: string)
    ensures Strip(Strip(s)) == Strip(s)
  {
    StripTrimmed(Strip(s));
  }

  /**
   * Stripping `x + s + y`, where `x` and `y` are whitespace only, gives the same
   * string as stripping `s`.
   */
  lemma StripPadded(x: string, s: string, y: string)
    requires forall k :: 0 <= k < |x| ==> IsSpace(x[k])
    requires forall k :: 0 <= k < |y| ==> IsSpace(y[k])
    ensures Strip(x + s + y) == Strip(s)
  {
    if Strip(s) == "" {
      StripPaddedBlank(x, s, y);
    } else {
      StripPaddedNonBlank(x, s, y);
    }
  }

  lemma StripPaddedNonBlank(x: string, s: string, y: string)
    requires forall k :: 0 <= k < |x| ==> IsSpace(x[k])
    requires forall k :: 0 <= k < |y| ==> IsSpace(y[k])
    requires Strip(s) != ""
    ensures Strip(x + s + y) == Strip(s)
  {
    var a := StripStart(s);
    var b := StripEndFrom(s, a);
    assert Strip(s) == s[a..b];
    var t := x + s + y;
    PaddedFront(x, s, y, a);
    PaddedBack(x, s, y, b);
    ConcatMiddle(x, s, y, a, b);
    StripBoundsAt(t, |x| + a, |x| + b);
    assert Strip(t) == t[|x| + a..|x| + b];
  }

  /** Indexing and slicing the middle part of `x + s + y`. */
  lemma ConcatMiddle(x: string, s: string, y: string, a: nat, b: nat)
    requires a < b <= |s|
    ensures (x + s + y)[|x| + a] == s[a] && (x + s + y)[|x| + b - 1] == s[b - 1]
    ensures (x + s + y)[|x| + a..|x| + b] == s[a..b]
  {
  }

  lemma PaddedFront(x: string, s: string, y: string, a: nat)
    requires forall k :: 0 <= k < |x| ==> IsSpace(x[k])
    requires a <= |s| && forall k :: 0 <= k < a ==> IsSpace(s[k])
    ensures forall k :: 0 <= k < |x| + a ==> IsSpace((x + s + y)[k])
  {
    var t := x + s + y;
    forall k | 0 <= k < |x| + a ensures IsSpace(t[k]) {
      if k < |x| { assert t[k] == x[k]; } else { assert t[k] == s[k - |x|]; }
    }
  }

  lemma PaddedBack(x: string, s: string, y: string, b: nat)
    requires forall k :: 0 <= k < |y| ==> IsSpace(y[k])
    requires b <= |s| && forall k :: b <= k < |s| ==> IsSpace(s[k])
    ensures forall k :: |x| + b <= k < |x + s + y| ==> IsSpace((x + s + y)[k])
  {
    var t := x + s + y;
    forall k | |x| + b <= k < |t| ensures IsSpace(t[k]) {
      if k < |x| + |s| { assert t[k] == s[k - |x|]; } else { assert t[k] == y[k - |x| - |s|]; }
    }
  }

  /** The strip bounds are pinned by the whitespace around a non-whitespace stretch. */
  lemma StripBoundsAt(t: string, a: nat, b: nat)
    requires a < b <= |t| && !IsSpace(t[a]) && !IsSpace(t[b - 1])
    requires forall k :: 0 <= k < a ==> IsSpace(t[k])
    requires forall k :: b <= k < |t| ==> IsSpace(t[k])
    ensures StripStart(t) == a && StripEndFrom(t, a) == b
  {
  }

  lemma StripPaddedBlank(x: string, s: string, y: string)
    requires forall k :: 0 <= k < |x| ==> IsSpace(x[k])
    requires forall k :: 0 <= k < |y| ==> IsSpace(y[k])
    requires Strip(s) == ""
    ensures Strip(x + s + y) == ""
  {
    var t := x + s + y;
    forall k | 0 <= k < |t| ensures IsSpace(t[k]) {
      if k < |x| { assert t[k] == x[k]; }
      else if k < |x| + |s| { assert t[k] == s[k - |x|]; }
      else { assert t[k] == y[k - |x| - |s|]; }
    }
  }

  /**
   * Stripping never cuts into a stretch that starts and ends with a
   * non-whitespace character.
   */
  lemma StripKeeps(s: string, lo: nat, hi: nat)
    requires lo < hi <= |s| && !IsSpace(s[lo]) && !IsSpace(s[hi - 1])
    ensures StripStart(s) <= lo && StripEndFrom(s, StripStart(s)) >= hi
  {
  }

  /** A character absent from a string is absent from each of its slices. */
  lemma NotInSlice(c: char, s: string, lo: nat, hi: nat)
    requires c !in s && lo <= hi <= |s|
    ensures c !in s[lo..hi]
  {
    forall k | 0 <= k < hi - lo ensures s[lo..hi][k] != c {
      assert s[lo..hi][k] == s[lo + k] && s[lo + k] in s;
    }
  }

  predicate StartsWith(s: string, prefix: string) {
    |prefix| <= |s| && s[..|prefix|] == prefix
  }

  /** A concatenation starts with its first part. */
  lemma ConcatStartsWith(prefix: string, rest: string)
    ensures StartsWith(prefix + rest, prefix)
  {
    assert (prefix + rest)[..|prefix|] == prefix;
  }

  /** Putting the same string in front of a string and of its prefix keeps the prefix relation. */
  lemma PrependStartsWith(front: string, s: string, prefix: string)
    requires StartsWith(s, prefix)
    ensures StartsWith(front + s, front + prefix)
  {
    assert (front + s)[..|front + prefix|] == front + s[..|prefix|];
  }

  predicate EndsWith(s: string, suffix: string) {
    |suffix| <= |s| && s[|s| - |suffix|..] == suffix
  }

  /** A concatenation ends with its last part. */
  lemma ConcatEndsWith(front: string, suffix: string)
    ensures EndsWith(front + suffix, suffix)
  {
    assert (front + suffix)[|front|..] == suffix;
  }

  /** Python's `s.find(c)` for one character: the first index of `c`, or -1. */
  function Find(s: string, c: char): (r: int)
    ensures -1 <= r < |s|
    ensures r >= 0 ==> s[r] == c && c !in s[..r]
    ensures r == -1 <==> c !in s
  {
    if |s| == 0 then -1
    else if s[0] == c then 0
    else
      var k := Find(s[1..], c);
      assert s[0] != c && (k >= 0 ==> s[..k + 1] == [s[0]] + s[1..][..k]);
      if k == -1 then -1 else k + 1
  }

  /** Python's `s.rfind(c)` for one character: the last index of `c`, or -1. */
  function RFind(s: string, c: char): (r: int)
    ensures -1 <= r < |s|
    ensures r >= 0 ==> s[r] == c && c !in s[r + 1..]
    ensures r == -1 <==> c !in s
  {
    if |s| == 0 then -1
    else if s[|s| - 1] == c then |s| - 1
    else
      var init := s[..|s| - 1];
      var k := RFind(init, c);
      assert s == init + [s[|s| - 1]];
      assert k >= 0 ==> s[k + 1..] == init[k + 1..] + [s[|s| - 1]];
      k
  }

  /** Python's `s[:n]` for n >= 0: the longest prefix of `s` of length at most `n`. */
  function Truncate(s: string, n: nat): (r: string)
    ensures |r| <= n && |r| <= |s|
    ensures r == s[..|r|]
    ensures |s| <= n ==> r == s
    ensures |s| > n ==> |r| == n
  {
    if |s| <= n then s else s[..n]
  }

  /** Python's `sub in s` for strings. */
  predicate IsSubstring(sub: string, s: string)
    decreases |s|
  {
    StartsWith(s, sub) || (|s| > 0 && IsSubstring(sub, s[1..]))
  }

  /**
   * Python's `c.lower()` for the characters whose lower case is an ASCII
   * letter: `A`..`Z`, and the Kelvin sign U+212A, whose lower case is `k`.
   * Every other character is kept, so a comparison of the result with an
   * ASCII word agrees with Python's.
   */
  function LowerChar(c: char): (r: char)
    ensures 'a' <= r <= 'z' && r != c <==> ('A' <= c <= 'Z' || c == '\U{212a}')
  {
    if 'A' <= c <= 'Z' then (c as int - 'A' as int + 'a' as int) as char
    else if c == '\U{212a}' then 'k'
    else c
  }

  function Lower(s: string): (r: string)
    ensures |r| == |s|
    ensures forall k :: 0 <= k < |s| ==> r[k] == LowerChar(s[k])
  {
    seq(|s|, k requires 0 <= k < |s| => LowerChar(s[k]))
  }

  /** The decimal digit of `d`. */
  function Digit(d: nat): (c: char)
    requires d < 10
    ensures '0' <= c <= '9'
  {
    ('0' as int + d) as char
  }

  /** Python's `str(n)` for a natural number. */
  function NatToString(n: nat): (r: string)
    ensures |r| >= 1
    ensures forall k :: 0 <= k < |r| ==> '0' <= r[k] <= '9'
  {
    if n < 10 then [Digit(n)] else NatToString(n / 10) + [Digit(n % 10)]
  }
}

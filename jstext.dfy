/** ECMAScript `String.prototype.trim`, which the ask handler applies to the
    oracle's reply text before storing and returning it. */
module JsText {

  /** The characters `trim` removes: the ECMAScript WhiteSpace production
      (TAB, VT, FF, ZWNBSP and every Unicode "Zs" space separator) together
      with the LineTerminator production (LF, CR, LS, PS). Among ASCII
      characters these are exactly TAB, LF, VT, FF, CR and space; NEL (U+0085),
      the zero-width space (U+200B) and the Mongolian vowel separator
      (U+180E, no longer in Zs) are not removed. */
  predicate IsWhitespace(c: char)
    ensures c < '\U{0080}' ==> (IsWhitespace(c) <==> c in "\t\n\U{000B}\U{000C}\r ")
    ensures c == '\U{0085}' || c == '\U{200B}' || c == '\U{180E}' ==> !IsWhitespace(c)
  {
    c == '\t' || c == '\U{000B}' || c == '\U{000C}' || c == '\U{FEFF}'
    || c == '\n' || c == '\r' || c == '\U{2028}' || c == '\U{2029}'
    // Unicode category Zs
    || c == ' ' || c == '\U{00A0}' || c == '\U{1680}'
    || ('\U{2000}' <= c <= '\U{200A}')
    || c == '\U{202F}' || c == '\U{205F}' || c == '\U{3000}'
  }

  /** Every character of `s` in `[lo, hi)` is whitespace. */
  predicate WhitespaceBetween(s: string, lo: nat, hi: nat)
    requires lo <= hi <= |s|
  {
    forall k :: lo <= k < hi ==> IsWhitespace(s[k])
  }

  predicate AllWhitespace(s: string) {
    WhitespaceBetween(s, 0, |s|)
  }

  /** Scanning forward from `i`: the index of the first character that is not
      whitespace, or `|s|` if there is none. */
  function SkipLeading(s: string, i: nat): (k: nat)
    requires i <= |s|
    ensures i <= k <= |s| && WhitespaceBetween(s, i, k)
    ensures k < |s| ==> !IsWhitespace(s[k])
    decreases |s| - i
  {
    if i < |s| && IsWhitespace(s[i]) then SkipLeading(s, i + 1) else i
  }

  /** Scanning backward from `j`, never below `lo`: the index just past the
      last character that is not whitespace, or `lo` if there is none. */
  function SkipTrailing(s: string, lo: nat, j: nat): (k: nat)
    requires lo <= j <= |s|
    ensures lo <= k <= j && WhitespaceBetween(s, k, j)
    ensures k > lo ==> !IsWhitespace(s[k - 1])
    decreases j
  {
    if j > lo && IsWhitespace(s[j - 1]) then SkipTrailing(s, lo, j - 1) else j
  }

  /** The forward scan stops at the only place it can: an index with only
      whitespace between the start of the scan and it, and a non-whitespace
      character (or the end) at it. */
  lemma SkipLeadingUnique(s: string, i: nat, k: nat)
    requires i <= k <= |s| && WhitespaceBetween(s, i, k)
    requires k < |s| ==> !IsWhitespace(s[k])
    ensures SkipLeading(s, i) == k
  {
  }

  /** The backward scan, symmetrically. */
  lemma SkipTrailingUnique(s: string, lo: nat, j: nat, k: nat)
    requires lo <= k <= j <= |s| && WhitespaceBetween(s, k, j)
    requires k > lo ==> !IsWhitespace(s[k - 1])
    ensures SkipTrailing(s, lo, j) == k
  {
  }

  /** `s.trim()`: the contiguous middle of `s` left once the whitespace on
      both sides is removed. */
  function Trim(s: string): (r: string)
    ensures |r| <= |s|
    ensures r == [] || (!IsWhitespace(r[0]) && !IsWhitespace(r[|r| - 1]))
    ensures var a := SkipLeading(s, 0);
            a + |r| <= |s| && r == s[a..a + |r|]
            && WhitespaceBetween(s, 0, a) && WhitespaceBetween(s, a + |r|, |s|)
  {
    var a := SkipLeading(s, 0);
    var b := SkipTrailing(s, a, |s|);
    s[a..b]
  }

  /** Trimming removes exactly the surrounding whitespace: a text `m` that
      neither starts nor ends with whitespace is recovered from any padding
      `p + m + q` of it. */
  lemma TrimExact(p: string, m: string, q: string)
    requires AllWhitespace(p) && AllWhitespace(q)
    requires m == [] || (!IsWhitespace(m[0]) && !IsWhitespace(m[|m| - 1]))
    ensures Trim(p + m + q) == m
  {
    var s := p + m + q;
    var a, b := |s|, |s|;
    if m != [] {
      a, b := |p|, |p| + |m|;
      assert s[a] == m[0];
      assert s[b - 1] == m[|m| - 1];
    }
    assert WhitespaceBetween(s, 0, a) by {
      forall k | 0 <= k < a ensures IsWhitespace(s[k]) {
        if k < |p| { assert s[k] == p[k]; } else { assert s[k] == q[k - |p| - |m|]; }
      }
    }
    assert WhitespaceBetween(s, b, |s|) by {
      forall k | b <= k < |s| ensures IsWhitespace(s[k]) {
        assert s[k] == q[k - |p| - |m|];
      }
    }
    SkipLeadingUnique(s, 0, a);
    SkipTrailingUnique(s, a, |s|, b);
    assert s[a..b] == m;
  }

  /** Trimming twice is trimming once. */
  lemma TrimIdempotent(s: string)
    ensures Trim(Trim(s)) == Trim(s)
  {
  }
}

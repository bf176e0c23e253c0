/**
 * Character classes and scanners over text, as Python's `str` and `re` see them
 * in `main.py`: substring search (`in`), runs of whitespace, digits and dots
 * (`\s*`, `[\d.]+`), the leading upper-case run (`[A-Z]+`), case-insensitive
 * comparison with a lower-case ASCII word (`re.IGNORECASE`), and `str.strip()`.
 */
module Text {

  /** Whitespace as `str.isspace()` defines it; `\s` in a `str` pattern and `str.strip()` both use it. */
  predicate IsSpace(c: char) {
    || ('\t' <= c <= '\r')
    || ('\U{1C}' <= c <= '\U{1F}')
    || c == ' ' || c == '\U{85}' || c == '\U{A0}' || c == '\U{1680}'
    || ('\U{2000}' <= c <= '\U{200A}')
    || c == '\U{2028}' || c == '\U{2029}' || c == '\U{202F}' || c == '\U{205F}' || c == '\U{3000}'
  }

  /** `\d`, restricted to the ASCII digits. */
  predicate IsDigit(c: char) {
    '0' <= c <= '9'
  }

  /** The class `[\d.]`. */
  predicate IsDigitOrDot(c: char) {
    IsDigit(c) || c == '.'
  }

  /** The class `[A-Z]` (no IGNORECASE flag, so ASCII upper case only). */
  predicate IsUpper(c: char) {
    'A' <= c <= 'Z'
  }

  /** The class `[:：]`: a half-width or a full-width colon. */
  predicate IsColon(c: char) {
    c == ':' || c == '：'
  }

  /**
   * The character a lower-case ASCII letter of an IGNORECASE pattern is compared with:
   * ASCII upper case lowered, and the four non-ASCII letters that `re` folds onto ASCII
   * letters (dotted capital I, dotless small i, long s, Kelvin sign).
   */
  function Fold(c: char): (r: char)
    ensures IsUpper(c) ==> r == c - 'A' + 'a'
    ensures 'a' <= r <= 'z' && r != c ==> IsUpper(c) || c == '\U{130}' || c == '\U{131}' || c == '\U{17F}' || c == '\U{212A}'
  {
    if IsUpper(c) then c - 'A' + 'a'
    else if c == '\U{130}' || c == '\U{131}' then 'i'
    else if c == '\U{17F}' then 's'
    else if c == '\U{212A}' then 'k'
    else c
  }

  // ---------------------------------------------------------------------------
  // Substring search: Python's `p in s`
  // ---------------------------------------------------------------------------

  /** `p` occurs in `s` starting at index `k`. */
  predicate OccursAt(s: string, p: string, k: nat) {
    k + |p| <= |s| && s[k..k + |p|] == p
  }

  /** Scans `s` from index `i` for an occurrence of `p`. */
  function OccursFrom(s: string, p: string, i: nat): (r: bool)
    decreases |s| - i
    ensures r <==> exists k :: i <= k && OccursAt(s, p, k)
  {
    if i + |p| > |s| then
      assert forall k :: i <= k ==> !OccursAt(s, p, k);
      false
    else if s[i..i + |p|] == p then
      assert OccursAt(s, p, i);
      true
    else OccursFrom(s, p, i + 1)
  }

  /** Python's `p in s`. */
  function Contains(s: string, p: string): (r: bool)
    ensures r <==> exists k :: OccursAt(s, p, k)
  {
    OccursFrom(s, p, 0)
  }

  /** An occurrence of `q + p` contains an occurrence of `p`. */
  lemma ContainsSuffix(s: string, q: string, p: string)
    requires Contains(s, q + p)
    ensures Contains(s, p)
  {
    var k: nat :| OccursAt(s, q + p, k);
    assert s[k + |q|..k + |q| + |p|] == (q + p)[|q|..];
    assert OccursAt(s, p, k + |q|);
  }

  // ---------------------------------------------------------------------------
  // Runs of one character class, as the greedy `\s*` and `[\d.]+` consume them
  // ---------------------------------------------------------------------------

  predicate AllSpace(s: string, i: nat, j: nat)
    requires i <= j <= |s|
  {
    forall k :: i <= k < j ==> IsSpace(s[k])
  }

  predicate AllDigitOrDot(s: string, i: nat, j: nat)
    requires i <= j <= |s|
  {
    forall k :: i <= k < j ==> IsDigitOrDot(s[k])
  }

  /** End of the maximal run of whitespace starting at `i` (greedy `\s*`). */
  function SpaceRunEnd(s: string, i: nat): (r: nat)
    requires i <= |s|
    decreases |s| - i
    ensures i <= r <= |s| && AllSpace(s, i, r)
    ensures r == |s| || !IsSpace(s[r])
  {
    if i < |s| && IsSpace(s[i]) then SpaceRunEnd(s, i + 1) else i
  }

  /** End of the maximal run of digits and dots starting at `i` (greedy `[\d.]*`). */
  function DigitRunEnd(s: string, i: nat): (r: nat)
    requires i <= |s|
    decreases |s| - i
    ensures i <= r <= |s| && AllDigitOrDot(s, i, r)
    ensures r == |s| || !IsDigitOrDot(s[r])
  {
    if i < |s| && IsDigitOrDot(s[i]) then DigitRunEnd(s, i + 1) else i
  }

  /** End of the maximal run of upper-case ASCII letters starting at `i` (greedy `[A-Z]*`). */
  function UpperRunEnd(s: string, i: nat): (r: nat)
    requires i <= |s|
    decreases |s| - i
    ensures i <= r <= |s| && forall k :: i <= k < r ==> IsUpper(s[k])
    ensures r == |s| || !IsUpper(s[r])
  {
    if i < |s| && IsUpper(s[i]) then UpperRunEnd(s, i + 1) else i
  }

  /** A maximal run is the only one: any whitespace stretch ended by a non-space is the greedy run. */
  lemma SpaceRunUnique(s: string, i: nat, j: nat)
    requires i <= j <= |s| && AllSpace(s, i, j)
    requires j == |s| || !IsSpace(s[j])
    ensures j == SpaceRunEnd(s, i)
  {
  }

  // ---------------------------------------------------------------------------
  // Case-insensitive comparison with a lower-case ASCII word
  // ---------------------------------------------------------------------------

  /** `word` (lower-case ASCII) occurs at `k` in `s` when letter case is ignored. */
  predicate OccursFoldedAt(s: string, word: string, k: nat) {
    k + |word| <= |s| && forall q :: 0 <= q < |word| ==> Fold(s[k + q]) == word[q]
  }

  // ---------------------------------------------------------------------------
  // str.strip()
  // ---------------------------------------------------------------------------

  /** Start of the maximal run of whitespace ending at `j`. */
  function SpaceRunStart(s: string, j: nat): (r: nat)
    requires j <= |s|
    ensures r <= j && AllSpace(s, r, j)
    ensures r == 0 || !IsSpace(s[r - 1])
  {
    if j > 0 && IsSpace(s[j - 1]) then SpaceRunStart(s, j - 1) else j
  }

  /** A whitespace stretch that starts the text or follows a non-space is the greedy run ending where it ends. */
  lemma SpaceRunStartUnique(s: string, i: nat, j: nat)
    requires i <= j <= |s| && AllSpace(s, i, j)
    requires i == 0 || !IsSpace(s[i - 1])
    ensures i == SpaceRunStart(s, j)
  {
  }

  /** Python's `s.strip()`: leading and trailing whitespace removed. */
  function Strip(s: string): (r: string)
    ensures |r| <= |s|
    ensures r == [] || (!IsSpace(r[0]) && !IsSpace(r[|r| - 1]))
  {
    var a := SpaceRunEnd(s, 0);
    if a == |s| then []
    else
      var b := SpaceRunStart(s, |s|);
      assert a < b;
      s[a..b]
  }

  /** `strip()` keeps a piece of the text and drops only whitespace on either side of it. */
  lemma StripKeepsInner(s: string)
    ensures exists a: nat :: a + |Strip(s)| <= |s| && Strip(s) == s[a..a + |Strip(s)|] &&
                             AllSpace(s, 0, a) && AllSpace(s, a + |Strip(s)|, |s|)
  {
    var a := SpaceRunEnd(s, 0);
    if a == |s| {
      assert Strip(s) == s[a..a];
    } else {
      assert Strip(s) == s[a..SpaceRunStart(s, |s|)];
    }
  }

  /** `strip()` removes exactly the surrounding whitespace: padding a stripped text and stripping gives it back. */
  lemma StripPadded(w1: string, t: string, w2: string)
    requires AllSpace(w1, 0, |w1|) && AllSpace(w2, 0, |w2|)
    requires t == [] || (!IsSpace(t[0]) && !IsSpace(t[|t| - 1]))
    ensures Strip(w1 + t + w2) == t
  {
    var x := w1 + t + w2;
    var i, j := |w1|, |w1| + |t|;
    assert x[..i] == w1 && x[i..j] == t && x[j..] == w2;
    assert forall k :: 0 <= k < i ==> x[k] == w1[k];
    assert forall k :: j <= k < |x| ==> x[k] == w2[k - j];
    if t == [] {
      SpaceRunUnique(x, 0, |x|);
    } else {
      assert x[i] == t[0] && x[j - 1] == t[|t| - 1];
      SpaceRunUnique(x, 0, i);
      SpaceRunStartUnique(x, j, |x|);
    }
  }

  /** `strip()` keeps what lies between the leading and the trailing whitespace runs. */
  lemma StripBetween(s: string)
    ensures SpaceRunEnd(s, 0) == |s| ==> Strip(s) == []
    ensures SpaceRunEnd(s, 0) < |s| ==> Strip(s) == s[SpaceRunEnd(s, 0)..SpaceRunStart(s, |s|)]
  {
  }

  /** Padding with whitespace moves the end of the leading whitespace run by the left padding, or to the end when all is whitespace. */
  lemma PaddedSpaceRunEnd(w1: string, s: string, w2: string)
    requires AllSpace(w1, 0, |w1|) && AllSpace(w2, 0, |w2|)
    ensures SpaceRunEnd(s, 0) < |s| ==> SpaceRunEnd(w1 + s + w2, 0) == |w1| + SpaceRunEnd(s, 0)
    ensures SpaceRunEnd(s, 0) == |s| ==> SpaceRunEnd(w1 + s + w2, 0) == |w1 + s + w2|
  {
    var x, n, a := w1 + s + w2, |w1|, SpaceRunEnd(s, 0);
    var e := if a < |s| then n + a else |x|;
    forall k | 0 <= k < e ensures IsSpace(x[k]) {
      if k < n { assert x[k] == w1[k]; }
      else if k < n + |s| { assert x[k] == s[k - n]; }
      else { assert x[k] == w2[k - n - |s|]; }
    }
    if a < |s| {
      assert x[n + a] == s[a];
    }
    SpaceRunUnique(x, 0, e);
  }

  /** Padding a text that is not all whitespace moves the start of the trailing whitespace run by the left padding. */
  lemma PaddedSpaceRunStart(w1: string, s: string, w2: string)
    requires AllSpace(w1, 0, |w1|) && AllSpace(w2, 0, |w2|)
    requires SpaceRunEnd(s, 0) < |s|
    ensures SpaceRunStart(w1 + s + w2, |w1 + s + w2|) == |w1| + SpaceRunStart(s, |s|)
  {
    var x, n, b := w1 + s + w2, |w1|, SpaceRunStart(s, |s|);
    assert b > 0;
    forall k | n + b <= k < |x| ensures IsSpace(x[k]) {
      if k < n + |s| { assert x[k] == s[k - n]; } else { assert x[k] == w2[k - n - |s|]; }
    }
    assert x[n + b - 1] == s[b - 1];
    SpaceRunStartUnique(x, n + b, |x|);
  }

  /** The text inside the padding is found at the padding's length. */
  lemma SliceOfPadded(w1: string, s: string, w2: string, i: nat, j: nat)
    requires i <= j <= |s|
    ensures (w1 + s + w2)[|w1| + i..|w1| + j] == s[i..j]
  {
    assert w1 + s + w2 == w1 + (s + w2);
    assert (w1 + (s + w2))[|w1|..] == s + w2;
    assert (s + w2)[i..j] == s[i..j];
  }

  /** Whitespace added around any text is removed by `strip()` along with the text's own. */
  lemma StripIgnoresPadding(w1: string, s: string, w2: string)
    requires AllSpace(w1, 0, |w1|) && AllSpace(w2, 0, |w2|)
    ensures Strip(w1 + s + w2) == Strip(s)
  {
    PaddedSpaceRunEnd(w1, s, w2);
    StripBetween(w1 + s + w2);
    StripBetween(s);
    if SpaceRunEnd(s, 0) < |s| {
      PaddedSpaceRunStart(w1, s, w2);
      SliceOfPadded(w1, s, w2, SpaceRunEnd(s, 0), SpaceRunStart(s, |s|));
    }
  }

  /** `strip()` is idempotent. */
  lemma StripIdempotent(s: string)
    ensures Strip(Strip(s)) == Strip(s)
  {
    var t := Strip(s);
    StripPadded([], t, []);
    assert [] + t + [] == t;
  }
}

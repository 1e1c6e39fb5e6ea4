/**
 * The pure string helpers the monitor uses: Python's `in`, `str.replace(p, "")`,
 * `split('/')[-1]`, `split("\n")[0]`, `re.match(r"(\w+ \d+)", s)` and `int(s)` /
 * `f"{n}"` on integers.  Characters are compared as code points.  White space is
 * Python's full set; the Unicode classes of Python's `\w` and `\d` (and the
 * non-ASCII decimal digits `int()` accepts) are reduced to ASCII.
 */
module Text {
  import opened Wrappers

  /** Python `pat in s`. */
  predicate Contains(s: string, pat: string)
    decreases |s|
  {
    if |s| < |pat| then false
    else s[..|pat|] == pat || Contains(s[1..], pat)
  }

  /** Python `s.replace(pat, "")`: occurrences are removed left to right, without overlap. */
  function RemoveAll(s: string, pat: string): (r: string)
    requires pat != []
    ensures |r| <= |s|
    decreases |s|
  {
    if |s| < |pat| then s
    else if s[..|pat|] == pat then RemoveAll(s[|pat|..], pat)
    else [s[0]] + RemoveAll(s[1..], pat)
  }

  /** Removing the pattern changes the string exactly when the pattern occurs in it,
      and every removal shortens it by at least the pattern's length. */
  lemma {:induction false} RemoveAllChangesIffContains(s: string, pat: string)
    requires pat != []
    ensures RemoveAll(s, pat) == s <==> !Contains(s, pat)
    ensures Contains(s, pat) ==> |RemoveAll(s, pat)| <= |s| - |pat|
    decreases |s|
  {
    if |s| < |pat| {
    } else if s[..|pat|] == pat {
      assert Contains(s, pat);
      assert |RemoveAll(s[|pat|..], pat)| <= |s| - |pat|;
    } else {
      RemoveAllChangesIffContains(s[1..], pat);
      assert RemoveAll(s, pat) == [s[0]] + RemoveAll(s[1..], pat);
      if RemoveAll(s[1..], pat) == s[1..] {
        assert RemoveAll(s, pat) == s;
      } else {
        assert Contains(s, pat) == Contains(s[1..], pat);
        assert |RemoveAll(s, pat)| <= |s| - |pat|;
      }
    }
  }

  /** Python `s.split(sep)[-1]`: what follows the last `sep`, or all of `s`. */
  function LastSegment(s: string, sep: char): string
  {
    if s == [] then []
    else if s[|s| - 1] == sep then []
    else LastSegment(s[..|s| - 1], sep) + [s[|s| - 1]]
  }

  /** The last segment is the suffix of `s` after its last `sep`, or all of `s` when there is none. */
  lemma {:induction false} LastSegmentIsSuffix(s: string, sep: char)
    ensures var r := LastSegment(s, sep);
      sep !in r && |r| <= |s| && r == s[|s| - |r|..] && (|r| == |s| || s[|s| - |r| - 1] == sep)
  {
    if s != [] && s[|s| - 1] != sep {
      var init := LastSegment(s[..|s| - 1], sep);
      LastSegmentIsSuffix(s[..|s| - 1], sep);
      assert s[..|s| - 1][|s| - 1 - |init|..] + [s[|s| - 1]] == s[|s| - 1 - |init|..];
    }
  }

  /** Python `s.split(sep)[0]`: what precedes the first `sep`, or all of `s`. */
  function FirstSegment(s: string, sep: char): (r: string)
    ensures sep !in r
    ensures |r| <= |s| && r == s[..|r|]
    ensures |r| == |s| || s[|r|] == sep
  {
    if s == [] then []
    else if s[0] == sep then []
    else [s[0]] + FirstSegment(s[1..], sep)
  }

  /** The key a tab is known by: the last `/` segment of its URL. */
  function UrlId(url: string): string
  {
    LastSegment(url, '/')
  }

  predicate IsDigit(c: char) { '0' <= c <= '9' }

  /** Python's `\w`, restricted to ASCII. */
  predicate IsWordChar(c: char)
  {
    IsDigit(c) || 'a' <= c <= 'z' || 'A' <= c <= 'Z' || c == '_'
  }

  /** Length of the longest prefix of `s` whose characters all satisfy `IsWordChar`
      (when `word`) or `IsDigit` (otherwise). */
  function RunLength(s: string, word: bool): (n: nat)
    ensures n <= |s|
    ensures forall i :: 0 <= i < n ==> (if word then IsWordChar(s[i]) else IsDigit(s[i]))
    ensures n == |s| || !(if word then IsWordChar(s[n]) else IsDigit(s[n]))
  {
    if s == [] || !(if word then IsWordChar(s[0]) else IsDigit(s[0])) then 0
    else 1 + RunLength(s[1..], word)
  }

  /** The shape `\w+ \d+`. */
  predicate IsCourseLabel(p: string)
  {
    exists k :: 0 < k < |p| - 1 && p[k] == ' ' && IsLabelSplit(p, k)
  }

  predicate IsLabelSplit(p: string, k: int)
    requires 0 < k < |p| - 1
  {
    (forall i :: 0 <= i < k ==> IsWordChar(p[i])) &&
    (forall i :: k < i < |p| ==> IsDigit(p[i]))
  }

  /**
   * `re.match(r"(\w+ \d+)", s).group(1)`, or None when the pattern does not match at
   * the start of `s` (the source then fails on `None.group`).  The word run cannot
   * contain the space, so backtracking never helps and both runs are maximal.
   */
  function ParseCourseLabel(s: string): (r: Option<string>)
    ensures r.Some? ==> |r.value| <= |s| && IsCourseLabel(r.value) && r.value == s[..|r.value|]
    ensures r.Some? ==> |r.value| == |s| || !IsDigit(s[|r.value|])
    ensures (exists n :: 0 < n <= |s| && IsCourseLabel(s[..n])) ==> r.Some?
  {
    var k := RunLength(s, true);
    if 0 < k < |s| && s[k] == ' ' then
      var d := RunLength(s[k + 1..], false);
      if d > 0 then
        assert IsLabelSplit(s[..k + 1 + d], k);
        Some(s[..k + 1 + d])
      else
        NoLabelWithoutDigits(s, k);
        None
    else
      NoLabelWithoutSpace(s, k);
      None
  }

  lemma NoLabelWithoutSpace(s: string, k: nat)
    requires k == RunLength(s, true)
    requires !(0 < k < |s| && s[k] == ' ')
    ensures forall n :: 0 < n <= |s| ==> !IsCourseLabel(s[..n])
  {
    forall n, j | 0 < n <= |s| && 0 < j < n - 1 && s[..n][j] == ' '
      ensures !IsLabelSplit(s[..n], j)
    {
      // the word run stops at the first non-word character, hence before j
      if k < j {
        assert !IsWordChar(s[..n][k]);
      }
    }
  }

  lemma NoLabelWithoutDigits(s: string, k: nat)
    requires k == RunLength(s, true) && 0 < k < |s| && s[k] == ' '
    requires RunLength(s[k + 1..], false) == 0
    ensures forall n :: 0 < n <= |s| ==> !IsCourseLabel(s[..n])
  {
    forall n, j | 0 < n <= |s| && 0 < j < n - 1 && s[..n][j] == ' '
      ensures !IsLabelSplit(s[..n], j)
    {
      if k < j {
        assert !IsWordChar(s[..n][k]);
      } else if k == j {
        assert s[k + 1..][0] == s[..n][k + 1];
      }
    }
  }

  // ---- Python int(text) and f"{n}" ----

  /** The characters Python's `str.isspace()` accepts, which `str.strip()` and `int()` remove. */
  predicate IsSpace(c: char)
  {
    c == ' ' || '\t' <= c <= '\r' || '\U{001C}' <= c <= '\U{001F}' || c == '\U{0085}' || c == '\U{00A0}' ||
    c == '\U{1680}' || '\U{2000}' <= c <= '\U{200A}' || c == '\U{2028}' || c == '\U{2029}' ||
    c == '\U{202F}' || c == '\U{205F}' || c == '\U{3000}'
  }

  function TrimStart(s: string): string
  {
    if s != [] && IsSpace(s[0]) then TrimStart(s[1..]) else s
  }

  function TrimEnd(s: string): string
  {
    if s != [] && IsSpace(s[|s| - 1]) then TrimEnd(s[..|s| - 1]) else s
  }

  function Strip(s: string): string
  {
    TrimEnd(TrimStart(s))
  }

  /** Digits with single underscores between them, as Python's `int()` accepts. */
  predicate IsDigitRun(s: string)
  {
    |s| > 0 && IsDigit(s[0]) && IsDigit(s[|s| - 1]) &&
    (forall i :: 0 <= i < |s| ==> IsDigit(s[i]) || s[i] == '_') &&
    (forall i :: 0 <= i < |s| - 1 && s[i] == '_' ==> IsDigit(s[i + 1]))
  }

  /** Decimal value of a digit run; underscores are skipped. */
  function DigitsValue(s: string): (v: nat)
  {
    if s == [] then 0
    else if s[|s| - 1] == '_' then DigitsValue(s[..|s| - 1])
    else DigitsValue(s[..|s| - 1]) * 10 + DigitValue(s[|s| - 1])
  }

  function DigitValue(c: char): nat
  {
    if IsDigit(c) then (c as int) - ('0' as int) else 0
  }

  /** Python `int(s)` on a string: None where Python raises `ValueError`. */
  function ParseInt(s: string): (r: Option<int>)
  {
    var t := Strip(s);
    if t != [] && (t[0] == '-' || t[0] == '+') then
      if IsDigitRun(t[1..]) then
        Some(if t[0] == '-' then -(DigitsValue(t[1..]) as int) else DigitsValue(t[1..]))
      else None
    else if IsDigitRun(t) then Some(DigitsValue(t))
    else None
  }

  function DigitChar(d: nat): (c: char)
    requires d < 10
    ensures IsDigit(c) && DigitValue(c) == d
  {
    ('0' as int + d) as char
  }

  function NatToString(n: nat): (s: string)
  {
    if n < 10 then [DigitChar(n)] else NatToString(n / 10) + [DigitChar(n % 10)]
  }

  /** Python `f"{n}"` for an integer. */
  function IntToString(n: int): string
  {
    if n < 0 then "-" + NatToString(-n) else NatToString(n)
  }

  lemma {:induction false} NatToStringDigits(n: nat)
    ensures IsDigitRun(NatToString(n))
    ensures forall i :: 0 <= i < |NatToString(n)| ==> IsDigit(NatToString(n)[i])
    ensures DigitsValue(NatToString(n)) == n
  {
    if n >= 10 {
      NatToStringDigits(n / 10);
      var s := NatToString(n);
      assert s[..|s| - 1] == NatToString(n / 10);
    }
  }

  lemma StripUnchanged(s: string)
    requires s != [] && !IsSpace(s[0]) && !IsSpace(s[|s| - 1])
    ensures Strip(s) == s
  {
  }

  /** Reading back what the monitor would print gives the same number. */
  lemma {:induction false} ParseIntOfIntToString(n: int)
    ensures ParseInt(IntToString(n)) == Some(n)
  {
    var s := IntToString(n);
    var d := NatToString(if n < 0 then -n else n);
    NatToStringDigits(if n < 0 then -n else n);
    StripUnchanged(s);
    if n < 0 {
      assert s[1..] == d;
    } else {
      assert s == d;
    }
  }
}

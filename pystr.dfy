// The handful of Python `str` built-ins the DAT engine relies on, modelled on
// `seq<char>`: whitespace stripping, character stripping, prefix and suffix
// tests, `find`, `split` on a one-character separator, and `str(int)`.

module PyStr {

  /** Python's `str.isspace()` for one character: what `strip()` with no
      argument removes. */
  predicate IsSpace(c: char)
  {
    c == ' ' || ('\t' <= c <= '\r') || ('\U{1C}' <= c <= '\U{1F}') ||
    c == '\U{85}' || c == '\U{A0}' || c == '\U{1680}' || ('\U{2000}' <= c <= '\U{200A}') ||
    c == '\U{2028}' || c == '\U{2029}' || c == '\U{202F}' || c == '\U{205F}' || c == '\U{3000}'
  }

  /** The argument of `lstrip`, `rstrip` and `strip`: none (whitespace) or a
      string whose characters are removed. */
  datatype StripSet = Spaces | Chars(chars: string)

  predicate Strips(k: StripSet, c: char)
  {
    match k
    case Spaces => IsSpace(c)
    case Chars(chars) => c in chars
  }

  /** How many leading characters of `s` belong to `cs`. */
  function LeadCount(s: string, cs: StripSet): (n: nat)
    ensures n <= |s|
    ensures forall i :: 0 <= i < n ==> Strips(cs, s[i])
    ensures n == |s| || !Strips(cs, s[n])
  {
    if s != [] && Strips(cs, s[0]) then 1 + LeadCount(s[1..], cs) else 0
  }

  /** How many trailing characters of `s` belong to `cs`. */
  function TrailCount(s: string, cs: StripSet): (n: nat)
    ensures n <= |s|
    ensures forall i :: |s| - n <= i < |s| ==> Strips(cs, s[i])
    ensures n == |s| || !Strips(cs, s[|s| - n - 1])
  {
    if s != [] && Strips(cs, s[|s| - 1]) then 1 + TrailCount(s[..|s| - 1], cs) else 0
  }

  /** `s.lstrip(chars)`: `s` without its leading characters from `cs`. */
  function LStripBy(s: string, cs: StripSet): string
  {
    s[LeadCount(s, cs)..]
  }

  /** `s.rstrip(chars)`: `s` without its trailing characters from `cs`. */
  function RStripBy(s: string, cs: StripSet): string
  {
    s[..|s| - TrailCount(s, cs)]
  }

  /** `s.strip()`. */
  function Strip(s: string): (r: string)
    ensures r == [] || (!IsSpace(r[0]) && !IsSpace(r[|r| - 1]))
  {
    RStripBy(LStripBy(s, Spaces), Spaces)
  }

  /** Stripping a string that has no surrounding whitespace leaves it as it is. */
  lemma StripClean(s: string)
    requires s == [] || (!IsSpace(s[0]) && !IsSpace(s[|s| - 1]))
    ensures Strip(s) == s
  {
  }

  /** A run of stripped characters in front of a kept one is counted exactly. */
  lemma {:induction false} LeadCountPrefix(pre: string, t: string, cs: StripSet)
    requires forall i :: 0 <= i < |pre| ==> Strips(cs, pre[i])
    requires t != [] && !Strips(cs, t[0])
    ensures LeadCount(pre + t, cs) == |pre|
  {
    if pre == [] {
      assert pre + t == t;
    } else {
      assert (pre + t)[1..] == pre[1..] + t;
      LeadCountPrefix(pre[1..], t, cs);
    }
  }

  /** A run of stripped characters behind a kept one is counted exactly. */
  lemma {:induction false} TrailCountSuffix(t: string, post: string, cs: StripSet)
    requires forall i :: 0 <= i < |post| ==> Strips(cs, post[i])
    requires t != [] && !Strips(cs, t[|t| - 1])
    ensures TrailCount(t + post, cs) == |post|
  {
    if post == [] {
      assert t + post == t;
    } else {
      var shorter := post[..|post| - 1];
      assert (t + post)[..|t + post| - 1] == t + shorter;
      TrailCountSuffix(t, shorter, cs);
    }
  }

  /** Stripping whitespace around a string with no surrounding whitespace
      recovers it. */
  lemma StripPadded(pre: string, s: string, post: string)
    requires forall i :: 0 <= i < |pre| ==> IsSpace(pre[i])
    requires forall i :: 0 <= i < |post| ==> IsSpace(post[i])
    requires s != [] && !IsSpace(s[0]) && !IsSpace(s[|s| - 1])
    ensures Strip(pre + s + post) == s
  {
    assert pre + s + post == pre + (s + post);
    LeadCountPrefix(pre, s + post, Spaces);
    assert (pre + s + post)[|pre|..] == s + post;
    TrailCountSuffix(s, post, Spaces);
    assert (s + post)[..|s|] == s;
  }

  predicate StartsWith(s: string, prefix: string)
  {
    |prefix| <= |s| && s[..|prefix|] == prefix
  }

  predicate EndsWith(s: string, suffix: string)
  {
    |suffix| <= |s| && s[|s| - |suffix|..] == suffix
  }

  /** `s.find(c)` for a one-character needle: the first index of `c`, or -1. */
  function Find(s: string, c: char): (k: int)
    ensures -1 <= k < |s|
    ensures k == -1 <==> c !in s
    ensures k >= 0 ==> s[k] == c && c !in s[..k]
  {
    if s == [] then -1
    else if s[0] == c then 0
    else
      var k := Find(s[1..], c);
      assert s[1..][..(if k >= 0 then k else 0)] == s[1..(if k >= 0 then k + 1 else 1)];
      if k == -1 then -1 else k + 1
  }

  /** `s.rfind(c)` for a one-character needle: the last index of `c`, or -1. */
  function RFind(s: string, c: char): (k: int)
    ensures -1 <= k < |s|
    ensures k >= 0 ==> s[k] == c
    ensures forall j :: k < j < |s| ==> s[j] != c
    decreases |s|
  {
    if s == [] then -1
    else if s[|s| - 1] == c then |s| - 1
    else
      var k := RFind(s[..|s| - 1], c);
      assert forall j :: 0 <= j < |s| - 1 ==> s[..|s| - 1][j] == s[j];
      k
  }

  /** The first occurrence is the one with none before it. */
  lemma FindFirst(s: string, c: char, k: nat)
    requires k < |s| && s[k] == c && c !in s[..k]
    ensures Find(s, c) == k
  {
    var f := Find(s, c);
    assert s[k] in s;
    forall j | 0 <= j < k ensures s[j] != c {
      assert s[..k][j] == s[j];
    }
    forall j | 0 <= j < f ensures s[j] != c {
      assert s[..f][j] == s[j];
    }
  }

  /** The number of occurrences of `c` in `s`. */
  function Count(s: string, c: char): nat
  {
    if s == [] then 0 else (if s[0] == c then 1 else 0) + Count(s[1..], c)
  }

  lemma {:induction false} CountZero(s: string, c: char)
    ensures Count(s, c) == 0 <==> c !in s
  {
    if s != [] {
      CountZero(s[1..], c);
    }
  }

  lemma {:induction false} CountAppend(a: string, b: string, c: char)
    ensures Count(a + b, c) == Count(a, c) + Count(b, c)
  {
    if a == [] {
      assert a + b == b;
    } else {
      assert (a + b)[1..] == a[1..] + b;
      CountAppend(a[1..], b, c);
    }
  }

  /** `s.split(sep)` for a one-character separator: the pieces between the
      separators, always one more than there are separators. */
  function Split(s: string, sep: char): (parts: seq<string>)
    ensures |parts| == Count(s, sep) + 1
    ensures forall i :: 0 <= i < |parts| ==> sep !in parts[i]
    decreases |s|
  {
    var k := Find(s, sep);
    if k == -1 then
      CountZero(s, sep);
      [s]
    else
      CountAt(s, k, sep);
      CountZero(s[..k], sep);
      [s[..k]] + Split(s[k + 1..], sep)
  }

  /** The occurrences of `c` around one of them at `k`. */
  lemma CountAt(s: string, k: nat, c: char)
    requires k < |s| && s[k] == c
    ensures Count(s, c) == Count(s[..k], c) + 1 + Count(s[k + 1..], c)
  {
    assert s == s[..k] + [c] + s[k + 1..];
    CountAppend(s[..k] + [c], s[k + 1..], c);
    CountAppend(s[..k], [c], c);
  }

  /** When `sep` occurs exactly once, `split` yields the text before it and the
      text after it. */
  lemma SplitOnce(s: string, sep: char)
    requires Count(s, sep) == 1
    ensures var k := Find(s, sep);
            0 <= k && Split(s, sep) == [s[..k], s[k + 1..]]
  {
    CountZero(s, sep);
    var k := Find(s, sep);
    CountAt(s, k, sep);
    CountZero(s[k + 1..], sep);
  }

  predicate IsDigit(c: char)
  {
    '0' <= c <= '9'
  }

  function DigitChar(d: nat): (c: char)
    requires d < 10
    ensures IsDigit(c)
  {
    ['0', '1', '2', '3', '4', '5', '6', '7', '8', '9'][d]
  }

  function DigitValue(c: char): (d: nat)
    requires IsDigit(c)
    ensures d < 10 && DigitChar(d) == c
  {
    (c as int - '0' as int) as nat
  }

  /** The decimal digits of `n`, most significant first, without leading zeros. */
  function NatToDigits(n: nat): (s: string)
    ensures |s| >= 1 && forall i :: 0 <= i < |s| ==> IsDigit(s[i])
    ensures |s| > 1 ==> s[0] != '0'
  {
    if n < 10 then [DigitChar(n)] else NatToDigits(n / 10) + [DigitChar(n % 10)]
  }

  /** Python's `str(n)` for an int. */
  function IntToString(n: int): (s: string)
    ensures s != [] && (forall i :: 0 <= i < |s| ==> IsDigit(s[i]) || (i == 0 && s[i] == '-'))
    ensures s[0] == '-' <==> n < 0
  {
    if n < 0 then "-" + NatToDigits(-n) else NatToDigits(n)
  }
}

// general.py: bracket recognition and stripping, and the order-dependent
// classification of a scalar token as float, int or plain text.

module General {
  import opened PyStr
  import opened Values

  // ---------------------------------------------------------------------------
  // isIn / peel

  /** `isIn(s, l, r)`: the stripped text starts with `l` and ends with `r`. */
  predicate IsIn(s: string, l: string, r: string)
  {
    var t := Strip(s);
    StartsWith(t, l) && EndsWith(t, r)
  }

  /** `peel(s, l, r)`: when `isIn` holds, every leading character of `l` and
      then every trailing character of `r` is removed (no whitespace is
      stripped first); otherwise `s` is returned unchanged. */
  function Peel(s: string, l: string, r: string): (p: string)
    ensures !IsIn(s, l, r) ==> p == s
    ensures |p| <= |s|
  {
    if IsIn(s, l, r) then RStripBy(LStripBy(s, Chars(l)), Chars(r)) else s
  }

  /** What `peel` removes: a run of `l` characters in front of the result and
      a run of `r` characters behind it, and nothing else; the result neither
      starts with a character of `l` nor ends with one of `r`. */
  lemma PeelShape(s: string, l: string, r: string)
    requires IsIn(s, l, r)
    ensures PeelFrontBack(s, l, r, Peel(s, l, r))
  {
    StripBothShape(s, l, r);
  }

  /** `p` is `s` without a leading run of `l` characters and a trailing run
      of `r` characters, and the runs are as long as they can be. */
  predicate PeelFrontBack(s: string, l: string, r: string, p: string)
  {
    var front := LeadCount(s, Chars(l));
    front + |p| <= |s| && s[front..front + |p|] == p &&
    (forall j :: 0 <= j < front ==> s[j] in l) &&
    (forall j :: front + |p| <= j < |s| ==> s[j] in r) &&
    (p == [] || (p[0] !in l && p[|p| - 1] !in r))
  }

  lemma StripBothShape(s: string, l: string, r: string)
    ensures PeelFrontBack(s, l, r, RStripBy(LStripBy(s, Chars(l)), Chars(r)))
  {
    var front := LeadCount(s, Chars(l));
    var t := s[front..];
    var back := TrailCount(t, Chars(r));
    var p := t[..|t| - back];
    assert s[front..front + |p|] == p;
    forall j | 0 <= j < front ensures s[j] in l {
      assert Strips(Chars(l), s[j]);
    }
    forall j | front + |p| <= j < |s| ensures s[j] in r {
      assert t[j - front] == s[j];
      assert Strips(Chars(r), t[j - front]);
    }
    if p != [] {
      assert p[0] == s[front];
      assert !Strips(Chars(r), t[|t| - back - 1]);
    }
  }

  /** `peel('[[x]]', '[', ']')` is `'x'`: every opening and every closing
      bracket goes. */
  lemma PeelDoubleBrackets()
    ensures Peel("[[x]]", "[", "]") == "x"
  {
    BracketsIsIn();
    LeadCountPrefix("[[", "x]]", Chars("["));
    assert "[[" + "x]]" == "[[x]]";
    TrailCountSuffix("x", "]]", Chars("]"));
    assert "x" + "]]" == "x]]";
  }

  lemma BracketsIsIn()
    ensures IsIn("[[x]]", "[", "]")
  {
    StripClean("[[x]]");
  }

  // ---------------------------------------------------------------------------
  // The grammar Python's float() and int() accept, for ASCII digits.

  predicate IsSign(c: char)
  {
    c == '+' || c == '-'
  }

  function DropSign(t: string): string
  {
    if t != [] && IsSign(t[0]) then t[1..] else t
  }

  /** Two underscores next to each other somewhere in `t`. */
  predicate HasDoubleUnderscore(t: string)
  {
    |t| >= 2 && ((t[0] == '_' && t[1] == '_') || HasDoubleUnderscore(t[1..]))
  }

  /** Python's `digitpart ::= digit (["_"] digit)*`: digits, with single
      underscores allowed between two digits. */
  predicate DigitPart(t: string)
  {
    t != [] && IsDigit(t[0]) && IsDigit(t[|t| - 1]) &&
    (forall i :: 0 <= i < |t| ==> IsDigit(t[i]) || t[i] == '_') &&
    !HasDoubleUnderscore(t)
  }

  function LowerAscii(t: string): (u: string)
    ensures |u| == |t|
  {
    if t == [] then []
    else [if 'A' <= t[0] <= 'Z' then (t[0] as int + 32) as char else t[0]] + LowerAscii(t[1..])
  }

  /** The first index of an exponent marker `e` or `E`, or -1. */
  function FindExponent(t: string): (k: int)
    ensures -1 <= k < |t|
    ensures k >= 0 ==> t[k] == 'e' || t[k] == 'E'
  {
    var lower := Find(t, 'e');
    var upper := Find(t, 'E');
    if lower == -1 then upper
    else if upper == -1 then lower
    else if lower < upper then lower else upper
  }

  /** `[digitpart] "." digitpart | digitpart ["."]` */
  predicate Mantissa(m: string)
  {
    var d := Find(m, '.');
    if d == -1 then DigitPart(m)
    else
      var left, right := m[..d], m[d + 1..];
      (left == [] && DigitPart(right)) || (DigitPart(left) && (right == [] || DigitPart(right)))
  }

  /** `number [exponent]` with `exponent ::= ("e" | "E") [sign] digitpart`. */
  predicate FloatNumber(t: string)
  {
    var e := FindExponent(t);
    if e == -1 then Mantissa(t)
    else Mantissa(t[..e]) && DigitPart(DropSign(t[e + 1..]))
  }

  /** `float(s)` succeeds: surrounding whitespace, an optional sign, then a
      decimal number or one of `inf`, `infinity`, `nan` in any letter case. */
  predicate ParsesAsFloat(s: string)
  {
    var t := DropSign(Strip(s));
    LowerAscii(t) in {"inf", "infinity", "nan"} || FloatNumber(t)
  }

  /** `int(s)` succeeds: surrounding whitespace, an optional sign, a digitpart. */
  predicate ParsesAsInt(s: string)
  {
    DigitPart(DropSign(Strip(s)))
  }

  /** The value of a digitpart, underscores ignored. */
  function DigitsValue(t: string): nat
  {
    if t == [] then 0
    else
      var last := t[|t| - 1];
      if IsDigit(last) then 10 * DigitsValue(t[..|t| - 1]) + DigitValue(last)
      else DigitsValue(t[..|t| - 1])
  }

  /** The value `int(s)` returns. */
  function IntValue(s: string): int
    requires ParsesAsInt(s)
  {
    var t := Strip(s);
    var n: int := DigitsValue(DropSign(t));
    if t[0] == '-' then -n else n
  }

  // ---------------------------------------------------------------------------
  // isFloat / isInt / isNum / toNum

  /** `isFloat(s)`: splitting on `.` gives exactly two parts and `float(s)`
      succeeds. */
  predicate IsFloat(s: string)
  {
    |Split(s, '.')| == 2 && ParsesAsFloat(s)
  }

  /** `isInt(s)`: tried only when `isFloat(s)` fails; then `int(s)` succeeds. */
  predicate IsInt(s: string)
  {
    !IsFloat(s) && ParsesAsInt(s)
  }

  /** `isNum(s)`. */
  predicate IsNum(s: string)
  {
    IsFloat(s) || IsInt(s)
  }

  /** `toNum(s)`: a float when `isFloat`, an int when `isInt`, and otherwise the
      string itself. The source's final `return False` cannot be reached. */
  function ToNum(s: string): (v: Value)
    ensures v.Str? <==> !IsNum(s)
    ensures v.Str? ==> v.s == s
    ensures v.Float? <==> IsFloat(s)
    ensures v.Float? ==> v.text == s
    ensures v.Int? <==> ParsesAsInt(s)
    ensures v.Int? ==> v.i == IntValue(s)
    ensures v.Str? || v.Float? || v.Int?
  {
    IntHasOneShape(s);
    if !IsNum(s) then Str(s)
    else if IsFloat(s) then Float(s)
    else if IsInt(s) then Int(IntValue(s))
    else assert false; Str(s)
  }

  // ---------------------------------------------------------------------------
  // Properties of the classification

  /** Exactly one `.` in every float. */
  lemma FloatHasOneDot(s: string)
    requires IsFloat(s)
    ensures Count(s, '.') == 1
  {
  }

  /** A character that is not whitespace survives `strip()` wherever it was. */
  lemma {:induction false} StripKeeps(s: string, c: char)
    requires !IsSpace(c)
    ensures c in s <==> c in Strip(s)
  {
    var l := LStripBy(s, Spaces);
    var t := Strip(s);
    if c in s {
      var i :| 0 <= i < |s| && s[i] == c;
      assert i >= |s| - |l|;
      assert l[i - (|s| - |l|)] == c;
      assert i - (|s| - |l|) < |t|;
      assert t[i - (|s| - |l|)] == c;
    }
    if c in t {
      var i :| 0 <= i < |t| && t[i] == c;
      assert l[i] == c;
      assert s[i + (|s| - |l|)] == c;
    }
  }

  /** Text that `int()` accepts holds no `.`. */
  lemma IntHasNoDot(s: string)
    requires ParsesAsInt(s)
    ensures '.' !in s
  {
    var t := Strip(s);
    var d := DropSign(t);
    assert DigitPart(d);
    assert '.' !in d by {
      forall i | 0 <= i < |d| ensures d[i] != '.' {
      }
    }
    assert '.' !in t by {
      if t != [] && IsSign(t[0]) {
        assert t == [t[0]] + d;
      }
    }
    StripKeeps(s, '.');
  }

  /** The integer test never depends on the order of the two tests: whatever
      `int()` accepts fails the float shape test, so `isInt` is exactly
      `int(s)` succeeding. */
  lemma IntHasOneShape(s: string)
    ensures IsInt(s) <==> ParsesAsInt(s)
    ensures ParsesAsInt(s) ==> !IsFloat(s)
  {
    if ParsesAsInt(s) {
      IntHasNoDot(s);
      CountZero(s, '.');
    }
  }

  /** `isFloat` and `isInt` never both hold. */
  lemma FloatIntExclusive(s: string)
    ensures !(IsFloat(s) && IsInt(s))
  {
  }

  /** `3.14` is a float. */
  lemma FloatExample()
    ensures ToNum("3.14") == Float("3.14")
  {
    DotCounts();
    FloatSyntaxExample();
  }

  /** `42` is an int. */
  lemma IntExample()
    ensures ToNum("42") == Int(42)
  {
    StripClean("42");
    assert DigitPart("42");
    assert "42"[..1] == "4";
    assert DigitsValue("4") == 4;
  }

  /** `3.14.1` has two dots, so it is not a float, and `int()` rejects it. */
  lemma TwoDotsExample()
    ensures ToNum("3.14.1") == Str("3.14.1")
  {
    DotCounts();
    assert !ParsesAsInt("3.14.1") by {
      IntHasOneShape("3.14.1");
      StripClean("3.14.1");
      assert !DigitPart("3.14.1");
    }
  }

  /** `abc` is returned as it is. */
  lemma TextExample()
    ensures ToNum("abc") == Str("abc")
  {
    DotCounts();
    StripClean("abc");
    assert !DigitPart("abc");
  }

  lemma DotCounts()
    ensures Count("3.14", '.') == 1
    ensures Count("3.14.1", '.') == 2
    ensures Count("abc", '.') == 0
  {
    assert Count("14", '.') == 0;
    assert Count("14.1", '.') == 1;
  }

  lemma FloatSyntaxExample()
    ensures ParsesAsFloat("3.14")
  {
    StripClean("3.14");
    assert DropSign("3.14") == "3.14";
    NoExponentExample();
    MantissaExample();
  }

  lemma NoExponentExample()
    ensures FindExponent("3.14") == -1
  {
    assert Find("3.14", 'e') == -1;
    assert Find("3.14", 'E') == -1;
  }

  lemma MantissaExample()
    ensures Mantissa("3.14")
  {
    assert Find("3.14", '.') == 1;
    assert "3.14"[..1] == "3" && "3.14"[2..] == "14";
    assert DigitPart("3");
    assert DigitPart("14");
  }

  lemma {:induction false} NoUnderscoreNoDouble(t: string)
    requires '_' !in t
    ensures !HasDoubleUnderscore(t)
  {
    if |t| >= 2 {
      NoUnderscoreNoDouble(t[1..]);
    }
  }

  /** The digits Python's `str()` writes for a natural number read back as it. */
  lemma {:induction false} NatDigitsRoundTrip(n: nat)
    ensures DigitPart(NatToDigits(n)) && DigitsValue(NatToDigits(n)) == n
  {
    var t := NatToDigits(n);
    NoUnderscoreNoDouble(t);
    if n >= 10 {
      NatDigitsRoundTrip(n / 10);
      assert t[..|t| - 1] == NatToDigits(n / 10);
    }
  }

  /** Decoding what Python's `str()` writes for an int gives back the int. */
  lemma IntRoundTrip(n: int)
    ensures ToNum(IntToString(n)) == Int(n)
  {
    var s := IntToString(n);
    StripClean(s);
    var digits := NatToDigits(if n < 0 then -n else n);
    NatDigitsRoundTrip(if n < 0 then -n else n);
    assert DropSign(s) == digits;
  }
}

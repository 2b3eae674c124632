// How the DAT engine classifies a line and decodes the value of an attribute.
// A quoted value or a bracketed list may continue over the following lines of
// the file; the decoders consume those lines from the same cursor as the line
// scanner, so each decoding reports how many lines it used.

module Decoder {
  import opened PyStr
  import opened Values
  import opened General

  // ---------------------------------------------------------------------------
  // Line classification (datparser.py:10-34, 45-50).

  /** `_isAttr`: splitting on `=` gives exactly two parts. */
  function IsAttr(line: string): (b: bool)
    ensures b <==> Count(line, '=') == 1
  {
    |Split(line, '=')| == 2
  }

  /** `_isHeader`: the stripped line is enclosed in `[` ... `]`. */
  predicate IsHeader(line: string)
  {
    IsIn(Strip(line), "[", "]")
  }

  /** `_headerFromLine`. */
  function HeaderFromLine(line: string): string
  {
    Peel(line, "[", "]")
  }

  /** `_attrFromLine`: the stripped pieces between the `=` signs. */
  function AttrFromLine(line: string): (parts: seq<string>)
    ensures |parts| == Count(line, '=') + 1
    ensures forall i :: 0 <= i < |parts| ==> Strip(Split(line, '=')[i]) == parts[i]
  {
    var pieces := Split(line, '=');
    seq(|pieces|, i requires 0 <= i < |pieces| => Strip(pieces[i]))
  }

  /** `_isMultiLineValue`. */
  predicate IsMultiLineValue(v: string)
  {
    StartsWith(Strip(v), "\"")
  }

  /** `_isListValue`. */
  predicate IsListValue(v: string)
  {
    StartsWith(Strip(v), "[")
  }

  /** A header line's name is what remains once its outer brackets go: every
      leading `[` and every trailing `]`, and nothing else. */
  lemma HeaderName(line: string)
    requires IsHeader(line) && Strip(line) == line
    ensures PeelFrontBack(line, "[", "]", HeaderFromLine(line))
  {
    PeelShape(line, "[", "]");
  }

  /** An attribute line yields a key and a value, both stripped and without `=`. */
  lemma AttrParts(line: string)
    requires IsAttr(line)
    ensures var parts := AttrFromLine(line);
            |parts| == 2 &&
            (parts[0] == [] || (!IsSpace(parts[0][0]) && !IsSpace(parts[0][|parts[0]| - 1]))) &&
            (parts[1] == [] || (!IsSpace(parts[1][0]) && !IsSpace(parts[1][|parts[1]| - 1]))) &&
            '=' !in parts[0] && '=' !in parts[1]
  {
    var pieces := Split(line, '=');
    assert '=' !in pieces[0] && '=' !in pieces[1];
    StripKeeps(pieces[0], '=');
    StripKeeps(pieces[1], '=');
  }

  // ---------------------------------------------------------------------------
  // The lines after the current one.

  /** The first of `lines` that contains `c`, or -1. */
  function FirstWith(lines: seq<string>, c: char): (j: int)
    ensures -1 <= j < |lines|
    ensures j >= 0 ==> c in lines[j]
    ensures forall k :: 0 <= k < (if j == -1 then |lines| else j) ==> c !in lines[k]
  {
    if lines == [] then -1
    else if c in lines[0] then 0
    else
      var j := FirstWith(lines[1..], c);
      assert forall k :: 1 <= k < |lines| ==> lines[k] == lines[1..][k - 1];
      if j == -1 then -1 else j + 1
  }

  /** The first line holding `c` is the one with none before it. */
  lemma FirstWithAt(lines: seq<string>, c: char, n: nat)
    requires n < |lines| && c in lines[n]
    requires forall k :: 0 <= k < n ==> c !in lines[k]
    ensures FirstWith(lines, c) == n
  {
  }

  /** The lines joined, each preceded by a newline. */
  function Continued(lines: seq<string>): string
  {
    if lines == [] then "" else Continued(lines[..|lines| - 1]) + "\n" + lines[|lines| - 1]
  }

  /** The lines joined. */
  function Concat(lines: seq<string>): string
  {
    if lines == [] then "" else Concat(lines[..|lines| - 1]) + lines[|lines| - 1]
  }

  /** A decoded value and the number of following lines it used up. */
  datatype Decoded = Decoded(value: Value, used: nat)

  // ---------------------------------------------------------------------------
  // Quoted values (datparser.py:52-64).

  /** What `_handleMultiLineValue` returns. Leading quotes go; a quote that
      remains ends the value at once. Otherwise each following line is added
      after a newline, up to the text before the quote on the first line that
      has one; without such a line the value is `None`, and without a file
      iterating it raises. */
  function QuotedSpec(token: string, file: Option<seq<string>>): Result<Decoded>
  {
    var v := LStripBy(token, Chars("\""));
    var q := Find(v, '"');
    if q >= 0 then Ok(Decoded(Str(v[..q]), 0))
    else if file.None? then Err(TypeError)
    else
      var lines := file.value;
      var j := FirstWith(lines, '"');
      if j == -1 then Ok(Decoded(Null, |lines|))
      else Ok(Decoded(Str(v + Continued(lines[..j]) + "\n" + lines[j][..Find(lines[j], '"')]), j + 1))
  }

  /** The scan for the first quote in `s`, one character at a time. */
  method FirstQuote(s: string) returns (i: int)
    ensures i == Find(s, '"')
  {
    i := 0;
    while i < |s|
      invariant 0 <= i <= |s|
      invariant '"' !in s[..i]
    {
      if s[i] == '"' {
        FindFirst(s, '"', i);
        return;
      }
      i := i + 1;
    }
    assert s[..i] == s;
    i := -1;
  }

  /** A quoted value the token leaves open, closed on line `n`. */
  lemma QuotedClosedAt(token: string, lines: seq<string>, n: nat)
    requires '"' !in LStripBy(token, Chars("\""))
    requires n < |lines| && '"' in lines[n]
    requires forall k :: 0 <= k < n ==> '"' !in lines[k]
    ensures QuotedSpec(token, Some(lines)) ==
            Ok(Decoded(Str(LStripBy(token, Chars("\"")) + Continued(lines[..n]) + "\n" + lines[n][..Find(lines[n], '"')]), n + 1))
  {
    FirstWithAt(lines, '"', n);
  }

  /** A quoted value that no line closes is `None`. */
  lemma QuotedNeverClosed(token: string, lines: seq<string>)
    requires '"' !in LStripBy(token, Chars("\""))
    requires forall k :: 0 <= k < |lines| ==> '"' !in lines[k]
    ensures QuotedSpec(token, Some(lines)) == Ok(Decoded(Null, |lines|))
  {
  }

  /** `_handleMultiLineValue`. */
  method HandleMultiLineValue(token: string, file: Option<seq<string>>) returns (r: Result<Decoded>)
    ensures r == QuotedSpec(token, file)
  {
    var value := LStripBy(token, Chars("\""));
    var q := FirstQuote(value);
    if q >= 0 {
      return Ok(Decoded(Str(value[..q]), 0));
    }
    if file.None? {
      return Err(TypeError);
    }
    var lines := file.value;
    ghost var v := value;
    var n := 0;
    while n < |lines|
      invariant 0 <= n <= |lines|
      invariant value == v + Continued(lines[..n])
      invariant forall k :: 0 <= k < n ==> '"' !in lines[k]
    {
      value := value + "\n";
      var line := lines[n];
      var c := FirstQuote(line);
      if c >= 0 {
        QuotedClosedAt(token, lines, n);
        return Ok(Decoded(Str(value + line[..c]), n + 1));
      }
      assert lines[..n + 1][..n] == lines[..n];
      value := value + line;
      n := n + 1;
    }
    QuotedNeverClosed(token, lines);
    return Ok(Decoded(Null, |lines|));
  }

  /** Joining lines that avoid `c` after newlines gives text that avoids `c`. */
  lemma {:induction false} ContinuedAvoids(lines: seq<string>, c: char)
    requires c != '\n'
    requires forall k :: 0 <= k < |lines| ==> c !in lines[k]
    ensures c !in Continued(lines)
  {
    if lines != [] {
      ContinuedAvoids(lines[..|lines| - 1], c);
    }
  }

  /** A decoded quoted value never contains a quote; it is `None` exactly when
      no following line closes it; it uses no line when the token closes it
      and otherwise every line up to the closing one. */
  lemma QuotedFacts(token: string, lines: seq<string>)
    ensures var r := QuotedSpec(token, Some(lines));
            r.Ok? && r.value.used <= |lines| &&
            (r.value.value.Str? ==> '"' !in r.value.value.s) &&
            (r.value.value.Null? <==> ('"' !in LStripBy(token, Chars("\"")) &&
                                       forall k :: 0 <= k < |lines| ==> '"' !in lines[k])) &&
            (r.value.used == 0 <==> '"' in LStripBy(token, Chars("\"")) || lines == []) &&
            (r.value.value.Str? || r.value.value.Null?)
  {
    var v := LStripBy(token, Chars("\""));
    var j := FirstWith(lines, '"');
    if Find(v, '"') == -1 && j >= 0 {
      ContinuedAvoids(lines[..j], '"');
      var line := lines[j];
      assert '"' !in line[..Find(line, '"')];
    }
  }

  /** Without a file, a quoted value decodes only when the token itself closes it. */
  lemma QuotedWithoutFile(token: string)
    ensures QuotedSpec(token, None).Err? <==> '"' !in LStripBy(token, Chars("\""))
    ensures QuotedSpec(token, None).Err? ==> QuotedSpec(token, None).error == TypeError
  {
  }

  // ---------------------------------------------------------------------------
  // List values (datparser.py:66-92).

  /** The text `_handleListValue` splits: the token, and when it has no `]`, a
      newline and the following lines up to and including the first with `]`
      (or all of them). Without a file iterating it raises. */
  function ListWhole(token: string, file: Option<seq<string>>): Result<(string, nat)>
  {
    if ']' in token then Ok((token, 0))
    else if file.None? then Err(TypeError)
    else
      var lines := file.value;
      var j := FirstWith(lines, ']');
      var n := if j == -1 then |lines| else j + 1;
      Ok((token + "\n" + Concat(lines[..n]), n))
  }

  /** Position `i` of `w` holds a separating comma: one whose preceding
      character (the last one, for position 0, as Python's `w[-1]`) is not a
      backslash. */
  predicate SepAt(w: string, i: nat)
    requires i < |w|
  {
    w[i] == ',' && w[if i == 0 then |w| - 1 else i - 1] != '\\'
  }

  /** Position `i` of `w` ends an element: a separating comma or a `]`. */
  predicate EndAt(w: string, i: nat)
    requires i < |w|
  {
    SepAt(w, i) || w[i] == ']'
  }

  /** Where the element that ends at `n` begins: one past the last separating
      comma before `n`, or 1 when there is none. */
  function Root(w: string, n: nat): (r: nat)
    requires n <= |w|
    ensures 1 <= r <= (if n == 0 then 1 else n)
  {
    if n == 0 then 1 else if SepAt(w, n - 1) then n else Root(w, n - 1)
  }

  /** Python's `w[a:b]` for `0 <= b <= len(w)`: empty when `a >= b`. */
  function PySlice(w: string, a: nat, b: nat): (r: string)
    requires b <= |w|
    ensures |r| == if a < b then b - a else 0
  {
    if a < b then w[a..b] else ""
  }

  /** The positions before `n` at which an element ends, in increasing order. */
  function Ends(w: string, n: nat): (e: seq<nat>)
    requires n <= |w|
    ensures forall k :: 0 <= k < |e| ==> e[k] < n && EndAt(w, e[k])
    ensures forall k, m :: 0 <= k < m < |e| ==> e[k] < e[m]
  {
    if n == 0 then [] else Ends(w, n - 1) + (if EndAt(w, n - 1) then [n - 1] else [])
  }

  /** The elements of a list, before stripping: for each end position, the
      text from one past the previous separating comma up to it. */
  function RawElements(w: string): (raw: seq<string>)
  {
    var e := Ends(w, |w|);
    seq(|e|, k requires 0 <= k < |e| => PySlice(w, Root(w, e[k]), e[k]))
  }

  /** What `_handleListValue` returns: the stripped elements. */
  function Elements(w: string): (els: seq<string>)
    ensures |els| == |Ends(w, |w|)|
    ensures forall k :: 0 <= k < |els| ==> els[k] == [] || (!IsSpace(els[k][0]) && !IsSpace(els[k][|els[k]| - 1]))
  {
    var raw := RawElements(w);
    seq(|raw|, k requires 0 <= k < |raw| => Strip(raw[k]))
  }

  /** The decoded list, and the lines it used. */
  function ListSpec(token: string, file: Option<seq<string>>): Result<Decoded>
  {
    match ListWhole(token, file)
    case Err(e) => Err(e)
    case Ok((w, n)) =>
      var els := Elements(w);
      Ok(Decoded(List(seq(|els|, k requires 0 <= k < |els| => Str(els[k]))), n))
  }

  method HandleListValue(token: string, file: Option<seq<string>>) returns (r: Result<Decoded>)
    ensures r == ListSpec(token, file)
  {
    var whole := ListText(token, file);
    if whole.Err? {
      return Err(whole.error);
    }
    var vals := SplitList(whole.value.0);
    return Ok(Decoded(List(seq(|vals|, k requires 0 <= k < |vals| => Str(vals[k]))), whole.value.1));
  }

  /** The first half of `_handleListValue`: gathering the lines of the list. */
  method ListText(token: string, file: Option<seq<string>>) returns (r: Result<(string, nat)>)
    ensures r == ListWhole(token, file)
  {
    var whole := token;
    var used := 0;
    if Find(whole, ']') == -1 {
      if file.None? {
        return Err(TypeError);
      }
      var lines := file.value;
      whole := whole + "\n";
      while used < |lines|
        invariant 0 <= used <= |lines|
        invariant whole == token + "\n" + Concat(lines[..used])
        invariant forall k :: 0 <= k < used ==> ']' !in lines[k]
      {
        var line := lines[used];
        whole := whole + line;
        assert lines[..used + 1][..used] == lines[..used];
        used := used + 1;
        if Find(line, ']') != -1 {
          assert whole == token + "\n" + Concat(lines[..used]);
          assert FirstWith(lines, ']') == used - 1;
          return Ok((whole, used));
        }
      }
    }
    return Ok((whole, used));
  }

  /** The second half of `_handleListValue`: cutting the text into elements. */
  method SplitList(whole: string) returns (vals: seq<string>)
    ensures vals == Elements(whole)
  {
    var iroot := 1;
    vals := [];
    var i := 0;
    while i < |whole|
      invariant 0 <= i <= |whole|
      invariant iroot == Root(whole, i)
      invariant vals == RawUpTo(whole, i)
    {
      var prev := if i == 0 then whole[|whole| - 1] else whole[i - 1];
      RawUpToStep(whole, i);
      if whole[i] == ',' && prev != '\\' {
        vals := vals + [PySlice(whole, iroot, i)];
        iroot := i + 1;
      } else if whole[i] == ']' {
        vals := vals + [PySlice(whole, iroot, i)];
      }
      i := i + 1;
    }
    vals := seq(|vals|, k requires 0 <= k < |vals| => Strip(vals[k]));
  }

  /** The raw elements ending before `n`. */
  function RawUpTo(w: string, n: nat): (raw: seq<string>)
    requires n <= |w|
    ensures |raw| == |Ends(w, n)|
    ensures forall k :: 0 <= k < |raw| ==> raw[k] == PySlice(w, Root(w, Ends(w, n)[k]), Ends(w, n)[k])
  {
    var e := Ends(w, n);
    seq(|e|, k requires 0 <= k < |e| => PySlice(w, Root(w, e[k]), e[k]))
  }

  /** One more position adds the element ending there, if one does. */
  lemma RawUpToStep(w: string, i: nat)
    requires i < |w|
    ensures RawUpTo(w, i + 1) == RawUpTo(w, i) + (if EndAt(w, i) then [PySlice(w, Root(w, i), i)] else [])
  {
    assert Ends(w, i + 1) == Ends(w, i) + (if EndAt(w, i) then [i] else []);
  }

  /** The number of separating commas before position `n`. */
  function SepCount(w: string, n: nat): nat
    requires n <= |w|
  {
    if n == 0 then 0 else SepCount(w, n - 1) + (if SepAt(w, n - 1) then 1 else 0)
  }

  /** A list has one element per separating comma and one per `]`. */
  lemma ElementCount(w: string)
    ensures |Elements(w)| == SepCount(w, |w|) + Count(w, ']')
  {
    EndsCount(w, |w|);
    assert w[..|w|] == w;
  }

  lemma {:induction false} EndsCount(w: string, n: nat)
    requires n <= |w|
    ensures |Ends(w, n)| == SepCount(w, n) + Count(w[..n], ']')
  {
    if n > 0 {
      EndsCount(w, n - 1);
      assert w[..n] == w[..n - 1] + [w[n - 1]];
      CountAppend(w[..n - 1], [w[n - 1]], ']');
    }
  }

  /** `[]` is a list of one empty string. */
  lemma EmptyListExample()
    ensures Elements("[]") == [""]
  {
    var w := "[]";
    assert Ends(w, 1) == [];
    assert Ends(w, 2) == [1];
    assert PySlice(w, Root(w, 1), 1) == "";
  }

  /** An escaped comma, backslash and all, stays inside its element. */
  lemma EscapedCommaExample()
    ensures Elements("[a\\,b]") == ["a\\,b"]
  {
    var w := "[a\\,b]";
    assert !SepAt(w, 3);
    assert Ends(w, 5) == [];
    assert Ends(w, 6) == [5];
    assert Root(w, 5) == 1;
    assert PySlice(w, 1, 5) == "a\\,b";
    StripClean("a\\,b");
  }

  /** Elements are cut at each comma and stripped. */
  lemma TwoElementsExample()
    ensures Elements("[a, b]") == ["a", "b"]
  {
    TwoElementsRaw();
    StripClean("a");
    StripPadded(" ", "b", "");
    assert " " + "b" + "" == " b";
  }

  lemma TwoElementsRaw()
    ensures RawElements("[a, b]") == ["a", " b"]
  {
    var w := "[a, b]";
    assert SepAt(w, 2);
    assert Ends(w, 5) == [2];
    assert Ends(w, 6) == [2, 5];
    assert Root(w, 2) == 1 && Root(w, 5) == 3;
    assert PySlice(w, 1, 2) == "a" && PySlice(w, 3, 5) == " b";
  }

  // ---------------------------------------------------------------------------
  // Dispatch (datparser.py:36-43, 100-110).

  /** What `_handleValue` returns: a quoted value, a list, or a scalar. */
  function DecodeValue(token: string, file: Option<seq<string>>): Result<Decoded>
  {
    if IsMultiLineValue(token) then QuotedSpec(token, file)
    else if IsListValue(token) then ListSpec(token, file)
    else Ok(Decoded(ToNum(token), 0))
  }

  method HandleValue(token: string, file: Option<seq<string>>) returns (r: Result<Decoded>)
    ensures r == DecodeValue(token, file)
  {
    if IsMultiLineValue(token) {
      r := HandleMultiLineValue(token, file);
    } else if IsListValue(token) {
      r := HandleListValue(token, file);
    } else {
      r := Ok(Decoded(ToNum(token), 0));
    }
  }

  /** `valFromStr`: decoding a value that has no following lines. */
  method ValFromStr(s: string) returns (r: Result<Value>)
    ensures DecodeValue(s, None).Ok? ==> r == Ok(DecodeValue(s, None).value.value)
    ensures DecodeValue(s, None).Err? ==> r == Err(TypeError)
  {
    var d := HandleValue(s, None);
    if d.Err? {
      return Err(d.error);
    }
    return Ok(d.value.value);
  }

  /** Decoding with the rest of a file never fails and uses at most the lines
      there are; a scalar uses none. */
  lemma DecodeWithFile(token: string, lines: seq<string>)
    ensures var r := DecodeValue(token, Some(lines));
            r.Ok? && r.value.used <= |lines| &&
            (!IsMultiLineValue(token) && !IsListValue(token) ==> r.value.used == 0)
  {
    if IsMultiLineValue(token) {
      QuotedFacts(token, lines);
    }
  }

  /** Without a file, decoding fails exactly on a quoted value that the token
      does not close or on a list whose token has no `]`; the failure is a
      `TypeError`, and a success uses no line. */
  lemma DecodeWithoutFile(token: string)
    ensures var r := DecodeValue(token, None);
            (r.Err? <==> (IsMultiLineValue(token) && '"' !in LStripBy(token, Chars("\""))) ||
                         (!IsMultiLineValue(token) && IsListValue(token) && ']' !in token)) &&
            (r.Err? ==> r.error == TypeError) &&
            (r.Ok? ==> r.value.used == 0)
  {
  }

  /** A value that is neither quoted nor a list goes through `toNum`: it is a
      number when it looks like one and otherwise the token itself. */
  lemma ScalarValue(token: string, file: Option<seq<string>>)
    requires !IsMultiLineValue(token) && !IsListValue(token)
    ensures DecodeValue(token, file) == Ok(Decoded(ToNum(token), 0))
    ensures ToNum(token).Str? ==> ToNum(token).s == token
  {
  }
}

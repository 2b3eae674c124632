// Reading back what `DatParser.save` writes: the text of a document whose
// names and values are plain scans, line by line, into the same document.

module RoundTrip {
  import opened PyStr
  import opened Values
  import opened Assoc
  import opened General
  import opened Decoder
  import opened Scanner
  import opened Serializer
  import opened Seqs

  // ---------------------------------------------------------------------------
  // Plain documents.

  /** Text that reads back as itself on either side of ` = `: not empty, with
      no surrounding whitespace, and without `=`, a newline or a carriage
      return. */
  predicate Token(t: string)
  {
    t != [] && !IsSpace(t[0]) && !IsSpace(t[|t| - 1]) && '=' !in t && '\n' !in t && '\r' !in t
  }

  /** A key that reads back: a token that does not open a header line. */
  predicate PlainKey(k: string)
  {
    Token(k) && k[0] != '['
  }

  /** A value that reads back: its written form is a token that does not
      open a quoted value, and decoding it gives the value back, as a list
      closed on its own line when the token opens one and through `toNum`
      otherwise. */
  predicate PlainValue(v: Value)
  {
    RenderValue(v).Ok? &&
    var t := RenderValue(v).value;
    Token(t) && t[0] != '"' &&
    if t[0] == '[' then ListSpec(t, None) == Ok(Decoded(v, 0)) else ToNum(t) == v
  }

  /** A section name that reads back from its `[name]` line. */
  predicate PlainName(h: string)
  {
    h != [] && h[0] != '[' && h[|h| - 1] != ']' && '\n' !in h && '\r' !in h
  }

  predicate PlainEntries(sec: Section)
  {
    forall i :: 0 <= i < |sec| ==> PlainKey(sec[i].0) && PlainValue(sec[i].1)
  }

  predicate PlainSections(raws: Doc)
  {
    forall i :: 0 <= i < |raws| ==> PlainName(raws[i].0) && Unique(raws[i].1) && PlainEntries(raws[i].1)
  }

  /** A document of plain section names, keys and values. */
  predicate PlainDoc(raws: Doc)
  {
    Unique(raws) && PlainSections(raws)
  }

  // ---------------------------------------------------------------------------
  // The lines `save` writes.

  function EntryLine(k: string, v: Value): string
    requires PlainValue(v)
  {
    k + " = " + RenderValue(v).value + "\n"
  }

  function EntryLines(sec: Section): seq<string>
    requires PlainEntries(sec)
  {
    if sec == [] then [] else [EntryLine(sec[0].0, sec[0].1)] + EntryLines(sec[1..])
  }

  /** A section's header line, its entry lines and two empty lines. */
  function SectionLines(h: string, sec: Section): seq<string>
    requires PlainEntries(sec)
  {
    ["[" + h + "]\n"] + EntryLines(sec) + ["\n", "\n"]
  }

  function DocLines(raws: Doc): seq<string>
    requires PlainSections(raws)
  {
    if raws == [] then [] else SectionLines(raws[0].0, raws[0].1) + DocLines(raws[1..])
  }

  /** Whole lines without a carriage return. */
  predicate CleanLines(lines: seq<string>)
  {
    forall i :: 0 <= i < |lines| ==> IsLine(lines[i]) && '\r' !in lines[i]
  }

  lemma {:induction false} ConcatAppend(a: seq<string>, b: seq<string>)
    ensures Concat(a + b) == Concat(a) + Concat(b)
    decreases |b|
  {
    if b == [] {
      assert a + b == a;
    } else {
      var init := b[..|b| - 1];
      assert (a + b)[..|a + b| - 1] == a + init;
      ConcatAppend(a, init);
    }
  }

  lemma {:induction false} ConcatAvoids(lines: seq<string>, c: char)
    requires forall i :: 0 <= i < |lines| ==> c !in lines[i]
    ensures c !in Concat(lines)
    decreases |lines|
  {
    if lines != [] {
      ConcatAvoids(lines[..|lines| - 1], c);
    }
  }

  /** The entries are written as their lines. */
  lemma {:induction false} EntriesText(sec: Section)
    requires PlainEntries(sec)
    ensures RenderEntries(sec) == Rendered(Concat(EntryLines(sec)), None)
  {
    if sec != [] {
      EntriesText(sec[1..]);
      ConcatCons(EntryLine(sec[0].0, sec[0].1), EntryLines(sec[1..]));
    }
  }

  /** A header line, some lines and two empty lines concatenate to the
      header, the lines' text and two newlines. */
  lemma FramedConcat(head: string, lines: seq<string>)
    ensures Concat([head] + lines + ["\n", "\n"]) == head + Concat(lines) + "\n\n"
  {
    assert [head] + lines + ["\n", "\n"] == [head] + (lines + ["\n", "\n"]);
    ConcatCons(head, lines + ["\n", "\n"]);
    ConcatAppend(lines, ["\n", "\n"]);
    assert Concat(["\n", "\n"]) == Concat(["\n"]) + "\n";
    assert Concat(["\n"]) == Concat([]) + "\n";
  }

  /** A section is written as its header line, its entry lines and two
      newlines. */
  lemma SectionText(h: string, sec: Section)
    requires PlainEntries(sec)
    ensures Concat(SectionLines(h, sec)) == "[" + h + "]\n" + Concat(EntryLines(sec)) + "\n\n"
  {
    FramedConcat("[" + h + "]\n", EntryLines(sec));
  }

  /** The document is written as its lines, without an exception. */
  lemma {:induction false} DocText(raws: Doc)
    requires PlainSections(raws)
    ensures RenderDoc(raws) == Rendered(Concat(DocLines(raws)), None)
  {
    if raws != [] {
      var h, sec := raws[0].0, raws[0].1;
      EntriesText(sec);
      DocText(raws[1..]);
      SectionText(h, sec);
      ConcatAppend(SectionLines(h, sec), DocLines(raws[1..]));
    }
  }

  lemma CleanAppend(a: seq<string>, b: seq<string>)
    requires CleanLines(a) && CleanLines(b)
    ensures CleanLines(a + b)
  {
    forall i | 0 <= i < |a + b|
      ensures IsLine((a + b)[i]) && '\r' !in (a + b)[i]
    {
      if i < |a| {
        assert (a + b)[i] == a[i];
      } else {
        assert (a + b)[i] == b[i - |a|];
      }
    }
  }

  /** Text without a newline, ended by one, is a whole line. */
  lemma LineOf(s: string)
    requires '\n' !in s
    ensures IsLine(s + "\n")
  {
    assert (s + "\n")[..|s|] == s;
  }

  lemma EntryLineClean(k: string, t: string)
    requires Token(k) && Token(t)
    ensures IsLine(k + " = " + t + "\n") && '\r' !in k + " = " + t + "\n"
  {
    LineOf(k + " = " + t);
  }

  lemma {:induction false} EntryLinesClean(sec: Section)
    requires PlainEntries(sec)
    ensures CleanLines(EntryLines(sec))
  {
    if sec != [] {
      EntryLineClean(sec[0].0, RenderValue(sec[0].1).value);
      EntryLinesClean(sec[1..]);
      CleanAppend([EntryLine(sec[0].0, sec[0].1)], EntryLines(sec[1..]));
    }
  }

  lemma SectionLinesClean(h: string, sec: Section)
    requires PlainName(h) && PlainEntries(sec)
    ensures CleanLines(SectionLines(h, sec))
  {
    var head := "[" + h + "]\n";
    assert CleanLines([head]) by {
      LineOf("[" + h + "]");
    }
    assert CleanLines(["\n", "\n"]) by {
      LineOf("");
    }
    EntryLinesClean(sec);
    CleanAppend([head], EntryLines(sec));
    CleanAppend([head] + EntryLines(sec), ["\n", "\n"]);
  }

  lemma {:induction false} DocLinesClean(raws: Doc)
    requires PlainSections(raws)
    ensures CleanLines(DocLines(raws))
  {
    if raws != [] {
      SectionLinesClean(raws[0].0, raws[0].1);
      PlainSectionsTail(raws);
      DocLinesClean(raws[1..]);
      CleanAppend(SectionLines(raws[0].0, raws[0].1), DocLines(raws[1..]));
    }
  }

  lemma PlainSectionsTail(raws: Doc)
    requires PlainSections(raws) && raws != []
    ensures PlainSections(raws[1..])
  {
    forall i | 0 <= i < |raws[1..]|
      ensures PlainName(raws[1..][i].0) && Unique(raws[1..][i].1) && PlainEntries(raws[1..][i].1)
    {
      assert raws[1..][i] == raws[i + 1];
    }
  }

  /** Text made of whole lines without a carriage return opens as those lines. */
  lemma ReadLines(lines: seq<string>)
    requires CleanLines(lines)
    ensures FileLines(Concat(lines)) == lines
  {
    ConcatAvoids(lines, '\r');
    TranslateClean(Concat(lines));
    SplitLinesOfLines(lines);
  }

  // ---------------------------------------------------------------------------
  // Scanning the lines back.

  /** Stripping the brackets around a name gives the name back. */
  lemma BracketsOff(h: string)
    requires PlainName(h)
    ensures RStripBy(LStripBy("[" + h + "]", Chars("[")), Chars("]")) == h
  {
    assert "[" + h + "]" == "[" + (h + "]");
    LeadCountPrefix("[", h + "]", Chars("["));
    assert LStripBy("[" + h + "]", Chars("[")) == h + "]";
    TrailCountSuffix(h, "]", Chars("]"));
  }

  /** A name in brackets is a header line naming it. */
  lemma Bracketed(h: string)
    requires PlainName(h)
    ensures IsHeader("[" + h + "]") && HeaderFromLine("[" + h + "]") == h
  {
    var s := "[" + h + "]";
    StripClean(s);
    assert IsIn(s, "[", "]");
    BracketsOff(h);
  }

  /** A section's `[name]` line is a header line naming the section. */
  lemma HeaderLine(h: string)
    requires PlainName(h)
    ensures IsHeader(Strip("[" + h + "]\n"))
    ensures HeaderFromLine(Strip("[" + h + "]\n")) == h
  {
    var s := "[" + h + "]";
    assert Strip("[" + h + "]\n") == s by {
      assert "[" + h + "]\n" == "" + s + "\n";
      StripPadded("", s, "\n");
    }
    Bracketed(h);
  }

  /** The text of an entry line, stripped, is the key and the written value
      around ` = `. */
  lemma EntryStrip(k: string, t: string)
    requires Token(k) && Token(t)
    ensures Strip(k + " = " + t + "\n") == k + " = " + t
  {
    var s := k + " = " + t;
    assert k + " = " + t + "\n" == "" + s + "\n";
    StripPadded("", s, "\n");
  }

  /** Text with one `=` between two tokens splits at it. */
  lemma SplitEntry(k: string, t: string)
    requires Token(k) && Token(t)
    ensures Count(k + " = " + t, '=') == 1
    ensures Split(k + " = " + t, '=') == [k + " ", " " + t]
  {
    var s := k + " = " + t;
    assert Count(s, '=') == 1 by {
      CountZero(k, '=');
      CountZero(t, '=');
      CountAppend(k, " = ", '=');
      CountAppend(k + " = ", t, '=');
    }
    assert s[..|k| + 1] == k + " ";
    FindFirst(s, '=', |k| + 1);
    SplitOnce(s, '=');
    assert s[|k| + 2..] == " " + t;
  }

  /** Text with one `=` between two tokens is an attribute line whose sides
      are the two tokens. */
  lemma EntrySplit(k: string, t: string)
    requires Token(k) && Token(t)
    ensures IsAttr(k + " = " + t) && AttrFromLine(k + " = " + t) == [k, t]
  {
    SplitEntry(k, t);
    assert Strip(k + " ") == k by {
      assert k + " " == "" + k + " ";
      StripPadded("", k, " ");
    }
    assert Strip(" " + t) == t by {
      assert " " + t == " " + t + "";
      StripPadded(" ", t, "");
    }
  }

  /** A line that starts with a key does not open a header. */
  lemma EntryNotHeader(k: string, t: string)
    requires PlainKey(k) && Token(t)
    ensures !IsHeader(k + " = " + t)
  {
    StripClean(k + " = " + t);
  }

  /** A token that opens a list closed on its own line decodes as that list
      whatever lines follow it. */
  lemma ListTokenDecodes(t: string, v: Value, rest: seq<string>)
    requires Token(t) && t[0] == '[' && ListSpec(t, None) == Ok(Decoded(v, 0))
    ensures !IsMultiLineValue(t) && IsListValue(t) && DecodeValue(t, Some(rest)) == Ok(Decoded(v, 0))
  {
    StripClean(t);
    assert ']' in t;
    assert ListWhole(t, Some(rest)) == ListWhole(t, None);
  }

  /** A token that opens neither a quoted value nor a list decodes through
      `toNum` whatever lines follow it. */
  lemma ScalarTokenDecodes(t: string, rest: seq<string>)
    requires Token(t) && t[0] != '"' && t[0] != '['
    ensures !IsMultiLineValue(t) && !IsListValue(t) && DecodeValue(t, Some(rest)) == Ok(Decoded(ToNum(t), 0))
  {
    StripClean(t);
    ScalarValue(t, Some(rest));
  }

  /** The written form of a plain value decodes back to the value whatever
      lines follow it, and it opens a list exactly when the value is one. */
  lemma PlainDecodes(v: Value, rest: seq<string>)
    requires PlainValue(v)
    ensures var t := RenderValue(v).value;
            Token(t) && !IsMultiLineValue(t) && (IsListValue(t) <==> v.List?) &&
            DecodeValue(t, Some(rest)) == Ok(Decoded(v, 0))
  {
    var t := RenderValue(v).value;
    if t[0] == '[' {
      ListTokenDecodes(t, v, rest);
    } else {
      ScalarTokenDecodes(t, rest);
    }
  }

  /** An attribute line that splits into `k` and a token `t`, which decodes
      to `v` on its own, stores `v` under `k`, appended to the current
      section. */
  lemma TokenEntryScan(st: ScanState, sec: Section, line: string, k: string, t: string, v: Value,
                       rest: seq<string>)
    requires Lookup(st.raws, st.header) == Some(sec) && k !in Keys(sec)
    requires !IsHeader(Strip(line)) && IsAttr(Strip(line)) && AttrFromLine(Strip(line)) == [k, t]
    requires DecodeValue(t, Some(rest)) == Ok(Decoded(v, 0))
    ensures ScanLines(st, [line] + rest) ==
            ScanLines(st.(raws := Put(st.raws, st.header, sec + [(k, v)])), rest)
  {
    var lines := [line] + rest;
    ConsParts(line, rest);
    PutFresh(sec, k, v);
    AttrStored(st, lines, k, t, v, Put(st.raws, st.header, sec + [(k, v)]), st.compounds);
  }

  /** An entry line is an attribute line whose two sides are the key and the
      written value, and the value is a scalar. */
  lemma EntryLineParts(k: string, v: Value)
    requires PlainKey(k) && PlainValue(v)
    ensures var line := Strip(EntryLine(k, v));
            var t := RenderValue(v).value;
            !IsHeader(line) && IsAttr(line) && AttrFromLine(line) == [k, t] &&
            !IsMultiLineValue(t) && (IsListValue(t) <==> v.List?)
  {
    var t := RenderValue(v).value;
    assert EntryLine(k, v) == k + " = " + t + "\n";
    EntryStrip(k, t);
    EntrySplit(k, t);
    EntryNotHeader(k, t);
    PlainDecodes(v, []);
  }

  /** The scan of an entry line stores its value under its key, appended to
      the current section. */
  lemma EntryScan(st: ScanState, sec: Section, k: string, v: Value, rest: seq<string>)
    requires Lookup(st.raws, st.header) == Some(sec) && k !in Keys(sec)
    requires PlainKey(k) && PlainValue(v)
    ensures ScanLines(st, [EntryLine(k, v)] + rest) ==
            ScanLines(st.(raws := Put(st.raws, st.header, sec + [(k, v)])), rest)
  {
    EntryLineParts(k, v);
    PlainDecodes(v, rest);
    TokenEntryScan(st, sec, EntryLine(k, v), k, RenderValue(v).value, v, rest);
  }

  /** The scan of a section's entry lines appends the entries, in order, to
      the current section. */
  lemma {:induction false} EntriesScan(st: ScanState, sec: Section, es: Section, rest: seq<string>)
    requires Unique(st.raws) && Lookup(st.raws, st.header) == Some(sec)
    requires Unique(sec + es) && PlainEntries(es)
    ensures ScanLines(st, EntryLines(es) + rest) ==
            ScanLines(st.(raws := Put(st.raws, st.header, sec + es)), rest)
    decreases |es|
  {
    if es == [] {
      assert EntryLines(es) + rest == rest;
      AppendNil(sec);
      PutSame(st.raws, st.header, sec);
    } else {
      var x := es[0];
      var sec' := sec + [x];
      var st' := st.(raws := Put(st.raws, st.header, sec'));
      var later := EntryLines(es[1..]) + rest;
      assert EntryLines(es) == [EntryLine(x.0, x.1)] + EntryLines(es[1..]);
      AppendAssoc([EntryLine(x.0, x.1)], EntryLines(es[1..]), rest);
      UniqueSplit(sec, es);
      EntryScan(st, sec, x.0, x.1, later);
      PutUnique(st.raws, st.header, sec');
      AppendAssoc(sec, [x], es[1..]);
      HeadTail(es);
      EntriesScan(st', sec', es[1..], rest);
      PutTwice(st.raws, st.header, sec', sec + es);
    }
  }

  /** The scan passes over an empty line. */
  lemma BlankScan(st: ScanState, rest: seq<string>)
    ensures ScanLines(st, ["\n"] + rest) == ScanLines(st, rest)
  {
    var lines := ["\n"] + rest;
    ConsParts("\n", rest);
    assert Strip("\n") == "";
    StepOther(st, lines);
    ScanNext(st, lines, st, 1);
  }

  /** The scan of a section's lines adds the section, whole, at the end of a
      document that does not have it, and makes it current. */
  lemma SectionScan(st: ScanState, h: string, sec: Section, rest: seq<string>)
    requires Unique(st.raws) && h !in Keys(st.raws)
    requires PlainName(h) && Unique(sec) && PlainEntries(sec)
    ensures ScanLines(st, SectionLines(h, sec) + rest) ==
            ScanLines(ScanState(st.raws + [(h, sec)], st.compounds, h), rest)
  {
    var head := "[" + h + "]\n";
    var tail := EntryLines(sec) + (["\n"] + (["\n"] + rest));
    var lines := [head] + tail;
    var st1 := ScanState(st.raws + [(h, [])], st.compounds, h);
    var st2 := ScanState(st.raws + [(h, sec)], st.compounds, h);
    Regroup(head, EntryLines(sec), "\n", "\n", rest);
    ConsParts(head, tail);
    HeaderLine(h);
    StepHeader(st, lines);
    PutFresh(st.raws, h, []);
    ScanNext(st, lines, st1, 1);
    assert Unique(st1.raws) by {
      forall j | 0 <= j < |st.raws| ensures st.raws[j].0 != h {
        assert Keys(st.raws)[j] == st.raws[j].0;
      }
      UniqueSnoc(st.raws, (h, []));
    }
    EmptyAppend(sec);
    EntriesScan(st1, [], sec, ["\n"] + (["\n"] + rest));
    PutTwice(st.raws, h, [], sec);
    PutFresh(st.raws, h, sec);
    BlankScan(st2, ["\n"] + rest);
    BlankScan(st2, rest);
  }

  /** The scan of a document's lines adds its sections, in order, to a
      document that has none of them, and leaves `compounds` as it was. */
  lemma {:induction false} DocScan(st: ScanState, raws: Doc)
    requires Unique(st.raws + raws) && PlainSections(raws)
    ensures var sc := ScanLines(st, DocLines(raws));
            sc.error.None? && sc.st.raws == st.raws + raws && sc.st.compounds == st.compounds
    decreases |raws|
  {
    if raws == [] {
      AppendNil(st.raws);
    } else {
      var x := raws[0];
      UniqueSplit(st.raws, raws);
      SectionScan(st, x.0, x.1, DocLines(raws[1..]));
      AppendAssoc(st.raws, [x], raws[1..]);
      HeadTail(raws);
      PlainSectionsTail(raws);
      DocScan(ScanState(st.raws + [x], st.compounds, x.0), raws[1..]);
    }
  }

  // ---------------------------------------------------------------------------
  // The round trip.

  /** A plain document is written without an exception, and the lines of
      what is written, scanned as a `read` scans a file from an empty
      document, give back every section and entry in order, without an
      exception and with `compounds` as it was. */
  lemma SaveReadRoundTrip(raws: Doc, compounds: seq<string>)
    requires PlainDoc(raws)
    ensures RenderDoc(raws).error.None?
    ensures var sc := ScanLines(ScanState([], compounds, "global"), FileLines(RenderDoc(raws).text));
            sc.error.None? && sc.st.raws == raws && sc.st.compounds == compounds
  {
    DocText(raws);
    DocLinesClean(raws);
    ReadLines(DocLines(raws));
    assert [] + raws == raws;
    DocScan(ScanState([], compounds, "global"), raws);
  }

  /** Saving a plain document to one existing tracked file and reading that
      file into an empty document gives the document back. */
  lemma SaveThenRead(fs: FileSystem, p: string, raws: Doc, compounds: seq<string>)
    requires p in fs && PlainDoc(raws)
    ensures var (fs', err) := SaveFiles(fs, [p], RenderDoc(raws));
            var r := ReadFiles(ScanState([], compounds, "global"), fs', [p]);
            err.None? && r.error.None? && r.failed == [] && r.st.raws == raws && r.st.compounds == compounds
  {
    var doc := RenderDoc(raws);
    SaveReadRoundTrip(raws, compounds);
    assert |p + ".bak"| != |p|;
    SaveWrites(fs, [p], doc, 0);
    SaveSucceeds(fs, [p], doc);
    var fs' := SaveFiles(fs, [p], doc).0;
    var st := ScanState([], compounds, "global");
    assert ReadFile(st, fs', p) == ReadOutcome(ScanLines(st, FileLines(doc.text)).st, [], None);
    assert [p][1..] == [];
  }

  // ---------------------------------------------------------------------------
  // A list that reads back.

  /** A character that can stand alone as a list item: not whitespace, not
      a comma or `]` (which would end the item), not `=` (which would split
      the line) and not a backslash (which would escape the comma after it). */
  predicate ItemChar(c: char)
  {
    !IsSpace(c) && c != ',' && c != ']' && c != '=' && c != '\\'
  }

  /** The list of the one-character strings `a` and `b` is written `[a,b]`. */
  lemma PairRendered(a: char, b: char)
    ensures RenderValue(List([Str([a]), Str([b])])) == Ok(['[', a, ',', b, ']'])
  {
    var items := [Str([a]), Str([b])];
    assert AllStr(items);
    assert items[1..] == [Str([b])];
    assert Join(",", items) == [a] + "," + [b];
    assert "[" + ([a] + "," + [b]) + "]" == ['[', a, ',', b, ']'];
  }

  /** The comma of `[a,b]` separates, and the pieces around it are `a` and
      `b`. */
  lemma PairRawRead(a: char, b: char)
    requires ItemChar(a) && ItemChar(b)
    ensures RawElements(['[', a, ',', b, ']']) == [[a], [b]]
  {
    var w := ['[', a, ',', b, ']'];
    assert !EndAt(w, 0) && !EndAt(w, 1) && SepAt(w, 2) && !EndAt(w, 3) && EndAt(w, 4);
    assert Ends(w, 2) == [];
    assert Ends(w, 4) == [2];
    assert Ends(w, 5) == [2, 4];
    assert Root(w, 2) == 1 && Root(w, 4) == 3;
    assert PySlice(w, 1, 2) == [a] && PySlice(w, 3, 4) == [b];
  }

  /** `[a,b]`, closed on its own line, decodes to the list of `a` and `b`. */
  lemma PairSpecRead(a: char, b: char)
    requires ItemChar(a) && ItemChar(b)
    ensures ListSpec(['[', a, ',', b, ']'], None) == Ok(Decoded(List([Str([a]), Str([b])]), 0))
  {
    var w := ['[', a, ',', b, ']'];
    assert ']' in w by { assert w[4] == ']'; }
    PairRawRead(a, b);
    StripClean([a]);
    StripClean([b]);
    var els := Elements(w);
    assert els == [[a], [b]];
    assert seq(|els|, k requires 0 <= k < |els| => Str(els[k])) == [Str([a]), Str([b])];
  }

  /** A list written as a token that decodes back to it is plain. */
  lemma ListTokenPlain(v: Value, t: string)
    requires RenderValue(v) == Ok(t) && Token(t) && t[0] == '[' && ListSpec(t, None) == Ok(Decoded(v, 0))
    ensures PlainValue(v)
  {
  }

  /** The list of two one-character strings that can stand alone as items,
      such as `['a', 'b']`, is a plain value. */
  lemma PairPlain(a: char, b: char)
    requires ItemChar(a) && ItemChar(b)
    ensures PlainValue(List([Str([a]), Str([b])]))
  {
    var w := ['[', a, ',', b, ']'];
    PairRendered(a, b);
    PairSpecRead(a, b);
    assert Token(w) by { assert '=' !in w && '\n' !in w && '\r' !in w; }
    ListTokenPlain(List([Str([a]), Str([b])]), w);
  }

  /** A document of one section holding one entry is plain when the
      section name, the key and the value are. */
  lemma SingleEntryPlain(h: string, k: string, v: Value)
    requires PlainName(h) && PlainKey(k) && PlainValue(v)
    ensures PlainDoc([(h, [(k, v)])])
  {
    assert PlainEntries([(k, v)]);
  }

  /** A section holding the list `[a,b]` under one key is saved and read back
      as itself. */
  lemma PairDocSurvives(h: string, k: string, a: char, b: char, compounds: seq<string>)
    requires PlainName(h) && PlainKey(k) && ItemChar(a) && ItemChar(b)
    ensures var raws := [(h, [(k, List([Str([a]), Str([b])]))])];
            var sc := ScanLines(ScanState([], compounds, "global"), FileLines(RenderDoc(raws).text));
            RenderDoc(raws).error.None? && sc.error.None? && sc.st.raws == raws
  {
    PairPlain(a, b);
    SingleEntryPlain(h, k, List([Str([a]), Str([b])]));
    SaveReadRoundTrip([(h, [(k, List([Str([a]), Str([b])]))])], compounds);
  }
}

// What `DatParser.read` does to the document, as functions of the files it is
// given: the lines of a file, the per-line rules, duplicate-key promotion, and
// the bookkeeping of paths that could and could not be opened.

module Scanner {
  import opened PyStr
  import opened Values
  import opened Assoc
  import opened Decoder
  import opened Seqs

  /** A section: key to value, in insertion order. */
  type Section = Assoc<Value>

  /** The document: section name to section, in insertion order. */
  type Doc = Assoc<Section>

  /** A file system: path to text. A path that is not a key cannot be opened. */
  type FileSystem = map<string, string>

  // ---------------------------------------------------------------------------
  // The lines of a file.

  /** Python's universal-newline translation on reading: `\r\n` and `\r`
      become `\n`. */
  function Translate(s: string): (t: string)
    ensures '\r' !in t
  {
    if s == [] then []
    else if s[0] == '\r' then "\n" + Translate(if |s| > 1 && s[1] == '\n' then s[2..] else s[1..])
    else [s[0]] + Translate(s[1..])
  }

  /** Text cut after each newline, every line keeping its terminator, as
      iterating over a file yields it. */
  function SplitLines(t: string): (lines: seq<string>)
    ensures forall i :: 0 <= i < |lines| ==> lines[i] != []
    decreases |t|
  {
    if t == [] then []
    else
      var k := Find(t, '\n');
      if k == -1 then [t] else [t[..k + 1]] + SplitLines(t[k + 1..])
  }

  /** The lines `for line in open(path)` yields. */
  function FileLines(content: string): seq<string>
  {
    SplitLines(Translate(content))
  }

  /** A line as a file yields it: text with one newline, at its end. */
  predicate IsLine(line: string)
  {
    line != [] && line[|line| - 1] == '\n' && '\n' !in line[..|line| - 1]
  }

  /** Cutting text into lines loses nothing. */
  lemma {:induction false} SplitLinesConcat(t: string)
    ensures Concat(SplitLines(t)) == t
    decreases |t|
  {
    if t != [] {
      var k := Find(t, '\n');
      if k == -1 {
        assert [t][..0] == [];
        EmptyAppend(t);
      } else {
        SplitLinesConcat(t[k + 1..]);
        ConcatCons(t[..k + 1], SplitLines(t[k + 1..]));
        TakeDrop(t, k + 1);
      }
    }
  }

  /** Joining whole lines and cutting the text again gives the same lines. */
  lemma {:induction false} SplitLinesOfLines(lines: seq<string>)
    requires forall i :: 0 <= i < |lines| ==> IsLine(lines[i])
    ensures SplitLines(Concat(lines)) == lines
    decreases |lines|
  {
    if lines != [] {
      var first := lines[0];
      ConcatCons(first, lines[1..]);
      assert [first] + lines[1..] == lines;
      var t := first + Concat(lines[1..]);
      assert t[..|first| - 1] == first[..|first| - 1];
      FindFirst(t, '\n', |first| - 1);
      assert t[..|first|] == first;
      assert t[|first|..] == Concat(lines[1..]);
      SplitLinesOfLines(lines[1..]);
    }
  }

  /** Text without a carriage return reads back as it is. */
  lemma {:induction false} TranslateClean(s: string)
    requires '\r' !in s
    ensures Translate(s) == s
  {
    if s != [] {
      TranslateClean(s[1..]);
    }
  }

  /** Joining lines after a first one. */
  lemma {:induction false} ConcatCons(first: string, rest: seq<string>)
    ensures Concat([first] + rest) == first + Concat(rest)
    decreases |rest|
  {
    if rest != [] {
      var init := rest[..|rest| - 1];
      assert ([first] + rest)[..|rest|] == [first] + init;
      ConcatCons(first, init);
    } else {
      assert [first] + rest == [first];
      assert Concat([first]) == Concat([]) + first;
    }
  }

  // ---------------------------------------------------------------------------
  // Scanning (datparser.py:125-147).

  /** What the scan carries from line to line: the document, the keys known
      to repeat, and the section attributes go into. */
  datatype ScanState = ScanState(raws: Doc, compounds: seq<string>, header: string)

  /** How a scan ended: the state it reached, and the exception that stopped
      it, if one did. */
  datatype Scan = Scan(st: ScanState, error: Option<PyError>)

  /** Storing `name = value` in section `header`. A key seen a second time
      becomes a list of both values and its name is remembered in
      `compounds`; a key whose name is remembered, and that is present,
      gets the value appended, which fails on a value that is not a list; a
      key that is absent is stored as it is. */
  function AddAttr(raws: Doc, compounds: seq<string>, header: string, name: string, value: Value)
    : Result<(Doc, seq<string>)>
  {
    match Lookup(raws, header)
    case None => Err(KeyError)
    case Some(sec) =>
      match Lookup(sec, name)
      case None => Ok((Put(raws, header, Put(sec, name, value)), compounds))
      case Some(prev) =>
        if name !in compounds then
          Ok((Put(raws, header, Put(sec, name, List([prev, value]))), compounds + [name]))
        else if prev.List? then
          Ok((Put(raws, header, Put(sec, name, List(prev.items + [value]))), compounds))
        else Err(AttributeError)
  }

  /** Where the scan goes after one line: on with a new state, skipping the
      line and the lines its value used, or to a stop with an exception. */
  datatype Next = Next(st: ScanState, skip: nat) | Stop(error: PyError)

  /** The rule for the first of `lines`. It is stripped; a header line
      starts (or empties) its section and makes it current; an attribute line
      decodes its value from the lines that follow, which are then skipped;
      any other line is ignored. */
  function LineStep(st: ScanState, lines: seq<string>): (n: Next)
    requires lines != []
    ensures n.Next? ==> 1 <= n.skip <= |lines|
  {
    var line := Strip(lines[0]);
    if IsHeader(line) then
      var h := HeaderFromLine(line);
      Next(st.(raws := Put(st.raws, h, []), header := h), 1)
    else if IsAttr(line) then
      var parts := AttrFromLine(line);
      DecodeWithFile(parts[1], lines[1..]);
      var d := DecodeValue(parts[1], Some(lines[1..])).value;
      match AddAttr(st.raws, st.compounds, st.header, parts[0], d.value)
      case Err(e) => Stop(e)
      case Ok((raws, compounds)) => Next(st.(raws := raws, compounds := compounds), 1 + d.used)
    else Next(st, 1)
  }

  /** The scan of the lines of one file, line by line; an exception stops it
      with the state it had reached. */
  function ScanLines(st: ScanState, lines: seq<string>): Scan
    decreases |lines|
  {
    if lines == [] then Scan(st, None)
    else
      match LineStep(st, lines)
      case Stop(e) => Scan(st, Some(e))
      case Next(st', n) => ScanLines(st', lines[n..])
  }

  /** A step that goes on: the scan continues from its state past the lines
      it skips. */
  lemma ScanNext(st: ScanState, lines: seq<string>, st': ScanState, skip: nat)
    requires lines != [] && LineStep(st, lines) == Next(st', skip)
    ensures skip <= |lines|
    ensures ScanLines(st, lines) == ScanLines(st', lines[skip..])
  {
  }

  /** A step that stops: the scan ends where it was, with the exception. */
  lemma ScanStop(st: ScanState, lines: seq<string>, e: PyError)
    requires lines != [] && LineStep(st, lines) == Stop(e)
    ensures ScanLines(st, lines) == Scan(st, Some(e))
  {
  }

  /** The step on a header line empties its section and makes it current. */
  lemma StepHeader(st: ScanState, lines: seq<string>)
    requires lines != [] && IsHeader(Strip(lines[0]))
    ensures var h := HeaderFromLine(Strip(lines[0]));
            LineStep(st, lines) == Next(ScanState(Put(st.raws, h, []), st.compounds, h), 1)
  {
  }

  /** The step on an attribute line stores the decoded value, skipping the
      lines it used, or stops with the exception storing it raises. */
  lemma StepAttr(st: ScanState, lines: seq<string>, d: Decoded)
    requires lines != [] && !IsHeader(Strip(lines[0])) && IsAttr(Strip(lines[0]))
    requires DecodeValue(AttrFromLine(Strip(lines[0]))[1], Some(lines[1..])) == Ok(d)
    ensures var r := AddAttr(st.raws, st.compounds, st.header, AttrFromLine(Strip(lines[0]))[0], d.value);
            LineStep(st, lines) ==
              if r.Err? then Stop(r.error) else Next(ScanState(r.value.0, r.value.1, st.header), 1 + d.used)
  {
  }

  /** An attribute line `k = t`, whose value `t` is decoded on its own line
      and stored successfully, lets the scan go on from the stored state with
      the next line. */
  lemma AttrStored(st: ScanState, lines: seq<string>, k: string, t: string, v: Value,
                   raws': Doc, compounds': seq<string>)
    requires lines != [] && !IsHeader(Strip(lines[0])) && IsAttr(Strip(lines[0]))
    requires AttrFromLine(Strip(lines[0])) == [k, t]
    requires DecodeValue(t, Some(lines[1..])) == Ok(Decoded(v, 0))
    requires AddAttr(st.raws, st.compounds, st.header, k, v) == Ok((raws', compounds'))
    ensures ScanLines(st, lines) == ScanLines(ScanState(raws', compounds', st.header), lines[1..])
  {
    StepAttr(st, lines, Decoded(v, 0));
    ScanNext(st, lines, ScanState(raws', compounds', st.header), 1);
  }

  /** The state after a store that `r` describes: its new document and
      `compounds` when it succeeds, and the old ones with its exception when
      it fails. */
  predicate Stored(r: Result<(Doc, seq<string>)>, raws: Doc, compounds: seq<string>,
                   raws': Doc, compounds': seq<string>, err: Option<PyError>)
  {
    if r.Ok? then raws' == r.value.0 && compounds' == r.value.1 && err.None?
    else raws' == raws && compounds' == compounds && err == Some(r.error)
  }

  /** The step on any other line passes it over. */
  lemma StepOther(st: ScanState, lines: seq<string>)
    requires lines != [] && !IsHeader(Strip(lines[0])) && !IsAttr(Strip(lines[0]))
    ensures LineStep(st, lines) == Next(st, 1)
  {
  }

  /** A scan from line `i` that meets a header line goes on from the
      emptied section past that line. */
  lemma HeaderScan(st: ScanState, lines: seq<string>, i: nat)
    requires i < |lines| && IsHeader(Strip(lines[i]))
    ensures var h := HeaderFromLine(Strip(lines[i]));
            ScanLines(st, lines[i..]) == ScanLines(ScanState(Put(st.raws, h, []), st.compounds, h), lines[i + 1..])
  {
    StepHeader(st, lines[i..]);
    DropDrop(lines, i, 1);
  }

  /** `StepAttr` on line `i`. */
  lemma StepAttrAt(st: ScanState, lines: seq<string>, i: nat, d: Decoded)
    requires i < |lines| && !IsHeader(Strip(lines[i])) && IsAttr(Strip(lines[i]))
    requires DecodeValue(AttrFromLine(Strip(lines[i]))[1], Some(lines[i + 1..])) == Ok(d)
    ensures i + 1 + d.used <= |lines|
    ensures var r := AddAttr(st.raws, st.compounds, st.header, AttrFromLine(Strip(lines[i]))[0], d.value);
            LineStep(st, lines[i..]) ==
              if r.Err? then Stop(r.error) else Next(ScanState(r.value.0, r.value.1, st.header), 1 + d.used)
  {
    DropOne(lines, i);
    DecodeWithFile(AttrFromLine(Strip(lines[i]))[1], lines[i + 1..]);
    StepAttr(st, lines[i..], d);
  }

  /** A step that stores with outcome `r`, and the state that outcome
      leaves: the scan goes on from that state past the lines the step
      skips, or stops there with the exception. */
  lemma ScanStored(st: ScanState, lines: seq<string>, r: Result<(Doc, seq<string>)>, skip: nat,
                   raws': Doc, compounds': seq<string>, err: Option<PyError>)
    requires lines != []
    requires LineStep(st, lines) ==
             if r.Err? then Stop(r.error) else Next(ScanState(r.value.0, r.value.1, st.header), skip)
    requires Stored(r, st.raws, st.compounds, raws', compounds', err)
    ensures err.None? ==> skip <= |lines|
    ensures ScanLines(st, lines) ==
            if err.Some? then Scan(ScanState(raws', compounds', st.header), err)
            else ScanLines(ScanState(raws', compounds', st.header), lines[skip..])
  {
    if r.Err? {
      ScanStop(st, lines, r.error);
    } else {
      ScanNext(st, lines, ScanState(raws', compounds', st.header), skip);
    }
  }

  /** A scan from line `i` that meets an attribute line whose value has been
      decoded as `d` and stored: it goes on from the stored state past the
      lines the value used, or stops where it was with the exception. */
  lemma AttrScan(st: ScanState, lines: seq<string>, i: nat, d: Decoded, next: nat,
                 raws': Doc, compounds': seq<string>, err: Option<PyError>)
    requires i < |lines| && !IsHeader(Strip(lines[i])) && IsAttr(Strip(lines[i]))
    requires DecodeValue(AttrFromLine(Strip(lines[i]))[1], Some(lines[i + 1..])) == Ok(d)
    requires Stored(AddAttr(st.raws, st.compounds, st.header, AttrFromLine(Strip(lines[i]))[0], d.value),
                    st.raws, st.compounds, raws', compounds', err)
    requires next == i + 1 + d.used
    ensures next <= |lines|
    ensures ScanLines(st, lines[i..]) ==
            if err.Some? then Scan(ScanState(raws', compounds', st.header), err)
            else ScanLines(ScanState(raws', compounds', st.header), lines[next..])
  {
    var r := AddAttr(st.raws, st.compounds, st.header, AttrFromLine(Strip(lines[i]))[0], d.value);
    StepAttrAt(st, lines, i, d);
    ScanStored(st, lines[i..], r, next - i, raws', compounds', err);
    DropDropAt(lines, i, next - i, next);
  }

  /** A scan from line `i` that meets any other line goes on past it. */
  lemma OtherScan(st: ScanState, lines: seq<string>, i: nat)
    requires i < |lines| && !IsHeader(Strip(lines[i])) && !IsAttr(Strip(lines[i]))
    ensures ScanLines(st, lines[i..]) == ScanLines(st, lines[i + 1..])
  {
    StepOther(st, lines[i..]);
    DropDrop(lines, i, 1);
  }

  /** How a `read` ended: the scan state, the paths that could not be opened,
      and the exception that stopped it, if one did. */
  datatype ReadOutcome = ReadOutcome(st: ScanState, failed: seq<string>, error: Option<PyError>)

  /** One file of a `read`: a path that cannot be opened is noted, and
      the lines of one that can are scanned. */
  function ReadFile(st: ScanState, fs: FileSystem, path: string): ReadOutcome
  {
    if path !in fs then ReadOutcome(st, [path], None)
    else
      var sc := ScanLines(st, FileLines(fs[path]));
      ReadOutcome(sc.st, [], sc.error)
  }

  /** The files read in turn, the current section carrying over from one
      file to the next; an exception ends the read. */
  function ReadFiles(st: ScanState, fs: FileSystem, fpaths: seq<string>): ReadOutcome
    decreases |fpaths|
  {
    if fpaths == [] then ReadOutcome(st, [], None)
    else
      var r := ReadFile(st, fs, fpaths[0]);
      if r.error.Some? then r.(failed := [])
      else
        var rest := ReadFiles(r.st, fs, fpaths[1..]);
        rest.(failed := r.failed + rest.failed)
  }

  /** The paths that cannot be opened, in order. */
  function Missing(fs: FileSystem, fpaths: seq<string>): (m: seq<string>)
    ensures forall p :: p in m <==> p in fpaths && p !in fs
  {
    if fpaths == [] then []
    else (if fpaths[0] !in fs then [fpaths[0]] else []) + Missing(fs, fpaths[1..])
  }

  /** The paths that can be opened, in order. */
  function Opened(fs: FileSystem, fpaths: seq<string>): (o: seq<string>)
    ensures forall p :: p in o <==> p in fpaths && p in fs
  {
    if fpaths == [] then []
    else (if fpaths[0] in fs then [fpaths[0]] else []) + Opened(fs, fpaths[1..])
  }

  // ---------------------------------------------------------------------------
  // Properties of the scan.

  predicate NoDup(s: seq<string>)
  {
    forall i, j :: 0 <= i < j < |s| ==> s[i] != s[j]
  }

  /** What every Python dict guarantees: section names are unique, and so are
      the keys of each section; and `compounds` never names a key twice. */
  predicate WellFormed(st: ScanState)
  {
    Unique(st.raws) && (forall x :: x in st.raws ==> Unique(x.1)) && NoDup(st.compounds)
  }

  /** Storing an attribute fails with `KeyError` exactly when the current
      section does not exist, and with `AttributeError` exactly when a
      remembered name is present with a value that is not a list. */
  lemma AddAttrErrors(raws: Doc, compounds: seq<string>, header: string, name: string, value: Value)
    ensures var r := AddAttr(raws, compounds, header, name, value);
            (r == Err(KeyError) <==> header !in Keys(raws)) &&
            (r == Err(AttributeError) <==>
               header in Keys(raws) && name in compounds &&
               Lookup(Lookup(raws, header).value, name).Some? &&
               !Lookup(Lookup(raws, header).value, name).value.List?) &&
            (r.Err? ==> r.error == KeyError || r.error == AttributeError)
  {
  }

  /** A stored attribute changes its own key in the current section and
      nothing else: no other section, no other key, and `compounds` only by
      the name on its first repeat. A first repeat makes the two values a
      list, a later repeat appends, and an absent key is stored plainly even
      when its name is remembered. */
  lemma AddAttrEffect(raws: Doc, compounds: seq<string>, header: string, name: string, value: Value)
    requires AddAttr(raws, compounds, header, name, value).Ok?
    ensures var (raws', compounds') := AddAttr(raws, compounds, header, name, value).value;
            var sec := Lookup(raws, header).value;
            var sec' := Lookup(raws', header).value;
            Keys(raws') == Keys(raws) &&
            (forall h :: h != header ==> Lookup(raws', h) == Lookup(raws, h)) &&
            (forall k :: k != name ==> Lookup(sec', k) == Lookup(sec, k)) &&
            Lookup(sec', name) == Some(
              match Lookup(sec, name)
              case None => value
              case Some(prev) => if name !in compounds then List([prev, value]) else List(prev.items + [value])) &&
            compounds' == (if Lookup(sec, name).Some? && name !in compounds then compounds + [name] else compounds)
  {
  }

  /** Storing an attribute keeps the document well formed. */
  lemma AddAttrWellFormed(st: ScanState, name: string, value: Value)
    requires WellFormed(st)
    requires AddAttr(st.raws, st.compounds, st.header, name, value).Ok?
    ensures var (raws', compounds') := AddAttr(st.raws, st.compounds, st.header, name, value).value;
            WellFormed(st.(raws := raws', compounds := compounds'))
  {
    var sec := Lookup(st.raws, st.header).value;
    assert (st.header, sec) in st.raws;
    var v' := match Lookup(sec, name)
      case None => value
      case Some(prev) => if name !in st.compounds then List([prev, value]) else List(prev.items + [value]);
    var sec' := Put(sec, name, v');
    PutUnique(sec, name, v');
    PutUnique(st.raws, st.header, sec');
    PutEntries(st.raws, st.header, sec');
  }

  /** A header line keeps the document well formed. */
  lemma HeaderWellFormed(st: ScanState, h: string)
    requires WellFormed(st)
    ensures WellFormed(st.(raws := Put(st.raws, h, []), header := h))
  {
    PutUnique(st.raws, h, []);
    PutEntries(st.raws, h, []);
  }

  /** One line keeps the document well formed. */
  lemma StepWellFormed(st: ScanState, lines: seq<string>)
    requires WellFormed(st) && lines != []
    ensures LineStep(st, lines).Next? ==> WellFormed(LineStep(st, lines).st)
  {
    var line := Strip(lines[0]);
    if IsHeader(line) {
      HeaderWellFormed(st, HeaderFromLine(line));
    } else if IsAttr(line) {
      var parts := AttrFromLine(line);
      DecodeWithFile(parts[1], lines[1..]);
      var d := DecodeValue(parts[1], Some(lines[1..])).value;
      if AddAttr(st.raws, st.compounds, st.header, parts[0], d.value).Ok? {
        AddAttrWellFormed(st, parts[0], d.value);
      }
    }
  }

  /** Scanning keeps the document well formed. */
  lemma {:induction false} ScanWellFormed(st: ScanState, lines: seq<string>)
    requires WellFormed(st)
    ensures WellFormed(ScanLines(st, lines).st)
    decreases |lines|
  {
    if lines != [] {
      StepWellFormed(st, lines);
      var n := LineStep(st, lines);
      if n.Next? {
        ScanWellFormed(n.st, lines[n.skip..]);
      }
    }
  }

  /** Reading keeps the document well formed. */
  lemma {:induction false} ReadWellFormed(st: ScanState, fs: FileSystem, fpaths: seq<string>)
    requires WellFormed(st)
    ensures WellFormed(ReadFiles(st, fs, fpaths).st)
    decreases |fpaths|
  {
    if fpaths != [] {
      var r := ReadFile(st, fs, fpaths[0]);
      if fpaths[0] in fs {
        ScanWellFormed(st, FileLines(fs[fpaths[0]]));
      }
      if r.error.None? {
        ReadWellFormed(r.st, fs, fpaths[1..]);
      }
    }
  }

  /** One line adds to `compounds` at its end, if at all. */
  lemma StepCompoundsGrow(st: ScanState, lines: seq<string>)
    requires lines != [] && LineStep(st, lines).Next?
    ensures var c := LineStep(st, lines).st.compounds;
            |st.compounds| <= |c| && c[..|st.compounds|] == st.compounds
  {
    var line := Strip(lines[0]);
    if IsHeader(line) {
      StepHeader(st, lines);
    } else if IsAttr(line) {
      var parts := AttrFromLine(line);
      DecodeWithFile(parts[1], lines[1..]);
      var d := DecodeValue(parts[1], Some(lines[1..])).value;
      StepAttr(st, lines, d);
      AddAttrCompounds(st.raws, st.compounds, st.header, parts[0], d.value);
    } else {
      StepOther(st, lines);
    }
  }

  /** A store adds to `compounds` at its end, if at all. */
  lemma AddAttrCompounds(raws: Doc, compounds: seq<string>, header: string, name: string, value: Value)
    ensures var r := AddAttr(raws, compounds, header, name, value);
            r.Ok? ==> |compounds| <= |r.value.1| && r.value.1[..|compounds|] == compounds
  {
    SnocInit(compounds, name);
  }

  /** `compounds` only grows: the names it held stay, in order, at its front. */
  lemma {:induction false} ScanCompoundsGrow(st: ScanState, lines: seq<string>)
    ensures |st.compounds| <= |ScanLines(st, lines).st.compounds|
    ensures ScanLines(st, lines).st.compounds[..|st.compounds|] == st.compounds
    decreases |lines|
  {
    if lines != [] {
      var n := LineStep(st, lines);
      if n.Next? {
        StepCompoundsGrow(st, lines);
        ScanCompoundsGrow(n.st, lines[n.skip..]);
        TakeTake(ScanLines(n.st, lines[n.skip..]).st.compounds, |n.st.compounds|, |st.compounds|);
      }
    }
  }

  /** A read that ends without an exception reports exactly the paths that
      cannot be opened, in argument order. */
  lemma {:induction false} ReadFailed(st: ScanState, fs: FileSystem, fpaths: seq<string>)
    requires ReadFiles(st, fs, fpaths).error.None?
    ensures ReadFiles(st, fs, fpaths).failed == Missing(fs, fpaths)
    decreases |fpaths|
  {
    if fpaths != [] {
      ReadFailed(ReadFile(st, fs, fpaths[0]).st, fs, fpaths[1..]);
    }
  }

  /** Reading files one after the other in one call is reading the first
      group and carrying on, with the same current section, with the second. */
  lemma {:induction false} ReadAppend(st: ScanState, fs: FileSystem, first: seq<string>, second: seq<string>)
    requires ReadFiles(st, fs, first).error.None?
    ensures var r1 := ReadFiles(st, fs, first);
            var r2 := ReadFiles(r1.st, fs, second);
            ReadFiles(st, fs, first + second) == r2.(failed := r1.failed + r2.failed)
    decreases |first|
  {
    if first == [] {
      EmptyAppend(second);
    } else {
      AppendHead(first, second);
      var r := ReadFile(st, fs, first[0]);
      ReadAppend(r.st, fs, first[1..], second);
      var r1 := ReadFiles(r.st, fs, first[1..]);
      AppendAssoc(r.failed, r1.failed, ReadFiles(r1.st, fs, second).failed);
    }
  }

  /** Every path is either opened or reported. */
  lemma {:induction false} OpenedMissing(fs: FileSystem, fpaths: seq<string>)
    ensures |Opened(fs, fpaths)| + |Missing(fs, fpaths)| == |fpaths|
  {
    if fpaths != [] {
      OpenedMissing(fs, fpaths[1..]);
    }
  }
}

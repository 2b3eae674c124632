// The `DatParser` object, whose methods update its document in place
// (datparser.py:4-227).

module Parser {
  import opened PyStr
  import opened Values
  import opened Assoc
  import opened Decoder
  import opened Scanner
  import opened Serializer
  import opened Seqs
  import opened GameObjects
  import opened Updates

  class DatParser {
    var raws: Doc
    var compounds: seq<string>
    var datPaths: seq<string>

    /** The document is a Python dict of dicts, and `compounds` a list the
        parser only appends names to when they are missing. */
    predicate Valid()
      reads this
    {
      WellFormed(ScanState(raws, compounds, ""))
    }

    constructor ()
      ensures raws == [] && compounds == [] && datPaths == []
      ensures Valid()
    {
      raws := [];
      compounds := [];
      datPaths := [];
    }

    /** Storing `name = value` in section `header` while reading: a repeated
        key becomes a list holding its first value, its name is remembered,
        and the value is appended. */
    method Store(header: string, name: string, value: Value) returns (err: Option<PyError>)
      modifies this
      ensures Stored(AddAttr(old(raws), old(compounds), header, name, value), old(raws), old(compounds), raws, compounds, err)
      ensures unchanged(`datPaths)
    {
      var sec := Lookup(raws, header);
      if sec.None? {
        return Some(KeyError);
      }
      var prev := Lookup(sec.value, name);
      if prev.None? {
        raws := Put(raws, header, Put(sec.value, name, value));
        return None;
      }
      var listed := name in compounds;
      if !listed {
        compounds := compounds + [name];
        raws := Put(raws, header, Put(sec.value, name, List([prev.value])));
        NestedPutTwice(old(raws), header, sec.value, name, List([prev.value]), List([prev.value, value]));
        Pair(prev.value, value);
      }
      var now := Lookup(raws, header).value;
      var cur := Lookup(now, name).value;
      if !cur.List? {
        return Some(AttributeError);
      }
      raws := Put(raws, header, Put(now, name, List(cur.items + [value])));
      err := None;
    }

    /** The scanning loop of `read` over the lines of one file, the current
        section coming in as `header0` and going out as `header`. */
    method ScanFile(lines: seq<string>, header0: string) returns (header: string, err: Option<PyError>)
      modifies this
      ensures ScanLines(ScanState(old(raws), old(compounds), header0), lines) ==
              Scan(ScanState(raws, compounds, header), err)
      ensures unchanged(`datPaths)
    {
      header := header0;
      var i := 0;
      while i < |lines|
        invariant 0 <= i <= |lines|
        invariant ScanLines(ScanState(old(raws), old(compounds), header0), lines) ==
                  ScanLines(ScanState(raws, compounds, header), lines[i..])
        invariant unchanged(`datPaths)
        decreases |lines| - i
      {
        var next, e;
        header, next, e := ScanLine(lines, i, header);
        if e.Some? {
          return header, e;
        }
        i := next;
      }
      err := None;
    }

    /** The body of the scanning loop, on line `i`: a header line starts (or
        empties) its section, an attribute line stores its value, which may
        take the lines after it, and any other line is passed over. The
        scan goes on at line `next`. */
    method ScanLine(lines: seq<string>, i: nat, header0: string) returns (header: string, next: nat, err: Option<PyError>)
      requires i < |lines|
      modifies this
      ensures i < next <= |lines|
      ensures ScanLines(ScanState(old(raws), old(compounds), header0), lines[i..]) ==
              if err.Some? then Scan(ScanState(raws, compounds, header), err)
              else ScanLines(ScanState(raws, compounds, header), lines[next..])
      ensures unchanged(`datPaths)
    {
      var line := Strip(lines[i]);
      header := header0;
      if IsHeader(line) {
        HeaderScan(ScanState(raws, compounds, header0), lines, i);
        header := HeaderFromLine(line);
        raws := Put(raws, header, []);
        next, err := i + 1, None;
      } else if IsAttr(line) {
        next, err := ScanAttr(lines, i, header);
      } else {
        OtherScan(ScanState(raws, compounds, header0), lines, i);
        next, err := i + 1, None;
      }
    }

    /** An attribute line `i`: its value, decoded with the lines after it,
        stored in the current section. */
    method ScanAttr(lines: seq<string>, i: nat, header: string) returns (next: nat, err: Option<PyError>)
      requires i < |lines| && !IsHeader(Strip(lines[i])) && IsAttr(Strip(lines[i]))
      modifies this
      ensures i < next <= |lines|
      ensures ScanLines(ScanState(old(raws), old(compounds), header), lines[i..]) ==
              if err.Some? then Scan(ScanState(raws, compounds, header), err)
              else ScanLines(ScanState(raws, compounds, header), lines[next..])
      ensures unchanged(`datPaths)
    {
      var parts := AttrFromLine(Strip(lines[i]));
      DecodeWithFile(parts[1], lines[i + 1..]);
      var d := HandleValue(parts[1], Some(lines[i + 1..]));
      err := Store(header, parts[0], d.value.value);
      next := i + 1 + d.value.used;
      AttrScan(ScanState(old(raws), old(compounds), header), lines, i, d.value, next, raws, compounds, err);
    }

    /** The file loop of `read`: a path that cannot be opened is noted, one
        that can is scanned, the current section carrying over. */
    method ReadAll(fs: FileSystem, fpaths: seq<string>) returns (failed: seq<string>, err: Option<PyError>)
      modifies this
      ensures raws == ReadFiles(ScanState(old(raws), old(compounds), "global"), fs, fpaths).st.raws
      ensures compounds == ReadFiles(ScanState(old(raws), old(compounds), "global"), fs, fpaths).st.compounds
      ensures err == ReadFiles(ScanState(old(raws), old(compounds), "global"), fs, fpaths).error
      ensures err.None? ==> failed == ReadFiles(ScanState(old(raws), old(compounds), "global"), fs, fpaths).failed
      ensures unchanged(`datPaths)
    {
      ghost var r0 := ReadFiles(ScanState(raws, compounds, "global"), fs, fpaths);
      failed := [];
      var header := "global";
      var k := 0;
      while k < |fpaths|
        invariant 0 <= k <= |fpaths|
        invariant r0.st == ReadFiles(ScanState(raws, compounds, header), fs, fpaths[k..]).st
        invariant r0.error == ReadFiles(ScanState(raws, compounds, header), fs, fpaths[k..]).error
        invariant r0.error.None? ==> r0.failed == failed + ReadFiles(ScanState(raws, compounds, header), fs, fpaths[k..]).failed
        invariant unchanged(`datPaths)
      {
        var fpath := fpaths[k];
        DropOne(fpaths, k);
        if fpath !in fs {
          AppendAssoc(failed, [fpath], ReadFiles(ScanState(raws, compounds, header), fs, fpaths[k + 1..]).failed);
          failed := failed + [fpath];
        } else {
          var e;
          header, e := ScanFile(FileLines(fs[fpath]), header);
          if e.Some? {
            return failed, e;
          }
          EmptyAppend(ReadFiles(ScanState(raws, compounds, header), fs, fpaths[k + 1..]).failed);
        }
        k := k + 1;
      }
      err := None;
    }

    /** `read`: every path in turn, then the opened ones appended to
        `datPaths`. The result lists the paths that do not exist. An
        exception leaves the document as far as it got and `datPaths` as it
        was. */
    method Read(fs: FileSystem, fpaths: seq<string>) returns (failed: seq<string>, err: Option<PyError>)
      requires Valid()
      modifies this
      ensures raws == ReadFiles(ScanState(old(raws), old(compounds), "global"), fs, fpaths).st.raws
      ensures compounds == ReadFiles(ScanState(old(raws), old(compounds), "global"), fs, fpaths).st.compounds
      ensures err == ReadFiles(ScanState(old(raws), old(compounds), "global"), fs, fpaths).error
      ensures err.None? ==> failed == Missing(fs, fpaths) && datPaths == old(datPaths) + Opened(fs, fpaths)
      ensures err.Some? ==> unchanged(`datPaths)
      ensures Valid()
    {
      ReadWellFormed(ScanState(raws, compounds, "global"), fs, fpaths);
      failed, err := ReadAll(fs, fpaths);
      if err.Some? {
        return;
      }
      ReadFailed(ScanState(old(raws), old(compounds), "global"), fs, fpaths);
      ghost var raws1, compounds1 := raws, compounds;
      var m := 0;
      while m < |fpaths|
        invariant 0 <= m <= |fpaths|
        invariant raws == raws1 && compounds == compounds1
        invariant datPaths == old(datPaths) + Opened(fs, fpaths[..m])
      {
        OpenedSnoc(fs, fpaths[..m], fpaths[m]);
        TakeOneMore(fpaths, m);
        if fpaths[m] in failed {
        } else {
          AppendAssoc(old(datPaths), Opened(fs, fpaths[..m]), [fpaths[m]]);
          datPaths := datPaths + [fpaths[m]];
        }
        m := m + 1;
      }
      TakeAll(fpaths);
    }

    /** `getValue`: the value under a key, or `KeyError` when the section or
        the key is missing. */
    function GetValue(header: string, name: string): (r: Result<Value>)
      reads this
      ensures r.Ok? <==> header in Keys(raws) && name in Keys(Lookup(raws, header).value)
      ensures r.Ok? ==> (header, Lookup(raws, header).value) in raws && (name, r.value) in Lookup(raws, header).value
      ensures r.Err? ==> r.error == KeyError
    {
      match Lookup(raws, header)
      case None => Err(KeyError)
      case Some(sec) =>
        match Lookup(sec, name)
        case None => Err(KeyError)
        case Some(v) => Ok(v)
    }

    /** `getDatNames`: the file name of every tracked path, in order. */
    method GetDatNames() returns (names: seq<string>)
      ensures names == DatNames(datPaths)
    {
      names := [];
      var i := 0;
      while i < |datPaths|
        invariant 0 <= i <= |datPaths|
        invariant names == DatNames(datPaths[..i])
      {
        DatNamesSnoc(datPaths[..i], datPaths[i]);
        TakeOneMore(datPaths, i);
        names := names + [Basename(datPaths[i])];
        i := i + 1;
      }
      TakeAll(datPaths);
    }

    /** `getGobs`: one new game object per section, in document order, or
        the exception building the first object that cannot be built raises. */
    method GetGobs() returns (gobs: seq<GameObject>, err: Option<PyError>)
      ensures err == GobsErrorFrom(raws, 0)
      ensures err.None? ==> |gobs| == |raws|
      ensures err.None? ==> forall i :: 0 <= i < |raws| ==> fresh(gobs[i]) && gobs[i].attrs == GobOf(raws, i)
    {
      var rs := raws;
      gobs := [];
      var i := 0;
      while i < |rs|
        invariant 0 <= i <= |rs|
        invariant GobsErrorFrom(rs, 0) == GobsErrorFrom(rs, i)
        invariant |gobs| == i
        invariant forall j :: 0 <= j < i ==> fresh(gobs[j]) && gobs[j].attrs == GobOf(rs, j)
      {
        var sec := GobSection(rs, i);
        GobsErrorNext(rs, i);
        if BuildError(sec).Some? {
          return [], BuildError(sec);
        }
        var gob := new GameObject(rs[i].0, sec);
        ghost var before := gobs;
        gobs := gobs + [gob];
        forall j | 0 <= j <= i ensures fresh(gobs[j]) && gobs[j].attrs == GobOf(rs, j) {
          if j < i {
            assert gobs[j] == before[j];
          }
        }
        i := i + 1;
      }
      err := None;
    }

    /** `getGob`: a new game object for a section, nothing when there is no
        such section, or the exception building the object raises. */
    method GetGob(key: string) returns (gob: GameObject?, err: Option<PyError>)
      ensures err == if key in Keys(raws) then BuildError(Lookup(raws, key).value) else None
      ensures gob != null <==> key in Keys(raws) && err.None?
      ensures gob != null ==> fresh(gob) && gob.attrs == GobAttrs(key, Lookup(raws, key).value)
    {
      gob, err := null, None;
      if key in Keys(raws) {
        var sec := Lookup(raws, key).value;
        err := BuildError(sec);
        if err.None? {
          gob := new GameObject(key, sec);
        }
      }
    }

    /** `updateWithGob`: copying a game object's attributes into the section
        it names. */
    method UpdateWithGob(gob: GameObject) returns (err: Option<PyError>)
      requires Valid() && Unique(gob.attrs)
      modifies this
      ensures Applied(UpdateWithGobSpec(old(raws), gob.attrs), old(raws), raws, err)
      ensures unchanged(`compounds, `datPaths)
      ensures Valid()
    {
      if HidesMethod(gob.attrs) {
        return Some(TypeError);
      }
      var header := gob.GetAttr("name");
      if header.Some? && header.value.List? {
        return Some(TypeError);
      }
      err := CopyAttributes(gob, header);
      if err.None? {
        UpdateKeepsValid(old(raws), compounds, gob.attrs);
      }
    }

    /** The loop of `updateWithGob`: every attribute but `name` assigned in
        the section `header`, which fails with `KeyError` at the first one
        when there is no such section. */
    method CopyAttributes(gob: GameObject, header: Option<Value>) returns (err: Option<PyError>)
      requires Unique(gob.attrs)
      modifies this
      ensures if Others(gob.attrs) != [] && !IsSection(old(raws), header)
              then raws == old(raws) && err == Some(KeyError)
              else raws == Copied(old(raws), header, gob.attrs) && err.None?
      ensures unchanged(`compounds, `datPaths)
    {
      var attrs := gob.GetAttributes();
      var i := 0;
      while i < |attrs|
        invariant 0 <= i <= |attrs|
        invariant raws == Copied(old(raws), header, attrs[..i])
        invariant Others(attrs[..i]) != [] ==> IsSection(old(raws), header)
        invariant unchanged(`compounds, `datPaths)
      {
        err := CopyAttribute(gob, header, i, old(raws));
        if err.Some? {
          return;
        }
        i := i + 1;
      }
      TakeAll(attrs);
      err := None;
    }

    /** One turn of that loop, on attribute `i`, the document having
        started as `raws0`: `name` is skipped, and any other attribute is
        assigned in the section, or fails with `KeyError` when there is
        none. */
    method CopyAttribute(gob: GameObject, header: Option<Value>, i: nat, ghost raws0: Doc) returns (err: Option<PyError>)
      requires Unique(gob.attrs) && i < |gob.attrs|
      requires raws == Copied(raws0, header, gob.attrs[..i])
      requires Others(gob.attrs[..i]) != [] ==> IsSection(raws0, header)
      modifies this
      ensures err.Some? ==> raws == old(raws) && err == Some(KeyError) && Others(gob.attrs) != [] && !IsSection(raws0, header)
      ensures err.None? ==> raws == Copied(raws0, header, gob.attrs[..i + 1]) &&
                            (Others(gob.attrs[..i + 1]) != [] ==> IsSection(raws0, header))
      ensures unchanged(`compounds, `datPaths)
    {
      var attrs := gob.GetAttributes();
      var name := attrs[i].0;
      CopyTurn(raws0, header, attrs, i, raws);
      if name != "name" {
        if !IsSection(raws, header) {
          return Some(KeyError);
        }
        var h := header.value.s;
        var got := gob.GetAttr(name);
        assert got == Some(attrs[i].1) by {
          LookupAt(attrs, i);
        }
        var v := got.value;
        raws := Put(raws, h, Put(Lookup(raws, h).value, name, v));
      }
      err := None;
    }

    /** `updateValue`: the decoded value stored under the key, whether or not
        the key is there or repeats. */
    method UpdateValue(header: string, name: string, value: string) returns (err: Option<PyError>)
      requires Valid()
      modifies this
      ensures Applied(UpdateValueSpec(old(raws), header, name, value), old(raws), raws, err)
      ensures unchanged(`compounds, `datPaths)
      ensures Valid()
    {
      var d := HandleValue(value, None);
      if d.Err? {
        return Some(d.error);
      }
      err := AssignValue(header, name, d.value.value);
    }

    /** `self.raws[header][name] = v`. */
    method AssignValue(header: string, name: string, v: Value) returns (err: Option<PyError>)
      requires Valid()
      modifies this
      ensures Applied(Assign(old(raws), header, name, v), old(raws), raws, err)
      ensures unchanged(`compounds, `datPaths)
      ensures Valid()
    {
      var sec := Lookup(raws, header);
      if sec.None? {
        return Some(KeyError);
      }
      PutKeepsValid(raws, compounds, header, name, v);
      raws := Put(raws, header, Put(sec.value, name, v));
      err := None;
    }

    /** `addHeader`: refused (Python returns `False`) when the section exists;
        otherwise an empty section is added at the end. */
    method AddHeader(header: string) returns (refused: bool)
      requires Valid()
      modifies this
      ensures refused <==> header in Keys(old(raws))
      ensures refused ==> unchanged(`raws)
      ensures !refused ==> raws == old(raws) + [(header, [])]
      ensures unchanged(`compounds, `datPaths)
      ensures Valid()
    {
      if header in Keys(raws) {
        return true;
      }
      AddSectionKeepsValid(raws, compounds, header);
      raws := raws + [(header, [])];
      refused := false;
    }

    /** `addName`: refused (Python returns `False`) when the section is
        missing; otherwise the same as `updateValue`, which it calls first
        when the key is already there and then repeats. */
    method AddName(header: string, name: string, value: string) returns (refused: bool, err: Option<PyError>)
      requires Valid()
      modifies this
      ensures refused <==> header !in Keys(old(raws))
      ensures refused ==> raws == old(raws) && err.None?
      ensures !refused ==> Applied(UpdateValueSpec(old(raws), header, name, value), old(raws), raws, err)
      ensures unchanged(`compounds, `datPaths)
      ensures Valid()
    {
      if header !in Keys(raws) {
        return true, None;
      } else if name in Keys(Lookup(raws, header).value) {
        err := UpdateValue(header, name, value);
        if err.Some? {
          return false, err;
        }
        UpdateValueTwice(old(raws), header, name, value);
      }
      err := UpdateValue(header, name, value);
      refused := false;
    }

    /** The `k = v` lines `save` writes for one section, up to the first value
        that cannot be written. */
    method RenderSection(sec: Section) returns (text: string, err: Option<PyError>)
      ensures Rendered(text, err) == RenderEntries(sec)
    {
      text := "";
      var j := 0;
      while j < |sec|
        invariant 0 <= j <= |sec|
        invariant RenderEntries(sec) == After(text, RenderEntries(sec[j..]))
      {
        DropOne(sec, j);
        var vt := RenderValue(sec[j].1);
        if vt.Err? {
          return text, Some(vt.error);
        }
        AfterAfter(text, sec[j].0 + " = " + vt.value + "\n", RenderEntries(sec[j + 1..]));
        text := text + (sec[j].0 + " = " + vt.value + "\n");
        j := j + 1;
      }
      err := None;
    }

    /** The text `save` writes to each path: the sections in order, up to the
        first value that cannot be written. */
    method Render() returns (out: string, err: Option<PyError>)
      ensures Rendered(out, err) == RenderDoc(raws)
    {
      out := "";
      var i := 0;
      while i < |raws|
        invariant 0 <= i <= |raws|
        invariant RenderDoc(raws) == After(out, RenderDoc(raws[i..]))
      {
        DropOne(raws, i);
        var head := "[" + raws[i].0 + "]\n";
        var body, e := RenderSection(raws[i].1);
        if e.Some? {
          AfterAfter(out, head, Rendered(body, e));
          return out + head + body, e;
        }
        AfterAfter(out, head + body + "\n\n", RenderDoc(raws[i + 1..]));
        out := out + (head + body + "\n\n");
        i := i + 1;
      }
      err := None;
    }

    /** `save`: for each tracked path in turn, the backup emptied and then
        given the path's current text, and the path given the document. */
    method Save(fs: FileSystem) returns (fs': FileSystem, err: Option<PyError>)
      ensures (fs', err) == SaveFiles(fs, datPaths, RenderDoc(raws))
    {
      fs' := fs;
      var i := 0;
      while i < |datPaths|
        invariant 0 <= i <= |datPaths|
        invariant SaveFiles(fs, datPaths, RenderDoc(raws)) == SaveFiles(fs', datPaths[i..], RenderDoc(raws))
      {
        var path := datPaths[i];
        DropOne(datPaths, i);
        fs' := fs'[path + ".bak" := ""];
        if path !in fs' {
          return fs', Some(FileNotFound);
        }
        fs' := fs'[path + ".bak" := Translate(fs'[path])];
        var text, e := Render();
        fs' := fs'[path := text];
        if e.Some? {
          return fs', e;
        }
        i := i + 1;
      }
      err := None;
    }

    /** `delete`: the section removed if present, then a save. */
    method Delete(header: string, fs: FileSystem) returns (fs': FileSystem, err: Option<PyError>)
      requires Valid()
      modifies this
      ensures raws == Remove(old(raws), header)
      ensures (fs', err) == SaveFiles(fs, datPaths, RenderDoc(raws))
      ensures unchanged(`compounds, `datPaths)
      ensures Valid()
    {
      RemoveUnique(raws, header);
      RemoveEntries(raws, header);
      if header in Keys(raws) {
        raws := Remove(raws, header);
      }
      fs', err := Save(fs);
    }
  }
}

// What the editing operations of `DatParser` do to the document, as
// functions of the document before them (datparser.py:95-227).

module Updates {
  import opened PyStr
  import opened Values
  import opened Assoc
  import opened Decoder
  import opened Scanner
  import opened Serializer
  import opened Seqs
  import opened GameObjects

  /** The entries of a game object that `updateWithGob` copies: all but `name`. */
  function Others(attrs: Section): (o: Section)
    ensures forall x :: x in o <==> x in attrs && x.0 != "name"
  {
    if attrs == [] then []
    else
      var init := attrs[..|attrs| - 1];
      var last := attrs[|attrs| - 1];
      InitLast(attrs);
      Others(init) + (if last.0 != "name" then [last] else [])
  }

  /** The object's `name` is a section of the document. */
  predicate IsSection(raws: Doc, header: Option<Value>)
  {
    header.Some? && header.value.Str? && header.value.s in Keys(raws)
  }

  /** The document once the entries `es` of a game object whose name is
      `header` have been copied into that section, `name` skipped. */
  function Copied(raws: Doc, header: Option<Value>, es: Section): Doc
  {
    if Others(es) == [] || !IsSection(raws, header) then raws
    else Put(raws, header.value.s, PutAll(Lookup(raws, header.value.s).value, Others(es)))
  }

  /** What `updateWithGob` makes of the document. An attribute that hides
      `getAttr` or `getAttributes` makes the call to it fail, and a list as
      the object's `name` cannot be looked up at all; a name that is not a
      section fails as soon as there is an attribute to copy; otherwise the
      section gets every attribute of the object but `name`. */
  function UpdateWithGobSpec(raws: Doc, attrs: Section): Result<Doc>
  {
    var header := Lookup(attrs, "name");
    if HidesMethod(attrs) || (header.Some? && header.value.List?) then Err(TypeError)
    else if Others(attrs) != [] && !IsSection(raws, header) then Err(KeyError)
    else Ok(Copied(raws, header, attrs))
  }

  /** One more attribute: it is among the copied ones unless it is `name`. */
  lemma OthersStep(attrs: Section, i: nat)
    requires i < |attrs|
    ensures Others(attrs[..i + 1]) == Others(attrs[..i]) + (if attrs[i].0 != "name" then [attrs[i]] else [])
  {
    var es := attrs[..i + 1];
    TakeTake(attrs, i + 1, i);
    assert es[|es| - 1] == attrs[i];
  }

  /** Copying keeps the sections there are. */
  lemma CopiedSections(raws: Doc, header: Option<Value>, es: Section)
    ensures Keys(Copied(raws, header, es)) == Keys(raws)
  {
  }

  /** One more attribute copied: `name` is skipped, any other is assigned
      in the section. */
  lemma CopiedStep(raws: Doc, header: Option<Value>, attrs: Section, i: nat)
    requires i < |attrs|
    requires attrs[i].0 != "name" ==> IsSection(raws, header)
    ensures var cur := Copied(raws, header, attrs[..i]);
            Copied(raws, header, attrs[..i + 1]) ==
              if attrs[i].0 == "name" then cur
              else Put(cur, header.value.s, Put(Lookup(cur, header.value.s).value, attrs[i].0, attrs[i].1))
  {
    var o := Others(attrs[..i]);
    OthersStep(attrs, i);
    if attrs[i].0 != "name" {
      var h := header.value.s;
      var sec := Lookup(raws, h).value;
      var x := attrs[i];
      PutAllSnoc(sec, o, x);
      assert Copied(raws, header, attrs[..i + 1]) == Put(raws, h, Put(PutAll(sec, o), x.0, x.1));
      if o != [] {
        PutTwice(raws, h, PutAll(sec, o), Put(PutAll(sec, o), x.0, x.1));
      }
    } else {
      AppendNil(o);
    }
  }

  /** One turn of the loop of `updateWithGob` on attribute `i`, `cur` being
      the document the turns before it left: `name` leaves it as it is, and
      any other attribute fails when the object's name is not a section and
      is assigned there otherwise. */
  lemma CopyTurn(raws: Doc, header: Option<Value>, attrs: Section, i: nat, cur: Doc)
    requires i < |attrs|
    requires cur == Copied(raws, header, attrs[..i])
    requires Others(attrs[..i]) != [] ==> IsSection(raws, header)
    ensures IsSection(cur, header) <==> IsSection(raws, header)
    ensures attrs[i].0 != "name" ==> Others(attrs) != []
    ensures attrs[i].0 != "name" && IsSection(cur, header) ==>
              Put(cur, header.value.s, Put(Lookup(cur, header.value.s).value, attrs[i].0, attrs[i].1)) == Copied(raws, header, attrs[..i + 1])
    ensures attrs[i].0 == "name" ==> cur == Copied(raws, header, attrs[..i + 1])
    ensures (attrs[i].0 != "name" && !IsSection(raws, header)) || (Others(attrs[..i + 1]) != [] ==> IsSection(raws, header))
  {
    CopiedSections(raws, header, attrs[..i]);
    OthersStep(attrs, i);
    if attrs[i].0 != "name" {
      OthersNonEmpty(attrs, i);
      if IsSection(raws, header) {
        CopiedStep(raws, header, attrs, i);
      }
    } else {
      CopiedStep(raws, header, attrs, i);
    }
  }

  /** Dropping `name` from the front of a section that has no such key
      gives the section back. */
  lemma {:induction false} OthersSkipName(name: string, sec: Section)
    requires "name" !in Keys(sec)
    ensures Others([("name", Str(name))] + sec) == sec
  {
    var attrs := [("name", Str(name))] + sec;
    if sec == [] {
      assert attrs[..0] == [];
    } else {
      var init, last := sec[..|sec| - 1], sec[|sec| - 1];
      ConsInit(("name", Str(name)), sec);
      assert last.0 != "name" by {
        assert Keys(sec)[|sec| - 1] == last.0;
      }
      assert Others([("name", Str(name))] + init) == init by {
        forall i | 0 <= i < |init| ensures Keys(init)[i] != "name" {
          assert Keys(sec)[i] == init[i].0;
        }
        OthersSkipName(name, init);
      }
      InitLast(sec);
    }
  }

  /** A section's game object names the section and copies back exactly
      the section's entries, when the section has no key called `name`. */
  lemma GobParts(h: string, sec: Section)
    requires Unique(sec) && "name" !in Keys(sec)
    ensures Lookup(GobAttrs(h, sec), "name") == Some(Str(h))
    ensures Others(GobAttrs(h, sec)) == sec
  {
    assert GobAttrs(h, sec) == [("name", Str(h))] + sec by {
      GobAttrsFresh(h, sec);
    }
    OthersSkipName(h, sec);
  }

  /** A game object hides a method exactly when its section has a key
      named like the method. */
  lemma GobHides(h: string, sec: Section)
    requires Unique(sec)
    ensures HidesMethod(GobAttrs(h, sec)) <==> HidesMethod(sec)
  {
    GobLookup(h, sec, "getAttr");
    GobLookup(h, sec, "getAttributes");
  }

  /** Taking a section's game object and writing it back with
      `updateWithGob` leaves the document as it was, when the section has
      no key called `name`, `getAttr` or `getAttributes`. */
  lemma GobRoundTrip(raws: Doc, h: string)
    requires Unique(raws) && (forall x :: x in raws ==> Unique(x.1)) && h in Keys(raws)
    requires "name" !in Keys(Lookup(raws, h).value) && !HidesMethod(Lookup(raws, h).value)
    ensures UpdateWithGobSpec(raws, GobAttrs(h, Lookup(raws, h).value)) == Ok(raws)
  {
    var sec := Lookup(raws, h).value;
    assert (h, sec) in raws;
    GobParts(h, sec);
    GobHides(h, sec);
    var attrs := GobAttrs(h, sec);
    var header := Lookup(attrs, "name");
    assert IsSection(raws, header);
    assert Copied(raws, header, attrs) == raws by {
      if sec != [] {
        assert PutAll(sec, sec) == sec by {
          PutAllSame(sec, sec);
        }
        assert Put(raws, h, sec) == raws by {
          PutSame(raws, h, sec);
        }
      }
    }
    assert UpdateWithGobSpec(raws, attrs) == Ok(Copied(raws, header, attrs));
  }

  /** `updateWithGob` raises `TypeError` exactly when the object hides one
      of its methods or its name is a list, and `KeyError` exactly when
      otherwise its name is no section and it has an attribute besides
      `name`. */
  lemma UpdateWithGobErrors(raws: Doc, attrs: Section)
    ensures var r := UpdateWithGobSpec(raws, attrs);
            var header := Lookup(attrs, "name");
            (r == Err(TypeError) <==> HidesMethod(attrs) || (header.Some? && header.value.List?)) &&
            (r == Err(KeyError) <==>
               !HidesMethod(attrs) && !(header.Some? && header.value.List?) &&
               (exists x :: x in attrs && x.0 != "name") &&
               !IsSection(raws, header))
  {
    var o := Others(attrs);
    if o != [] {
      assert o[0] in attrs && o[0].0 != "name";
    }
  }

  /** A successful `updateWithGob` changes only the named section, where
      every attribute of the object but `name` now holds the object's value
      and every other key is as it was. */
  lemma UpdateWithGobEffect(raws: Doc, attrs: Section, k: string)
    requires Unique(attrs) && UpdateWithGobSpec(raws, attrs).Ok?
    ensures var r := UpdateWithGobSpec(raws, attrs).value;
            var header := Lookup(attrs, "name");
            Keys(r) == Keys(raws) &&
            (IsSection(raws, header) ==>
               (forall h :: h != header.value.s ==> Lookup(r, h) == Lookup(raws, h)) &&
               Lookup(Lookup(r, header.value.s).value, k) ==
                 if k != "name" && k in Keys(attrs) then Lookup(attrs, k)
                 else Lookup(Lookup(raws, header.value.s).value, k)) &&
            (!IsSection(raws, header) ==> r == raws)
  {
    var header := Lookup(attrs, "name");
    var o := Others(attrs);
    if IsSection(raws, header) && o != [] {
      var h := header.value.s;
      OthersUnique(attrs);
      PutAllLookup(Lookup(raws, h).value, o, k);
      OthersLookup(attrs, k);
    } else if IsSection(raws, header) {
      forall i | 0 <= i < |attrs| ensures Keys(attrs)[i] == "name" {
        assert attrs[i] in attrs;
      }
    }
  }

  /** The copied entries keep the object's keys unique. */
  lemma {:induction false} OthersUnique(attrs: Section)
    requires Unique(attrs)
    ensures Unique(Others(attrs))
  {
    if attrs != [] {
      var init, last := attrs[..|attrs| - 1], attrs[|attrs| - 1];
      UniqueInit(attrs);
      OthersUnique(init);
      if last.0 != "name" {
        assert forall x :: x in Others(init) ==> x in init;
        forall j | 0 <= j < |Others(init)| ensures Others(init)[j].0 != last.0 {
          var x := Others(init)[j];
          assert x in init;
          var a :| 0 <= a < |init| && init[a] == x;
          assert Keys(init)[a] == x.0;
        }
        UniqueSnoc(Others(init), last);
      }
    }
  }

  /** Looking up a key other than `name` among the copied entries. */
  lemma OthersLookup(attrs: Section, k: string)
    requires Unique(attrs)
    ensures k != "name" ==> Lookup(Others(attrs), k) == Lookup(attrs, k)
    ensures k != "name" ==> (k in Keys(Others(attrs)) <==> k in Keys(attrs))
  {
    if k != "name" {
      OthersUnique(attrs);
      if k in Keys(attrs) {
        var i :| 0 <= i < |attrs| && Keys(attrs)[i] == k;
        LookupAt(attrs, i);
        assert attrs[i] in Others(attrs);
        var j :| 0 <= j < |Others(attrs)| && Others(attrs)[j] == attrs[i];
        LookupAt(Others(attrs), j);
        assert Keys(Others(attrs))[j] == k;
      } else {
        forall j | 0 <= j < |Others(attrs)| ensures Keys(Others(attrs))[j] != k {
          var x := Others(attrs)[j];
          assert x in attrs;
          var a :| 0 <= a < |attrs| && attrs[a] == x;
          assert Keys(attrs)[a] == x.0;
        }
      }
    }
  }

  /** `updateWithGob` keeps the document well formed. */
  lemma UpdateKeepsValid(raws: Doc, compounds: seq<string>, attrs: Section)
    requires WellFormed(ScanState(raws, compounds, ""))
    ensures UpdateWithGobSpec(raws, attrs).Ok? ==>
              WellFormed(ScanState(UpdateWithGobSpec(raws, attrs).value, compounds, ""))
  {
    var header := Lookup(attrs, "name");
    if UpdateWithGobSpec(raws, attrs).Ok? && Others(attrs) != [] && IsSection(raws, header) {
      var h := header.value.s;
      var sec := Lookup(raws, h).value;
      assert (h, sec) in raws;
      PutAllUnique(sec, Others(attrs));
      PutUnique(raws, h, PutAll(sec, Others(attrs)));
      PutEntries(raws, h, PutAll(sec, Others(attrs)));
    }
  }

  /** `os.path.basename` on a POSIX path: what follows the last `/`. */
  function Basename(p: string): string
  {
    p[RFind(p, '/') + 1..]
  }

  /** The file name has no `/`, ends the path, and is the whole path or
      follows a `/`. */
  lemma BasenameShape(p: string)
    ensures var b := Basename(p);
            '/' !in b && EndsWith(p, b) && (|b| < |p| ==> p[|p| - |b| - 1] == '/')
  {
  }

  /** The document after an update that `r` describes: the new one when it
      succeeds, and the old one with its exception when it fails. */
  predicate Applied(r: Result<Doc>, raws: Doc, raws': Doc, err: Option<PyError>)
  {
    if r.Ok? then raws' == r.value && err.None? else raws' == raws && err == Some(r.error)
  }

  /** What `updateValue` makes of the document: the value is decoded first,
      with no file to continue from, and then stored under the key of an
      existing section, which fails with `KeyError` when there is none. */
  function UpdateValueSpec(raws: Doc, header: string, name: string, value: string): Result<Doc>
  {
    match DecodeValue(value, None)
    case Err(e) => Err(e)
    case Ok(d) => Assign(raws, header, name, d.value)
  }

  /** `self.raws[header][name] = v`, which fails with `KeyError` when the
      section is missing. */
  function Assign(raws: Doc, header: string, name: string, v: Value): Result<Doc>
  {
    if header in Keys(raws) then Ok(Put(raws, header, Put(Lookup(raws, header).value, name, v)))
    else Err(KeyError)
  }

  /** `updateValue` fails with `TypeError` exactly when the value cannot be
      decoded without a file, and otherwise with `KeyError` exactly when the
      section is missing. On success the key holds the decoded value, and no
      other key and no other section changes. */
  lemma UpdateValueEffect(raws: Doc, header: string, name: string, value: string)
    ensures var r := UpdateValueSpec(raws, header, name, value);
            var d := DecodeValue(value, None);
            (r == Err(TypeError) <==> d.Err?) &&
            (r == Err(KeyError) <==> d.Ok? && header !in Keys(raws)) &&
            (r.Ok? ==>
               Keys(r.value) == Keys(raws) &&
               Lookup(Lookup(r.value, header).value, name) == Some(d.value.value) &&
               (forall k :: k != name ==> Lookup(Lookup(r.value, header).value, k) == Lookup(Lookup(raws, header).value, k)) &&
               (forall h :: h != header ==> Lookup(r.value, h) == Lookup(raws, h)))
  {
    DecodeWithoutFile(value);
  }

  /** `updateValue` twice with the same arguments is `updateValue` once. */
  lemma UpdateValueTwice(raws: Doc, header: string, name: string, value: string)
    requires UpdateValueSpec(raws, header, name, value).Ok?
    ensures var once := UpdateValueSpec(raws, header, name, value).value;
            UpdateValueSpec(once, header, name, value) == Ok(once)
  {
    RepeatedPut(raws, header, name, DecodeValue(value, None).value.value);
  }

  /** The section `getGobs` builds object `i` from: the value under the
      key of entry `i`. */
  function GobSection(raws: Doc, i: nat): Section
    requires i < |raws|
  {
    assert Keys(raws)[i] == raws[i].0;
    Lookup(raws, raws[i].0).value
  }

  /** The game object of section `i`, as `getGobs` builds it. */
  function GobOf(raws: Doc, i: nat): Section
    requires i < |raws|
  {
    GobAttrs(raws[i].0, GobSection(raws, i))
  }

  /** The exception `getGobs` raises once it has built the objects of the
      sections before `i`: that of the first section from `i` on whose
      object cannot be built. */
  function GobsErrorFrom(raws: Doc, i: nat): (e: Option<PyError>)
    requires i <= |raws|
    ensures e.None? <==> forall j :: i <= j < |raws| ==> BuildError(GobSection(raws, j)).None?
    decreases |raws| - i
  {
    if i == |raws| then None
    else
      var e := BuildError(GobSection(raws, i));
      if e.Some? then e else GobsErrorFrom(raws, i + 1)
  }

  /** One step of `GobsErrorFrom`: the exception of section `i` if its
      object cannot be built, otherwise that of the sections after it. */
  lemma GobsErrorNext(raws: Doc, i: nat)
    requires i < |raws|
    ensures GobsErrorFrom(raws, i) == if BuildError(GobSection(raws, i)).Some? then BuildError(GobSection(raws, i)) else GobsErrorFrom(raws, i + 1)
  {
  }

  /** The file name of each tracked path, as `getDatNames` lists them. */
  function DatNames(paths: seq<string>): (names: seq<string>)
    ensures |names| == |paths|
  {
    if paths == [] then [] else [Basename(paths[0])] + DatNames(paths[1..])
  }

  /** Name `i` is the file name of path `i`. */
  lemma {:induction false} DatNamesAt(paths: seq<string>, i: nat)
    requires i < |paths|
    ensures DatNames(paths)[i] == Basename(paths[i])
  {
    if i > 0 {
      DatNamesAt(paths[1..], i - 1);
    }
  }

  /** Text written before text written before `r`. */
  lemma AfterAfter(a: string, b: string, r: Rendered)
    ensures After(a, After(b, r)) == After(a + b, r)
  {
    AppendAssoc(a, b, r.text);
  }

  /** `addName` on a key that is there assigns it twice; the second
      assignment of the same value changes nothing more. */
  lemma RepeatedPut(raws: Doc, header: string, name: string, v: Value)
    requires header in Keys(raws)
    ensures var once := Put(raws, header, Put(Lookup(raws, header).value, name, v));
            Put(once, header, Put(Lookup(once, header).value, name, v)) == once
  {
    var sec := Lookup(raws, header).value;
    PutTwice(sec, name, v, v);
    PutTwice(raws, header, Put(sec, name, v), Put(sec, name, v));
  }

  /** The file names of one more path. */
  lemma {:induction false} DatNamesSnoc(ps: seq<string>, p: string)
    ensures DatNames(ps + [p]) == DatNames(ps) + [Basename(p)]
  {
    if ps == [] {
      assert ps + [p] == [p];
    } else {
      SnocTail(ps, p);
      DatNamesSnoc(ps[1..], p);
      AppendAssoc([Basename(ps[0])], DatNames(ps[1..]), [Basename(p)]);
    }
  }

  /** Every entry left after a removal was there before. */
  lemma {:induction false} RemoveEntries(d: Doc, k: string)
    ensures forall x :: x in Remove(d, k) ==> x in d
  {
    if d != [] && d[0].0 != k {
      RemoveEntries(d[1..], k);
      assert Remove(d, k) == [d[0]] + Remove(d[1..], k);
    }
  }

  /** Storing one value in an existing section keeps the document well formed. */
  lemma PutKeepsValid(raws: Doc, compounds: seq<string>, header: string, name: string, v: Value)
    requires WellFormed(ScanState(raws, compounds, ""))
    requires header in Keys(raws)
    ensures WellFormed(ScanState(Put(raws, header, Put(Lookup(raws, header).value, name, v)), compounds, ""))
  {
    var sec := Lookup(raws, header).value;
    assert (header, sec) in raws;
    PutUnique(sec, name, v);
    PutUnique(raws, header, Put(sec, name, v));
    PutEntries(raws, header, Put(sec, name, v));
  }

  /** A new empty section goes at the end and keeps the document well formed. */
  lemma AddSectionKeepsValid(raws: Doc, compounds: seq<string>, header: string)
    requires WellFormed(ScanState(raws, compounds, ""))
    requires header !in Keys(raws)
    ensures Put(raws, header, []) == raws + [(header, [])]
    ensures WellFormed(ScanState(raws + [(header, [])], compounds, ""))
  {
    PutFresh(raws, header, []);
    PutUnique(raws, header, []);
    PutEntries(raws, header, []);
  }

  /** An attribute other than `name` leaves something to copy. */
  lemma OthersNonEmpty(attrs: Section, i: nat)
    requires i < |attrs| && attrs[i].0 != "name"
    ensures Others(attrs) != []
  {
    assert attrs[i] in attrs;
  }

  /** The paths that can be opened, extended by one more path. */
  lemma {:induction false} OpenedSnoc(fs: FileSystem, ps: seq<string>, p: string)
    ensures Opened(fs, ps + [p]) == Opened(fs, ps) + (if p in fs then [p] else [])
  {
    if ps == [] {
      assert ps + [p] == [p];
    } else {
      SnocTail(ps, p);
      OpenedSnoc(fs, ps[1..], p);
    }
  }
}

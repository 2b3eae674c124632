// What `DatParser.save` writes: the document rendered as text, and for every
// tracked path a backup of its current content before it is overwritten.

module Serializer {
  import opened PyStr
  import opened Values
  import opened Assoc
  import opened Scanner

  /** All the items of a list are strings, which `','.join` requires. */
  predicate AllStr(items: seq<Value>)
  {
    forall k :: 0 <= k < |items| ==> items[k].Str?
  }

  /** `sep.join(items)` over strings. */
  function Join(sep: string, items: seq<Value>): string
    requires AllStr(items)
  {
    if items == [] then ""
    else if |items| == 1 then items[0].s
    else items[0].s + sep + Join(sep, items[1..])
  }

  /** `'%s' % value`, with a list first turned into `[` + `','.join(value)` +
      `]`, which raises `TypeError` on an item that is not a string. */
  function RenderValue(v: Value): (r: Result<string>)
    ensures r.Err? <==> v.List? && !AllStr(v.items)
    ensures r.Err? ==> r.error == TypeError
  {
    match v
    case Int(i) => Ok(IntToString(i))
    case Float(text) => Ok(text)
    case Str(s) => Ok(s)
    case Null => Ok("None")
    case List(items) => if AllStr(items) then Ok("[" + Join(",", items) + "]") else Err(TypeError)
  }

  /** The text written so far, and the exception that stopped the writing, if
      one did. */
  datatype Rendered = Rendered(text: string, error: Option<PyError>)

  /** `s` written before whatever `r` writes. */
  function After(s: string, r: Rendered): Rendered
  {
    Rendered(s + r.text, r.error)
  }

  /** The `k = v` lines of a section, in order, up to the first value that
      cannot be written. */
  function RenderEntries(sec: Section): Rendered
  {
    if sec == [] then Rendered("", None)
    else
      match RenderValue(sec[0].1)
      case Err(e) => Rendered("", Some(e))
      case Ok(vt) => After(sec[0].0 + " = " + vt + "\n", RenderEntries(sec[1..]))
  }

  /** The whole document: per section its `[name]` line, its entries and two
      newlines, in order, up to the first value that cannot be written. */
  function RenderDoc(raws: Doc): Rendered
  {
    if raws == [] then Rendered("", None)
    else
      var head := "[" + raws[0].0 + "]\n";
      var body := RenderEntries(raws[0].1);
      if body.error.Some? then After(head, body)
      else After(head + body.text + "\n\n", RenderDoc(raws[1..]))
  }

  /** Every value of the document can be written. */
  predicate Writable(raws: Doc)
  {
    forall x, y :: x in raws && y in x.1 ==> !(y.1.List? && !AllStr(y.1.items))
  }

  /** Rendering fails exactly when some value is a list holding an item that
      is not a string, and then with `TypeError`. */
  lemma {:induction false} RenderErrors(raws: Doc)
    ensures RenderDoc(raws).error.None? <==> Writable(raws)
    ensures RenderDoc(raws).error.Some? ==> RenderDoc(raws).error == Some(TypeError)
  {
    if raws != [] {
      EntriesErrors(raws[0].1);
      RenderErrors(raws[1..]);
      assert forall x :: x in raws <==> x == raws[0] || x in raws[1..];
    }
  }

  lemma {:induction false} EntriesErrors(sec: Section)
    ensures RenderEntries(sec).error.None? <==> forall y :: y in sec ==> !(y.1.List? && !AllStr(y.1.items))
    ensures RenderEntries(sec).error.Some? ==> RenderEntries(sec).error == Some(TypeError)
  {
    if sec != [] {
      EntriesErrors(sec[1..]);
      assert forall y :: y in sec <==> y == sec[0] || y in sec[1..];
    }
  }

  // ---------------------------------------------------------------------------
  // Saving (datparser.py:207-222).

  /** The file system after `save` writes `doc` to each of `paths` in turn,
      and the exception that stopped it, if one did. For each path its backup
      is opened for writing first, which empties it; then the path is read,
      which fails when it does not exist; the backup gets what was read; then
      the path gets the rendered document, or as much of it as was written
      before a value could not be. */
  function SaveFiles(fs: FileSystem, paths: seq<string>, doc: Rendered): (FileSystem, Option<PyError>)
    decreases |paths|
  {
    if paths == [] then (fs, None)
    else
      var p := paths[0];
      var bak := p + ".bak";
      var fs1 := fs[bak := ""];
      if p !in fs1 then (fs1, Some(FileNotFound))
      else
        var fs2 := fs1[bak := Translate(fs1[p])][p := doc.text];
        if doc.error.Some? then (fs2, doc.error)
        else SaveFiles(fs2, paths[1..], doc)
  }

  /** No tracked path is the backup of a tracked path, and none is tracked twice. */
  predicate Separate(paths: seq<string>)
  {
    (forall i, j :: 0 <= i < |paths| && 0 <= j < |paths| ==> paths[i] != paths[j] + ".bak") &&
    (forall i, j :: 0 <= i < j < |paths| ==> paths[i] != paths[j])
  }

  /** Distinct paths have distinct backups. */
  lemma BakInjective(a: string, b: string)
    ensures a + ".bak" == b + ".bak" ==> a == b
  {
    if a + ".bak" == b + ".bak" {
      assert |a| == |b|;
      assert a == (a + ".bak")[..|a|];
      assert b == (b + ".bak")[..|b|];
    }
  }

  lemma SeparateTail(paths: seq<string>)
    requires Separate(paths) && paths != []
    ensures Separate(paths[1..])
  {
    var rest := paths[1..];
    forall i, j | 0 <= i < |rest| && 0 <= j < |rest|
      ensures rest[i] != rest[j] + ".bak"
    {
      assert rest[i] == paths[i + 1] && rest[j] == paths[j + 1];
    }
    forall i, j | 0 <= i < j < |rest|
      ensures rest[i] != rest[j]
    {
      assert rest[i] == paths[i + 1] && rest[j] == paths[j + 1];
    }
  }

  /** A save of tracked paths that all exist raises nothing. */
  lemma {:induction false} SaveSucceeds(fs: FileSystem, paths: seq<string>, doc: Rendered)
    requires doc.error.None?
    requires forall i :: 0 <= i < |paths| ==> paths[i] in fs
    ensures SaveFiles(fs, paths, doc).1.None?
    decreases |paths|
  {
    if paths != [] {
      var p := paths[0];
      var fs2 := fs[p + ".bak" := ""][p + ".bak" := Translate(fs[p])][p := doc.text];
      forall i | 0 <= i < |paths[1..]| ensures paths[1..][i] in fs2 {
        assert paths[1..][i] == paths[i + 1];
      }
      SaveSucceeds(fs2, paths[1..], doc);
    }
  }

  /** A save leaves alone every path that is neither tracked nor the backup
      of a tracked path. */
  lemma {:induction false} SaveKeeps(fs: FileSystem, paths: seq<string>, doc: Rendered, q: string)
    requires q in fs
    requires forall i :: 0 <= i < |paths| ==> q != paths[i] && q != paths[i] + ".bak"
    ensures q in SaveFiles(fs, paths, doc).0 && SaveFiles(fs, paths, doc).0[q] == fs[q]
    decreases |paths|
  {
    if paths != [] {
      var p := paths[0];
      assert q != p && q != p + ".bak";
      if p in fs {
        var fs2 := fs[p + ".bak" := ""][p + ".bak" := Translate(fs[p])][p := doc.text];
        forall i | 0 <= i < |paths[1..]| ensures q != paths[1..][i] && q != paths[1..][i] + ".bak" {
          assert paths[1..][i] == paths[i + 1];
        }
        SaveKeeps(fs2, paths[1..], doc, q);
      }
    }
  }

  /** A save of tracked paths that all exist, kept apart from one another's
      backups, leaves each path holding the whole document and its backup
      holding what the path held before. */
  lemma {:induction false} SaveWrites(fs: FileSystem, paths: seq<string>, doc: Rendered, n: nat)
    requires doc.error.None? && Separate(paths) && n < |paths|
    requires forall i :: 0 <= i < |paths| ==> paths[i] in fs
    ensures var fs' := SaveFiles(fs, paths, doc).0;
            var p := paths[n];
            p in fs' && fs'[p] == doc.text &&
            p + ".bak" in fs' && fs'[p + ".bak"] == Translate(fs[p])
    decreases n
  {
    var p := paths[0];
    var fs2 := fs[p + ".bak" := ""][p + ".bak" := Translate(fs[p])][p := doc.text];
    var rest := paths[1..];
    if n == 0 {
      forall j | 0 <= j < |rest|
        ensures p != rest[j] && p != rest[j] + ".bak" && p + ".bak" != rest[j] && p + ".bak" != rest[j] + ".bak"
      {
        assert rest[j] == paths[j + 1];
        BakInjective(p, rest[j]);
      }
      SaveKeeps(fs2, rest, doc, p);
      SaveKeeps(fs2, rest, doc, p + ".bak");
    } else {
      SeparateTail(paths);
      forall i | 0 <= i < |rest|
        ensures rest[i] in fs2 && fs2[rest[i]] == fs[rest[i]]
      {
        assert rest[i] == paths[i + 1];
        assert rest[i] != p && rest[i] != p + ".bak";
      }
      assert rest[n - 1] == paths[n];
      SaveWrites(fs2, rest, doc, n - 1);
    }
  }

  /** A path tracked twice is backed up twice: the second backup holds the
      document the first pass wrote, and what the path held before is lost. */
  lemma SaveTwice(fs: FileSystem, p: string, doc: Rendered)
    requires p in fs && doc.error.None?
    ensures var fs' := SaveFiles(fs, [p, p], doc).0;
            p in fs' && fs'[p] == doc.text && p + ".bak" in fs' && fs'[p + ".bak"] == Translate(doc.text)
  {
    var fs2 := fs[p + ".bak" := ""][p + ".bak" := Translate(fs[p])][p := doc.text];
    assert [p, p][1..] == [p];
    assert |p + ".bak"| != |p|;
    assert SaveFiles(fs, [p, p], doc) == SaveFiles(fs2, [p], doc);
  }

  /** A save stops at the first tracked path that does not exist, leaving its
      backup empty, after writing every path before it. */
  lemma {:induction false} SaveMissing(fs: FileSystem, paths: seq<string>, doc: Rendered, n: nat)
    requires doc.error.None? && n < |paths| && paths[n] !in fs
    requires forall i :: 0 <= i < n ==> paths[i] in fs
    requires forall i :: 0 <= i < n ==> paths[i] != paths[n] && paths[i] + ".bak" != paths[n]
    ensures var (fs', err) := SaveFiles(fs, paths, doc);
            err == Some(FileNotFound) && paths[n] + ".bak" in fs' && fs'[paths[n] + ".bak"] == ""
    decreases n
  {
    if n > 0 {
      var p := paths[0];
      var fs2 := fs[p + ".bak" := ""][p + ".bak" := Translate(fs[p])][p := doc.text];
      forall i | 0 <= i < n - 1
        ensures paths[1..][i] in fs2
      {
        assert paths[1..][i] == paths[i + 1];
      }
      assert paths[1..][n - 1] == paths[n];
      SaveMissing(fs2, paths[1..], doc, n - 1);
    }
  }
}

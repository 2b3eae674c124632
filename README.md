# DAT parser model

A Dafny model of the engine behind the game's `.DAT` data files. A file is
divided into sections headed `[name]`, each holding `key = value` lines. The
engine is the `DatParser` class in `datparser.py` and the string and number
helpers in `general.py`.

The model covers the following parts of that engine:

- **The document.** The parser's state is a class with the same three fields.
  - `raws` is an insertion-ordered dict of sections, each an insertion-ordered dict of values. It is modelled as an association list (module `Assoc`): assigning to a key that is there keeps its position, and a new key is appended.
  - `compounds` is the global list of key names known to repeat.
  - `datPaths` holds the paths loaded, in order.
- **Values.** A value (module `Values`) is an `Int`, a `Float` kept as its text, a `Str`, a `List` of values, or `Null` for the `None` an unterminated quoted value yields.
- **Exceptions.** Each exception Python would raise is an explicit result: `KeyError`, `AttributeError`, `TypeError` or `FileNotFound`. The state is left as Python leaves it at that point.
- **Reading.** Reading a file (module `Scanner`) is a line scanner.
  - It sorts each stripped line into header, attribute or noise.
  - The value decoders (module `Decoder`) for quoted and list values read on from the same lines. The lines they use are skipped, never classified.
  - A repeated key is promoted to a list. Its name is then remembered globally in `compounds`.
- **Mutation.** The operations that change the document are `updateValue`, `addHeader`, `addName`, `updateWithGob` and `delete` (module `Updates` for their specifications).
- **Saving.** `save` (module `Serializer`) renders the document and writes it over each tracked path, after backing that path up.
- **Game objects.** The `GameObject` view of a section is modelled in module `GameObjects`. Building one raises what `setattr` raises for the reserved names `__dict__`, `__class__` and `__weakref__`. A key named `getAttr` or `getAttributes` hides that method of the object, so `updateWithGob` raises `TypeError` when it calls the method.
- **The file system.** It is a map from path to text. A path absent from the map cannot be opened. A file is read as the lines Python's text-mode iterator yields: universal newlines translated, each line keeping its `\n`.

Each looping operation of the source is a method with its loop. It is proved equal to a specification function, and the source's promises are proved about that function as lemmas. `ScanLines`/`ReadFiles` specify `read`, `QuotedSpec` specifies `_handleMultiLineValue`, `ListSpec` specifies `_handleListValue`, and `RenderDoc`/`SaveFiles` specify `save`. Module `RoundTrip` proves that a document of plain names, keys and values, once saved, reads back as the same document.

The name of a repeated key is kept in `compounds` for every section, but a list is only made where the key repeats. A name already in `compounds` that is met for the first time in another section is stored there as a plain value (datparser.py:146-147). When that key then repeats in the same section, `.append` is called on the stored value. This raises `AttributeError` unless the stored value is itself a list, which only a bracketed list value is. See `Scanner.AddAttrEffect` and `Scanner.AddAttrErrors`.

## Model

| member | source | states |
|---|---|---|
| General.IsIn | general.py:1-6 | `isIn` holds when the stripped text starts with `l` and ends with `r`; `BracketsIsIn` and `PeelShape` use it |
| General.Peel | general.py:8-14 | when `isIn` fails the text comes back unchanged; the result is never longer than the input |
| General.PeelShape | general.py:8-14 | when `isIn` holds, the result is the text without its whole leading run of `l` characters and its whole trailing run of `r` characters |
| General.PeelDoubleBrackets | general.py:8-14 | `peel('[[x]]', '[', ']')` is `x` |
| General.BracketsIsIn | general.py:1-6 | `[[x]]` is enclosed in brackets |
| General.IsFloat | general.py:16-27 | `isFloat` holds when the text splits into exactly two parts at `.` and `float()` accepts it; `FloatHasOneDot` and `FloatIntExclusive` are proved about it |
| General.IsInt | general.py:29-39 | `isInt` holds when `isFloat` fails and `int()` accepts the text; `IntHasOneShape` and `IntHasNoDot` are proved about it |
| General.IsNum | general.py:41-45 | `isNum` is `isFloat` or `isInt`; `ToNum` keeps the text exactly when it fails |
| General.ToNum | general.py:47-58 | a string exactly when not `isNum`, and then the input itself; a float exactly when `isFloat`, keeping its text; an int exactly when `int()` accepts the text, with its value; never anything else, so the final `False` branch is unreachable |
| General.FloatHasOneDot | general.py:16-21 | every float holds exactly one `.` |
| General.IntHasNoDot | general.py:35-39 | text that `int()` accepts holds no `.` |
| General.IntHasOneShape | general.py:29-39 | `isInt` holds exactly when `int()` succeeds, and then `isFloat` fails |
| General.FloatIntExclusive | general.py:16-39 | `isFloat` and `isInt` never both hold |
| General.FloatExample | general.py:47-54 | `3.14` decodes as a float |
| General.IntExample | general.py:47-56 | `42` decodes as an int |
| General.TwoDotsExample | general.py:16-21 | `3.14.1` is returned as a string |
| General.TextExample | general.py:47-51 | `abc` is returned as a string |
| General.IntRoundTrip | general.py:47-56 | decoding the text Python's `str()` writes for any int gives back that int |
| Decoder.IsAttr | datparser.py:10-14 | a line is an attribute exactly when it holds one `=` |
| Decoder.AttrFromLine | datparser.py:26-27 | one stripped piece per `=`-separated part, in order |
| Decoder.AttrParts | datparser.py:26-27 | an attribute line yields exactly a key and a value, both stripped and free of `=` |
| Decoder.IsHeader | datparser.py:16-21 | `_isHeader` holds when the stripped line is enclosed in `[` and `]`; `RoundTrip.HeaderLine` shows that a written header passes it |
| Decoder.HeaderFromLine | datparser.py:23-24 | `_headerFromLine` is `peel` with brackets; `HeaderName` states what it keeps |
| Decoder.IsMultiLineValue | datparser.py:29-34 | `_isMultiLineValue` holds when the stripped value starts with `"` |
| Decoder.IsListValue | datparser.py:45-50 | `_isListValue` holds when the stripped value starts with `[` |
| Decoder.HeaderName | datparser.py:23-24 | a header's name is the stripped line without its leading `[` run and trailing `]` run |
| Decoder.QuotedSpec | datparser.py:52-64 | the value `_handleMultiLineValue` returns and the number of lines it takes from the file; `QuotedClosedAt`, `QuotedNeverClosed`, `QuotedFacts` and `QuotedWithoutFile` are proved about it |
| Decoder.FirstQuote | datparser.py:55-57 | the index loop stops at the first `"`, or reports none |
| Decoder.HandleMultiLineValue | datparser.py:52-64 | the two loops compute exactly `QuotedSpec` |
| Decoder.QuotedClosedAt | datparser.py:59-63 | a value the token leaves open and line `n` closes is the token, every earlier line after a newline, then a newline and line `n` up to its first `"`; `n + 1` lines are used |
| Decoder.QuotedNeverClosed | datparser.py:59-64 | a value no line closes is `None`, and every line is used |
| Decoder.QuotedFacts | datparser.py:52-64 | with a file a quoted value never fails, uses at most the lines there are, holds no `"`, and is `None` exactly when neither the token nor any line holds a `"` |
| Decoder.QuotedWithoutFile | datparser.py:52-59 | without a file, a quoted value fails with `TypeError` exactly when the token does not close it |
| Decoder.ListWhole | datparser.py:75-81 | the text a list value is gathered into and the lines that takes; `ListText` computes it with the source's loop |
| Decoder.ListSpec | datparser.py:66-92 | the elements of the gathered text; `ElementCount` and the list examples are proved about it |
| Decoder.ListText | datparser.py:75-81 | the gathering loop computes exactly `ListWhole`: the token, or with no `]` the token, a newline and the lines up to and including the first one holding `]` |
| Decoder.SplitList | datparser.py:82-89 | the `iroot` loop computes exactly `Elements` |
| Decoder.HandleListValue | datparser.py:66-92 | `_handleListValue` computes exactly `ListSpec` |
| Decoder.Elements | datparser.py:82-89 | one element per end position, each stripped |
| Decoder.ElementCount | datparser.py:82-89 | the number of elements is the number of unescaped commas plus the number of `]` |
| Decoder.EmptyListExample | datparser.py:82-89 | `[]` yields `['']` |
| Decoder.EscapedCommaExample | datparser.py:84 | an escaped comma, backslash and all, stays inside its element |
| Decoder.TwoElementsExample | datparser.py:82-89 | `[a, b]` yields `['a', 'b']` |
| Decoder.TwoElementsRaw | datparser.py:82-88 | before stripping, `[a, b]` yields `['a', ' b']` |
| Decoder.DecodeValue | datparser.py:36-43 | a quoted value first, then a list, otherwise `toNum` of the token; `DecodeWithFile`, `DecodeWithoutFile` and `ScalarValue` are proved about it |
| Decoder.HandleValue | datparser.py:36-43 | `_handleValue` computes exactly `DecodeValue` |
| Decoder.ValFromStr | datparser.py:100-110 | the decoded value without a file, or `TypeError` when decoding needs a file |
| Decoder.DecodeWithFile | datparser.py:36-43 | with a file decoding never fails and uses at most the lines there are; a scalar uses none |
| Decoder.DecodeWithoutFile | datparser.py:36-43 | without a file decoding fails exactly for an unclosed quote or a list with no `]`, then with `TypeError`; a success uses no line |
| Decoder.ScalarValue | datparser.py:41-42 | a value neither quoted nor a list is `toNum` of the token and uses no line |
| Assoc.Put | datparser.py:130 | dict assignment: the keys stay in place, or the new key goes last; the key holds the value; every other key keeps its value |
| Assoc.Lookup | datparser.py:137 | absent exactly when the key is not there; otherwise an entry of the dict |
| Assoc.Remove | datparser.py:224-226 | `del`: every other key keeps its value, no key is added, and an absent key changes nothing |
| Assoc.RemoveUnique | datparser.py:224-226 | after `del` the key is gone and the keys stay unique |
| Assoc.RemoveAt | datparser.py:224-226 | `del` of the key at position `i` leaves the entries before it and those after it, in their order |
| Scanner.Translate | datparser.py:123-125 | the universal-newline translation of text mode: no `\r` is left |
| Scanner.TranslateClean | datparser.py:123-125 | text without `\r` is read unchanged |
| Scanner.SplitLines | datparser.py:125 | the lines a file iterator yields: none is empty |
| Scanner.SplitLinesConcat | datparser.py:125 | the lines joined again are the whole text |
| Scanner.SplitLinesOfLines | datparser.py:125 | text made of whole lines splits back into exactly those lines |
| Scanner.FileLines | datparser.py:123-125 | the lines the `for line in file` loop sees: the text translated, then split |
| Scanner.AddAttr | datparser.py:137-147 | the store of one `name = value` into the current section; `AddAttrErrors`, `AddAttrEffect`, `AddAttrWellFormed` and `AddAttrCompounds` are proved about it |
| Scanner.ScanLines | datparser.py:125-147 | the line loop of one file, where a value decoder takes the lines after its own; `ScanWellFormed`, `ScanCompoundsGrow` and `RoundTrip.DocScan` are proved about it |
| Scanner.ReadFile | datparser.py:115-147 | one path: reported when it cannot be opened, otherwise its lines scanned |
| Scanner.ReadFiles | datparser.py:112-147 | every path in argument order, the current section carrying over from file to file; `ReadFailed`, `ReadAppend`, `ReadWellFormed` and `OpenedMissing` are proved about it |
| Scanner.LineStep | datparser.py:125-147 | a step that goes on skips at least its own line and no more lines than there are |
| Scanner.AddAttrErrors | datparser.py:137-147 | a store fails with `KeyError` exactly when the current section is missing, and with `AttributeError` exactly when a remembered name holds a non-list value |
| Scanner.AddAttrEffect | datparser.py:137-147 | a store promotes a first repeat to `[old, new]` and remembers the name, appends to a list of a remembered name, and stores an absent key plainly; nothing else changes |
| Scanner.AddAttrWellFormed | datparser.py:137-147 | a store keeps section names and keys unique and `compounds` free of repeats |
| Scanner.HeaderWellFormed | datparser.py:128-130 | a header keeps the document well formed |
| Scanner.StepWellFormed | datparser.py:125-147 | one line keeps the document well formed |
| Scanner.ScanWellFormed | datparser.py:125-147 | a whole scan keeps the document well formed |
| Scanner.ReadWellFormed | datparser.py:115-147 | a whole read keeps the document well formed |
| Scanner.AddAttrCompounds | datparser.py:140-141 | a store adds to `compounds` only at its end |
| Scanner.StepCompoundsGrow | datparser.py:125-147 | one line adds to `compounds` only at its end |
| Scanner.ScanCompoundsGrow | datparser.py:125-147 | the names `compounds` held stay, in order, at its front |
| Scanner.Missing | datparser.py:116-121 | the paths that cannot be opened, and only those |
| Scanner.Opened | datparser.py:148-152 | the paths that can be opened, and only those |
| Scanner.ReadFailed | datparser.py:112-121 | a read that ends without an exception reports exactly the unopenable paths, in argument order |
| Scanner.ReadAppend | datparser.py:114-115 | one read of two groups of paths is the first group read and then the second, the current section carrying over |
| Scanner.OpenedMissing | datparser.py:115-121 | every path is either opened or reported |
| Serializer.RenderValue | datparser.py:218-221 | a list is written `[` + comma-joined + `]`; writing fails with `TypeError` exactly for a list holding a non-string |
| Serializer.RenderEntries | datparser.py:217-221 | one `key = value` line per entry, in order; `EntriesErrors` is proved about it |
| Serializer.RenderDoc | datparser.py:215-222 | for each section in order its `[name]` line, its entry lines and two empty lines; `RenderErrors` and `RoundTrip.DocText` are proved about it |
| Serializer.SaveFiles | datparser.py:207-222 | for each tracked path in turn: its backup is emptied, then filled with what the path held as read in text mode (`\r\n` and `\r` become `\n`), then the path is overwritten; `SaveSucceeds`, `SaveKeeps`, `SaveWrites`, `SaveTwice` and `SaveMissing` are proved about it |
| Serializer.RenderErrors | datparser.py:215-222 | rendering the document fails exactly when some value cannot be written, and then with `TypeError` |
| Serializer.EntriesErrors | datparser.py:217-221 | rendering a section fails exactly when one of its values cannot be written |
| Serializer.SaveSucceeds | datparser.py:207-222 | a save of a document that renders without an exception, to tracked paths that all exist, raises nothing |
| Serializer.SaveKeeps | datparser.py:207-222 | a save leaves alone every file that is neither a tracked path nor its backup |
| Serializer.SaveWrites | datparser.py:207-222 | take tracked paths that all exist and are `Separate` (none repeats, none is the backup of another), and a document that renders without an exception; after a save each path holds the whole document, and its backup holds what the path held before, read in text mode (`\r\n` and `\r` become `\n`) |
| Serializer.SaveTwice | datparser.py:207-214 | a path tracked twice ends holding the document; its backup holds the document as read back in text mode (`\r\n` and `\r` become `\n`); what the path held before is lost |
| Serializer.SaveMissing | datparser.py:210-212 | a save stops with `FileNotFound` at the first missing path, leaving its backup empty |
| GameObjects.GobAttrs | datparser.py:229-233 | `name` set first, then each attribute of the section in turn; `GobLookup` and `GobAttrsFresh` are proved about it |
| GameObjects.SetAttrError | datparser.py:233 | `setattr` refuses exactly `__dict__`, `__class__` and `__weakref__`: with `AttributeError` exactly for `__weakref__`, with `TypeError` for the other two |
| GameObjects.BuildError | datparser.py:230-233 | building the object raises nothing exactly when `setattr` accepts every key of the section |
| GameObjects.BuildErrorFirst | datparser.py:232-233 | otherwise it raises the exception of the first key `setattr` refuses |
| GameObjects.GameObject.constructor | datparser.py:229-233 | the attributes are `name` then one per key of the section |
| GameObjects.GameObject.GetAttributes | datparser.py:235-236 | the object's attributes, as the constructor set them |
| GameObjects.GameObject.GetAttr | datparser.py:238-239 | missing exactly when the object has no such attribute; otherwise its value |
| GameObjects.GobLookup | datparser.py:229-233 | a key called `name` overrides the section name; every other key holds the section's value; `name` comes first; keys stay unique |
| GameObjects.GobAttrsFresh | datparser.py:229-233 | without a key called `name`, the object is `name` in front of the section |
| Updates.UpdateWithGobSpec | datparser.py:174-183 | `updateWithGob` on the document; `UpdateWithGobErrors`, `UpdateWithGobEffect`, `UpdateKeepsValid` and `GobRoundTrip` are proved about it |
| Updates.CopiedStep | datparser.py:178-183 | one more attribute copied: `name` is skipped, any other is assigned in the named section |
| Updates.GobParts | datparser.py:229-233 | for a section without a `name` key, its object names the section, and its attributes but `name` are exactly the section |
| Updates.GobHides | datparser.py:175-178 | a section's object hides `getAttr` or `getAttributes` exactly when the section has a key of that name |
| Updates.GobRoundTrip | datparser.py:174-183 | for a section without a `name`, `getAttr` or `getAttributes` key, writing back its own game object leaves the document unchanged |
| Updates.UpdateWithGobErrors | datparser.py:174-183 | `TypeError` exactly when an attribute hides `getAttr` or `getAttributes` or the name is a list; `KeyError` exactly when otherwise the name is not a section and there is an attribute besides `name` to copy |
| Updates.UpdateWithGobEffect | datparser.py:174-183 | on success the named section holds each copied attribute, every other key and section is as it was, and the set of sections is unchanged |
| Updates.UpdateKeepsValid | datparser.py:174-183 | `updateWithGob` keeps the document well formed |
| Updates.Basename | datparser.py:97 | `os.path.basename`: the text after the last `/`; `BasenameShape` is proved about it |
| Updates.DatNames | datparser.py:94-98 | one file name per tracked path; `DatNamesAt` and `DatNamesSnoc` are proved about it |
| Updates.BasenameShape | datparser.py:97 | a file name holds no `/`, ends the path, and is the whole path or follows a `/` |
| Updates.DatNamesAt | datparser.py:94-98 | name `i` is the file name of tracked path `i` |
| Updates.DatNamesSnoc | datparser.py:96-97 | one more path adds its file name at the end |
| Updates.UpdateValueSpec | datparser.py:185-186 | `updateValue` on the document; `UpdateValueEffect` and `UpdateValueTwice` are proved about it |
| Updates.Assign | datparser.py:186 | `raws[header][name] = v`, or `KeyError` when the section is missing; `PutKeepsValid` is proved about it |
| Updates.UpdateValueEffect | datparser.py:185-186 | `TypeError` exactly when the value needs a file; `KeyError` exactly when the section is missing; on success the key holds the decoded value and nothing else changes |
| Updates.UpdateValueTwice | datparser.py:202-205 | `updateValue` repeated with the same arguments changes nothing more |
| Updates.RepeatedPut | datparser.py:203-205 | assigning the same value to the same key twice is assigning it once |
| Updates.PutKeepsValid | datparser.py:186 | assigning one key of an existing section keeps the document well formed |
| Updates.AddSectionKeepsValid | datparser.py:196 | a new empty section goes last and keeps the document well formed |
| Updates.RemoveEntries | datparser.py:226 | every entry left after `del` was there before |
| Updates.GobsErrorFrom | datparser.py:164-168 | the sections from `i` on raise nothing exactly when the object of each can be built |
| Parser.DatParser.constructor | datparser.py:5-8 | an empty document, no compounds, no paths |
| Parser.DatParser.Store | datparser.py:137-147 | the store does exactly what `AddAttr` specifies, raising where it does |
| Parser.DatParser.ScanFile | datparser.py:125-147 | the line loop computes exactly `ScanLines` from the state it started in |
| Parser.DatParser.ScanLine | datparser.py:126-147 | one turn of the line loop is one step of `ScanLines` |
| Parser.DatParser.ScanAttr | datparser.py:131-147 | an attribute line is one step of `ScanLines`, skipping the lines its value used |
| Parser.DatParser.ReadAll | datparser.py:115-147 | the file loop computes exactly `ReadFiles` |
| Parser.DatParser.Read | datparser.py:112-153 | the document is what `ReadFiles` gives; without an exception the unopenable paths are returned and the opened ones appended to `datPaths`, in order; with one `datPaths` is unchanged; the document stays well formed |
| Parser.DatParser.GetValue | datparser.py:161-162 | the value exactly when section and key exist, and `KeyError` otherwise |
| Parser.DatParser.GetDatNames | datparser.py:94-98 | the file names of the tracked paths, in order |
| Parser.DatParser.GetGobs | datparser.py:164-168 | raises the exception of the first section whose object cannot be built (`GobsErrorFrom`), and nothing exactly when every object can be; then one new object per section, in document order, holding that section |
| Parser.DatParser.GetGob | datparser.py:170-172 | for an existing section, the exception building its object, or else a new object holding it; nothing and no exception when there is no such section |
| Parser.DatParser.UpdateWithGob | datparser.py:174-183 | the document becomes what `UpdateWithGobSpec` gives, or stays as it was with the exception (`TypeError` first when the object hides `getAttr` or `getAttributes`); `compounds` and paths unchanged; still well formed |
| Parser.DatParser.CopyAttributes | datparser.py:178-183 | the attribute loop copies every attribute but `name`, or raises `KeyError` with nothing copied when the section is missing |
| Parser.DatParser.CopyAttribute | datparser.py:179-183 | one turn of that loop |
| Parser.DatParser.UpdateValue | datparser.py:185-186 | the document becomes what `UpdateValueSpec` gives, or stays with the exception; `compounds` is ignored and unchanged |
| Parser.DatParser.AssignValue | datparser.py:186 | `raws[header][name] = v`, or `KeyError` with nothing changed |
| Parser.DatParser.AddHeader | datparser.py:191-196 | refused, with nothing changed, exactly when the section exists; otherwise an empty section is added last |
| Parser.DatParser.AddName | datparser.py:198-205 | refused, with nothing changed, exactly when the section is missing; otherwise the same effect as one `updateValue` |
| Parser.DatParser.RenderSection | datparser.py:217-221 | the key loop writes exactly `RenderEntries` |
| Parser.DatParser.Render | datparser.py:215-222 | the section loop writes exactly `RenderDoc` |
| Parser.DatParser.Save | datparser.py:207-222 | the file system becomes what `SaveFiles` gives for the tracked paths and the rendered document |
| Parser.DatParser.Delete | datparser.py:224-227 | the section is removed if present, then the document is saved |
| RoundTrip.DocText | datparser.py:215-222 | a document of plain names, keys and values renders without an exception, as its lines: per section its `[name]` line, one `key = value` line per entry and two empty lines |
| RoundTrip.ReadLines | datparser.py:123-125 | text made of whole lines without `\r` is read back as exactly those lines |
| RoundTrip.HeaderLine | datparser.py:126-129 | the written header line of a plain name is classified as a header and gives back the name |
| RoundTrip.EntryLineParts | datparser.py:126-134 | the written line of a plain key and value is not a header, is an attribute line, and splits back into exactly the key and the value's text, which is not quoted and opens a list exactly when the value is a list |
| RoundTrip.PlainDecodes | datparser.py:36-43 | the written text of a plain value, followed by any lines, decodes back to exactly that value and uses none of those lines: as a list closed on its own line when the value is a list, through `toNum` otherwise |
| RoundTrip.PairRendered | datparser.py:219-221 | a list of two one-character strings `a` and `b` is written `[a,b]` |
| RoundTrip.PairSpecRead | datparser.py:66-92 | `[a,b]` decodes to the list of `a` and `b` when neither character is whitespace, `,`, `]`, `=` or `\` |
| RoundTrip.PairPlain | datparser.py:36-43 | such a list, for example `['a', 'b']`, is a plain value, so plain documents include lists |
| RoundTrip.PairDocSurvives | datparser.py:123-147 | a section holding such a list under one plain key is saved and read back as exactly itself |
| RoundTrip.EntriesScan | datparser.py:131-147 | reading the written entry lines of a section appends exactly those entries to the current section |
| RoundTrip.SectionScan | datparser.py:126-147 | reading a written section adds exactly that section, last, and makes it current |
| RoundTrip.DocScan | datparser.py:125-147 | reading the lines of a plain document appends exactly its sections, raises nothing and leaves `compounds` as it was |
| RoundTrip.SaveReadRoundTrip | datparser.py:123-147 | the text `save` writes for a plain document, read as a file into an empty document, gives back exactly that document, with no exception and `compounds` unchanged |
| RoundTrip.SaveThenRead | datparser.py:112-153 | saving a plain document to an existing path and reading that path back gives exactly that document, with no exception and nothing reported missing |

## Left out

- Real file I/O: files are a map from path to text. Encodings, permissions and other `OSError`s are not modelled, and opening a backup for writing always succeeds.
- Scanner.Translate: decoding a file's bytes with the platform's default encoding is not modelled. File contents are already characters, and only the universal-newline translation of `\r\n` and `\r` is applied.
- Serializer.RenderValue: writes a float as the text it was read from, while Python writes the float's `repr`. For example, Python writes `1.50` back as `1.5`. Floats are kept as text, not numbers.
- General.ToNum: `float()` and `int()` are modelled for ASCII input: sign, digits with single underscores, a decimal point, an exponent, `inf`/`infinity`/`nan` in any case, and surrounding whitespace. Non-ASCII digits, which Python also accepts, are not.
- `updateHeader` (datparser.py:188-189) is left out. It always raises `TypeError`, because it subscripts the `pop` method.
- `getRaws` and `getDatPaths` (datparser.py:155-159) only expose the fields, which are public in the model.
- The `print` diagnostics (datparser.py:177, 193, 200) and `main` (datparser.py:242-252) are left out.
- Object identity: values are immutable in the model. Python list objects are shared, and promotion appends to a list that a game object may also hold (datparser.py:145, 233). The effects of that sharing are not captured.
- GameObjects.GameObject.GetAttr: Python's `getattr` also finds class members such as `getAttr` itself. The model sees only the attributes the constructor set.
- Parser.DatParser.Read: `requires Valid()` states what every Python dict guarantees (unique keys) and what the parser itself keeps (`compounds` without repeats). The same holds for the other methods that carry it. `Unique(gob.attrs)` on `UpdateWithGob` is the uniqueness of the object's `__dict__`.
- Parser.DatParser.AddHeader: Python returns `None` on success and `False` on refusal. The model returns `refused` instead.
- The `True` returned by `isIn`, and the truthiness of the other predicates, are plain booleans in the model.
- GameObjects.GameObject.constructor: always builds the object. The exceptions `setattr` raises for `__dict__`, `__class__` and `__weakref__` are computed by `BuildError`, which `GetGobs` and `GetGob` consult before constructing.
- Updates.GobParts: a section with a key called `name` is not covered. Its object's `name` is that key's value, so writing the object back copies into another section, or fails.
- Updates.Basename: splits at `/` only, as POSIX `os.path.basename` does. On Windows Python also splits at `\` and after a drive letter.
- Serializer.SaveFiles: writes `\n` as it is. On Windows, Python's text mode writes `os.linesep` in its place.
- General.ToNum: does not model the 4300-digit limit that Python 3.11 and later put on `int()` of a string. There `int()` raises `ValueError`, `isInt` catches it, and such text stays a string.
- Parser.DatParser.AddName: has no default for `value` (Python's `value=''`); a caller passes `""` explicitly.
- RoundTrip.SaveReadRoundTrip: proved only for plain documents (`PlainDoc`). A plain section name is non-empty, neither starts with `[` nor ends with `]`, and holds no line break. A plain key or value text is non-empty and holds no `=`, no line break and no surrounding space. A key does not start with `[`. A plain value is not written with a leading `"`, and its written text decodes back to it: as a list closed on its own line when it starts with `[`, and through `toNum` otherwise. Lists such as `['a', 'b']`, written `[a,b]`, are plain (`RoundTrip.PairPlain`); the model proves this only for lists of two one-character items, not for every list of such strings. Outside plain documents a save and a read can change the document:
  - Quoted and multi-line strings are written bare.
  - An empty list is written `[]` and reads back as `['']` (`Decoder.EmptyListExample`).
  - A list holding a non-string cannot be written at all.
  - A list item changes or is lost when it holds a `,`, a `]`, an `=` or a line break, has surrounding whitespace, or ends in `\` before the next item's comma.
  - Text that looks like a number reads back as a number.
  - `None` is written as `None`, which reads back as a string.

// The values a DAT document stores, and the Python exceptions the engine can
// raise, as data.

module Values {

  /** A decoded attribute value. `Float` keeps the text it was recognised from;
      `List` may hold any value, since duplicate-key promotion wraps integers,
      floats and whole lists as well as strings; `Null` is Python's `None`,
      which an unterminated quoted value decodes to. */
  datatype Value =
    | Int(i: int)
    | Float(text: string)
    | Str(s: string)
    | List(items: seq<Value>)
    | Null

  /** The Python exceptions the engine lets escape. */
  datatype PyError =
    | KeyError        // a section subscripted that is not in the document
    | AttributeError  // `.append` on a value that is not a list
    | TypeError       // iterating over `None`, or `','.join` over a non-string
    | FileNotFound    // `open(path, 'r')` on a path that does not exist

  datatype Option<T> = None | Some(value: T)

  datatype Result<T> = Ok(value: T) | Err(error: PyError)
}

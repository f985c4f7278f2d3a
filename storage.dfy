/** Values shared by the whole model: an optional value, and what one of the
    server's small JSON files holds when it is read. The file system itself
    is not modelled; a file is the value its next `json.load` would see. */
module Storage {

  datatype Option<+T> = None | Some(value: T)

  /** The state of a best-effort JSON file.
      - `Absent`: `os.path.exists` is false.
      - `Malformed`: the file exists but `json.load` raises.
      - `Foreign(truthy)`: it parses, but to a JSON value of another shape
        than the one expected (a list where a mapping is expected, `null`, a
        number, ...); `truthy` is that value's Python truth value.
      - `Valid(value)`: it parses to the expected shape. */
  datatype Stored<+T> = Absent | Malformed | Foreign(truthy: bool) | Valid(value: T)

  /** How an attempt to rewrite a JSON file with `open(path, 'w')` and
      `json.dump` ends.
      - `Written`: the new content is in the file.
      - `OpenFailed`: `open` raised before it could truncate the file.
      - `WriteFailed`: `open` truncated the file, then `json.dump` or the
        close raised; the file is left empty or cut short, which
        `json.load` rejects. */
  datatype Write = Written | OpenFailed | WriteFailed

  /** The file after an attempt to write `v` into it. */
  function Wrote<T>(f: Stored<T>, w: Write, v: T): Stored<T>
  {
    match w
    case Written => Valid(v)
    case OpenFailed => f
    case WriteFailed => Malformed
  }
}

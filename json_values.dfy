/** Values as the metrics server sees them after `json.load`: JSON documents,
    the dictionaries built from them, and the `None` that `dict.get` returns. */
module JsonValues {

  /** A JSON value. Numbers are kept as integers (see README, "Left out"). */
  datatype Json =
    | JNull
    | JBool(b: bool)
    | JNum(n: int)
    | JStr(s: string)
    | JArray(items: seq<Json>)
    | JObject(fields: map<string, Json>)

  /** A Python dictionary with string keys, such as a loaded configuration
      file or a `{status, data}` response envelope. */
  type Dict = map<string, Json>

  /** The outcome of reading and parsing a configuration file: `None` when
      it failed, the parsed value otherwise. (Python's own `None`, as returned
      by `dict.get`, is the JSON null `JNull`.) */
  datatype Option<T> = None | Some(value: T)
}

/** JSON documents and stored rows. */
module Json {
  import opened FilterTree

  datatype Json =
    | JNull
    | JBool(b: bool)
    | JInt(n: int)
    | JReal(r: real)
    | JStr(s: string)
    | JArr(items: seq<Json>)
    | JObj(fields: map<string, Json>)

  type Object = map<string, Json>

  /** `data.get(name).cloned().unwrap_or(Null)`. */
  function Get(data: Object, name: string): Json {
    if name in data then data[name] else JNull
  }

  /** `value.get(name)`: nothing is found in what is not an object. */
  function Member(v: Json, name: string): Json {
    if v.JObj? then Get(v.fields, name) else JNull
  }

  /** One row of the `records` table, its `data` column parsed. */
  datatype Row = Row(collection: string, id: string, created: string, updated: string, data: Object)

  /** Library calls this model does not open: the float parser and the float and JSON printers. */
  datatype Oracles = Oracles(
    realOf: RealOracle,           // str::parse::<f64>
    realText: Float -> string,    // f64::to_string
    sqlText: Json -> string,      // SQLite's text of a float, array or object
    serdeText: Json -> string)    // serde_json's text of a float, array or object
}

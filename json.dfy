/**
  JSON values as the scripts load and store them (GeoJSON features, property
  dictionaries, API answers).  Numbers are integers here: a floating-point
  member is not a value of this type, so the rounding of float counts and
  of `v85` in the Telraam export is not modelled.
*/
module Json {
  import opened Wrappers
  import opened Strings
  import PyDict

  datatype Json =
    | JNull
    | JBool(b: bool)
    | JInt(i: int)
    | JStr(s: string)
    | JArr(items: seq<Json>)
    | JObj(fields: PyDict.Dict<string, Json>)

  /** A JSON object's fields, such as the `properties` of one GeoJSON feature. */
  type Props = PyDict.Dict<string, Json>

  /**
    One GeoJSON feature: its properties and its geometry (`JNull` when it
    has none); the `type` member is not modelled.
  */
  datatype Feature = Feature(properties: Props, geometry: Json)

  /** Python truthiness: `None`, `False`, `0` and empty strings, lists and dicts are false. */
  predicate Truthy(j: Json) {
    match j
    case JNull => false
    case JBool(b) => b
    case JInt(i) => i != 0
    case JStr(s) => s != []
    case JArr(items) => items != []
    case JObj(fields) => fields != []
  }

  /** `d.get(key)` on a JSON value; `None` unless it is an object holding `key`. */
  function Field(j: Json, key: string): (r: Option<Json>)
    ensures r.Some? ==> j.JObj? && PyDict.HasKey(j.fields, key)
  {
    if j.JObj? then PyDict.Get(j.fields, key) else None
  }

  /** `str(x)`: integers in decimal, strings unchanged, containers in Python's display form. */
  function Str(j: Json): (r: string)
    ensures j.JStr? ==> r == j.s
    ensures j.JInt? ==> r == Decimal(j.i)
  {
    match j
    case JStr(s) => s
    case _ => Repr(j)
  }

  /**
    `repr(x)`: like `str`, except that strings are quoted.  Quoting and
    escaping are simplified: a string is always put in single quotes, as
    it stands, where Python switches to double quotes for a string holding
    `'` and no `"`, and escapes backslashes and control characters.
  */
  function Repr(j: Json): string
    decreases j, 1
  {
    match j
    case JNull => "None"
    case JBool(b) => if b then "True" else "False"
    case JInt(i) => Decimal(i)
    case JStr(s) => "'" + s + "'"
    case JArr(items) => "[" + ReprItems(items) + "]"
    case JObj(fields) => "{" + ReprFields(fields) + "}"
  }

  function ReprItems(items: seq<Json>): string
    decreases items, 0
  {
    if items == [] then ""
    else if |items| == 1 then Repr(items[0])
    else Repr(items[0]) + ", " + ReprItems(items[1..])
  }

  function ReprFields(fields: seq<(string, Json)>): string
    decreases fields, 0
  {
    if fields == [] then ""
    else
      assert fields[0].1 < JObj(fields);
      var head := "'" + fields[0].0 + "': " + Repr(fields[0].1);
      if |fields| == 1 then head else head + ", " + ReprFields(fields[1..])
  }
}

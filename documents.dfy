/**
 * The loosely typed records that MongoDB hands back: a document is a map from
 * field name to a value, as Python sees it after `find` or `aggregate`.
 */
module Documents {
  import opened Wrappers

  /** An embedding vector, as stored after `.tolist()` (floats read as reals). */
  type Embedding = seq<real>

  /** The field values the three programs read or write. */
  datatype Value =
    | Null                      // Python None / BSON null
    | Bool(b: bool)
    | Int(i: int)
    | Float(x: real)
    | Str(s: string)
    | Vector(v: Embedding)      // a list of floats, such as a stored embedding
    | ObjectId(id: nat)         // the store-assigned `_id`

  type Document = map<string, Value>

  /** `d.get(key)`: the value when the key is present, `None` otherwise. */
  function Get(d: Document, key: string): (r: Option<Value>)
    ensures r.Some? <==> key in d
    ensures r.Some? ==> r.value == d[key]
  {
    if key in d then Some(d[key]) else None
  }
}

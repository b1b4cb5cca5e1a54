/** The values the converter handles: the scalars of an event log, the JSON-shaped tree
    of Python lists and dicts that a JXES document is, and the in-memory attribute values
    of a log. */
module Values {
  import opened Results
  import opened Dicts

  /** A float, carried bit for bit: the converter never computes with floats. */
  datatype Float = Float(bits: bv64)

  /** A Python datetime. The converter never looks inside one; it only renders and parses. */
  datatype Timestamp = Timestamp(microseconds: int, utcOffsetMinutes: Option<int>)

  /** `datetime.isoformat` and `datetime.fromisoformat`, library calls that the model
      takes as parameters; `parse` answers None where `fromisoformat` raises ValueError. */
  datatype IsoFormat = IsoFormat(render: Timestamp -> string, parse: string -> Option<Timestamp>)

  /** A Python scalar: None, bool, int, float, str or datetime. */
  datatype Prim =
    | PNone
    | PBool(b: bool)
    | PInt(i: int)
    | PFloat(f: Float)
    | PStr(s: string)
    | PTime(t: Timestamp)

  /** A tree of Python lists and dicts over scalars: what `json.load` yields and what
      `log_to_jxes` returns. A `PTime` leaf is a datetime object left in the tree, which
      `json.dump` would refuse. */
  datatype Json =
    | Leaf(p: Prim)
    | Arr(items: seq<Json>)
    | Obj(fields: Dict<Json>)

  /** An attribute value as a log holds it. A dict-shaped attribute is
      `{"value": v, "children": c}`:
      - `Nested(v, c)`: `c` is a dict of child attributes;
      - `ListC(c)`: `v` is None and `c` is a list of (name, value) pairs;
      - `SetC(c)`: `v` is None and `c` is a set of (name, value) pairs, listed here once
        each in the order the set is iterated.
      `RawList` and `RawObject` are JSON arrays and objects that decoding leaves as plain
      lists and dicts instead of attribute values. */
  datatype Attr =
    | Scalar(p: Prim)
    | Nested(value: Json, children: Dict<Attr>)
    | ListC(items: seq<(string, Attr)>)
    | SetC(members: seq<(string, Prim)>)
    | RawList(elems: seq<Json>)
    | RawObject(entries: Dict<Json>)

  /** The attribute value that a JSON value is when stored as it is. */
  function FromRaw(j: Json): Attr
  {
    match j
    case Leaf(p) => Scalar(p)
    case Arr(items) => RawList(items)
    case Obj(fields) => RawObject(fields)
  }

  /** `j.items()` */
  function Items(j: Json): Result<Dict<Json>>
  {
    if j.Obj? then Ok(j.fields) else Err(NotAMapping)
  }

  /** `j[key]` with a string key */
  function Index(j: Json, key: string): Result<Json>
  {
    match j
    case Obj(fields) =>
      var i := Find(fields, key);
      if i < 0 then Err(KeyMissing(key)) else Ok(fields[i].1)
    case _ => Err(NotSubscriptable)
  }

  /** `for x in j`: a list yields its items, a dict its keys, a string its characters. */
  function Iterate(j: Json): Result<seq<Json>>
  {
    match j
    case Arr(items) => Ok(items)
    case Obj(fields) => Ok(seq(|fields|, i requires 0 <= i < |fields| => Leaf(PStr(fields[i].0))))
    case Leaf(PStr(s)) => Ok(seq(|s|, i requires 0 <= i < |s| => Leaf(PStr([s[i]]))))
    case Leaf(_) => Err(NotIterable)
  }
}

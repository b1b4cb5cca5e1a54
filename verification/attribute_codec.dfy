/** The attribute tree codec: `get_attr_value` and `export_attribute` encode one attribute
    into a one-key JSON mapping; `parse_attr_value` and `import_attributes` decode a JSON
    mapping into attribute values, choosing each value's shape by looking at it. */
module AttributeCodec {
  import opened Results
  import opened Dicts
  import opened Values
  import opened TimestampPattern

  /** The entries of a JSON object. */
  type Fields = Dict<Json>

  // ---------------------------------------------------------------- encoding

  /** `get_attr_value`: a datetime becomes its ISO 8601 text; any other scalar is kept. */
  function GetAttrValue(iso: IsoFormat, p: Prim): (r: Prim)
    ensures !r.PTime?
    ensures !p.PTime? ==> r == p
    ensures p.PTime? ==> r == PStr(iso.render(p.t))
  {
    if p.PTime? then PStr(iso.render(p.t)) else p
  }

  /** What `export_attribute` writes for a scalar: nothing for None. */
  function ScalarValue(iso: IsoFormat, p: Prim): Option<Json>
  {
    if p == PNone then None else Some(Leaf(GetAttrValue(iso, p)))
  }

  /** A mapping with the one entry `name: x`, or the empty mapping. */
  function AsFields(name: string, x: Option<Json>): Fields
  {
    if x.Some? then [(name, x.value)] else []
  }

  /** `export_attribute(name, a)`: the empty mapping for a None value, otherwise the
      mapping from `name` to the encoding of `a`. */
  function ExportAttribute(iso: IsoFormat, name: string, a: Attr): (r: Result<Fields>)
    ensures r.Ok? ==> (r.value == [] <==> a == Scalar(PNone))
    ensures r.Ok? ==> |r.value| <= 1 && forall e :: e in r.value ==> e.0 == name
    ensures a.Scalar? && a.p != PNone ==>
              r == Ok([(name, Leaf(if a.p.PTime? then PStr(iso.render(a.p.t)) else a.p))])
    decreases a, 1
  {
    var x :- ExportValue(iso, a);
    Ok(AsFields(name, x))
  }

  /** The JSON value `export_attribute` writes under the attribute's name, or None when it
      writes nothing. A scalar goes through `get_attr_value`; a list container becomes an
      array of one-key objects; a set container and a nested attribute merge their
      children's mappings into one object; a nested attribute's own value is copied as it
      is. A nested attribute whose value is None takes the container path, which unpacks
      each child name into a (name, value) pair of characters. */
  function ExportValue(iso: IsoFormat, a: Attr): Result<Option<Json>>
    decreases a, 0
  {
    match a
    case Scalar(p) => Ok(ScalarValue(iso, p))
    case RawList(elems) => Ok(Some(Arr(elems)))
    case RawObject(entries) =>
      if !Has(entries, "value") then Err(KeyMissing("value"))
      else if !Has(entries, "children") then Err(KeyMissing("children"))
      else Err(OutsideModel)
    case ListC(items) =>
      var elems :- ExportListFrom(iso, [], items);
      Ok(Some(Arr(elems)))
    case SetC(members) =>
      Ok(Some(Obj(MergeScalarsFrom(iso, [], members))))
    case Nested(value, children) =>
      if value == Leaf(PNone) then
        var m :- MergeNamePairsFrom(iso, [], Keys(children));
        Ok(Some(Obj(m)))
      else
        var m :- ExportMappingFrom(iso, [], children);
        Ok(Some(Obj([("value", value), ("nested-attributes", Obj(m))])))
  }

  /** The children of a list container, each exported on its own, appended to `acc`. */
  function ExportListFrom(iso: IsoFormat, acc: seq<Json>, items: seq<(string, Attr)>): Result<seq<Json>>
    decreases items, 2
  {
    if items == [] then Ok(acc)
    else
      var c := items[0];
      assert c.1 < c;
      var e :- ExportAttribute(iso, c.0, c.1);
      ExportListFrom(iso, acc + [Obj(e)], items[1..])
  }

  /** The exports of `children` merged into `acc` in order: a later child with the same
      name overwrites an earlier one. This is both the dict comprehension of lines 43 and
      47 and the `.update` loops of the log assembler. */
  function ExportMappingFrom(iso: IsoFormat, acc: Fields, children: Dict<Attr>): Result<Fields>
    decreases children, 2
  {
    if children == [] then Ok(acc)
    else
      var c := children[0];
      assert c.1 < c;
      var e :- ExportAttribute(iso, c.0, c.1);
      ExportMappingFrom(iso, Update(acc, e), children[1..])
  }

  /** The exports of a set container's members merged into `acc` in iteration order. */
  function MergeScalarsFrom(iso: IsoFormat, acc: Fields, members: seq<(string, Prim)>): Fields
    decreases members
  {
    if members == [] then acc
    else MergeScalarsFrom(iso, Update(acc, AsFields(members[0].0, ScalarValue(iso, members[0].1))), members[1..])
  }

  /** The container path run over a dict's keys: each key must unpack into two
      characters `k, v`, which export as `{k: v}`. */
  function MergeNamePairsFrom(iso: IsoFormat, acc: Fields, names: seq<string>): Result<Fields>
    decreases names
  {
    if names == [] then Ok(acc)
    else
      var n := names[0];
      if |n| != 2 then Err(NotAPair(n))
      else MergeNamePairsFrom(iso, Update(acc, AsFields([n[0]], ScalarValue(iso, PStr([n[1]])))), names[1..])
  }

  // ---------------------------------------------------------------- decoding

  /** `parse_attr_value` on a scalar: a string that matches the timestamp pattern becomes
      a datetime, or raises when `fromisoformat` refuses it; everything else is kept. */
  function ParsePrim(iso: IsoFormat, p: Prim): (r: Result<Prim>)
    ensures r.Ok? ==> !(r.value.PStr? && IsTimestampText(r.value.s))
    ensures r.Ok? && r.value != p ==> r.value.PTime?
    ensures r.Err? <==> p.PStr? && IsTimestampText(p.s) && iso.parse(p.s).None?
    ensures !(p.PStr? && IsTimestampText(p.s)) ==> r == Ok(p)
    ensures p.PStr? && IsTimestampText(p.s) && iso.parse(p.s).Some? ==> r == Ok(PTime(iso.parse(p.s).value))
  {
    if p.PStr? && IsTimestampText(p.s) then
      match iso.parse(p.s)
      case Some(t) => Ok(PTime(t))
      case None => Err(MalformedTimestamp(p.s))
    else Ok(p)
  }

  /** `parse_attr_value` on a JSON value: only scalars can change. */
  function ParseJson(iso: IsoFormat, j: Json): Result<Json>
  {
    if j.Leaf? then
      var p :- ParsePrim(iso, j.p);
      Ok(Leaf(p))
    else Ok(j)
  }

  /** `parse_attr_value` on an attribute value: only scalars can change. */
  function ParseAttr(iso: IsoFormat, a: Attr): Result<Attr>
  {
    if a.Scalar? then
      var p :- ParsePrim(iso, a.p);
      Ok(Scalar(p))
    else Ok(a)
  }

  /** `import_attributes`: raises unless given a JSON object. */
  function ImportAttrs(iso: IsoFormat, attributes: Json): Result<Dict<Attr>>
    decreases attributes, 0
  {
    match attributes
    case Obj(fields) => ImportFrom(iso, [], fields)
    case _ => Err(NotAMapping)
  }

  /** The loop of `import_attributes`: each entry decoded and stored under its name. */
  function ImportFrom(iso: IsoFormat, acc: Dict<Attr>, fields: Fields): Result<Dict<Attr>>
    decreases fields, 2
  {
    if fields == [] then Ok(acc)
    else
      var f := fields[0];
      assert f.1 < f;
      var a :- ImportValue(iso, f.1);
      ImportFrom(iso, Put(acc, f.0, a), fields[1..])
  }

  /** The value `import_attributes` stores for one JSON value: an array becomes a list
      container, an object with a "value" key a nested attribute, any other object a set
      container, and a scalar its parsed self. */
  function ImportValue(iso: IsoFormat, v: Json): Result<Attr>
    decreases v, 1
  {
    match v
    case Leaf(p) =>
      var q :- ParsePrim(iso, p);
      Ok(Scalar(q))
    case Arr(elems) =>
      var items :- ImportListFrom(iso, [], elems);
      Ok(ListC(items))
    case Obj(entries) =>
      var vi := Find(entries, "value");
      if vi < 0 then
        var sub :- ImportAttrs(iso, v);
        var members :- AddMembersFrom(iso, [], sub);
        Ok(SetC(members))
      else
        var value :- ParseJson(iso, entries[vi].1);
        var ni := Find(entries, "nested-attributes");
        if ni < 0 then Err(KeyMissing("nested-attributes"))
        else
          var e := entries[ni];
          assert e.1 < e;
          var sub :- ImportAttrs(iso, e.1);
          var children :- ReparseFrom(iso, [], sub);
          Ok(Nested(value, children))
  }

  /** `(name, value), = child.items()`: a list-container element must be a one-key object. */
  function OnlyEntry(child: Json): Result<(string, Json)>
  {
    match child
    case Obj(fields) => if |fields| == 1 then Ok(fields[0]) else Err(NotOneEntry)
    case _ => Err(NotAMapping)
  }

  /** One list-container child: the element's one entry, its value parsed one level deep
      and otherwise kept as plain JSON. */
  function ListChild(iso: IsoFormat, child: Json): Result<(string, Attr)>
  {
    var e :- OnlyEntry(child);
    var parsed :- ParseJson(iso, e.1);
    Ok((e.0, FromRaw(parsed)))
  }

  /** The children of a list container, in array order. */
  function ImportListFrom(iso: IsoFormat, acc: seq<(string, Attr)>, elems: seq<Json>): Result<seq<(string, Attr)>>
    decreases elems
  {
    if elems == [] then Ok(acc)
    else
      var c :- ListChild(iso, elems[0]);
      ImportListFrom(iso, acc + [c], elems[1..])
  }

  /** `s.add(x)` on a set listed in iteration order. */
  function SetAdd<T(==)>(s: seq<T>, x: T): seq<T>
  {
    if x in s then s else s + [x]
  }

  /** The members of a set container: each decoded child, parsed again, added as a
      (name, value) pair; a child that decoded to a dict cannot be hashed. */
  function AddMembersFrom(iso: IsoFormat, acc: seq<(string, Prim)>, sub: Dict<Attr>): Result<seq<(string, Prim)>>
    decreases sub
  {
    if sub == [] then Ok(acc)
    else
      var a :- ParseAttr(iso, sub[0].1);
      if !a.Scalar? then Err(Unhashable(sub[0].0))
      else AddMembersFrom(iso, SetAdd(acc, (sub[0].0, a.p)), sub[1..])
  }

  /** Decoded attributes parsed a second time and stored under their names in `acc`, as
      the nested path and the log assembler do. */
  function ReparseFrom(iso: IsoFormat, acc: Dict<Attr>, sub: Dict<Attr>): Result<Dict<Attr>>
    decreases sub
  {
    if sub == [] then Ok(acc)
    else
      var a :- ParseAttr(iso, sub[0].1);
      ReparseFrom(iso, Put(acc, sub[0].0, a), sub[1..])
  }
}

/** `import_attributes` as the loop it is: an output dict filled entry by entry, list
    children appended, set members added and nested children updated one at a time.
    Each method is proved to compute the decoding function of `AttributeCodec`. */
module AttributeImport {
  import opened Results
  import opened Dicts
  import opened Values
  import opened AttributeCodec

  /** `import_attributes(attributes)` */
  method ImportAttributes(iso: IsoFormat, attributes: Json) returns (r: Result<Dict<Attr>>)
    ensures r == ImportAttrs(iso, attributes)
    decreases attributes, 0
  {
    if !attributes.Obj? {
      return Err(NotAMapping);
    }
    var fields := attributes.fields;
    var out: Dict<Attr> := [];
    var i := 0;
    while i < |fields|
      invariant 0 <= i <= |fields|
      invariant ImportFrom(iso, [], fields) == ImportFrom(iso, out, fields[i..])
    {
      var f := fields[i];
      assert f in fields;
      assert f.1 < f;
      assert fields[i..][0] == f && fields[i..][1..] == fields[i + 1..];
      var a := ImportOne(iso, f.1);
      if a.Err? {
        return Err(a.error);
      }
      out := Put(out, f.0, a.value);
      i := i + 1;
    }
    return Ok(out);
  }

  /** The body of the loop of `import_attributes` for one value. */
  method ImportOne(iso: IsoFormat, v: Json) returns (r: Result<Attr>)
    ensures r == ImportValue(iso, v)
    decreases v, 1
  {
    match v
    case Leaf(p) =>
      var q := ParsePrim(iso, p);
      if q.Err? {
        return Err(q.error);
      }
      return Ok(Scalar(q.value));
    case Arr(elems) =>
      var children: seq<(string, Attr)> := [];
      var i := 0;
      while i < |elems|
        invariant 0 <= i <= |elems|
        invariant ImportListFrom(iso, [], elems) == ImportListFrom(iso, children, elems[i..])
      {
        assert elems[i..][0] == elems[i] && elems[i..][1..] == elems[i + 1..];
        var e := OnlyEntry(elems[i]);
        if e.Err? {
          return Err(e.error);
        }
        var parsed := ParseJson(iso, e.value.1);
        if parsed.Err? {
          return Err(parsed.error);
        }
        children := children + [(e.value.0, FromRaw(parsed.value))];
        i := i + 1;
      }
      return Ok(ListC(children));
    case Obj(entries) =>
      var vi := Find(entries, "value");
      if vi < 0 {
        var sub := ImportAttributes(iso, v);
        if sub.Err? {
          return Err(sub.error);
        }
        var members := AddMembers(iso, sub.value);
        if members.Err? {
          return Err(members.error);
        }
        return Ok(SetC(members.value));
      } else {
        var value := ParseJson(iso, entries[vi].1);
        if value.Err? {
          return Err(value.error);
        }
        var ni := Find(entries, "nested-attributes");
        if ni < 0 {
          return Err(KeyMissing("nested-attributes"));
        }
        var e := entries[ni];
        assert e in entries;
        assert e.1 < e;
        var sub := ImportAttributes(iso, e.1);
        if sub.Err? {
          return Err(sub.error);
        }
        var children := Reparse(iso, sub.value);
        if children.Err? {
          return Err(children.error);
        }
        return Ok(Nested(value.value, children.value));
      }
  }

  /** The set-container loop: each decoded child, parsed again, added to a fresh set. */
  method AddMembers(iso: IsoFormat, sub: Dict<Attr>) returns (r: Result<seq<(string, Prim)>>)
    ensures r == AddMembersFrom(iso, [], sub)
  {
    var members: seq<(string, Prim)> := [];
    var i := 0;
    while i < |sub|
      invariant 0 <= i <= |sub|
      invariant AddMembersFrom(iso, [], sub) == AddMembersFrom(iso, members, sub[i..])
    {
      assert sub[i..][0] == sub[i] && sub[i..][1..] == sub[i + 1..];
      var a := ParseAttr(iso, sub[i].1);
      if a.Err? {
        return Err(a.error);
      }
      if !a.value.Scalar? {
        return Err(Unhashable(sub[i].0));
      }
      members := SetAdd(members, (sub[i].0, a.value.p));
      i := i + 1;
    }
    return Ok(members);
  }

  /** The nested-attribute loop: each decoded child, parsed again, stored under its name. */
  method Reparse(iso: IsoFormat, sub: Dict<Attr>) returns (r: Result<Dict<Attr>>)
    ensures r == ReparseFrom(iso, [], sub)
  {
    var children: Dict<Attr> := [];
    var i := 0;
    while i < |sub|
      invariant 0 <= i <= |sub|
      invariant ReparseFrom(iso, [], sub) == ReparseFrom(iso, children, sub[i..])
    {
      assert sub[i..][0] == sub[i] && sub[i..][1..] == sub[i + 1..];
      var a := ParseAttr(iso, sub[i].1);
      if a.Err? {
        return Err(a.error);
      }
      children := Put(children, sub[i].0, a.value);
      i := i + 1;
    }
    return Ok(children);
  }
}

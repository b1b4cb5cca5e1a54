/** Decoding inverts encoding on the attributes that survive the trip: every value written
    (no None anywhere), no string that looks like a timestamp, datetimes that the datetime
    library renders and parses back, names unique within each mapping, list children that
    are scalars, and set containers without a member named "value". */
module CodecRoundTrip {
  import opened Results
  import opened Dicts
  import opened Values
  import opened TimestampPattern
  import opened AttributeCodec
  import opened CodecProperties

  /** What the round trip assumes of `datetime.isoformat` and `datetime.fromisoformat`
      for a datetime it meets: the text matches the timestamp pattern and parses back. */
  predicate RoundTrips(iso: IsoFormat, t: Timestamp)
  {
    IsTimestampText(iso.render(t)) && iso.parse(iso.render(t)) == Some(t)
  }

  /** A scalar that is written and read back as itself. */
  predicate PortableScalar(iso: IsoFormat, p: Prim)
  {
    && p != PNone
    && !(p.PStr? && IsTimestampText(p.s))
    && (p.PTime? ==> RoundTrips(iso, p.t))
  }

  /** An attribute value that is written and read back as itself. */
  predicate Portable(iso: IsoFormat, a: Attr)
  {
    match a
    case Scalar(p) => PortableScalar(iso, p)
    case Nested(value, children) =>
      && value != Leaf(PNone)
      && !(value.Leaf? && value.p.PStr? && IsTimestampText(value.p.s))
      && UniqueKeys(children)
      && forall i :: 0 <= i < |children| ==> Portable(iso, children[i].1)
    case ListC(items) =>
      forall i :: 0 <= i < |items| ==> items[i].1.Scalar? && PortableScalar(iso, items[i].1.p)
    case SetC(members) =>
      && UniqueKeys(members)
      && !Has(members, "value")
      && forall i :: 0 <= i < |members| ==> PortableScalar(iso, members[i].1)
    case RawList(_) => false
    case RawObject(_) => false
  }

  /** A portable scalar is written as text or itself and parsed back. */
  lemma ScalarRoundTrip(iso: IsoFormat, p: Prim)
    requires PortableScalar(iso, p)
    ensures ParsePrim(iso, GetAttrValue(iso, p)) == Ok(p)
    ensures ParsePrim(iso, p) == Ok(p)
  {
  }

  /** Merging children with distinct names, none of them already in `acc`, each of which
      writes the value at the same position of `m`, appends `m` to `acc`. */
  lemma {:induction false} ExportMappingExact(iso: IsoFormat, acc: Fields, cs: Dict<Attr>, m: Fields)
    requires |cs| == |m| && UniqueKeys(cs) && Fresh(acc, cs)
    requires forall i :: 0 <= i < |cs| ==> m[i].0 == cs[i].0 && ExportValue(iso, cs[i].1) == Ok(Some(m[i].1))
    ensures ExportMappingFrom(iso, acc, cs) == Ok(acc + m)
    decreases cs
  {
    if cs != [] {
      var next := acc + [m[0]];
      FreshStep(acc, m[0].1, cs);
      ExportMappingStep(iso, acc, cs, m[0].1);
      forall i | 0 <= i < |cs| - 1
        ensures m[1..][i].0 == cs[1..][i].0 && ExportValue(iso, cs[1..][i].1) == Ok(Some(m[1..][i].1))
      {
        assert cs[1..][i] == cs[i + 1] && m[1..][i] == m[i + 1];
      }
      ExportMappingExact(iso, next, cs[1..], m[1..]);
      AppendFirst(acc, m);
    } else {
      assert acc + m == acc;
    }
  }

  /** One step of the merge: a child with a name new to `acc` that writes `x`. */
  lemma ExportMappingStep(iso: IsoFormat, acc: Fields, cs: Dict<Attr>, x: Json)
    requires cs != [] && !Has(acc, cs[0].0) && ExportValue(iso, cs[0].1) == Ok(Some(x))
    ensures ExportMappingFrom(iso, acc, cs) == ExportMappingFrom(iso, acc + [(cs[0].0, x)], cs[1..])
  {
    UpdateOne(acc, cs[0].0, x);
  }

  /** Decoding fields with distinct names, none of them already in `acc`, each of which
      decodes to the value at the same position of `cs`, appends `cs` to `acc`. */
  lemma {:induction false} ImportFromExact(iso: IsoFormat, acc: Dict<Attr>, fields: Fields, cs: Dict<Attr>)
    requires |fields| == |cs| && UniqueKeys(fields) && Fresh(acc, fields)
    requires forall i :: 0 <= i < |fields| ==> fields[i].0 == cs[i].0 && ImportValue(iso, fields[i].1) == Ok(cs[i].1)
    ensures ImportFrom(iso, acc, fields) == Ok(acc + cs)
    decreases fields
  {
    if fields != [] {
      var next := acc + [cs[0]];
      FreshStep(acc, cs[0].1, fields);
      assert Put(acc, fields[0].0, cs[0].1) == next;
      assert ImportFrom(iso, acc, fields) == ImportFrom(iso, next, fields[1..]);
      assert forall i :: 1 <= i < |fields| ==> fields[i] == fields[1..][i - 1] && cs[i] == cs[1..][i - 1];
      ImportFromExact(iso, next, fields[1..], cs[1..]);
      AppendFirst(acc, cs);
    } else {
      assert acc + cs == acc;
    }
  }

  /** Parsing again values that parse to themselves, under distinct names new to `acc`,
      appends them to `acc`. */
  lemma {:induction false} ReparseExact(iso: IsoFormat, acc: Dict<Attr>, cs: Dict<Attr>)
    requires UniqueKeys(cs) && Fresh(acc, cs)
    requires forall i :: 0 <= i < |cs| ==> ParseAttr(iso, cs[i].1) == Ok(cs[i].1)
    ensures ReparseFrom(iso, acc, cs) == Ok(acc + cs)
    decreases cs
  {
    if cs != [] {
      var next := acc + [cs[0]];
      FreshStep(acc, cs[0].1, cs);
      assert Put(acc, cs[0].0, cs[0].1) == next;
      assert forall i :: 1 <= i < |cs| ==> cs[i] == cs[1..][i - 1];
      assert ReparseFrom(iso, acc, cs) == ReparseFrom(iso, next, cs[1..]);
      ReparseExact(iso, next, cs[1..]);
      AppendFirst(acc, cs);
    } else {
      assert acc + cs == acc;
    }
  }

  /** The members of a set container with distinct names, none of them already in `acc`,
      each of which writes the value at the same position of `m`, export to `m` appended
      to `acc`. */
  lemma {:induction false} MergeScalarsExact(iso: IsoFormat, acc: Fields, members: seq<(string, Prim)>, m: Fields)
    requires |members| == |m| && UniqueKeys(members) && Fresh(acc, members)
    requires forall i :: 0 <= i < |members| ==> m[i].0 == members[i].0 && ScalarValue(iso, members[i].1) == Some(m[i].1)
    ensures MergeScalarsFrom(iso, acc, members) == acc + m
    decreases members
  {
    if members != [] {
      var next := acc + [m[0]];
      FreshStep(acc, m[0].1, members);
      UpdateOne(acc, m[0].0, m[0].1);
      assert MergeScalarsFrom(iso, acc, members) == MergeScalarsFrom(iso, next, members[1..]);
      assert forall i :: 1 <= i < |members| ==> members[i] == members[1..][i - 1] && m[i] == m[1..][i - 1];
      MergeScalarsExact(iso, next, members[1..], m[1..]);
      AppendFirst(acc, m);
    } else {
      assert acc + m == acc;
    }
  }

  /** Adding to a set scalars with distinct names, none among the names already there,
      lists them after what is there, in order. */
  lemma {:induction false} AddMembersExact(iso: IsoFormat, acc: seq<(string, Prim)>, sub: Dict<Attr>, members: seq<(string, Prim)>)
    requires |sub| == |members| && UniqueKeys(members) && Fresh(acc, members)
    requires forall i :: 0 <= i < |sub| ==> sub[i] == (members[i].0, Scalar(members[i].1)) && ParsePrim(iso, members[i].1) == Ok(members[i].1)
    ensures AddMembersFrom(iso, acc, sub) == Ok(acc + members)
    decreases sub
  {
    if sub != [] {
      FreshStep(acc, members[0].1, members);
      assert members[0] !in acc;
      var next := acc + [members[0]];
      assert SetAdd(acc, members[0]) == next;
      assert AddMembersFrom(iso, acc, sub) == AddMembersFrom(iso, next, sub[1..]);
      assert forall i :: 1 <= i < |sub| ==> sub[i] == sub[1..][i - 1] && members[i] == members[1..][i - 1];
      AddMembersExact(iso, next, sub[1..], members[1..]);
      AppendFirst(acc, members);
    } else {
      assert acc + members == acc;
    }
  }

  /** A portable value parses to itself. */
  lemma ParseAttrPortable(iso: IsoFormat, a: Attr)
    requires Portable(iso, a)
    ensures ParseAttr(iso, a) == Ok(a)
  {
  }

  /** What `export_attribute` writes under a name for `a`, when it writes anything. */
  function Written(iso: IsoFormat, a: Attr): Json
  {
    match ExportValue(iso, a)
    case Ok(Some(x)) => x
    case _ => Leaf(PNone)
  }

  /** Children with distinct names, each of which comes back from its own trip, come back
      together from the trip through one merged mapping `m`. */
  lemma MappingRoundTrip(iso: IsoFormat, cs: Dict<Attr>, m: Fields)
    requires |cs| == |m| && UniqueKeys(cs)
    requires forall i :: 0 <= i < |cs| ==>
               && m[i].0 == cs[i].0
               && ExportValue(iso, cs[i].1) == Ok(Some(m[i].1))
               && ImportValue(iso, m[i].1) == Ok(cs[i].1)
    ensures ExportMappingFrom(iso, [], cs) == Ok(m)
    ensures ImportFrom(iso, [], m) == Ok(cs)
  {
    MappingWritten(iso, cs, m);
    MappingRead(iso, cs, m);
  }

  /** The children are merged into `m`, entry by entry. */
  lemma MappingWritten(iso: IsoFormat, cs: Dict<Attr>, m: Fields)
    requires |cs| == |m| && UniqueKeys(cs)
    requires forall i :: 0 <= i < |cs| ==> m[i].0 == cs[i].0 && ExportValue(iso, cs[i].1) == Ok(Some(m[i].1))
    ensures ExportMappingFrom(iso, [], cs) == Ok(m)
  {
    assert Fresh<Json, Attr>([], cs);
    ExportMappingExact(iso, [], cs, m);
    assert [] + m == m;
  }

  /** `m` imports back to the children, entry by entry. */
  lemma MappingRead(iso: IsoFormat, cs: Dict<Attr>, m: Fields)
    requires |cs| == |m| && UniqueKeys(cs)
    requires forall i :: 0 <= i < |cs| ==> m[i].0 == cs[i].0 && ImportValue(iso, m[i].1) == Ok(cs[i].1)
    ensures ImportFrom(iso, [], m) == Ok(cs)
  {
    assert UniqueKeys(m) && Fresh<Attr, Json>([], m);
    ImportFromExact(iso, [], m, cs);
    assert [] + cs == cs;
  }

  /** The entries a mapping of children is exported to, when each child writes something. */
  function WrittenEntries(iso: IsoFormat, cs: Dict<Attr>): (m: Fields)
    ensures |m| == |cs|
    ensures forall i :: 0 <= i < |cs| ==> m[i] == (cs[i].0, Written(iso, cs[i].1))
  {
    seq(|cs|, i requires 0 <= i < |cs| => (cs[i].0, Written(iso, cs[i].1)))
  }

  /** A nested attribute whose children each come back from their own trip comes back. */
  lemma NestedRoundTrip(iso: IsoFormat, value: Json, children: Dict<Attr>)
    requires value != Leaf(PNone) && !(value.Leaf? && value.p.PStr? && IsTimestampText(value.p.s))
    requires UniqueKeys(children)
    requires forall i :: 0 <= i < |children| ==>
               && ExportValue(iso, children[i].1) == Ok(Some(Written(iso, children[i].1)))
               && ImportValue(iso, Written(iso, children[i].1)) == Ok(children[i].1)
               && ParseAttr(iso, children[i].1) == Ok(children[i].1)
    ensures ExportValue(iso, Nested(value, children)) == Ok(Some(Written(iso, Nested(value, children))))
    ensures ImportValue(iso, Written(iso, Nested(value, children))) == Ok(Nested(value, children))
  {
    var m := WrittenEntries(iso, children);
    MappingRoundTrip(iso, children, m);
    assert Fresh<Attr, Attr>([], children);
    ReparseExact(iso, [], children);
    assert [] + children == children;
    NestedLayout(iso, value, children, m, children);
  }

  /** How a nested attribute is laid out and read back, given how its children are. */
  lemma NestedLayout(iso: IsoFormat, value: Json, children: Dict<Attr>, m: Fields, decoded: Dict<Attr>)
    requires value != Leaf(PNone) && !(value.Leaf? && value.p.PStr? && IsTimestampText(value.p.s))
    requires ExportMappingFrom(iso, [], children) == Ok(m)
    requires ImportFrom(iso, [], m) == Ok(decoded) && ReparseFrom(iso, [], decoded) == Ok(children)
    ensures ExportValue(iso, Nested(value, children)) == Ok(Some(Obj([("value", value), ("nested-attributes", Obj(m))])))
    ensures ImportValue(iso, Obj([("value", value), ("nested-attributes", Obj(m))])) == Ok(Nested(value, children))
  {
    var entries := [("value", value), ("nested-attributes", Obj(m))];
    assert Find(entries, "value") == 0;
    assert Find(entries, "nested-attributes") == 1;
    assert ParseJson(iso, value) == Ok(value);
  }

  /** Decoding the encoding of a portable value gives the value back. */
  lemma {:induction false} ValueRoundTrip(iso: IsoFormat, a: Attr)
    requires Portable(iso, a)
    ensures ExportValue(iso, a) == Ok(Some(Written(iso, a)))
    ensures ImportValue(iso, Written(iso, a)) == Ok(a)
    decreases a
  {
    match a
    case Scalar(p) =>
      ScalarRoundTrip(iso, p);
    case ListC(items) =>
      ListRoundTrip(iso, items);
    case SetC(members) =>
      SetRoundTrip(iso, members);
    case Nested(value, children) =>
      forall i | 0 <= i < |children|
        ensures ExportValue(iso, children[i].1) == Ok(Some(Written(iso, children[i].1)))
        ensures ImportValue(iso, Written(iso, children[i].1)) == Ok(children[i].1)
        ensures ParseAttr(iso, children[i].1) == Ok(children[i].1)
      {
        assert children[i] in children;
        assert children[i].1 < children[i];
        ValueRoundTrip(iso, children[i].1);
        ParseAttrPortable(iso, children[i].1);
      }
      NestedRoundTrip(iso, value, children);
  }

  /** A list container of portable scalars comes back with the same pairs in the same
      order, repeated names included. */
  lemma ListRoundTrip(iso: IsoFormat, items: seq<(string, Attr)>)
    requires forall i :: 0 <= i < |items| ==> items[i].1.Scalar? && PortableScalar(iso, items[i].1.p)
    ensures ExportValue(iso, ListC(items)) == Ok(Some(Written(iso, ListC(items))))
    ensures ImportValue(iso, Written(iso, ListC(items))) == Ok(ListC(items))
  {
    ExportListShape(iso, [], items);
    var xs := ExportListFrom(iso, [], items).value;
    forall i | 0 <= i < |items| ensures ListChild(iso, xs[i]) == Ok(items[i]) {
      ScalarRoundTrip(iso, items[i].1.p);
    }
    ImportListShape(iso, [], xs);
    assert ImportListFrom(iso, [], xs).value == items;
  }

  /** The entries a set container's members are exported to, when none is None. */
  function ScalarEntries(iso: IsoFormat, members: seq<(string, Prim)>): (m: Fields)
    ensures |m| == |members|
    ensures forall i :: 0 <= i < |members| ==> m[i] == (members[i].0, Leaf(GetAttrValue(iso, members[i].1)))
  {
    seq(|members|, i requires 0 <= i < |members| => (members[i].0, Leaf(GetAttrValue(iso, members[i].1))))
  }

  /** A set container's members as the scalar attributes they are decoded to. */
  function AsScalars(members: seq<(string, Prim)>): (sub: Dict<Attr>)
    ensures |sub| == |members|
    ensures forall i :: 0 <= i < |members| ==> sub[i] == (members[i].0, Scalar(members[i].1))
  {
    seq(|members|, i requires 0 <= i < |members| => (members[i].0, Scalar(members[i].1)))
  }

  /** The set members, exported and imported, become the scalar attributes they name. */
  lemma SetMembersRoundTrip(iso: IsoFormat, members: seq<(string, Prim)>)
    requires UniqueKeys(members)
    requires forall i :: 0 <= i < |members| ==> PortableScalar(iso, members[i].1)
    ensures MergeScalarsFrom(iso, [], members) == ScalarEntries(iso, members)
    ensures ImportFrom(iso, [], ScalarEntries(iso, members)) == Ok(AsScalars(members))
  {
    var m := ScalarEntries(iso, members);
    var sub := AsScalars(members);
    assert Fresh<Json, Prim>([], members) && Fresh<Attr, Json>([], m);
    MergeScalarsExact(iso, [], members, m);
    assert [] + m == m;
    forall i | 0 <= i < |m| ensures ImportValue(iso, m[i].1) == Ok(sub[i].1) {
      ScalarRoundTrip(iso, members[i].1);
    }
    ImportFromExact(iso, [], m, sub);
    assert [] + sub == sub;
  }

  /** A set container with distinct portable members, none named "value", comes back with
      the same members in the same order. */
  lemma SetRoundTrip(iso: IsoFormat, members: seq<(string, Prim)>)
    requires UniqueKeys(members) && !Has(members, "value")
    requires forall i :: 0 <= i < |members| ==> PortableScalar(iso, members[i].1)
    ensures ExportValue(iso, SetC(members)) == Ok(Some(Written(iso, SetC(members))))
    ensures ImportValue(iso, Written(iso, SetC(members))) == Ok(SetC(members))
  {
    SetMembersRoundTrip(iso, members);
    SetMembersBack(iso, members);
    SetLayout(iso, members, ScalarEntries(iso, members), AsScalars(members));
  }

  /** The decoded members go back into a set as they were, and none is named "value". */
  lemma SetMembersBack(iso: IsoFormat, members: seq<(string, Prim)>)
    requires UniqueKeys(members) && !Has(members, "value")
    requires forall i :: 0 <= i < |members| ==> PortableScalar(iso, members[i].1)
    ensures AddMembersFrom(iso, [], AsScalars(members)) == Ok(members)
    ensures !Has(ScalarEntries(iso, members), "value")
  {
    var m := ScalarEntries(iso, members);
    assert Fresh<Prim, Prim>([], members);
    forall i | 0 <= i < |members| ensures ParsePrim(iso, members[i].1) == Ok(members[i].1) {
      ScalarRoundTrip(iso, members[i].1);
    }
    AddMembersExact(iso, [], AsScalars(members), members);
    assert [] + members == members;
  }

  /** How a set container is laid out and read back, given how its members are. */
  lemma SetLayout(iso: IsoFormat, members: seq<(string, Prim)>, m: Fields, decoded: Dict<Attr>)
    requires !Has(m, "value") && MergeScalarsFrom(iso, [], members) == m
    requires ImportFrom(iso, [], m) == Ok(decoded) && AddMembersFrom(iso, [], decoded) == Ok(members)
    ensures ExportValue(iso, SetC(members)) == Ok(Some(Obj(m)))
    ensures ImportValue(iso, Obj(m)) == Ok(SetC(members))
  {
  }

  /** The attributes of an event or a log, exported into one mapping and imported again,
      come back as they were. */
  lemma AttributesRoundTrip(iso: IsoFormat, attrs: Dict<Attr>)
    requires UniqueKeys(attrs)
    requires forall i :: 0 <= i < |attrs| ==> Portable(iso, attrs[i].1)
    ensures ExportMappingFrom(iso, [], attrs) == Ok(WrittenEntries(iso, attrs))
    ensures ImportAttrs(iso, Obj(WrittenEntries(iso, attrs))) == Ok(attrs)
  {
    forall i | 0 <= i < |attrs|
      ensures ExportValue(iso, attrs[i].1) == Ok(Some(Written(iso, attrs[i].1)))
      ensures ImportValue(iso, Written(iso, attrs[i].1)) == Ok(attrs[i].1)
    {
      ValueRoundTrip(iso, attrs[i].1);
    }
    MappingRoundTrip(iso, attrs, WrittenEntries(iso, attrs));
  }
}

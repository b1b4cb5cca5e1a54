/** What the attribute codec promises: how a list container, a set container and a nested
    attribute are laid out, which key wins a merge, what decoding makes of each shape, and
    that decoding inverts encoding on the attributes that survive the trip. */
module CodecProperties {
  import opened Results
  import opened Dicts
  import opened Values
  import opened TimestampPattern
  import opened AttributeCodec

  // ---------------------------------------------------------------- parse_attr_value

  /** Parsing twice is parsing once. */
  lemma ParseIdempotent(iso: IsoFormat, p: Prim)
    ensures ParsePrim(iso, p).Ok? ==> ParsePrim(iso, ParsePrim(iso, p).value) == ParsePrim(iso, p)
  {
  }

  // ---------------------------------------------------------------- list containers

  /** A list container exports to one one-key object per child, in child order, with
      repeated names kept; it fails exactly when some child fails. */
  lemma {:induction false} ExportListShape(iso: IsoFormat, acc: seq<Json>, items: seq<(string, Attr)>)
    ensures ExportListFrom(iso, acc, items).Ok? <==>
            forall i :: 0 <= i < |items| ==> ExportAttribute(iso, items[i].0, items[i].1).Ok?
    ensures ExportListFrom(iso, acc, items).Ok? ==>
            var xs := ExportListFrom(iso, acc, items).value;
            && |xs| == |acc| + |items|
            && xs[..|acc|] == acc
            && forall i :: 0 <= i < |items| ==> xs[|acc| + i] == Obj(ExportAttribute(iso, items[i].0, items[i].1).value)
    decreases items
  {
    if items != [] {
      var c := items[0];
      var e := ExportAttribute(iso, c.0, c.1);
      assert forall i :: 1 <= i < |items| ==> items[i] == items[1..][i - 1];
      if e.Ok? {
        ExportListShape(iso, acc + [Obj(e.value)], items[1..]);
      }
    }
  }

  /** An array decodes to one child per element, in array order; it fails exactly when
      some element is not a one-key object or its value does not parse. */
  lemma {:induction false} ImportListShape(iso: IsoFormat, acc: seq<(string, Attr)>, elems: seq<Json>)
    ensures ImportListFrom(iso, acc, elems).Ok? <==> forall i :: 0 <= i < |elems| ==> ListChild(iso, elems[i]).Ok?
    ensures ImportListFrom(iso, acc, elems).Ok? ==>
            var r := ImportListFrom(iso, acc, elems).value;
            && |r| == |acc| + |elems|
            && r[..|acc|] == acc
            && forall i :: 0 <= i < |elems| ==> r[|acc| + i] == ListChild(iso, elems[i]).value
    decreases elems
  {
    if elems != [] {
      var c := ListChild(iso, elems[0]);
      assert forall i :: 1 <= i < |elems| ==> elems[i] == elems[1..][i - 1];
      if c.Ok? {
        ImportListShape(iso, acc + [c.value], elems[1..]);
      }
    }
  }

  /** A list element that is an object with other than one key makes decoding fail. */
  lemma ListElementMustHaveOneKey(iso: IsoFormat, elems: seq<Json>, i: int)
    requires 0 <= i < |elems| && elems[i].Obj? && |elems[i].fields| != 1
    ensures ImportValue(iso, Arr(elems)).Err?
  {
    ImportListShape(iso, [], elems);
  }

  /** A None child exports as an empty object, which does not decode. */
  lemma ListNoneChildDoesNotReturn(iso: IsoFormat, name: string)
    ensures ExportValue(iso, ListC([(name, Scalar(PNone))])) == Ok(Some(Arr([Obj([])])))
    ensures ImportValue(iso, Arr([Obj([])])) == Err(NotOneEntry)
  {
    var items := [(name, Scalar(PNone))];
    assert ExportAttribute(iso, name, Scalar(PNone)) == Ok([]);
    ExportListShape(iso, [], items);
    assert ExportListFrom(iso, [], items).value == [Obj([])];
    assert ListChild(iso, Obj([])) == Err(NotOneEntry);
  }

  /** A nested attribute inside a list decodes to the plain JSON object, which no longer
      exports. */
  lemma NestedInListStaysRaw(iso: IsoFormat, name: string, v: int)
    ensures var inner := [("value", Leaf(PInt(v))), ("nested-attributes", Obj([]))];
            && ImportValue(iso, Arr([Obj([(name, Obj(inner))])])) == Ok(ListC([(name, RawObject(inner))]))
            && ExportValue(iso, ListC([(name, RawObject(inner))])).Err?
  {
    var inner := [("value", Leaf(PInt(v))), ("nested-attributes", Obj([]))];
    var elems := [Obj([(name, Obj(inner))])];
    assert ListChild(iso, elems[0]) == Ok((name, RawObject(inner)));
    ImportListShape(iso, [], elems);
    assert ImportListFrom(iso, [], elems).value == [(name, RawObject(inner))];
    assert inner[0].0 == "value";
    assert inner[1].0 != "children" && inner[0].0 != "children";
    assert !Has(inner, "children");
    assert ExportAttribute(iso, name, RawObject(inner)) == Err(KeyMissing("children"));
    ExportListShape(iso, [], [(name, RawObject(inner))]);
  }

  // ---------------------------------------------------------------- merges

  /** What `export_attribute` writes for a value, with failures read as nothing. */
  function ExportedOrNone(iso: IsoFormat, a: Attr): Option<Json>
  {
    match ExportValue(iso, a)
    case Ok(x) => x
    case Err(_) => None
  }

  /** The export of the last child named `k` that writes anything. */
  function LatestExport(iso: IsoFormat, cs: Dict<Attr>, k: string): Option<Json>
    decreases cs
  {
    if cs == [] then None
    else
      match LatestExport(iso, cs[1..], k)
      case Some(x) => Some(x)
      case None => if cs[0].0 == k then ExportedOrNone(iso, cs[0].1) else None
  }

  /** In the merged mapping of a nested attribute or a log, each name holds the export of its
      last child that writes anything, and a name whose children are all None is absent. */
  lemma {:induction false} MergeLastWins(iso: IsoFormat, acc: Fields, cs: Dict<Attr>)
    requires ExportMappingFrom(iso, acc, cs).Ok?
    ensures forall k :: Get(ExportMappingFrom(iso, acc, cs).value, k) ==
                        if LatestExport(iso, cs, k).Some? then LatestExport(iso, cs, k) else Get(acc, k)
    decreases cs
  {
    if cs != [] {
      var c := cs[0];
      var x := ExportValue(iso, c.1);
      var next := Update(acc, AsFields(c.0, x.value));
      if x.value.Some? {
        UpdateOne(acc, c.0, x.value.value);
      }
      assert ExportMappingFrom(iso, acc, cs) == ExportMappingFrom(iso, next, cs[1..]);
      MergeLastWins(iso, next, cs[1..]);
    }
  }

  /** A merged mapping has each name once. */
  lemma {:induction false} MergeKeepsKeysUnique(iso: IsoFormat, acc: Fields, cs: Dict<Attr>)
    requires ExportMappingFrom(iso, acc, cs).Ok? && UniqueKeys(acc)
    ensures UniqueKeys(ExportMappingFrom(iso, acc, cs).value)
    decreases cs
  {
    if cs != [] {
      var x := ExportValue(iso, cs[0].1);
      MergeKeepsKeysUnique(iso, Update(acc, AsFields(cs[0].0, x.value)), cs[1..]);
    }
  }

  /** The export of the last member named `k` that writes anything. */
  function LatestScalar(iso: IsoFormat, members: seq<(string, Prim)>, k: string): Option<Json>
    decreases members
  {
    if members == [] then None
    else
      match LatestScalar(iso, members[1..], k)
      case Some(x) => Some(x)
      case None => if members[0].0 == k then ScalarValue(iso, members[0].1) else None
  }

  /** A set container merges its members the same way: the last member of a name wins. */
  lemma {:induction false} SetMergeLastWins(iso: IsoFormat, acc: Fields, members: seq<(string, Prim)>)
    ensures forall k :: Get(MergeScalarsFrom(iso, acc, members), k) ==
                        if LatestScalar(iso, members, k).Some? then LatestScalar(iso, members, k) else Get(acc, k)
    ensures UniqueKeys(acc) ==> UniqueKeys(MergeScalarsFrom(iso, acc, members))
    decreases members
  {
    if members != [] {
      var x := ScalarValue(iso, members[0].1);
      if x.Some? {
        UpdateOne(acc, members[0].0, x.value);
      }
      SetMergeLastWins(iso, Update(acc, AsFields(members[0].0, x)), members[1..]);
    }
  }

  /** A nested attribute's own value is written as it is: a datetime there stays a
      datetime, where a datetime scalar is written as its ISO text. */
  lemma NestedValueCopiedRaw(iso: IsoFormat, t: Timestamp)
    ensures ExportValue(iso, Nested(Leaf(PTime(t)), [])) ==
            Ok(Some(Obj([("value", Leaf(PTime(t))), ("nested-attributes", Obj([]))])))
    ensures ExportValue(iso, Scalar(PTime(t))) == Ok(Some(Leaf(PStr(iso.render(t)))))
  {
  }

  /** The pair the last two-character name starting with the one character of `k` unpacks
      into: that name's second character, as a string. */
  function LatestPair(names: seq<string>, k: string): (r: Option<Json>)
    ensures r.Some? ==> |k| == 1
    decreases names
  {
    if names == [] then None
    else
      match LatestPair(names[1..], k)
      case Some(x) => Some(x)
      case None => if |names[0]| == 2 && [names[0][0]] == k then Some(Leaf(PStr([names[0][1]]))) else None
  }

  /** Unpacking names of two characters each succeeds, and each first character holds the
      second character of the last name that starts with it. */
  lemma NamePairsLastWins(iso: IsoFormat, acc: Fields, names: seq<string>)
    requires forall n :: n in names ==> |n| == 2
    ensures MergeNamePairsFrom(iso, acc, names).Ok?
    ensures forall k :: Get(MergeNamePairsFrom(iso, acc, names).value, k) ==
                        if LatestPair(names, k).Some? then LatestPair(names, k) else Get(acc, k)
  {
    NamePairsSucceed(iso, acc, names);
    forall k ensures Get(MergeNamePairsFrom(iso, acc, names).value, k) ==
                     if LatestPair(names, k).Some? then LatestPair(names, k) else Get(acc, k)
    {
      NamePairLastWins(iso, acc, names, k);
    }
  }

  /** Unpacking names of two characters each succeeds. */
  lemma {:induction false} NamePairsSucceed(iso: IsoFormat, acc: Fields, names: seq<string>)
    requires forall n :: n in names ==> |n| == 2
    ensures MergeNamePairsFrom(iso, acc, names).Ok?
    decreases names
  {
    if names != [] {
      NamePairStep(iso, acc, names);
      assert forall n :: n in names[1..] ==> n in names;
      NamePairsSucceed(iso, Put(acc, [names[0][0]], Leaf(PStr([names[0][1]]))), names[1..]);
    }
  }

  /** The key `k` after unpacking holds the pair of the last name starting with it, or
      what it held before. */
  lemma {:induction false} NamePairLastWins(iso: IsoFormat, acc: Fields, names: seq<string>, k: string)
    requires forall n :: n in names ==> |n| == 2
    requires MergeNamePairsFrom(iso, acc, names).Ok?
    ensures Get(MergeNamePairsFrom(iso, acc, names).value, k) ==
            if LatestPair(names, k).Some? then LatestPair(names, k) else Get(acc, k)
    decreases names
  {
    if names != [] {
      var n := names[0];
      var x := Leaf(PStr([n[1]]));
      var next := Put(acc, [n[0]], x);
      NamePairStep(iso, acc, names);
      assert forall n :: n in names[1..] ==> n in names;
      NamePairLastWins(iso, next, names[1..], k);
      if LatestPair(names[1..], k).None? {
        if [n[0]] == k {
          assert Get(next, k) == Some(x) && LatestPair(names, k) == Some(x);
        } else {
          assert Get(next, k) == Get(acc, k) && LatestPair(names, k) == None;
        }
      }
    }
  }

  /** Unpacking a two-character name assigns its second character to its first. */
  lemma NamePairStep(iso: IsoFormat, acc: Fields, names: seq<string>)
    requires names != [] && |names[0]| == 2
    ensures MergeNamePairsFrom(iso, acc, names) ==
            MergeNamePairsFrom(iso, Put(acc, [names[0][0]], Leaf(PStr([names[0][1]]))), names[1..])
  {
    var n := names[0];
    assert ScalarValue(iso, PStr([n[1]])) == Some(Leaf(PStr([n[1]])));
    UpdateOne(acc, [n[0]], Leaf(PStr([n[1]])));
  }

  /** Unpacking stops at the first name that is not two characters long, and raises. */
  lemma {:induction false} NamePairsFail(iso: IsoFormat, acc: Fields, names: seq<string>, i: int)
    requires 0 <= i < |names| && |names[i]| != 2
    requires forall n :: n in names[..i] ==> |n| == 2
    ensures MergeNamePairsFrom(iso, acc, names) == Err(NotAPair(names[i]))
    decreases names
  {
    if i > 0 {
      assert names[0] in names[..i];
      NamePairStep(iso, acc, names);
      assert names[1..][i - 1] == names[i];
      assert forall n :: n in names[1..][..i - 1] ==> n in names[..i];
      NamePairsFail(iso, Put(acc, [names[0][0]], Leaf(PStr([names[0][1]]))), names[1..], i - 1);
    }
  }

  /** A nested attribute whose value is None is exported by unpacking each child name
      into a (name, value) pair of characters: a child named "ab" writes `"a": "b"`, and
      the last child name with a given first character wins. */
  lemma NoneValuedNestedUnpacksNames(iso: IsoFormat, cs: Dict<Attr>)
    requires forall i :: 0 <= i < |cs| ==> |cs[i].0| == 2
    ensures ExportValue(iso, Nested(Leaf(PNone), cs)).Ok?
    ensures var x := ExportValue(iso, Nested(Leaf(PNone), cs)).value;
            && x.Some? && x.value.Obj?
            && forall k :: Get(x.value.fields, k) == LatestPair(Keys(cs), k)
  {
    assert forall n :: n in Keys(cs) ==> |n| == 2;
    NamePairsLastWins(iso, [], Keys(cs));
  }

  /** Such an attribute raises on its first child name that is not two characters long. */
  lemma NoneValuedNestedRejectsLongName(iso: IsoFormat, cs: Dict<Attr>, i: int)
    requires 0 <= i < |cs| && |cs[i].0| != 2
    requires forall j :: 0 <= j < i ==> |cs[j].0| == 2
    ensures ExportValue(iso, Nested(Leaf(PNone), cs)) == Err(NotAPair(cs[i].0))
  {
    assert forall n :: n in Keys(cs)[..i] ==> |n| == 2;
    NamePairsFail(iso, [], Keys(cs), i);
  }

  /** What such an attribute writes has only one-character keys, so no "value" key, and
      is read back as a set container, never as a nested attribute. */
  lemma NoneValuedNestedReturnsAsSet(iso: IsoFormat, cs: Dict<Attr>)
    requires forall i :: 0 <= i < |cs| ==> |cs[i].0| == 2
    ensures ExportValue(iso, Nested(Leaf(PNone), cs)).Ok?
    ensures var x := ExportValue(iso, Nested(Leaf(PNone), cs)).value;
            && x.Some? && x.value.Obj? && !Has(x.value.fields, "value")
            && (ImportValue(iso, x.value).Ok? ==> ImportValue(iso, x.value).value.SetC?)
  {
    NoneValuedNestedUnpacksNames(iso, cs);
    var x := ExportValue(iso, Nested(Leaf(PNone), cs)).value.value;
    assert Get(x.fields, "value") == LatestPair(Keys(cs), "value");
    if ImportValue(iso, x).Ok? {
      ImportObjShape(iso, x.fields);
    }
  }

  /** With no children, such an attribute writes the empty object, which is read back as
      an empty set container. */
  lemma NoneValuedEmptyNestedReturnsAsSet(iso: IsoFormat)
    ensures ExportValue(iso, Nested(Leaf(PNone), [])) == Ok(Some(Obj([])))
    ensures ImportValue(iso, Obj([])) == Ok(SetC([]))
  {
    assert Keys<Attr>([]) == [];
  }

  /** The object `{"value": null, "nested-attributes": {}}` imports as a nested attribute
      whose value is None and which has no children. */
  lemma NoneValuedNestedImports(iso: IsoFormat)
    ensures ImportValue(iso, Obj([("value", Leaf(PNone)), ("nested-attributes", Obj([]))])) == Ok(Nested(Leaf(PNone), []))
  {
    var e := [("value", Leaf(PNone)), ("nested-attributes", Obj([]))];
    assert Find(e, "value") == 0;
    assert Find(e, "nested-attributes") == 1;
  }

  // ---------------------------------------------------------------- import_attributes

  /** `import_attributes` stores one entry per input key, holding the decoding of the last
      value given for that key, and nothing else. */
  lemma {:induction false} ImportKeys(iso: IsoFormat, acc: Dict<Attr>, fields: Fields)
    requires ImportFrom(iso, acc, fields).Ok?
    ensures forall k :: Has(fields, k) ==>
              && ImportValue(iso, fields[LastIndex(fields, k)].1).Ok?
              && Get(ImportFrom(iso, acc, fields).value, k) == Some(ImportValue(iso, fields[LastIndex(fields, k)].1).value)
    ensures forall k :: !Has(fields, k) ==> Get(ImportFrom(iso, acc, fields).value, k) == Get(acc, k)
    decreases fields
  {
    if fields != [] {
      var f := fields[0];
      var a := ImportValue(iso, f.1).value;
      assert ImportFrom(iso, acc, fields) == ImportFrom(iso, Put(acc, f.0, a), fields[1..]);
      ImportKeys(iso, Put(acc, f.0, a), fields[1..]);
      forall k ensures Has(fields, k) <==> k == f.0 || Has(fields[1..], k) {
        if Has(fields, k) && k != f.0 {
          var i :| 0 <= i < |fields| && fields[i].0 == k;
          assert fields[1..][i - 1].0 == k;
        }
      }
      forall k | Has(fields[1..], k)
        ensures LastIndex(fields, k) == LastIndex(fields[1..], k) + 1
        ensures fields[LastIndex(fields, k)] == fields[1..][LastIndex(fields[1..], k)]
      {
      }
    }
  }

  /** `import_attributes` succeeds only when every value decodes. */
  lemma {:induction false} ImportDecodesAll(iso: IsoFormat, acc: Dict<Attr>, fields: Fields)
    requires ImportFrom(iso, acc, fields).Ok?
    ensures forall i :: 0 <= i < |fields| ==> ImportValue(iso, fields[i].1).Ok?
    decreases fields
  {
    if fields != [] {
      var a := ImportValue(iso, fields[0].1).value;
      ImportDecodesAll(iso, Put(acc, fields[0].0, a), fields[1..]);
      assert forall i :: 1 <= i < |fields| ==> fields[i] == fields[1..][i - 1];
    }
  }

  /** `import_attributes` succeeds whenever every value decodes. */
  lemma {:induction false} AllDecodeImports(iso: IsoFormat, acc: Dict<Attr>, fields: Fields)
    requires forall i :: 0 <= i < |fields| ==> ImportValue(iso, fields[i].1).Ok?
    ensures ImportFrom(iso, acc, fields).Ok?
    decreases fields
  {
    if fields != [] {
      var a := ImportValue(iso, fields[0].1).value;
      assert forall i :: 0 <= i < |fields[1..]| ==> fields[1..][i] == fields[i + 1];
      AllDecodeImports(iso, Put(acc, fields[0].0, a), fields[1..]);
    }
  }

  /** The dict `import_attributes` fills has each name once. */
  lemma {:induction false} ImportKeepsKeysUnique(iso: IsoFormat, acc: Dict<Attr>, fields: Fields)
    requires ImportFrom(iso, acc, fields).Ok? && UniqueKeys(acc)
    ensures UniqueKeys(ImportFrom(iso, acc, fields).value)
    decreases fields
  {
    if fields != [] {
      var a := ImportValue(iso, fields[0].1).value;
      ImportKeepsKeysUnique(iso, Put(acc, fields[0].0, a), fields[1..]);
    }
  }

  /** The shape `import_attributes` gives a value is chosen by looking at it: an array
      gives a list container, an object with a "value" key a nested attribute, any other
      object a set container, and a scalar its parsed self. */
  lemma ImportShape(iso: IsoFormat, v: Json)
    requires ImportValue(iso, v).Ok?
    ensures var a := ImportValue(iso, v).value;
            && (v.Leaf? <==> a.Scalar?)
            && (v.Arr? <==> a.ListC?)
            && (v.Obj? && Has(v.fields, "value") <==> a.Nested?)
            && (v.Obj? && !Has(v.fields, "value") <==> a.SetC?)
            && (v.Leaf? ==> ParsePrim(iso, v.p) == Ok(a.p))
            && (v.Arr? ==> |a.items| == |v.items|)
    ensures v.Obj? && Has(v.fields, "value") ==>
              var a := ImportValue(iso, v).value;
              && ParseJson(iso, v.fields[Find(v.fields, "value")].1) == Ok(a.value)
              && Has(v.fields, "nested-attributes")
              && var sub := ImportAttrs(iso, v.fields[Find(v.fields, "nested-attributes")].1);
              && sub.Ok?
              && ReparseFrom(iso, [], sub.value) == Ok(a.children)
    ensures v.Obj? && !Has(v.fields, "value") ==>
              && ImportAttrs(iso, v).Ok?
              && AddMembersFrom(iso, [], ImportAttrs(iso, v).value) == Ok(ImportValue(iso, v).value.members)
  {
    match v
    case Leaf(p) => ImportLeafShape(iso, p);
    case Arr(items) => ImportArrShape(iso, items);
    case Obj(fields) => ImportObjShape(iso, fields);
  }

  /** A scalar is stored as its parsed self. */
  lemma ImportLeafShape(iso: IsoFormat, p: Prim)
    requires ImportValue(iso, Leaf(p)).Ok?
    ensures ImportValue(iso, Leaf(p)).value.Scalar?
    ensures ParsePrim(iso, p) == Ok(ImportValue(iso, Leaf(p)).value.p)
  {
  }

  /** An array is stored as a list container with one child per element. */
  lemma ImportArrShape(iso: IsoFormat, items: seq<Json>)
    requires ImportValue(iso, Arr(items)).Ok?
    ensures ImportValue(iso, Arr(items)).value.ListC?
    ensures |ImportValue(iso, Arr(items)).value.items| == |items|
  {
    ImportListShape(iso, [], items);
  }

  /** An object is stored as a nested attribute when it has a "value" key, otherwise as a
      set container. A nested attribute holds the parsed "value" entry and the children
      decoded from "nested-attributes" and parsed once more; a set container holds the
      members added from the object's own decoded entries. */
  lemma ImportObjShape(iso: IsoFormat, fields: Fields)
    requires ImportValue(iso, Obj(fields)).Ok?
    ensures ImportValue(iso, Obj(fields)).value.Nested? <==> Has(fields, "value")
    ensures ImportValue(iso, Obj(fields)).value.SetC? <==> !Has(fields, "value")
    ensures Has(fields, "value") ==>
              var a := ImportValue(iso, Obj(fields)).value;
              && ParseJson(iso, fields[Find(fields, "value")].1) == Ok(a.value)
              && Has(fields, "nested-attributes")
              && var sub := ImportAttrs(iso, fields[Find(fields, "nested-attributes")].1);
              && sub.Ok?
              && ReparseFrom(iso, [], sub.value) == Ok(a.children)
    ensures !Has(fields, "value") ==>
              && ImportFrom(iso, [], fields).Ok?
              && AddMembersFrom(iso, [], ImportFrom(iso, [], fields).value) == Ok(ImportValue(iso, Obj(fields)).value.members)
  {
  }

  /** `import_attributes` raises unless given an object. */
  lemma ImportNeedsObject(iso: IsoFormat, v: Json)
    ensures ImportAttrs(iso, v).Err? <== !v.Obj?
  {
  }

  /** A set container raises when one of its children decodes to anything but a scalar:
      a list, a set or a nested attribute is a dict, which cannot be added to a set. */
  lemma SetChildDictIsUnhashable(iso: IsoFormat, fields: Fields, j: int)
    requires !Has(fields, "value") && 0 <= j < |fields| && LastIndex(fields, fields[j].0) == j
    requires ImportValue(iso, fields[j].1).Ok? && !ImportValue(iso, fields[j].1).value.Scalar?
    ensures ImportValue(iso, Obj(fields)).Err?
  {
    if ImportFrom(iso, [], fields).Ok? {
      var sub := ImportFrom(iso, [], fields).value;
      ImportKeys(iso, [], fields);
      assert Has(fields, fields[j].0);
      var i := Find(sub, fields[j].0);
      assert Get(sub, fields[j].0) == Some(sub[i].1);
      AddMembersFails(iso, [], sub, i);
    }
  }

  /** Adding members stops with an error at a child that is not a scalar, if not before. */
  lemma {:induction false} AddMembersFails(iso: IsoFormat, acc: seq<(string, Prim)>, sub: Dict<Attr>, i: int)
    requires 0 <= i < |sub| && !sub[i].1.Scalar?
    ensures AddMembersFrom(iso, acc, sub).Err?
    decreases sub
  {
    var a := ParseAttr(iso, sub[0].1);
    if a.Ok? && a.value.Scalar? {
      assert i > 0;
      assert sub[1..][i - 1] == sub[i];
      AddMembersFails(iso, SetAdd(acc, (sub[0].0, a.value.p)), sub[1..], i - 1);
    }
  }
}

/** Reading back a written document gives the log that was written, for logs that survive
    the trip: an event log of traces or an event stream of events, every attribute
    portable in the sense of `CodecRoundTrip`, trace attributes scalars (they are read
    back without `import_attributes`), and distinct keys in every dict. */
module LogRoundTrip {
  import opened Results
  import opened Dicts
  import opened Folds
  import opened Values
  import opened AttributeCodec
  import opened CodecRoundTrip
  import opened LogFormat

  // ---------------------------------------------------------------- portable logs

  /** The attributes of an event, a log or a scope that come back from their trip. */
  predicate PortableAttrs(iso: IsoFormat, attrs: Dict<Attr>)
  {
    UniqueKeys(attrs) && forall i :: 0 <= i < |attrs| ==> Portable(iso, attrs[i].1)
  }

  /** A trace that comes back: scalar attributes, and events that come back. */
  predicate PortableTrace(iso: IsoFormat, t: Trace)
  {
    && UniqueKeys(t.attributes)
    && (forall i :: 0 <= i < |t.attributes| ==> t.attributes[i].1.Scalar? && PortableScalar(iso, t.attributes[i].1.p))
    && forall i :: 0 <= i < |t.events| ==> PortableAttrs(iso, t.events[i].attributes)
  }

  /** An element that comes back inside a log of class `cls`. */
  predicate PortableElement(iso: IsoFormat, cls: LogClass, e: Element)
  {
    match e
    case TraceElem(t) => cls == EventLogClass && PortableTrace(iso, t)
    case EventElem(ev) => cls == EventStreamClass && PortableAttrs(iso, ev.attributes)
  }

  /** A log that comes back from its trip. */
  predicate PortableLog(iso: IsoFormat, log: Log)
  {
    && (log.cls == EventLogClass || log.cls == EventStreamClass)
    && PortableAttrs(iso, log.attributes)
    && UniqueKeys(log.extensions)
    && UniqueKeys(log.omniPresent)
    && (forall i :: 0 <= i < |log.omniPresent| ==> PortableAttrs(iso, log.omniPresent[i].1))
    && UniqueKeys(log.classifiers)
    && forall i :: 0 <= i < |log.elements| ==> PortableElement(iso, log.cls, log.elements[i])
  }

  // ---------------------------------------------------------------- written documents

  /** The object an event is written as. */
  function EventDoc(iso: IsoFormat, e: Event): Json
  {
    Obj(WrittenEntries(iso, e.attributes))
  }

  /** The objects events are written as, in order. */
  function EventDocs(iso: IsoFormat, events: seq<Event>): (r: seq<Json>)
    ensures |r| == |events| && forall i :: 0 <= i < |events| ==> r[i] == EventDoc(iso, events[i])
  {
    seq(|events|, i requires 0 <= i < |events| => EventDoc(iso, events[i]))
  }

  /** The object a trace is written as. */
  function TraceDoc(iso: IsoFormat, t: Trace): Json
  {
    Obj([("attrs", Obj(WrittenEntries(iso, t.attributes))), ("events", Arr(EventDocs(iso, t.events)))])
  }

  /** The object an element is written as. */
  function ElementDoc(iso: IsoFormat, e: Element): Json
  {
    match e
    case TraceElem(t) => TraceDoc(iso, t)
    case EventElem(ev) => EventDoc(iso, ev)
  }

  /** The objects elements are written as, in order. */
  function ElementDocs(iso: IsoFormat, elements: seq<Element>): (r: seq<Json>)
    ensures |r| == |elements| && forall i :: 0 <= i < |elements| ==> r[i] == ElementDoc(iso, elements[i])
  {
    seq(|elements|, i requires 0 <= i < |elements| => ElementDoc(iso, elements[i]))
  }

  /** The entries of "extensions", in order. */
  function ExtensionDocs(exts: Dict<Extension>): (r: seq<Json>)
    ensures |r| == |exts| && forall i :: 0 <= i < |exts| ==> r[i] == ExtensionObject(exts[i].0, exts[i].1)
  {
    seq(|exts|, i requires 0 <= i < |exts| => ExtensionObject(exts[i].0, exts[i].1))
  }

  /** The entries of "global-attrs", in order. */
  function GlobalDocs(iso: IsoFormat, omni: Dict<Dict<Attr>>): (r: Fields)
    ensures |r| == |omni| && forall i :: 0 <= i < |omni| ==> r[i] == (omni[i].0, Obj(WrittenEntries(iso, omni[i].1)))
  {
    seq(|omni|, i requires 0 <= i < |omni| => (omni[i].0, Obj(WrittenEntries(iso, omni[i].1))))
  }

  /** The entries of "classifiers", in order. */
  function ClassifierDocs(classifiers: Dict<seq<string>>): (r: Fields)
    ensures |r| == |classifiers| && forall i :: 0 <= i < |classifiers| ==> r[i] == (classifiers[i].0, Arr(StringLeaves(classifiers[i].1)))
  {
    seq(|classifiers|, i requires 0 <= i < |classifiers| => (classifiers[i].0, Arr(StringLeaves(classifiers[i].1))))
  }

  /** The key of the last entry of a document. */
  function ElementsKey(cls: LogClass): string
  {
    if cls == EventLogClass then "traces" else "events"
  }

  /** The entries of the document a log is written as. */
  function LogDoc(iso: IsoFormat, log: Log): Fields
  {
    Head(WrittenEntries(iso, log.attributes), ExtensionDocs(log.extensions), GlobalDocs(iso, log.omniPresent), ClassifierDocs(log.classifiers))
      + [(ElementsKey(log.cls), Arr(ElementDocs(iso, log.elements)))]
  }

  // ---------------------------------------------------------------- attributes and events

  /** The entry of an object under a key no earlier entry has. */
  lemma IndexAt(fields: Fields, i: int)
    requires 0 <= i < |fields| && forall j :: 0 <= j < i ==> fields[j].0 != fields[i].0
    ensures Index(Obj(fields), fields[i].0) == Ok(fields[i].1)
    ensures Get(fields, fields[i].0) == Some(fields[i].1)
  {
    var j := Find(fields, fields[i].0);
    assert j == i;
  }

  /** Portable attributes are written as their written entries and read back, with or
      without the second parse. */
  lemma AttrsBack(iso: IsoFormat, attrs: Dict<Attr>)
    requires PortableAttrs(iso, attrs)
    ensures ExportMappingFrom(iso, [], attrs) == Ok(WrittenEntries(iso, attrs))
    ensures ImportAttrs(iso, Obj(WrittenEntries(iso, attrs))) == Ok(attrs)
    ensures DecodeAttributes(iso, Obj(WrittenEntries(iso, attrs))) == Ok(attrs)
  {
    AttributesRoundTrip(iso, attrs);
    ReparseBack(iso, attrs);
  }

  /** Parsing portable attributes once more changes nothing. */
  lemma ReparseBack(iso: IsoFormat, attrs: Dict<Attr>)
    requires PortableAttrs(iso, attrs)
    ensures ReparseFrom(iso, [], attrs) == Ok(attrs)
  {
    forall i | 0 <= i < |attrs| ensures ParseAttr(iso, attrs[i].1) == Ok(attrs[i].1) {
      ParseAttrPortable(iso, attrs[i].1);
    }
    assert Fresh<Attr, Attr>([], attrs);
    ReparseExact(iso, [], attrs);
    assert [] + attrs == attrs;
  }

  /** A portable event is written as its object and read back. */
  lemma EventBack(iso: IsoFormat, e: Event)
    requires PortableAttrs(iso, e.attributes)
    ensures EncodeEvent(iso, e) == Ok(EventDoc(iso, e))
    ensures DecodeEvent(iso, EventDoc(iso, e)) == Ok(e)
  {
    AttrsBack(iso, e.attributes);
  }

  /** Portable events are written as their objects, in order, and read back. */
  lemma EventsBack(iso: IsoFormat, events: seq<Event>)
    requires forall i :: 0 <= i < |events| ==> PortableAttrs(iso, events[i].attributes)
    ensures EncodeEventsFrom(iso, [], events) == Ok(EventDocs(iso, events))
    ensures DecodeEventsFrom(iso, [], EventDocs(iso, events)) == Ok(events)
  {
    var docs := EventDocs(iso, events);
    forall i | 0 <= i < |events|
      ensures EncodeEvent(iso, events[i]) == Ok(docs[i]) && DecodeEvent(iso, docs[i]) == Ok(events[i])
    {
      EventBack(iso, events[i]);
    }
    MapAllExact(e => EncodeEvent(iso, e), [], events, docs);
    MapAllExact(j => DecodeEvent(iso, j), [], docs, events);
    assert [] + docs == docs && [] + events == events;
  }

  /** Scalar trace attributes are written as their entries and read back by the parse
      alone. */
  lemma TraceAttrsBack(iso: IsoFormat, attrs: Dict<Attr>)
    requires UniqueKeys(attrs)
    requires forall i :: 0 <= i < |attrs| ==> attrs[i].1.Scalar? && PortableScalar(iso, attrs[i].1.p)
    ensures ExportMappingFrom(iso, [], attrs) == Ok(WrittenEntries(iso, attrs))
    ensures TraceAttrsFrom(iso, [], WrittenEntries(iso, attrs)) == Ok(attrs)
  {
    var m := WrittenEntries(iso, attrs);
    AttributesRoundTrip(iso, attrs);
    forall i | 0 <= i < |attrs| ensures TraceAttrEntry(iso, m[i]) == Ok(attrs[i]) {
      var p := attrs[i].1.p;
      ScalarRoundTrip(iso, p);
      assert m[i].1 == Leaf(GetAttrValue(iso, p));
    }
    assert Fresh<Attr, Attr>([], attrs);
    PutAllExact(f => TraceAttrEntry(iso, f), [], m, attrs);
    assert [] + attrs == attrs;
  }

  /** A portable trace is written as its object and read back. */
  lemma TraceBack(iso: IsoFormat, t: Trace)
    requires PortableTrace(iso, t)
    ensures EncodeTrace(iso, t) == Ok(TraceDoc(iso, t))
    ensures DecodeTrace(iso, TraceDoc(iso, t)) == Ok(t)
  {
    TraceAttrsBack(iso, t.attributes);
    EventsBack(iso, t.events);
    var attrs := WrittenEntries(iso, t.attributes);
    var events := EventDocs(iso, t.events);
    EncodeTraceOf(iso, t, attrs, events);
    TraceRead(iso, attrs, events, t);
  }

  /** A trace object is read back from its two entries. */
  lemma TraceRead(iso: IsoFormat, attrs: Fields, events: seq<Json>, t: Trace)
    requires TraceAttrsFrom(iso, [], attrs) == Ok(t.attributes)
    requires DecodeEventsFrom(iso, [], events) == Ok(t.events)
    ensures DecodeTrace(iso, Obj([("attrs", Obj(attrs)), ("events", Arr(events))])) == Ok(t)
  {
    var doc := [("attrs", Obj(attrs)), ("events", Arr(events))];
    IndexAt(doc, 0);
    IndexAt(doc, 1);
    DecodeTraceOf(iso, Obj(doc), attrs, events, t);
  }

  /** `extract_trace` writes what its two loops give. */
  lemma EncodeTraceOf(iso: IsoFormat, t: Trace, attrs: Fields, events: seq<Json>)
    requires ExportMappingFrom(iso, [], t.attributes) == Ok(attrs)
    requires EncodeEventsFrom(iso, [], t.events) == Ok(events)
    ensures EncodeTrace(iso, t) == Ok(Obj([("attrs", Obj(attrs)), ("events", Arr(events))]))
  {
  }

  /** A trace object is read as what its two sections give. */
  lemma DecodeTraceOf(iso: IsoFormat, doc: Json, attrs: Fields, events: seq<Json>, t: Trace)
    requires Index(doc, "attrs") == Ok(Obj(attrs)) && Index(doc, "events") == Ok(Arr(events))
    requires TraceAttrsFrom(iso, [], attrs) == Ok(t.attributes)
    requires DecodeEventsFrom(iso, [], events) == Ok(t.events)
    ensures DecodeTrace(iso, doc) == Ok(t)
  {
  }

  /** The elements of a portable log are written as their objects, in order, and read
      back: as traces from an event log, as events from an event stream. */
  lemma TracesBack(iso: IsoFormat, elements: seq<Element>)
    requires forall i :: 0 <= i < |elements| ==> PortableElement(iso, EventLogClass, elements[i])
    ensures TracesFrom(iso, [], elements) == Ok(ElementDocs(iso, elements))
    ensures DecodeTracesFrom(iso, [], ElementDocs(iso, elements)) == Ok(elements)
  {
    var docs := ElementDocs(iso, elements);
    forall i | 0 <= i < |elements|
      ensures TraceOf(iso, elements[i]) == Ok(docs[i]) && DecodeTraceElem(iso, docs[i]) == Ok(elements[i])
    {
      TraceBack(iso, elements[i].trace);
    }
    MapAllExact(e => TraceOf(iso, e), [], elements, docs);
    MapAllExact(j => DecodeTraceElem(iso, j), [], docs, elements);
    assert [] + docs == docs && [] + elements == elements;
  }

  /** The events of a portable event stream, as its elements. */
  function StreamEvents(elements: seq<Element>): (r: seq<Event>)
    requires forall i :: 0 <= i < |elements| ==> elements[i].EventElem?
    ensures |r| == |elements| && forall i :: 0 <= i < |elements| ==> r[i] == elements[i].event
  {
    seq(|elements|, i requires 0 <= i < |elements| && elements[i].EventElem? => elements[i].event)
  }

  /** The elements of a portable event stream are written as their objects, in order,
      and read back as the same events. */
  lemma StreamBack(iso: IsoFormat, elements: seq<Element>)
    requires forall i :: 0 <= i < |elements| ==> PortableElement(iso, EventStreamClass, elements[i])
    ensures StreamEventsFrom(iso, [], elements) == Ok(ElementDocs(iso, elements))
    ensures (forall i :: 0 <= i < |elements| ==> elements[i].EventElem?) && DecodeEventsFrom(iso, [], ElementDocs(iso, elements)) == Ok(StreamEvents(elements))
    ensures (forall i :: 0 <= i < |elements| ==> elements[i].EventElem?) && EventElems(StreamEvents(elements)) == elements
  {
    forall i | 0 <= i < |elements| ensures elements[i].EventElem? {
      assert PortableElement(iso, EventStreamClass, elements[i]);
    }
    var docs := ElementDocs(iso, elements);
    var events := StreamEvents(elements);
    assert docs == EventDocs(iso, events);
    EventsBack(iso, events);
    forall i | 0 <= i < |elements| ensures StreamEventOf(iso, elements[i]) == Ok(docs[i]) {
      EventBack(iso, events[i]);
    }
    MapAllExact(e => StreamEventOf(iso, e), [], elements, docs);
    assert [] + docs == docs;
  }

  // ---------------------------------------------------------------- log sections

  /** Extensions with distinct names are written one object each and read back. */
  lemma ExtensionsBack(exts: Dict<Extension>)
    requires UniqueKeys(exts)
    ensures ExtensionsFrom([], exts) == ExtensionDocs(exts)
    ensures DecodeExtensionsFrom([], ExtensionDocs(exts)) == Ok(exts)
  {
    ExtensionsAppend([], exts);
    assert [] + ExtensionDocs(exts) == ExtensionDocs(exts);
    var docs := ExtensionDocs(exts);
    forall i | 0 <= i < |exts| ensures ExtensionEntry(docs[i]) == Ok(exts[i]) {
      ExtensionBack(exts[i].0, exts[i].1);
    }
    assert Fresh<Extension, Extension>([], exts);
    PutAllExact(ExtensionEntry, [], docs, exts);
    assert [] + exts == exts;
  }

  /** The object of one extension is read back as its name and extension. */
  lemma ExtensionBack(name: string, ext: Extension)
    ensures ExtensionEntry(ExtensionObject(name, ext)) == Ok((name, ext))
  {
    var fields := ExtensionObject(name, ext).fields;
    IndexAt(fields, 0);
    IndexAt(fields, 1);
    IndexAt(fields, 2);
  }

  /** `ExtensionsFrom` appends one object per extension to `acc`. */
  lemma {:induction false} ExtensionsAppend(acc: seq<Json>, exts: Dict<Extension>)
    ensures ExtensionsFrom(acc, exts) == acc + ExtensionDocs(exts)
    decreases exts
  {
    if exts != [] {
      ExtensionsAppend(acc + [ExtensionObject(exts[0].0, exts[0].1)], exts[1..]);
      assert ExtensionDocs(exts) == [ExtensionObject(exts[0].0, exts[0].1)] + ExtensionDocs(exts[1..]);
    } else {
      assert acc + ExtensionDocs(exts) == acc;
    }
  }

  /** Scopes with distinct names are written one object each, under the scope. */
  lemma GlobalsWritten(iso: IsoFormat, omni: Dict<Dict<Attr>>)
    requires UniqueKeys(omni) && forall i :: 0 <= i < |omni| ==> PortableAttrs(iso, omni[i].1)
    ensures GlobalAttrsFrom(iso, [], omni) == Ok(GlobalDocs(iso, omni))
  {
    var docs := GlobalDocs(iso, omni);
    GlobalDocsKeys(iso, omni);
    forall i | 0 <= i < |omni| ensures GlobalEntry(iso, omni[i]) == Ok(docs[i]) {
      GlobalEntryWritten(iso, omni[i]);
    }
    assert Fresh<Json, Json>([], docs);
    PutAllExact(s => GlobalEntry(iso, s), [], omni, docs);
    assert [] + docs == docs;
  }

  /** One portable scope is written as the object of its written entries. */
  lemma GlobalEntryWritten(iso: IsoFormat, scope: (string, Dict<Attr>))
    requires PortableAttrs(iso, scope.1)
    ensures GlobalEntry(iso, scope) == Ok((scope.0, Obj(WrittenEntries(iso, scope.1))))
  {
    AttrsBack(iso, scope.1);
  }

  /** The written scopes are read back by looking each one up in the written object. */
  lemma GlobalsRead(iso: IsoFormat, omni: Dict<Dict<Attr>>)
    requires UniqueKeys(omni) && forall i :: 0 <= i < |omni| ==> PortableAttrs(iso, omni[i].1)
    ensures Iterate(Obj(GlobalDocs(iso, omni))).Ok?
    ensures DecodeGlobalsFrom(iso, [], Obj(GlobalDocs(iso, omni)), Iterate(Obj(GlobalDocs(iso, omni))).value) == Ok(omni)
  {
    var docs := GlobalDocs(iso, omni);
    var ga := Obj(docs);
    var scopes := Iterate(ga).value;
    GlobalDocsKeys(iso, omni);
    forall i | 0 <= i < |omni| ensures ScopeEntry(iso, ga, scopes[i]) == Ok(omni[i]) {
      AttrsBack(iso, omni[i].1);
      IndexAt(docs, i);
      ScopeEntryOf(iso, ga, omni[i].0, docs[i].1, omni[i].1);
    }
    assert Fresh<Dict<Attr>, Dict<Attr>>([], omni);
    PutAllExact(s => ScopeEntry(iso, ga, s), [], scopes, omni);
    assert [] + omni == omni;
  }

  /** The written scopes are the scopes, in order. */
  lemma GlobalDocsKeys(iso: IsoFormat, omni: Dict<Dict<Attr>>)
    requires UniqueKeys(omni)
    ensures UniqueKeys(GlobalDocs(iso, omni))
    ensures forall i :: 0 <= i < |omni| ==> GlobalDocs(iso, omni)[i].0 == omni[i].0
  {
  }

  /** A scope is read as what its lookup gives. */
  lemma ScopeEntryOf(iso: IsoFormat, ga: Json, scope: string, v: Json, attrs: Dict<Attr>)
    requires Index(ga, scope) == Ok(v) && DecodeAttributes(iso, v) == Ok(attrs)
    ensures ScopeEntry(iso, ga, Leaf(PStr(scope))) == Ok((scope, attrs))
  {
  }

  /** Classifiers with distinct names are written one list each, under the name, after
      entries with other names. */
  lemma {:induction false} ClassifiersAppend(acc: Fields, classifiers: Dict<seq<string>>)
    requires UniqueKeys(classifiers) && Fresh(acc, classifiers)
    ensures ClassifiersFrom(acc, classifiers) == acc + ClassifierDocs(classifiers)
    decreases classifiers
  {
    if classifiers != [] {
      var entry := ClassifierStep(acc, classifiers);
      ClassifiersAppend(acc + [entry], classifiers[1..]);
    } else {
      assert acc + ClassifierDocs(classifiers) == acc;
    }
  }

  /** The first classifier, with a name new to `acc`, is appended to it. */
  lemma ClassifierStep(acc: Fields, classifiers: Dict<seq<string>>) returns (entry: (string, Json))
    requires classifiers != [] && UniqueKeys(classifiers) && Fresh(acc, classifiers)
    ensures entry == (classifiers[0].0, Arr(StringLeaves(classifiers[0].1)))
    ensures ClassifiersFrom(acc, classifiers) == ClassifiersFrom(acc + [entry], classifiers[1..])
    ensures UniqueKeys(classifiers[1..]) && Fresh(acc + [entry], classifiers[1..])
    ensures acc + ClassifierDocs(classifiers) == (acc + [entry]) + ClassifierDocs(classifiers[1..])
  {
    entry := (classifiers[0].0, Arr(StringLeaves(classifiers[0].1)));
    FreshStep(acc, entry.1, classifiers);
    ClassifierDocsCons(classifiers);
  }

  /** The entries of "classifiers" are those of the first classifier and then the rest. */
  lemma ClassifierDocsCons(classifiers: Dict<seq<string>>)
    requires classifiers != []
    ensures ClassifierDocs(classifiers) == [(classifiers[0].0, Arr(StringLeaves(classifiers[0].1)))] + ClassifierDocs(classifiers[1..])
  {
  }

  /** A list of strings is copied as those strings. */
  lemma NamesBack(names: seq<string>)
    ensures ClassifierNames(Arr(StringLeaves(names))) == Ok(names)
  {
    var items := StringLeaves(names);
    var copied := seq(|items|, i requires 0 <= i < |items| && items[i].Leaf? && items[i].p.PStr? => items[i].p.s);
    assert copied == names;
  }

  /** Classifiers with distinct names are written one list each and read back. */
  lemma ClassifiersBack(classifiers: Dict<seq<string>>)
    requires UniqueKeys(classifiers)
    ensures ClassifiersFrom([], classifiers) == ClassifierDocs(classifiers)
    ensures DecodeClassifiersFrom([], ClassifierDocs(classifiers)) == Ok(classifiers)
  {
    var docs := ClassifierDocs(classifiers);
    assert Fresh<Json, seq<string>>([], classifiers) && Fresh<seq<string>, seq<string>>([], classifiers);
    ClassifiersAppend([], classifiers);
    forall i | 0 <= i < |classifiers| ensures ClassifierEntry(docs[i]) == Ok(classifiers[i]) {
      NamesBack(classifiers[i].1);
    }
    PutAllExact(ClassifierEntry, [], docs, classifiers);
    assert [] + docs == docs && [] + classifiers == classifiers;
  }

  // ---------------------------------------------------------------- whole documents

  /** Where each section of a written document is, and that a document has "traces" or
      "events" exactly when it was written with it. */
  lemma DocSections(attrs: Fields, exts: seq<Json>, globals: Fields, classifiers: Fields, key: string, elements: seq<Json>)
    requires key == "traces" || key == "events"
    ensures var doc := Head(attrs, exts, globals, classifiers) + [(key, Arr(elements))];
      && Get(doc, "log-attrs") == Some(Obj(attrs))
      && Get(doc, "extensions") == Some(Arr(exts))
      && Get(doc, "global-attrs") == Some(Obj(globals))
      && Get(doc, "classifiers") == Some(Obj(classifiers))
      && Get(doc, key) == Some(Arr(elements))
      && (Has(doc, "traces") <==> key == "traces")
      && (Has(doc, "events") <==> key == "events")
  {
    var doc := Head(attrs, exts, globals, classifiers) + [(key, Arr(elements))];
    HeadSections(doc, attrs, exts, globals, classifiers);
    LastSection(doc, key, Arr(elements));
  }

  /** The head entries of a document are found where they are written. */
  lemma HeadSections(doc: Fields, attrs: Fields, exts: seq<Json>, globals: Fields, classifiers: Fields)
    requires |doc| >= 5 && doc[..5] == Head(attrs, exts, globals, classifiers)
    ensures Get(doc, "log-attrs") == Some(Obj(attrs))
    ensures Get(doc, "extensions") == Some(Arr(exts))
    ensures Get(doc, "global-attrs") == Some(Obj(globals))
    ensures Get(doc, "classifiers") == Some(Obj(classifiers))
  {
    assert doc[1] == doc[..5][1] && doc[2] == doc[..5][2] && doc[3] == doc[..5][3] && doc[4] == doc[..5][4];
    assert doc[0].0 == "log-properties";
    IndexAt(doc, 1);
    IndexAt(doc, 2);
    IndexAt(doc, 3);
    IndexAt(doc, 4);
  }

  /** The last entry of a written document is found under its key, and the other of
      "traces" and "events" is not there. */
  lemma LastSection(doc: Fields, key: string, x: Json)
    requires |doc| == 6 && (key == "traces" || key == "events") && doc[5] == (key, x)
    requires forall i :: 0 <= i < 5 ==> doc[i].0 == HeadKeys[i]
    ensures Get(doc, key) == Some(x)
    ensures Has(doc, "traces") <==> key == "traces"
    ensures Has(doc, "events") <==> key == "events"
  {
    assert "traces"[0] != "events"[0];
    assert forall i :: 0 <= i < 5 ==> |doc[i].0| != 6;
    IndexAt(doc, 5);
  }

  /** A log is written as the document its sections give. */
  lemma EncodeLogOf(iso: IsoFormat, log: Log, attrs: Fields, globals: Fields, elements: seq<Json>)
    requires log.cls == EventLogClass || log.cls == EventStreamClass
    requires ExportMappingFrom(iso, [], log.attributes) == Ok(attrs)
    requires GlobalAttrsFrom(iso, [], log.omniPresent) == Ok(globals)
    requires log.cls == EventLogClass ==> TracesFrom(iso, [], log.elements) == Ok(elements)
    requires log.cls == EventStreamClass ==> StreamEventsFrom(iso, [], log.elements) == Ok(elements)
    ensures EncodeLog(iso, log) == Ok(Obj(
              Head(attrs, ExtensionsFrom([], log.extensions), globals, ClassifiersFrom([], log.classifiers))
              + [(ElementsKey(log.cls), Arr(elements))]))
  {
  }

  /** A document is read as the log its sections give. */
  lemma DecodeFieldsOf(iso: IsoFormat, doc: Fields, log: Log, traces: seq<Element>, events: seq<Event>)
    requires log.cls == (if Has(doc, "traces") then EventLogClass else EventStreamClass)
    requires DecodeLogAttrs(iso, doc) == Ok(log.attributes)
    requires DecodeExtensions(doc) == Ok(log.extensions)
    requires DecodeGlobals(iso, doc) == Ok(log.omniPresent)
    requires DecodeClassifiers(doc) == Ok(log.classifiers)
    requires DecodeTraces(iso, doc) == Ok(traces) && DecodeStream(iso, doc) == Ok(events)
    requires traces + EventElems(events) == log.elements
    ensures DecodeFields(iso, doc) == Ok(log)
  {
  }

  /** The "log-attrs" of a written document are read back. */
  lemma LogAttrsSection(iso: IsoFormat, doc: Fields, attrs: Dict<Attr>)
    requires PortableAttrs(iso, attrs) && Get(doc, "log-attrs") == Some(Obj(WrittenEntries(iso, attrs)))
    ensures DecodeLogAttrs(iso, doc) == Ok(attrs)
  {
    AttrsBack(iso, attrs);
  }

  /** The "extensions" of a written document are read back. */
  lemma ExtensionsSection(doc: Fields, exts: Dict<Extension>)
    requires UniqueKeys(exts) && Get(doc, "extensions") == Some(Arr(ExtensionDocs(exts)))
    ensures DecodeExtensions(doc) == Ok(exts)
  {
    ExtensionsBack(exts);
  }

  /** The "global-attrs" of a written document are read back. */
  lemma GlobalsSection(iso: IsoFormat, doc: Fields, omni: Dict<Dict<Attr>>)
    requires UniqueKeys(omni) && forall i :: 0 <= i < |omni| ==> PortableAttrs(iso, omni[i].1)
    requires Get(doc, "global-attrs") == Some(Obj(GlobalDocs(iso, omni)))
    ensures DecodeGlobals(iso, doc) == Ok(omni)
  {
    GlobalsRead(iso, omni);
  }

  /** The "classifiers" of a written document are read back. */
  lemma ClassifiersSection(doc: Fields, classifiers: Dict<seq<string>>)
    requires UniqueKeys(classifiers) && Get(doc, "classifiers") == Some(Obj(ClassifierDocs(classifiers)))
    ensures DecodeClassifiers(doc) == Ok(classifiers)
  {
    ClassifiersBack(classifiers);
  }

  /** The "traces" of a written event log are read back, and it has no "events". */
  lemma TracesSection(iso: IsoFormat, doc: Fields, elements: seq<Element>)
    requires forall i :: 0 <= i < |elements| ==> PortableElement(iso, EventLogClass, elements[i])
    requires Get(doc, "traces") == Some(Arr(ElementDocs(iso, elements))) && !Has(doc, "events")
    ensures DecodeTraces(iso, doc) == Ok(elements)
    ensures DecodeStream(iso, doc) == Ok([])
  {
    TracesBack(iso, elements);
  }

  /** The "events" of a written event stream are read back, and it has no "traces". */
  lemma StreamSection(iso: IsoFormat, doc: Fields, elements: seq<Element>)
    requires forall i :: 0 <= i < |elements| ==> PortableElement(iso, EventStreamClass, elements[i])
    requires Get(doc, "events") == Some(Arr(ElementDocs(iso, elements))) && !Has(doc, "traces")
    ensures DecodeTraces(iso, doc) == Ok([])
    ensures (forall i :: 0 <= i < |elements| ==> elements[i].EventElem?) && DecodeStream(iso, doc) == Ok(StreamEvents(elements))
    ensures (forall i :: 0 <= i < |elements| ==> elements[i].EventElem?) && EventElems(StreamEvents(elements)) == elements
  {
    StreamBack(iso, elements);
  }

  /** `log_to_jxes` writes a portable log as its document. */
  lemma LogWritten(iso: IsoFormat, log: Log)
    requires PortableLog(iso, log)
    ensures EncodeLog(iso, log) == Ok(Obj(LogDoc(iso, log)))
  {
    AttrsBack(iso, log.attributes);
    GlobalsWritten(iso, log.omniPresent);
    ExtensionsBack(log.extensions);
    ClassifiersBack(log.classifiers);
    if log.cls == EventLogClass {
      TracesBack(iso, log.elements);
    } else {
      StreamBack(iso, log.elements);
    }
    EncodeLogOf(iso, log, WrittenEntries(iso, log.attributes), GlobalDocs(iso, log.omniPresent), ElementDocs(iso, log.elements));
  }

  /** `jxes_to_log` reads the document of a portable log back as that log. */
  lemma LogRead(iso: IsoFormat, log: Log)
    requires PortableLog(iso, log)
    ensures DecodeLog(iso, Obj(LogDoc(iso, log))) == Ok(log)
  {
    var doc := LogDoc(iso, log);
    LogDocSections(iso, log);
    HeadRead(iso, doc, log);
    var traces, events := ElementsRead(iso, doc, log);
    DecodeFieldsOf(iso, doc, log, traces, events);
  }

  /** Where the sections of a portable log's document are. */
  lemma LogDocSections(iso: IsoFormat, log: Log)
    requires log.cls == EventLogClass || log.cls == EventStreamClass
    ensures var doc := LogDoc(iso, log);
      && Get(doc, "log-attrs") == Some(Obj(WrittenEntries(iso, log.attributes)))
      && Get(doc, "extensions") == Some(Arr(ExtensionDocs(log.extensions)))
      && Get(doc, "global-attrs") == Some(Obj(GlobalDocs(iso, log.omniPresent)))
      && Get(doc, "classifiers") == Some(Obj(ClassifierDocs(log.classifiers)))
      && Get(doc, ElementsKey(log.cls)) == Some(Arr(ElementDocs(iso, log.elements)))
      && (Has(doc, "traces") <==> log.cls == EventLogClass)
      && (Has(doc, "events") <==> log.cls == EventStreamClass)
  {
    DocSections(WrittenEntries(iso, log.attributes), ExtensionDocs(log.extensions), GlobalDocs(iso, log.omniPresent),
                ClassifierDocs(log.classifiers), ElementsKey(log.cls), ElementDocs(iso, log.elements));
  }

  /** The "traces" and "events" of a document laid out as a portable log's are read back
      as the log's elements. */
  lemma ElementsRead(iso: IsoFormat, doc: Fields, log: Log) returns (traces: seq<Element>, events: seq<Event>)
    requires PortableLog(iso, log)
    requires Get(doc, ElementsKey(log.cls)) == Some(Arr(ElementDocs(iso, log.elements)))
    requires (Has(doc, "traces") <==> log.cls == EventLogClass) && (Has(doc, "events") <==> log.cls == EventStreamClass)
    ensures DecodeTraces(iso, doc) == Ok(traces) && DecodeStream(iso, doc) == Ok(events)
    ensures traces + EventElems(events) == log.elements
  {
    if log.cls == EventLogClass {
      TracesSection(iso, doc, log.elements);
      traces, events := log.elements, [];
      assert EventElems(events) == [];
    } else {
      StreamSection(iso, doc, log.elements);
      traces, events := [], StreamEvents(log.elements);
    }
  }

  /** The sections before the traces or events of a portable log's document are read
      back. */
  lemma HeadRead(iso: IsoFormat, doc: Fields, log: Log)
    requires PortableLog(iso, log)
    requires Get(doc, "log-attrs") == Some(Obj(WrittenEntries(iso, log.attributes)))
    requires Get(doc, "extensions") == Some(Arr(ExtensionDocs(log.extensions)))
    requires Get(doc, "global-attrs") == Some(Obj(GlobalDocs(iso, log.omniPresent)))
    requires Get(doc, "classifiers") == Some(Obj(ClassifierDocs(log.classifiers)))
    ensures DecodeLogAttrs(iso, doc) == Ok(log.attributes)
    ensures DecodeExtensions(doc) == Ok(log.extensions)
    ensures DecodeGlobals(iso, doc) == Ok(log.omniPresent)
    ensures DecodeClassifiers(doc) == Ok(log.classifiers)
  {
    LogAttrsSection(iso, doc, log.attributes);
    ExtensionsSection(doc, log.extensions);
    GlobalsSection(iso, doc, log.omniPresent);
    ClassifiersSection(doc, log.classifiers);
  }

  /** The round trip of a whole log: `log_to_jxes` writes a portable log as its document,
      and `jxes_to_log` reads that document back as the same log. */
  lemma LogRoundTrip(iso: IsoFormat, log: Log)
    requires PortableLog(iso, log)
    ensures EncodeLog(iso, log) == Ok(Obj(LogDoc(iso, log)))
    ensures DecodeLog(iso, Obj(LogDoc(iso, log))) == Ok(log)
  {
    LogWritten(iso, log);
    LogRead(iso, log);
  }
}

/** The JXES document layout: what `log_to_jxes` writes for a log and what `jxes_to_log`
    builds from a document, as functions. The loops that compute them are in
    `LogAssembler`. */
module LogFormat {
  import opened Results
  import opened Dicts
  import opened Values
  import opened AttributeCodec
  import opened Folds

  // ---------------------------------------------------------------- the log objects

  /** An event: a mapping from attribute names to attribute values. */
  datatype Event = Event(attributes: Dict<Attr>)

  /** A trace: its own attributes and its events in order. */
  datatype Trace = Trace(attributes: Dict<Attr>, events: seq<Event>)

  /** What a log holds: traces in an event log, events in an event stream. */
  datatype Element = TraceElem(trace: Trace) | EventElem(event: Event)

  /** The exact class of a log object; `OtherClass` stands for any other class, including
      subclasses of the two, by the name it reports. */
  datatype LogClass = EventLogClass | EventStreamClass | OtherClass(typeName: string)

  /** The value a log stores for an extension: its prefix and its URI. */
  datatype Extension = Extension(prefix: Json, uri: Json)

  /** The fields of a log the converter reads and writes. */
  datatype Log = Log(
    cls: LogClass,
    attributes: Dict<Attr>,
    extensions: Dict<Extension>,
    omniPresent: Dict<Dict<Attr>>,
    classifiers: Dict<seq<string>>,
    elements: seq<Element>)

  // ---------------------------------------------------------------- encoding

  const XesVersion := "1849-2023"
  const XesFeatures := "nested-attributes"

  /** The fixed "log-properties" entry. */
  function LogProperties(): Json
  {
    Obj([("xes.version", Leaf(PStr(XesVersion))), ("xes.features", Leaf(PStr(XesFeatures)))])
  }

  /** The keys of a document in the order they are written, before the last one. */
  const HeadKeys: seq<string> := ["log-properties", "log-attrs", "extensions", "global-attrs", "classifiers"]

  /** An event as one object merging the exports of its attributes. */
  function EncodeEvent(iso: IsoFormat, e: Event): Result<Json>
  {
    var m :- ExportMappingFrom(iso, [], e.attributes);
    Ok(Obj(m))
  }

  /** The events of a trace, each encoded, appended to `acc`. */
  function EncodeEventsFrom(iso: IsoFormat, acc: seq<Json>, events: seq<Event>): Result<seq<Json>>
  {
    MapAll(e => EncodeEvent(iso, e), acc, events)
  }

  /** `extract_trace`: an object with the merged exports of the trace's attributes under
      "attrs" and the encoded events under "events". */
  function EncodeTrace(iso: IsoFormat, t: Trace): Result<Json>
  {
    var attrs :- ExportMappingFrom(iso, [], t.attributes);
    var events :- EncodeEventsFrom(iso, [], t.events);
    Ok(Obj([("attrs", Obj(attrs)), ("events", Arr(events))]))
  }

  /** One entry of "extensions". */
  function ExtensionObject(name: string, ext: Extension): Json
  {
    Obj([("name", Leaf(PStr(name))), ("prefix", ext.prefix), ("uri", ext.uri)])
  }

  /** The extensions of a log, one object each, appended to `acc`. */
  function ExtensionsFrom(acc: seq<Json>, exts: Dict<Extension>): seq<Json>
    decreases exts
  {
    if exts == [] then acc
    else ExtensionsFrom(acc + [ExtensionObject(exts[0].0, exts[0].1)], exts[1..])
  }

  /** One scope of the global attributes: the merged exports of its attributes, to be
      stored under the scope. */
  function GlobalEntry(iso: IsoFormat, scope: (string, Dict<Attr>)): Result<(string, Json)>
  {
    var m :- ExportMappingFrom(iso, [], scope.1);
    Ok((scope.0, Obj(m)))
  }

  /** The global attributes of a log: one object per scope, stored under the scope. */
  function GlobalAttrsFrom(iso: IsoFormat, acc: Fields, omni: Dict<Dict<Attr>>): Result<Fields>
  {
    PutAll(s => GlobalEntry(iso, s), acc, omni)
  }

  /** The names of a classifier as JSON strings. */
  function StringLeaves(names: seq<string>): (r: seq<Json>)
    ensures |r| == |names| && forall i :: 0 <= i < |r| ==> r[i] == Leaf(PStr(names[i]))
  {
    seq(|names|, i requires 0 <= i < |names| => Leaf(PStr(names[i])))
  }

  /** The classifiers of a log, each a list of attribute names, stored under its name. */
  function ClassifiersFrom(acc: Fields, classifiers: Dict<seq<string>>): Fields
    decreases classifiers
  {
    if classifiers == [] then acc
    else ClassifiersFrom(Put(acc, classifiers[0].0, Arr(StringLeaves(classifiers[0].1))), classifiers[1..])
  }

  /** An element of an event log, encoded by `extract_trace`; an event in its place has
      no trace attributes. */
  function TraceOf(iso: IsoFormat, e: Element): Result<Json>
  {
    match e
    case EventElem(_) => Err(NotATrace)
    case TraceElem(t) => EncodeTrace(iso, t)
  }

  /** The elements of an event log, each encoded, appended to `acc`. */
  function TracesFrom(iso: IsoFormat, acc: seq<Json>, elements: seq<Element>): Result<seq<Json>>
  {
    MapAll(e => TraceOf(iso, e), acc, elements)
  }

  /** An element of an event stream, encoded as an event; a trace in its place has no
      attribute items. */
  function StreamEventOf(iso: IsoFormat, e: Element): Result<Json>
  {
    match e
    case TraceElem(_) => Err(NotAnEvent)
    case EventElem(ev) => EncodeEvent(iso, ev)
  }

  /** The elements of an event stream, each encoded, appended to `acc`. */
  function StreamEventsFrom(iso: IsoFormat, acc: seq<Json>, elements: seq<Element>): Result<seq<Json>>
  {
    MapAll(e => StreamEventOf(iso, e), acc, elements)
  }

  /** The entries of a document before its traces or events. */
  function Head(attrs: Fields, exts: seq<Json>, globals: Fields, classifiers: Fields): Fields
  {
    [ ("log-properties", LogProperties()), ("log-attrs", Obj(attrs)), ("extensions", Arr(exts)),
      ("global-attrs", Obj(globals)), ("classifiers", Obj(classifiers)) ]
  }

  /** `log_to_jxes`: the document for a log. Its entries are "log-properties",
      "log-attrs", "extensions", "global-attrs", "classifiers" and then "traces" for an
      event log or "events" for an event stream; any other log class is refused. */
  function EncodeLog(iso: IsoFormat, log: Log): (r: Result<Json>)
    ensures r.Ok? ==> r.value.Obj? && |r.value.fields| == 6 && r.value.fields[0] == ("log-properties", LogProperties())
    ensures r.Ok? ==> forall i :: 0 <= i < 5 ==> r.value.fields[i].0 == HeadKeys[i]
    ensures r.Ok? ==> (r.value.fields[5].0 == "traces" <==> log.cls == EventLogClass)
    ensures r.Ok? ==> (r.value.fields[5].0 == "events" <==> log.cls == EventStreamClass)
    ensures log.cls.OtherClass? ==> r.Err?
  {
    var attrs :- ExportMappingFrom(iso, [], log.attributes);
    var exts := ExtensionsFrom([], log.extensions);
    var globals :- GlobalAttrsFrom(iso, [], log.omniPresent);
    var classifiers := ClassifiersFrom([], log.classifiers);
    var head := Head(attrs, exts, globals, classifiers);
    match log.cls
    case EventLogClass =>
      var ts :- TracesFrom(iso, [], log.elements);
      Ok(Obj(head + [("traces", Arr(ts))]))
    case EventStreamClass =>
      var es :- StreamEventsFrom(iso, [], log.elements);
      Ok(Obj(head + [("events", Arr(es))]))
    case OtherClass(name) => Err(UnsupportedLogType(name))
  }

  // ---------------------------------------------------------------- decoding

  /** `"key" in doc`, for a document that is an object. */
  function Section(doc: Fields, key: string): Option<Json>
  {
    Get(doc, key)
  }

  /** Attributes decoded by `import_attributes` and parsed once more, stored in a fresh
      dict: the "log-attrs" section and each scope of "global-attrs". */
  function DecodeAttributes(iso: IsoFormat, j: Json): Result<Dict<Attr>>
  {
    var sub :- ImportAttrs(iso, j);
    ReparseFrom(iso, [], sub)
  }

  /** The string a JSON value is, where the model requires one. */
  function AsText(j: Json): Result<string>
  {
    if j.Leaf? && j.p.PStr? then Ok(j.p.s) else Err(OutsideModel)
  }

  /** One entry of "extensions": prefix and URI are read before the name, as the
      assignment evaluates its right-hand side first. */
  function ExtensionEntry(x: Json): Result<(string, Extension)>
  {
    var prefix :- Index(x, "prefix");
    var uri :- Index(x, "uri");
    var nameJ :- Index(x, "name");
    var name :- AsText(nameJ);
    Ok((name, Extension(prefix, uri)))
  }

  /** The entries of "extensions", each stored under its name. */
  function DecodeExtensionsFrom(acc: Dict<Extension>, items: seq<Json>): Result<Dict<Extension>>
  {
    PutAll(ExtensionEntry, acc, items)
  }

  /** One scope of "global-attrs", looked up in `ga` and decoded. */
  function ScopeEntry(iso: IsoFormat, ga: Json, s: Json): Result<(string, Dict<Attr>)>
  {
    var scope :- AsText(s);
    var v :- Index(ga, scope);
    var attrs :- DecodeAttributes(iso, v);
    Ok((scope, attrs))
  }

  /** The scopes of "global-attrs", each stored with its decoded attributes. */
  function DecodeGlobalsFrom(iso: IsoFormat, acc: Dict<Dict<Attr>>, ga: Json, scopes: seq<Json>): Result<Dict<Dict<Attr>>>
  {
    PutAll(s => ScopeEntry(iso, ga, s), acc, scopes)
  }

  /** `clas_attributes.copy()`, for the lists of strings a classifier is. */
  function ClassifierNames(v: Json): Result<seq<string>>
  {
    match v
    case Leaf(_) => Err(NotCopyable)
    case Obj(_) => Err(OutsideModel)
    case Arr(items) =>
      if forall i :: 0 <= i < |items| ==> items[i].Leaf? && items[i].p.PStr? then
        Ok(seq(|items|, i requires 0 <= i < |items| && items[i].Leaf? && items[i].p.PStr? => items[i].p.s))
      else Err(OutsideModel)
  }

  /** One entry of "classifiers", copied. */
  function ClassifierEntry(f: (string, Json)): Result<(string, seq<string>)>
  {
    var names :- ClassifierNames(f.1);
    Ok((f.0, names))
  }

  /** The entries of "classifiers", each copied under its name. */
  function DecodeClassifiersFrom(acc: Dict<seq<string>>, fields: Fields): Result<Dict<seq<string>>>
  {
    PutAll(ClassifierEntry, acc, fields)
  }

  /** One attribute of a trace: its value parsed once and stored as it is, without
      `import_attributes`. */
  function TraceAttrEntry(iso: IsoFormat, f: (string, Json)): Result<(string, Attr)>
  {
    var parsed :- ParseJson(iso, f.1);
    Ok((f.0, FromRaw(parsed)))
  }

  /** The attributes of a trace, each stored under its name. */
  function TraceAttrsFrom(iso: IsoFormat, acc: Dict<Attr>, fields: Fields): Result<Dict<Attr>>
  {
    PutAll(f => TraceAttrEntry(iso, f), acc, fields)
  }

  /** An event: `Event(import_attributes(item))`. */
  function DecodeEvent(iso: IsoFormat, item: Json): Result<Event>
  {
    var attrs :- ImportAttrs(iso, item);
    Ok(Event(attrs))
  }

  /** Events, each decoded, appended to `acc`. */
  function DecodeEventsFrom(iso: IsoFormat, acc: seq<Event>, items: seq<Json>): Result<seq<Event>>
  {
    MapAll(j => DecodeEvent(iso, j), acc, items)
  }

  /** One entry of "traces": its "attrs" first, then its "events". */
  function DecodeTrace(iso: IsoFormat, t: Json): Result<Trace>
  {
    var a :- Index(t, "attrs");
    var fields :- Items(a);
    var attrs :- TraceAttrsFrom(iso, [], fields);
    var ej :- Index(t, "events");
    var items :- Iterate(ej);
    var events :- DecodeEventsFrom(iso, [], items);
    Ok(Trace(attrs, events))
  }

  /** One entry of "traces" as an element of a log. */
  function DecodeTraceElem(iso: IsoFormat, item: Json): Result<Element>
  {
    var t :- DecodeTrace(iso, item);
    Ok(TraceElem(t))
  }

  /** The entries of "traces", each decoded, appended to `acc`. */
  function DecodeTracesFrom(iso: IsoFormat, acc: seq<Element>, items: seq<Json>): Result<seq<Element>>
  {
    MapAll(j => DecodeTraceElem(iso, j), acc, items)
  }

  /** Events as the elements of a log. */
  function EventElems(events: seq<Event>): (r: seq<Element>)
    ensures |r| == |events| && forall i :: 0 <= i < |r| ==> r[i] == EventElem(events[i])
  {
    seq(|events|, i requires 0 <= i < |events| => EventElem(events[i]))
  }

  /** The "log-attrs" section, or no attributes. */
  function DecodeLogAttrs(iso: IsoFormat, doc: Fields): Result<Dict<Attr>>
  {
    match Section(doc, "log-attrs")
    case None => Ok([])
    case Some(j) => DecodeAttributes(iso, j)
  }

  /** The "extensions" section, or no extensions. */
  function DecodeExtensions(doc: Fields): Result<Dict<Extension>>
  {
    match Section(doc, "extensions")
    case None => Ok([])
    case Some(j) =>
      var items :- Iterate(j);
      DecodeExtensionsFrom([], items)
  }

  /** The "global-attrs" section, or no global attributes. */
  function DecodeGlobals(iso: IsoFormat, doc: Fields): Result<Dict<Dict<Attr>>>
  {
    match Section(doc, "global-attrs")
    case None => Ok([])
    case Some(ga) =>
      var scopes :- Iterate(ga);
      DecodeGlobalsFrom(iso, [], ga, scopes)
  }

  /** The "classifiers" section, or no classifiers. */
  function DecodeClassifiers(doc: Fields): Result<Dict<seq<string>>>
  {
    match Section(doc, "classifiers")
    case None => Ok([])
    case Some(j) =>
      var fields :- Items(j);
      DecodeClassifiersFrom([], fields)
  }

  /** The "traces" section, or no traces. */
  function DecodeTraces(iso: IsoFormat, doc: Fields): Result<seq<Element>>
  {
    match Section(doc, "traces")
    case None => Ok([])
    case Some(j) =>
      var items :- Iterate(j);
      DecodeTracesFrom(iso, [], items)
  }

  /** The "events" section, or no events. */
  function DecodeStream(iso: IsoFormat, doc: Fields): Result<seq<Event>>
  {
    match Section(doc, "events")
    case None => Ok([])
    case Some(j) =>
      var items :- Iterate(j);
      DecodeEventsFrom(iso, [], items)
  }

  /** `jxes_to_log` on a document that is an object: an event log when it has "traces",
      otherwise an event stream, holding the decoded traces followed by the decoded
      events. "log-properties" is ignored. */
  function DecodeFields(iso: IsoFormat, doc: Fields): (r: Result<Log>)
    ensures r.Ok? ==> (r.value.cls == EventLogClass <==> Has(doc, "traces"))
    ensures r.Ok? ==> (r.value.cls == EventStreamClass <==> !Has(doc, "traces"))
  {
    var cls := if Has(doc, "traces") then EventLogClass else EventStreamClass;
    var attributes :- DecodeLogAttrs(iso, doc);
    var extensions :- DecodeExtensions(doc);
    var omni :- DecodeGlobals(iso, doc);
    var classifiers :- DecodeClassifiers(doc);
    var traces :- DecodeTraces(iso, doc);
    var events :- DecodeStream(iso, doc);
    Ok(Log(cls, attributes, extensions, omni, classifiers, traces + EventElems(events)))
  }

  /** The sections `jxes_to_log` subscripts the document for once its `in` test finds
      them ("log-properties" is tested but never read). */
  const ReadSections: seq<string> := ["log-attrs", "extensions", "global-attrs", "classifiers", "traces", "events"]

  /** A document `in` tests work on without it being a dict: a list or a string. */
  predicate IsSequence(doc: Json)
  {
    doc.Arr? || (doc.Leaf? && doc.p.PStr?)
  }

  /** `key in s` on strings: `key` occurs in `s` as a substring. */
  predicate Occurs(key: string, s: string)
  {
    exists i :: 0 <= i <= |s| && key <= s[i..]
  }

  /** `key in doc` on a list (an element equal to the string) or a string (a substring). */
  predicate SequenceHas(doc: Json, key: string)
    requires IsSequence(doc)
  {
    if doc.Arr? then Leaf(PStr(key)) in doc.items else Occurs(key, doc.p.s)
  }

  /** The log a fresh `EventStream()` is: no attributes, extensions, global attributes,
      classifiers or events. */
  function EmptyStream(): Log
  {
    Log(EventStreamClass, [], [], [], [], [])
  }

  /** `jxes_to_log` on a list or a string: every `in` test can be made, and the first
      section found is then subscripted with a string, which raises; a document that has
      no section gives the fresh event stream untouched. */
  function DecodeSequence(doc: Json): (r: Result<Log>)
    requires IsSequence(doc)
  {
    if exists key :: key in ReadSections && SequenceHas(doc, key) then Err(NotSubscriptable)
    else Ok(EmptyStream())
  }

  /** `jxes_to_log`: a dict is read section by section, a list or a string only passes the
      `in` tests, and any other value makes the first `in` test raise. */
  function DecodeLog(iso: IsoFormat, doc: Json): (r: Result<Log>)
    ensures doc.Leaf? && !doc.p.PStr? ==> r == Err(NotIterable)
    ensures IsSequence(doc) ==> (r.Ok? <==> forall key :: key in ReadSections ==> !SequenceHas(doc, key))
    ensures IsSequence(doc) && r.Ok? ==> r.value == EmptyStream()
  {
    match doc
    case Obj(fields) => DecodeFields(iso, fields)
    case Arr(_) => DecodeSequence(doc)
    case Leaf(PStr(_)) => DecodeSequence(doc)
    case Leaf(_) => Err(NotIterable)
  }
}

/** `extract_trace`, `log_to_jxes` and `jxes_to_log` as the loops they are: a document
    filled section by section, and a log filled from a document section by section. Each
    method is proved to compute the function of `LogFormat` that specifies it. */
module LogAssembler {
  import opened Results
  import opened Dicts
  import opened Values
  import opened AttributeCodec
  import opened AttributeImport
  import opened LogFormat

  // ---------------------------------------------------------------- encoding

  /** `out.update(export_attribute(name, value))` for each attribute in turn, into an
      empty mapping. */
  method ExportAttributes(iso: IsoFormat, attrs: Dict<Attr>) returns (r: Result<Fields>)
    ensures r == ExportMappingFrom(iso, [], attrs)
  {
    var out: Fields := [];
    var i := 0;
    while i < |attrs|
      invariant 0 <= i <= |attrs|
      invariant ExportMappingFrom(iso, [], attrs) == ExportMappingFrom(iso, out, attrs[i..])
    {
      assert attrs[i..][0] == attrs[i] && attrs[i..][1..] == attrs[i + 1..];
      var e := ExportAttribute(iso, attrs[i].0, attrs[i].1);
      if e.Err? {
        return Err(e.error);
      }
      out := Update(out, e.value);
      i := i + 1;
    }
    return Ok(out);
  }

  /** `extract_trace(trace)` */
  method ExtractTrace(iso: IsoFormat, trace: Trace) returns (r: Result<Json>)
    ensures r == EncodeTrace(iso, trace)
  {
    var attrs := ExportAttributes(iso, trace.attributes);
    if attrs.Err? {
      return Err(attrs.error);
    }
    var events: seq<Json> := [];
    var i := 0;
    while i < |trace.events|
      invariant 0 <= i <= |trace.events|
      invariant EncodeEventsFrom(iso, [], trace.events) == EncodeEventsFrom(iso, events, trace.events[i..])
    {
      assert trace.events[i..][0] == trace.events[i] && trace.events[i..][1..] == trace.events[i + 1..];
      var m := ExportAttributes(iso, trace.events[i].attributes);
      if m.Err? {
        return Err(m.error);
      }
      events := events + [Obj(m.value)];
      i := i + 1;
    }
    return Ok(Obj([("attrs", Obj(attrs.value)), ("events", Arr(events))]));
  }

  /** `log_to_jxes(log)` */
  method LogToJxes(iso: IsoFormat, log: Log) returns (r: Result<Json>)
    ensures r == EncodeLog(iso, log)
  {
    var attrs := ExportAttributes(iso, log.attributes);
    if attrs.Err? {
      return Err(attrs.error);
    }

    var exts: seq<Json> := [];
    var i := 0;
    while i < |log.extensions|
      invariant 0 <= i <= |log.extensions|
      invariant ExtensionsFrom([], log.extensions) == ExtensionsFrom(exts, log.extensions[i..])
    {
      assert log.extensions[i..][0] == log.extensions[i] && log.extensions[i..][1..] == log.extensions[i + 1..];
      exts := exts + [ExtensionObject(log.extensions[i].0, log.extensions[i].1)];
      i := i + 1;
    }

    var globals: Fields := [];
    i := 0;
    while i < |log.omniPresent|
      invariant 0 <= i <= |log.omniPresent|
      invariant GlobalAttrsFrom(iso, [], log.omniPresent) == GlobalAttrsFrom(iso, globals, log.omniPresent[i..])
    {
      assert log.omniPresent[i..][0] == log.omniPresent[i] && log.omniPresent[i..][1..] == log.omniPresent[i + 1..];
      var m := ExportAttributes(iso, log.omniPresent[i].1);
      if m.Err? {
        return Err(m.error);
      }
      globals := Put(globals, log.omniPresent[i].0, Obj(m.value));
      i := i + 1;
    }

    var classifiers: Fields := [];
    i := 0;
    while i < |log.classifiers|
      invariant 0 <= i <= |log.classifiers|
      invariant ClassifiersFrom([], log.classifiers) == ClassifiersFrom(classifiers, log.classifiers[i..])
    {
      assert log.classifiers[i..][0] == log.classifiers[i] && log.classifiers[i..][1..] == log.classifiers[i + 1..];
      classifiers := Put(classifiers, log.classifiers[i].0, Arr(StringLeaves(log.classifiers[i].1)));
      i := i + 1;
    }

    var head := Head(attrs.value, exts, globals, classifiers);
    var out: seq<Json> := [];
    match log.cls
    case OtherClass(name) =>
      return Err(UnsupportedLogType(name));
    case EventLogClass =>
      i := 0;
      while i < |log.elements|
        invariant 0 <= i <= |log.elements|
        invariant TracesFrom(iso, [], log.elements) == TracesFrom(iso, out, log.elements[i..])
      {
        assert log.elements[i..][0] == log.elements[i] && log.elements[i..][1..] == log.elements[i + 1..];
        if log.elements[i].EventElem? {
          return Err(NotATrace);
        }
        var t := ExtractTrace(iso, log.elements[i].trace);
        if t.Err? {
          return Err(t.error);
        }
        out := out + [t.value];
        i := i + 1;
      }
      return Ok(Obj(head + [("traces", Arr(out))]));
    case EventStreamClass =>
      i := 0;
      while i < |log.elements|
        invariant 0 <= i <= |log.elements|
        invariant StreamEventsFrom(iso, [], log.elements) == StreamEventsFrom(iso, out, log.elements[i..])
      {
        assert log.elements[i..][0] == log.elements[i] && log.elements[i..][1..] == log.elements[i + 1..];
        if log.elements[i].TraceElem? {
          return Err(NotAnEvent);
        }
        var m := ExportAttributes(iso, log.elements[i].event.attributes);
        if m.Err? {
          return Err(m.error);
        }
        out := out + [Obj(m.value)];
        i := i + 1;
      }
      return Ok(Obj(head + [("events", Arr(out))]));
  }

  // ---------------------------------------------------------------- decoding

  /** `import_attributes(j)` with each result parsed once more into a fresh dict. */
  method ReadAttributes(iso: IsoFormat, j: Json) returns (r: Result<Dict<Attr>>)
    ensures r == DecodeAttributes(iso, j)
  {
    var sub := ImportAttributes(iso, j);
    if sub.Err? {
      return Err(sub.error);
    }
    r := Reparse(iso, sub.value);
  }

  /** The "log-attrs" section. */
  method ReadLogAttrs(iso: IsoFormat, d: Fields) returns (r: Result<Dict<Attr>>)
    ensures r == DecodeLogAttrs(iso, d)
  {
    var j := Get(d, "log-attrs");
    if j.None? {
      return Ok([]);
    }
    r := ReadAttributes(iso, j.value);
  }

  /** The loop over "extensions". */
  method ReadExtensions(d: Fields) returns (r: Result<Dict<Extension>>)
    ensures r == DecodeExtensions(d)
  {
    var j := Get(d, "extensions");
    if j.None? {
      return Ok([]);
    }
    var it := Iterate(j.value);
    if it.Err? {
      return Err(it.error);
    }
    var items := it.value;
    var exts: Dict<Extension> := [];
    var i := 0;
    while i < |items|
      invariant 0 <= i <= |items|
      invariant DecodeExtensionsFrom([], items) == DecodeExtensionsFrom(exts, items[i..])
    {
      assert items[i..][0] == items[i] && items[i..][1..] == items[i + 1..];
      var prefix := Index(items[i], "prefix");
      if prefix.Err? {
        return Err(prefix.error);
      }
      var uri := Index(items[i], "uri");
      if uri.Err? {
        return Err(uri.error);
      }
      var name := Index(items[i], "name");
      if name.Err? {
        return Err(name.error);
      }
      if !(name.value.Leaf? && name.value.p.PStr?) {
        return Err(OutsideModel);
      }
      exts := Put(exts, name.value.p.s, Extension(prefix.value, uri.value));
      i := i + 1;
    }
    return Ok(exts);
  }

  /** The loop over the scopes of "global-attrs". */
  method ReadGlobals(iso: IsoFormat, d: Fields) returns (r: Result<Dict<Dict<Attr>>>)
    ensures r == DecodeGlobals(iso, d)
  {
    var g := Get(d, "global-attrs");
    if g.None? {
      return Ok([]);
    }
    var ga := g.value;
    var it := Iterate(ga);
    if it.Err? {
      return Err(it.error);
    }
    var scopes := it.value;
    var omni: Dict<Dict<Attr>> := [];
    var i := 0;
    while i < |scopes|
      invariant 0 <= i <= |scopes|
      invariant DecodeGlobalsFrom(iso, [], ga, scopes) == DecodeGlobalsFrom(iso, omni, ga, scopes[i..])
    {
      assert scopes[i..][0] == scopes[i] && scopes[i..][1..] == scopes[i + 1..];
      if !(scopes[i].Leaf? && scopes[i].p.PStr?) {
        return Err(OutsideModel);
      }
      var scope := scopes[i].p.s;
      var v := Index(ga, scope);
      if v.Err? {
        return Err(v.error);
      }
      var attrs := ReadAttributes(iso, v.value);
      if attrs.Err? {
        return Err(attrs.error);
      }
      omni := Put(omni, scope, attrs.value);
      i := i + 1;
    }
    return Ok(omni);
  }

  /** The loop over "classifiers". */
  method ReadClassifiers(d: Fields) returns (r: Result<Dict<seq<string>>>)
    ensures r == DecodeClassifiers(d)
  {
    var j := Get(d, "classifiers");
    if j.None? {
      return Ok([]);
    }
    var it := Items(j.value);
    if it.Err? {
      return Err(it.error);
    }
    var fields := it.value;
    var classifiers: Dict<seq<string>> := [];
    var i := 0;
    while i < |fields|
      invariant 0 <= i <= |fields|
      invariant DecodeClassifiersFrom([], fields) == DecodeClassifiersFrom(classifiers, fields[i..])
    {
      assert fields[i..][0] == fields[i] && fields[i..][1..] == fields[i + 1..];
      var names := ClassifierNames(fields[i].1);
      if names.Err? {
        return Err(names.error);
      }
      classifiers := Put(classifiers, fields[i].0, names.value);
      i := i + 1;
    }
    return Ok(classifiers);
  }

  /** The loop over a list of events: each is `Event(import_attributes(item))`. */
  method ReadEvents(iso: IsoFormat, items: seq<Json>) returns (r: Result<seq<Event>>)
    ensures r == DecodeEventsFrom(iso, [], items)
  {
    var events: seq<Event> := [];
    var i := 0;
    while i < |items|
      invariant 0 <= i <= |items|
      invariant DecodeEventsFrom(iso, [], items) == DecodeEventsFrom(iso, events, items[i..])
    {
      assert items[i..][0] == items[i] && items[i..][1..] == items[i + 1..];
      var attrs := ImportAttributes(iso, items[i]);
      if attrs.Err? {
        return Err(attrs.error);
      }
      events := events + [Event(attrs.value)];
      i := i + 1;
    }
    return Ok(events);
  }

  /** One trace of "traces": its attributes parsed and stored, then its events. */
  method ReadTrace(iso: IsoFormat, t: Json) returns (r: Result<Trace>)
    ensures r == DecodeTrace(iso, t)
  {
    var a := Index(t, "attrs");
    if a.Err? {
      return Err(a.error);
    }
    var fields := Items(a.value);
    if fields.Err? {
      return Err(fields.error);
    }
    var fs := fields.value;
    var attrs: Dict<Attr> := [];
    var i := 0;
    while i < |fs|
      invariant 0 <= i <= |fs|
      invariant TraceAttrsFrom(iso, [], fs) == TraceAttrsFrom(iso, attrs, fs[i..])
    {
      assert fs[i..][0] == fs[i] && fs[i..][1..] == fs[i + 1..];
      var parsed := ParseJson(iso, fs[i].1);
      if parsed.Err? {
        return Err(parsed.error);
      }
      attrs := Put(attrs, fs[i].0, FromRaw(parsed.value));
      i := i + 1;
    }
    var ej := Index(t, "events");
    if ej.Err? {
      return Err(ej.error);
    }
    var items := Iterate(ej.value);
    if items.Err? {
      return Err(items.error);
    }
    var events := ReadEvents(iso, items.value);
    if events.Err? {
      return Err(events.error);
    }
    return Ok(Trace(attrs, events.value));
  }

  /** The loop over "traces". */
  method ReadTraces(iso: IsoFormat, d: Fields) returns (r: Result<seq<Element>>)
    ensures r == DecodeTraces(iso, d)
  {
    var j := Get(d, "traces");
    if j.None? {
      return Ok([]);
    }
    var it := Iterate(j.value);
    if it.Err? {
      return Err(it.error);
    }
    var items := it.value;
    var elements: seq<Element> := [];
    var i := 0;
    while i < |items|
      invariant 0 <= i <= |items|
      invariant DecodeTracesFrom(iso, [], items) == DecodeTracesFrom(iso, elements, items[i..])
    {
      assert items[i..][0] == items[i] && items[i..][1..] == items[i + 1..];
      var t := ReadTrace(iso, items[i]);
      if t.Err? {
        return Err(t.error);
      }
      elements := elements + [TraceElem(t.value)];
      i := i + 1;
    }
    return Ok(elements);
  }

  /** The "events" section. */
  method ReadStream(iso: IsoFormat, d: Fields) returns (r: Result<seq<Event>>)
    ensures r == DecodeStream(iso, d)
  {
    var j := Get(d, "events");
    if j.None? {
      return Ok([]);
    }
    var it := Iterate(j.value);
    if it.Err? {
      return Err(it.error);
    }
    r := ReadEvents(iso, it.value);
  }

  /** `jxes_to_log` on a list or a string: the fresh event stream is returned untouched
      unless an `in` test finds a section, which is then subscripted with a string. */
  method ReadSequence(doc: Json) returns (r: Result<Log>)
    requires IsSequence(doc)
    ensures r == DecodeSequence(doc)
  {
    if SequenceHas(doc, "log-attrs") || SequenceHas(doc, "extensions") || SequenceHas(doc, "global-attrs")
       || SequenceHas(doc, "classifiers") || SequenceHas(doc, "traces") || SequenceHas(doc, "events")
    {
      return Err(NotSubscriptable);
    }
    return Ok(Log(EventStreamClass, [], [], [], [], []));
  }

  /** `jxes_to_log(doc)`: a log of the class the document calls for, filled section by
      section, its traces appended before its events. */
  method JxesToLog(iso: IsoFormat, doc: Json) returns (r: Result<Log>)
    ensures r == DecodeLog(iso, doc)
  {
    if doc.Arr? || (doc.Leaf? && doc.p.PStr?) {
      r := ReadSequence(doc);
      return;
    }
    if doc.Leaf? {
      return Err(NotIterable);
    }
    var d := doc.fields;
    var cls := if Has(d, "traces") then EventLogClass else EventStreamClass;
    var attributes := ReadLogAttrs(iso, d);
    if attributes.Err? {
      return Err(attributes.error);
    }
    var extensions := ReadExtensions(d);
    if extensions.Err? {
      return Err(extensions.error);
    }
    var omni := ReadGlobals(iso, d);
    if omni.Err? {
      return Err(omni.error);
    }
    var classifiers := ReadClassifiers(d);
    if classifiers.Err? {
      return Err(classifiers.error);
    }
    var traces := ReadTraces(iso, d);
    if traces.Err? {
      return Err(traces.error);
    }
    var events := ReadStream(iso, d);
    if events.Err? {
      return Err(events.error);
    }
    var elements := traces.value;
    var j := 0;
    while j < |events.value|
      invariant 0 <= j <= |events.value|
      invariant elements == traces.value + EventElems(events.value[..j])
    {
      assert EventElems(events.value[..j + 1]) == EventElems(events.value[..j]) + [EventElem(events.value[j])];
      elements := elements + [EventElem(events.value[j])];
      j := j + 1;
    }
    assert events.value[..|events.value|] == events.value;
    return Ok(Log(cls, attributes.value, extensions.value, omni.value, classifiers.value, elements));
  }
}

/** What the JXES layout promises: one encoded trace per trace and one encoded event per
    event, in order; one "global-attrs" entry per scope; the class of a decoded log
    decided by the "traces" key; and a decoded log holding its traces before its
    events. */
module LogProperties {
  import opened Results
  import opened Dicts
  import opened Folds
  import opened Values
  import opened AttributeCodec
  import opened LogFormat

  // ---------------------------------------------------------------- encoding

  /** An event log's elements encode to one `extract_trace` result each, in order; the
      encoding fails exactly when some element is an event or some trace fails. */
  lemma TracesShape(iso: IsoFormat, elements: seq<Element>)
    ensures TracesFrom(iso, [], elements).Ok? <==>
            forall i :: 0 <= i < |elements| ==> elements[i].TraceElem? && EncodeTrace(iso, elements[i].trace).Ok?
    ensures TracesFrom(iso, [], elements).Ok? ==>
            var xs := TracesFrom(iso, [], elements).value;
            && |xs| == |elements|
            && forall i :: 0 <= i < |elements| ==> xs[i] == EncodeTrace(iso, elements[i].trace).value
  {
    var f := e => TraceOf(iso, e);
    MapAllShape(f, [], elements);
    forall i | 0 <= i < |elements|
      ensures f(elements[i]).Ok? <==> elements[i].TraceElem? && EncodeTrace(iso, elements[i].trace).Ok?
      ensures f(elements[i]).Ok? ==> f(elements[i]).value == EncodeTrace(iso, elements[i].trace).value
    {
      TraceOfElement(iso, elements[i]);
    }
  }

  /** An element of a log encodes as its trace, and an event there raises. */
  lemma TraceOfElement(iso: IsoFormat, e: Element)
    ensures TraceOf(iso, e) == if e.TraceElem? then EncodeTrace(iso, e.trace) else Err(NotATrace)
  {
  }

  /** An event stream's elements encode to one object each, in order; the encoding fails
      exactly when some element is a trace or some event fails. */
  lemma StreamEventsShape(iso: IsoFormat, elements: seq<Element>)
    ensures StreamEventsFrom(iso, [], elements).Ok? <==>
            forall i :: 0 <= i < |elements| ==> elements[i].EventElem? && EncodeEvent(iso, elements[i].event).Ok?
    ensures StreamEventsFrom(iso, [], elements).Ok? ==>
            var xs := StreamEventsFrom(iso, [], elements).value;
            && |xs| == |elements|
            && forall i :: 0 <= i < |elements| ==> xs[i] == EncodeEvent(iso, elements[i].event).value
  {
    var f := e => StreamEventOf(iso, e);
    MapAllShape(f, [], elements);
    forall i | 0 <= i < |elements|
      ensures f(elements[i]).Ok? <==> elements[i].EventElem? && EncodeEvent(iso, elements[i].event).Ok?
      ensures f(elements[i]).Ok? ==> f(elements[i]).value == EncodeEvent(iso, elements[i].event).value
    {
      StreamEventOfElement(iso, elements[i]);
    }
  }

  /** An element of a stream encodes as its event, and a trace there raises. */
  lemma StreamEventOfElement(iso: IsoFormat, e: Element)
    ensures StreamEventOf(iso, e) == if e.EventElem? then EncodeEvent(iso, e.event) else Err(NotAnEvent)
  {
  }

  /** `extract_trace` writes the merged exports of the trace's attributes under "attrs"
      and one object per event of the trace, in order, under "events". */
  lemma TraceKeepsEvents(iso: IsoFormat, t: Trace)
    requires EncodeTrace(iso, t).Ok?
    ensures var doc := EncodeTrace(iso, t).value;
            && ExportMappingFrom(iso, [], t.attributes).Ok?
            && doc == Obj([("attrs", Obj(ExportMappingFrom(iso, [], t.attributes).value)), ("events", doc.fields[1].1)])
            && doc.fields[1].1.Arr? && |doc.fields[1].1.items| == |t.events|
            && forall i :: 0 <= i < |t.events| ==>
                 EncodeEvent(iso, t.events[i]).Ok? && doc.fields[1].1.items[i] == EncodeEvent(iso, t.events[i]).value
  {
    MapAllShape(e => EncodeEvent(iso, e), [], t.events);
  }

  /** The extensions of a log become one object each, in order. */
  lemma {:induction false} ExtensionsShape(acc: seq<Json>, exts: Dict<Extension>)
    ensures var xs := ExtensionsFrom(acc, exts);
            && |xs| == |acc| + |exts|
            && xs[..|acc|] == acc
            && forall i :: 0 <= i < |exts| ==> xs[|acc| + i] == ExtensionObject(exts[i].0, exts[i].1)
    decreases exts
  {
    if exts != [] {
      assert forall i :: 1 <= i < |exts| ==> exts[i] == exts[1..][i - 1];
      ExtensionsShape(acc + [ExtensionObject(exts[0].0, exts[0].1)], exts[1..]);
    }
  }

  /** For a log whose scopes are distinct, as the keys of a dict are, "global-attrs"
      holds for every scope the merged exports of its attributes, and nothing else. */
  lemma GlobalScopes(iso: IsoFormat, acc: Fields, omni: Dict<Dict<Attr>>)
    requires GlobalAttrsFrom(iso, acc, omni).Ok? && UniqueKeys(omni)
    ensures forall i :: 0 <= i < |omni| ==>
              && ExportMappingFrom(iso, [], omni[i].1).Ok?
              && Get(GlobalAttrsFrom(iso, acc, omni).value, omni[i].0) == Some(Obj(ExportMappingFrom(iso, [], omni[i].1).value))
    ensures forall k :: !Has(omni, k) ==> Get(GlobalAttrsFrom(iso, acc, omni).value, k) == Get(acc, k)
    ensures UniqueKeys(acc) ==> UniqueKeys(GlobalAttrsFrom(iso, acc, omni).value)
  {
    var f := s => GlobalEntry(iso, s);
    PutAllKeys(f, acc, omni);
    forall i, j | 0 <= i < |omni| && 0 <= j < |omni| && f(omni[i]).Ok? && f(omni[j]).Ok? &&
                  f(omni[i]).value.0 == f(omni[j]).value.0
      ensures omni[i] == omni[j]
    {
      GlobalEntryKey(iso, omni[i]);
      GlobalEntryKey(iso, omni[j]);
    }
    PutAllEveryKey(f, acc, omni);
    forall i | 0 <= i < |omni|
      ensures && omni[i].0 == f(omni[i]).value.0
              && ExportMappingFrom(iso, [], omni[i].1).Ok?
              && f(omni[i]).value.1 == Obj(ExportMappingFrom(iso, [], omni[i].1).value)
    {
      GlobalEntryKey(iso, omni[i]);
    }
    forall k | KeyedBy(f, omni, k) ensures Has(omni, k) {
      var i :| 0 <= i < |omni| && f(omni[i]).Ok? && f(omni[i]).value.0 == k;
      GlobalEntryKey(iso, omni[i]);
    }
  }

  /** A scope's global entry is stored under the scope, holding its merged exports. */
  lemma GlobalEntryKey(iso: IsoFormat, scope: (string, Dict<Attr>))
    requires GlobalEntry(iso, scope).Ok?
    ensures GlobalEntry(iso, scope).value.0 == scope.0
    ensures ExportMappingFrom(iso, [], scope.1).Ok?
    ensures GlobalEntry(iso, scope).value.1 == Obj(ExportMappingFrom(iso, [], scope.1).value)
  {
  }

  /** An event log's document ends with "traces", one `extract_trace` result per trace
      in order. */
  lemma EventLogWritesEveryTrace(iso: IsoFormat, log: Log)
    requires log.cls == EventLogClass && EncodeLog(iso, log).Ok?
    ensures var last := EncodeLog(iso, log).value.fields[5];
            && last.0 == "traces" && last.1.Arr? && |last.1.items| == |log.elements|
            && forall i :: 0 <= i < |log.elements| ==>
                 && log.elements[i].TraceElem? && EncodeTrace(iso, log.elements[i].trace).Ok?
                 && last.1.items[i] == EncodeTrace(iso, log.elements[i].trace).value
  {
    TracesShape(iso, log.elements);
  }

  /** An event stream's document ends with "events", one object per event in order. */
  lemma EventStreamWritesEveryEvent(iso: IsoFormat, log: Log)
    requires log.cls == EventStreamClass && EncodeLog(iso, log).Ok?
    ensures var last := EncodeLog(iso, log).value.fields[5];
            && last.0 == "events" && last.1.Arr? && |last.1.items| == |log.elements|
            && forall i :: 0 <= i < |log.elements| ==>
                 && log.elements[i].EventElem? && EncodeEvent(iso, log.elements[i].event).Ok?
                 && last.1.items[i] == EncodeEvent(iso, log.elements[i].event).value
  {
    StreamEventsShape(iso, log.elements);
  }

  /** An event log holding an event, or an event stream holding a trace, is refused. */
  lemma MisplacedElementFails(iso: IsoFormat, log: Log, i: int)
    requires 0 <= i < |log.elements|
    requires (log.cls == EventLogClass && log.elements[i].EventElem?) || (log.cls == EventStreamClass && log.elements[i].TraceElem?)
    ensures EncodeLog(iso, log).Err?
  {
    TracesShape(iso, log.elements);
    StreamEventsShape(iso, log.elements);
  }

  /** The "global-attrs" entry of a document has one entry per scope of the log, holding
      the merged exports of the scope's attributes. */
  lemma GlobalAttrsPerScope(iso: IsoFormat, log: Log)
    requires EncodeLog(iso, log).Ok? && UniqueKeys(log.omniPresent)
    ensures var ga := EncodeLog(iso, log).value.fields[3].1;
            && ga.Obj? && UniqueKeys(ga.fields)
            && (forall k :: Has(ga.fields, k) <==> Has(log.omniPresent, k))
            && forall i :: 0 <= i < |log.omniPresent| ==>
                 && ExportMappingFrom(iso, [], log.omniPresent[i].1).Ok?
                 && Get(ga.fields, log.omniPresent[i].0) == Some(Obj(ExportMappingFrom(iso, [], log.omniPresent[i].1).value))
  {
    GlobalScopes(iso, [], log.omniPresent);
    var ga := GlobalAttrsFrom(iso, [], log.omniPresent).value;
    forall k ensures Has(ga, k) <==> Has(log.omniPresent, k) {
      if Has(log.omniPresent, k) {
        var i :| 0 <= i < |log.omniPresent| && log.omniPresent[i].0 == k;
        assert Get(ga, k).Some?;
      } else {
        assert Get(ga, k) == Get([], k);
      }
    }
  }

  // ---------------------------------------------------------------- decoding

  /** The entries of "traces" decode to one trace each, in order. */
  lemma DecodeTracesShape(iso: IsoFormat, items: seq<Json>)
    ensures DecodeTracesFrom(iso, [], items).Ok? <==> forall i :: 0 <= i < |items| ==> DecodeTrace(iso, items[i]).Ok?
    ensures DecodeTracesFrom(iso, [], items).Ok? ==>
            var r := DecodeTracesFrom(iso, [], items).value;
            && |r| == |items|
            && forall i :: 0 <= i < |items| ==> r[i] == TraceElem(DecodeTrace(iso, items[i]).value)
  {
    MapAllShape(j => DecodeTraceElem(iso, j), [], items);
  }

  /** A list of events decodes to one event each, in order, each holding what
      `import_attributes` gives for its entry. */
  lemma DecodeEventsShape(iso: IsoFormat, items: seq<Json>)
    ensures DecodeEventsFrom(iso, [], items).Ok? <==> forall i :: 0 <= i < |items| ==> ImportAttrs(iso, items[i]).Ok?
    ensures DecodeEventsFrom(iso, [], items).Ok? ==>
            var r := DecodeEventsFrom(iso, [], items).value;
            && |r| == |items|
            && forall i :: 0 <= i < |items| ==> r[i] == Event(ImportAttrs(iso, items[i]).value)
  {
    MapAllShape(j => DecodeEvent(iso, j), [], items);
  }

  /** A decoded trace holds one event per entry of its "events", in order. */
  lemma DecodedTraceKeepsEvents(iso: IsoFormat, t: Json)
    requires DecodeTrace(iso, t).Ok?
    ensures && Index(t, "events").Ok? && Iterate(Index(t, "events").value).Ok?
            && var items := Iterate(Index(t, "events").value).value;
               var events := DecodeTrace(iso, t).value.events;
               && |events| == |items|
               && forall i :: 0 <= i < |items| ==> ImportAttrs(iso, items[i]).Ok? && events[i] == Event(ImportAttrs(iso, items[i]).value)
  {
    DecodeEventsShape(iso, Iterate(Index(t, "events").value).value);
  }

  /** The scopes of "global-attrs" are exactly the keys the decoded global attributes
      gain. */
  lemma DecodeGlobalsKeys(iso: IsoFormat, acc: Dict<Dict<Attr>>, ga: Json, scopes: seq<Json>)
    requires DecodeGlobalsFrom(iso, acc, ga, scopes).Ok?
    ensures forall k :: Has(DecodeGlobalsFrom(iso, acc, ga, scopes).value, k) <==>
              Has(acc, k) || exists i :: 0 <= i < |scopes| && scopes[i] == Leaf(PStr(k))
    ensures UniqueKeys(acc) ==> UniqueKeys(DecodeGlobalsFrom(iso, acc, ga, scopes).value)
  {
    var f := s => ScopeEntry(iso, ga, s);
    PutAllKeys(f, acc, scopes);
    PutAllHas(f, acc, scopes);
    forall k ensures KeyedBy(f, scopes, k) <==> exists i :: 0 <= i < |scopes| && scopes[i] == Leaf(PStr(k)) {
      if exists i :: 0 <= i < |scopes| && scopes[i] == Leaf(PStr(k)) {
        var i :| 0 <= i < |scopes| && scopes[i] == Leaf(PStr(k));
        ScopeEntryKey(iso, ga, scopes[i]);
        assert f(scopes[i]).value.0 == k;
      }
      if KeyedBy(f, scopes, k) {
        var i :| 0 <= i < |scopes| && f(scopes[i]).Ok? && f(scopes[i]).value.0 == k;
        ScopeEntryKey(iso, ga, scopes[i]);
      }
    }
  }

  /** A scope entry is stored under the scope's own text. */
  lemma ScopeEntryKey(iso: IsoFormat, ga: Json, s: Json)
    requires ScopeEntry(iso, ga, s).Ok?
    ensures s == Leaf(PStr(ScopeEntry(iso, ga, s).value.0))
    ensures ScopeEntry(iso, ga, s).value.1 == DecodeAttributes(iso, Index(ga, s.p.s).value).value
  {
  }

  /** Each scope of "global-attrs" holds, in the decoded global attributes, the decoding
      of its own entry. */
  lemma DecodeGlobalsValues(iso: IsoFormat, acc: Dict<Dict<Attr>>, ga: Json, scopes: seq<Json>)
    requires DecodeGlobalsFrom(iso, acc, ga, scopes).Ok?
    ensures forall i :: 0 <= i < |scopes| ==>
              && scopes[i].Leaf? && scopes[i].p.PStr?
              && Index(ga, scopes[i].p.s).Ok?
              && DecodeAttributes(iso, Index(ga, scopes[i].p.s).value).Ok?
              && Get(DecodeGlobalsFrom(iso, acc, ga, scopes).value, scopes[i].p.s)
                 == Some(DecodeAttributes(iso, Index(ga, scopes[i].p.s).value).value)
  {
    var f := s => ScopeEntry(iso, ga, s);
    PutAllKeys(f, acc, scopes);
    forall i, j | 0 <= i < |scopes| && 0 <= j < |scopes| && f(scopes[i]).Ok? && f(scopes[j]).Ok? &&
                  f(scopes[i]).value.0 == f(scopes[j]).value.0
      ensures scopes[i] == scopes[j]
    {
      ScopeEntryKey(iso, ga, scopes[i]);
      ScopeEntryKey(iso, ga, scopes[j]);
    }
    PutAllEveryKey(f, acc, scopes);
    forall i | 0 <= i < |scopes|
      ensures && scopes[i] == Leaf(PStr(f(scopes[i]).value.0))
              && f(scopes[i]).value.1 == DecodeAttributes(iso, Index(ga, scopes[i].p.s).value).value
    {
      ScopeEntryKey(iso, ga, scopes[i]);
    }
  }

  /** A decoded log is an event log exactly when the document has "traces"; it holds the
      decoded traces, one per entry and in order, followed by the decoded events of
      "events", one per entry and in order. */
  lemma DecodedElements(iso: IsoFormat, doc: Fields)
    requires DecodeFields(iso, doc).Ok?
    ensures var log := DecodeFields(iso, doc).value;
            var nt := if Has(doc, "traces") then |Iterate(Get(doc, "traces").value).value| else 0;
            var ne := if Has(doc, "events") then |Iterate(Get(doc, "events").value).value| else 0;
            && (log.cls == EventLogClass <==> Has(doc, "traces"))
            && |log.elements| == nt + ne
            && (forall i :: 0 <= i < nt ==> log.elements[i].TraceElem?)
            && (forall i :: nt <= i < nt + ne ==> log.elements[i].EventElem?)
  {
    var log := DecodeFields(iso, doc).value;
    var traces := DecodeTraces(iso, doc).value;
    var events := DecodeStream(iso, doc).value;
    assert log.elements == traces + EventElems(events);
    if Has(doc, "traces") {
      DecodeTracesShape(iso, Iterate(Get(doc, "traces").value).value);
    }
    if Has(doc, "events") {
      DecodeEventsShape(iso, Iterate(Get(doc, "events").value).value);
    }
  }

  /** A document with neither "traces" nor "events" decodes to an empty event stream. */
  lemma NoElementsGivesEmptyStream(iso: IsoFormat, doc: Fields)
    requires !Has(doc, "traces") && !Has(doc, "events") && DecodeFields(iso, doc).Ok?
    ensures DecodeFields(iso, doc).value.cls == EventStreamClass
    ensures DecodeFields(iso, doc).value.elements == []
  {
    DecodedElements(iso, doc);
  }

  /** The global attributes of a decoded log have exactly one entry per scope of the
      document's "global-attrs". */
  lemma DecodedScopes(iso: IsoFormat, doc: Fields, k: string)
    requires Has(doc, "global-attrs") && DecodeFields(iso, doc).Ok?
    ensures && Iterate(Get(doc, "global-attrs").value).Ok?
            && var scopes := Iterate(Get(doc, "global-attrs").value).value;
               Has(DecodeFields(iso, doc).value.omniPresent, k) <==> exists i :: 0 <= i < |scopes| && scopes[i] == Leaf(PStr(k))
    ensures UniqueKeys(DecodeFields(iso, doc).value.omniPresent)
  {
    DecodedOmni(iso, doc);
    var ga := Get(doc, "global-attrs").value;
    DecodeGlobalsKeys(iso, [], ga, Iterate(ga).value);
  }

  /** A decoded log's global attributes are the decoded "global-attrs" section. */
  lemma DecodedOmni(iso: IsoFormat, doc: Fields)
    requires DecodeFields(iso, doc).Ok?
    ensures DecodeGlobals(iso, doc).Ok?
    ensures DecodeFields(iso, doc).value.omniPresent == DecodeGlobals(iso, doc).value
  {
  }

  /** A list or a string that names no section reads exactly as a dict with no sections:
      both give a fresh, empty event stream. */
  lemma SequenceReadsAsEmptyDocument(iso: IsoFormat, doc: Json)
    requires IsSequence(doc) && DecodeLog(iso, doc).Ok?
    ensures DecodeLog(iso, doc) == DecodeLog(iso, Obj([]))
  {
    assert DecodeFields(iso, []) == Ok(EmptyStream()) by {
      assert !Has<Json>([], "traces") && !Has<Json>([], "events");
      assert DecodeLogAttrs(iso, []) == Ok([]);
      assert DecodeExtensions([]) == Ok([]);
      assert DecodeGlobals(iso, []) == Ok([]);
      assert DecodeClassifiers([]) == Ok([]);
      assert DecodeTraces(iso, []) == Ok([]);
      assert DecodeStream(iso, []) == Ok([]);
      assert [] + EventElems([]) == [];
    }
  }

  /** The empty list and the empty string name no section, so each reads as an empty
      event stream. */
  lemma EmptySequencesGiveEmptyStream(iso: IsoFormat)
    ensures DecodeLog(iso, Arr([])) == Ok(EmptyStream())
    ensures DecodeLog(iso, Leaf(PStr(""))) == Ok(EmptyStream())
  {
    forall key | key in ReadSections ensures !SequenceHas(Leaf(PStr("")), key) {
      assert |key| > 0;
    }
  }
}

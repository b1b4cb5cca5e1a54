# JXES converter core, in Dafny

This project models the converter between process-mining event logs and JXES, the JSON
encoding of XES, as `jxes/jxes.py` implements it. The model has two halves.

- **The attribute tree codec.**
  - `get_attr_value`, `export_attribute` and `parse_attr_value` are modelled as functions (`AttributeCodec`).
  - `import_attributes` is modelled as a function and as the loop that fills the output dict (`AttributeImport`).
- **The log assembler.**
  - `extract_trace`, `log_to_jxes` and `jxes_to_log` are modelled as functions (`LogFormat`).
  - Each is also modelled as the loops the source runs (`LogAssembler`). Every method is proved to return what its function gives.

Values:
- A document is a `Json` tree. Objects are association lists with Python dict semantics (`Dicts`): assigning to a key that is already present keeps its position and replaces its value.
- An attribute value is an `Attr`. It is either a scalar, a nested attribute (a value plus a dict of children), a list container, a set container, or a plain JSON list or dict that decoding left undecoded.
- A log is a `Log` value. It holds a class (event log, event stream or any other class), attributes, extensions, global attributes per scope, classifiers and elements (traces or events).
- Every operation that can raise returns a `Result`. The first exception in evaluation order is the one kept.
- `datetime.isoformat` and `datetime.fromisoformat` are not modelled. They are the two function fields of an `IsoFormat` parameter, and a timestamp is an uninspected record.

What is proved:
- The codec's shape lemmas are in `CodecProperties`.
- Round trips:
  - `CodecRoundTrip.AttributesRoundTrip` covers attribute mappings.
  - `LogRoundTrip.LogRoundTrip` covers whole logs.
  - Both hold for values that survive the trip, as `CodecRoundTrip.Portable` and `LogRoundTrip.PortableLog` define them: no None, no string that looks like a timestamp, datetimes whose ISO text parses back, distinct names, scalar list children, and no set member named "value" (such a set would be read back as a nested attribute).
  - For a whole log, also: the class is an event log or an event stream, trace attributes are scalars, and every element is of the log's own kind (traces in an event log, events in an event stream).
- The layout of the document and of the decoded log is in `LogProperties`.

The code and the design description differ in places; the model follows the code:
- A nested attribute's own value is written as it is (`jxes/jxes.py:47`), not through `get_attr_value`. A datetime value therefore stays a datetime in the tree (`CodecProperties.NestedValueCopiedRaw`).
- A nested attribute whose value is None takes the container path. That path unpacks each child *name* into a pair of characters (`jxes/jxes.py:36-43`, `CodecProperties.NoneValuedNestedUnpacksNames`).
- Trace attributes are read back with `parse_attr_value` alone, not with `import_attributes` (`jxes/jxes.py:176-177`). A list, set or nested trace attribute therefore comes back as plain JSON.
- The attributes of the log and of each global scope are parsed a second time after `import_attributes` (`jxes/jxes.py:159-160, 167-168`).
- Documents with both or neither of "traces" and "events" are not refused:
  - with "traces", the result is an event log whose traces come before the stream's events;
  - without it, the result is an event stream, empty when neither key is there (`LogProperties.DecodedElements`, `LogProperties.NoElementsGivesEmptyStream`).
- A top-level list or string is not refused either. Every `in` test works on it, so it reads as an empty event stream unless it contains a section name. When it does, the section is subscripted with a string, which raises (`LogFormat.DecodeLog`, `LogProperties.SequenceReadsAsEmptyDocument`).

## Model

| member | source | states |
|---|---|---|
| AttributeCodec.GetAttrValue | jxes/jxes.py:20-24 | a datetime becomes its ISO 8601 text, so the result is never a datetime; any other scalar comes back unchanged |
| AttributeCodec.ExportAttribute | jxes/jxes.py:26-49 | the mapping is empty exactly when the value is None; otherwise it has one entry, under the attribute's name; for a scalar that is not None that entry holds `get_attr_value` of it (ISO text for a datetime, any other scalar, a timestamp-like string included, as it is) |
| AttributeCodec.ParsePrim | jxes/jxes.py:117-120 | a value that is not a timestamp-shaped string comes back unchanged; a timestamp-shaped string becomes the datetime `fromisoformat` gives, and the parse fails exactly when `fromisoformat` refuses it; no result is timestamp-shaped text |
| TimestampPattern.MatcherAgreesWithPattern | jxes/jxes.py:15-17 | the left-to-right matcher accepts exactly the strings of the declarative reading of the regular expression |
| TimestampPattern.UtcExampleMatches | jxes/jxes.py:15-17 | example: one UTC timestamp ending in `Z` matches |
| TimestampPattern.BarePointDoesNotMatch | jxes/jxes.py:15-17 | example: one timestamp with a point and no fraction digits does not match |
| AttributeImport.ImportAttributes | jxes/jxes.py:122-146 | the loop that fills the output dict computes `import_attributes` |
| AttributeImport.ImportOne | jxes/jxes.py:125-145 | the body of the loop computes the decoding of one value |
| AttributeImport.AddMembers | jxes/jxes.py:141-143 | the set-container loop adds each decoded, re-parsed child in turn |
| AttributeImport.Reparse | jxes/jxes.py:136-138 | the nested-attribute loop stores each decoded, re-parsed child under its name |
| CodecProperties.ParseIdempotent | jxes/jxes.py:117-120 | parsing a parsed value gives it back |
| CodecProperties.ExportListShape | jxes/jxes.py:38-40 | a list container exports to one one-key object per child, in order, repeated names kept; it fails exactly when a child fails |
| CodecProperties.ImportListShape | jxes/jxes.py:125-130 | an array imports to one child per element, in order; it fails exactly when an element fails |
| CodecProperties.ListElementMustHaveOneKey | jxes/jxes.py:129 | an array element that is an object without exactly one key makes the import fail |
| CodecProperties.ListNoneChildDoesNotReturn | jxes/jxes.py:26-40 | a None list child exports as an empty object, which does not import |
| CodecProperties.NestedInListStaysRaw | jxes/jxes.py:128-130 | a nested attribute inside a list imports as plain JSON, which no longer exports |
| CodecProperties.MergeLastWins | jxes/jxes.py:47 | in a merged mapping each name holds the export of its last child that writes anything, and names with only None children are absent |
| CodecProperties.MergeKeepsKeysUnique | jxes/jxes.py:47 | a merged mapping has each name once |
| CodecProperties.SetMergeLastWins | jxes/jxes.py:43 | the members of a set container merge the same way: the last member of a name wins |
| CodecProperties.NestedValueCopiedRaw | jxes/jxes.py:45-49 | a nested attribute's datetime value is written as a datetime, while a datetime scalar is written as its ISO text |
| CodecProperties.NoneValuedNestedUnpacksNames | jxes/jxes.py:36-43 | when every child name of a nested attribute with a None value has two characters, the export succeeds and writes an object in which each first character holds the second character of the last child name starting with it |
| CodecProperties.NoneValuedNestedRejectsLongName | jxes/jxes.py:36-43 | such an attribute raises on its first child name that does not have two characters, whatever its length |
| CodecProperties.NoneValuedNestedReturnsAsSet | jxes/jxes.py:36-43 | what such an attribute writes has no "value" key, so if it imports at all it imports as a set container, never as a nested attribute |
| CodecProperties.NoneValuedEmptyNestedReturnsAsSet | jxes/jxes.py:36-43 | with no children, such an attribute writes the empty object, which imports as an empty set container |
| CodecProperties.NoneValuedNestedImports | jxes/jxes.py:131-138 | the object `{"value": null, "nested-attributes": {}}` imports as a nested attribute with a None value and no children |
| CodecProperties.ImportKeys | jxes/jxes.py:122-146 | `import_attributes` stores one entry per input key, holding the decoding of that key's last value, and nothing else |
| CodecProperties.ImportDecodesAll | jxes/jxes.py:122-146 | `import_attributes` succeeds only when every value decodes |
| CodecProperties.AllDecodeImports | jxes/jxes.py:122-146 | conversely, `import_attributes` succeeds whenever every value decodes |
| CodecProperties.ImportKeepsKeysUnique | jxes/jxes.py:122-146 | the dict it fills has each key once |
| CodecProperties.ImportShape | jxes/jxes.py:125-145 | the shape depends on the JSON value: an array gives a list, an object with "value" a nested attribute, another object a set, and a scalar its parsed self; a nested attribute holds its "value" entry passed through `parse_attr_value` and the children decoded from "nested-attributes" and parsed again; a set holds the members added from the object's decoded entries |
| CodecProperties.ImportNeedsObject | jxes/jxes.py:122-124 | `import_attributes` raises on anything but an object |
| CodecProperties.SetChildDictIsUnhashable | jxes/jxes.py:139-143 | an object without a "value" key raises when any of its entries (the last one of its name) decodes to a list, set or nested attribute, because that dict cannot be added to a set |
| CodecRoundTrip.ScalarRoundTrip | jxes/jxes.py:117-120 | a portable scalar written through `get_attr_value` parses back to itself |
| CodecRoundTrip.ParseAttrPortable | jxes/jxes.py:117-120 | a portable value is left unchanged by the parse |
| CodecRoundTrip.ValueRoundTrip | jxes/jxes.py:122-146 | exporting a portable value and importing what was written gives the value back |
| CodecRoundTrip.ListRoundTrip | jxes/jxes.py:125-130 | a list container of portable scalars comes back with the same pairs in the same order, repeated names included |
| CodecRoundTrip.SetRoundTrip | jxes/jxes.py:139-143 | a set container with distinct portable members, none named "value", comes back with the same members |
| CodecRoundTrip.NestedRoundTrip | jxes/jxes.py:131-138 | a nested attribute whose children each come back also comes back |
| CodecRoundTrip.MappingRoundTrip | jxes/jxes.py:122-146 | children with distinct names that each come back also come back together through one merged mapping |
| CodecRoundTrip.AttributesRoundTrip | jxes/jxes.py:122-146 | portable attributes with distinct names are written as one mapping and imported back unchanged |
| Dicts.Put | jxes/jxes.py:160 | after `d[k] = v`, `k` holds `v`, every other key holds what it held, a new key goes last, an existing key keeps its place (the key order is unchanged), and keys stay distinct |
| Dicts.Update | jxes/jxes.py:55 | `d.update(e)` keeps the keys `e` lacks with their values, holds every key of `e`, and keeps keys distinct |
| Dicts.UpdateAssigns | jxes/jxes.py:55 | after `d.update(e)`, every key of `e` holds the last value `e` gives it |
| LogFormat.EncodeLog | jxes/jxes.py:60-106 | the document has the fixed "log-properties", then "log-attrs", "extensions", "global-attrs" and "classifiers"; it then has "traces" exactly for an event log and "events" exactly for an event stream; any other class raises |
| LogFormat.DecodeFields | jxes/jxes.py:148-197 | the decoded log is an event log exactly when the document has "traces", and an event stream otherwise |
| LogFormat.DecodeLog | jxes/jxes.py:148-197 | a number, boolean or null document raises at the first `in` test; a list or a string succeeds exactly when it contains none of the section names the reader subscripts, and then gives an empty event stream |
| LogAssembler.ExportAttributes | jxes/jxes.py:68-70 | the `.update` loop over the attributes computes their merged export |
| LogAssembler.ExtractTrace | jxes/jxes.py:52-58 | the loops of `extract_trace` compute the encoded trace |
| LogAssembler.LogToJxes | jxes/jxes.py:60-106 | the section-by-section loops of `log_to_jxes` compute the document of `LogFormat.EncodeLog` |
| LogAssembler.ReadAttributes | jxes/jxes.py:159-160 | `import_attributes` with each result parsed again into a fresh dict |
| LogAssembler.ReadLogAttrs | jxes/jxes.py:158-160 | the "log-attrs" section, or no attributes when it is absent |
| LogAssembler.ReadExtensions | jxes/jxes.py:161-163 | the loop over "extensions" stores each extension under its name |
| LogAssembler.ReadGlobals | jxes/jxes.py:164-168 | the loop over the scopes of "global-attrs" |
| LogAssembler.ReadClassifiers | jxes/jxes.py:169-171 | the loop over "classifiers" copies each list |
| LogAssembler.ReadEvents | jxes/jxes.py:178-181 | the loop over a list of events builds one event per entry |
| LogAssembler.ReadTrace | jxes/jxes.py:175-181 | one trace: its attributes parsed and stored, then its events appended |
| LogAssembler.ReadTraces | jxes/jxes.py:172-184 | the loop over "traces" appends one trace per entry |
| LogAssembler.ReadStream | jxes/jxes.py:186-192 | the loop over "events" appends one event per entry |
| LogAssembler.ReadSequence | jxes/jxes.py:148-197 | on a list or string document the reader's `in` tests compute `LogFormat.DecodeSequence`: an empty event stream, or an error once a section is found |
| LogAssembler.JxesToLog | jxes/jxes.py:148-197 | `jxes_to_log`'s section-by-section filling of a fresh log computes the log of `LogFormat.DecodeLog` |
| LogProperties.TracesShape | jxes/jxes.py:86-92 | an event log's elements encode to one `extract_trace` result each, in order; this fails exactly when an element is an event or a trace fails |
| LogProperties.StreamEventsShape | jxes/jxes.py:93-99 | an event stream's elements encode to one object each, in order; this fails exactly when an element is a trace or an event fails |
| LogProperties.TraceKeepsEvents | jxes/jxes.py:52-58 | an encoded trace holds its merged attributes under "attrs" and one object per event, in order, under "events" |
| LogProperties.ExtensionsShape | jxes/jxes.py:72-74 | the extensions become one object each, in order |
| LogProperties.GlobalScopes | jxes/jxes.py:76-80 | each scope holds the merged export of its attributes; nothing else changes; keys stay distinct |
| LogProperties.EventLogWritesEveryTrace | jxes/jxes.py:86-92 | an event log's document ends with "traces", one `extract_trace` result per trace, in order |
| LogProperties.EventStreamWritesEveryEvent | jxes/jxes.py:93-99 | an event stream's document ends with "events", one object per event, in order |
| LogProperties.MisplacedElementFails | jxes/jxes.py:86-99 | an event log holding an event, or an event stream holding a trace, is refused |
| LogProperties.GlobalAttrsPerScope | jxes/jxes.py:76-80 | "global-attrs" has exactly the log's scopes as keys, each once, each holding the merged export of its attributes |
| LogProperties.DecodeTracesShape | jxes/jxes.py:172-184 | the entries of "traces" decode to one trace each, in order |
| LogProperties.DecodeEventsShape | jxes/jxes.py:186-190 | a list of events decodes to one event per entry, in order, each holding `import_attributes` of the entry |
| LogProperties.DecodedTraceKeepsEvents | jxes/jxes.py:178-181 | a decoded trace holds one event per entry of its "events", in order |
| LogProperties.DecodeGlobalsKeys | jxes/jxes.py:164-168 | the decoded global attributes gain exactly the scopes listed, and keys stay distinct |
| LogProperties.DecodeGlobalsValues | jxes/jxes.py:164-168 | each scope holds the decoding of its own entry |
| LogProperties.DecodedElements | jxes/jxes.py:150-192 | the log is an event log exactly when "traces" is present; it holds one trace per entry of "traces", followed by one event per entry of "events" |
| LogProperties.NoElementsGivesEmptyStream | jxes/jxes.py:150-153 | a document with neither "traces" nor "events" decodes to an empty event stream |
| LogProperties.SequenceReadsAsEmptyDocument | jxes/jxes.py:148-197 | a list or string document that reads at all reads exactly as an empty dict document |
| LogProperties.EmptySequencesGiveEmptyStream | jxes/jxes.py:148-197 | the empty list and the empty string read as an empty event stream |
| LogProperties.DecodedScopes | jxes/jxes.py:164-168 | the decoded log has exactly one global-attribute entry per scope of "global-attrs" |
| LogRoundTrip.AttrsBack | jxes/jxes.py:158-160 | portable attributes are written as their entries and read back with or without the second parse |
| LogRoundTrip.EventsBack | jxes/jxes.py:178-181 | portable events are written one object each, in order, and read back |
| LogRoundTrip.TraceAttrsBack | jxes/jxes.py:176-177 | portable scalar trace attributes are written as their entries and read back by the parse alone |
| LogRoundTrip.TraceBack | jxes/jxes.py:174-181 | a portable trace is written by `extract_trace` and read back |
| LogRoundTrip.TracesBack | jxes/jxes.py:172-184 | an event log's portable traces are written in order and read back |
| LogRoundTrip.StreamBack | jxes/jxes.py:186-192 | an event stream's portable events are written in order and read back as the same elements |
| LogRoundTrip.ExtensionsBack | jxes/jxes.py:161-163 | extensions with distinct names are written one object each and read back |
| LogRoundTrip.GlobalsWritten | jxes/jxes.py:76-80 | scopes with distinct names are written one object each, under the scope |
| LogRoundTrip.GlobalsRead | jxes/jxes.py:164-168 | the written scopes are read back by looking each one up |
| LogRoundTrip.ClassifiersBack | jxes/jxes.py:169-171 | classifiers with distinct names are written one list each and copied back |
| LogRoundTrip.LogWritten | jxes/jxes.py:60-106 | `log_to_jxes` writes a portable log as its document |
| LogRoundTrip.LogRead | jxes/jxes.py:148-197 | `jxes_to_log` reads that document back as the same log |
| LogRoundTrip.LogRoundTrip | jxes/jxes.py:60-197 | a portable log is written by `log_to_jxes` and read back by `jxes_to_log` unchanged |

## Left out

- File and stream I/O, the JSON text format and the command-line entry point (`write_log`, `write_jxes`, `read_log`, `read_jxes`, `__main__`): only the object trees are modelled.
- Progress bars and the debug print: they do not affect results.
- `datetime.isoformat` and `datetime.fromisoformat` are parameters. A round trip through them is the explicit assumption `CodecRoundTrip.RoundTrips`, not a proof about calendars or time zones.
- Floats are opaque 64-bit patterns, with no arithmetic.
- Python's regular-expression fine print is not modelled: `$` also matches before a final newline, and `\d` also matches non-ASCII digits. The pattern here uses ASCII digits and a strict end.
- The `attr_name is None` guard of `export_attribute`: names are always strings here.
- A plain dict attribute value that has both "value" and "children" keys is not followed. It is left undecoded as plain JSON, and exporting it is outside the model.
- Python's equality of `1`, `1.0` and `True` when they are set members is not modelled. Set members are kept once each, in insertion order, where Python's order is its hash order.
- Non-string names in "extensions", non-string scopes in "global-attrs", and classifiers that are objects or lists of non-strings are outside the model. `str(attr)` on classifier entries is the identity, because entries are strings.
- The pm4py log classes are modelled as values: `jxes_to_log` builds a fresh `Log` instead of mutating a fresh object, so object identity and aliasing are not captured.
- An extension is a record of prefix and URI, so a declaration missing either key is not modelled.
- A datetime left inside a nested attribute's value round-trips at the level of trees only, because `json.dump` would refuse it.
- LogProperties.GlobalScopes: requires distinct scope names, as the keys of the source's dict are.
- LogProperties.GlobalAttrsPerScope: requires distinct scope names, as the keys of the source's dict are.
- LogRoundTrip.LogRoundTrip: covers portable logs only: no None values, no timestamp-shaped strings, datetimes that parse back, distinct names, scalar trace attributes, and elements of the log's own class.

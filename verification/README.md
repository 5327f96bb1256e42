# The proto3 message codec of tikv-cpp

A Dafny model of the generated message code under `kvproto/`: how the classes of
`coprocessor.pb.cc` and `debugpb.pb.cc` parse, serialize, size, merge, copy, clear and swap
messages, and how the accessors of their headers own nested messages. The generated code exists
many times over, once per message; what has to agree are its parts. The parser, the stream
serializer, the array serializer, the size pass with its cached sizes, and the field-wise merge are
separate pieces of code for every message, and the project proves that they fit together over all
messages and all byte strings.

## How it is organised

- `Wire`, `WireLaws`, `Utf8`: the library primitives, written out concretely from the Protocol
  Buffers Encoding specification ("Base 128 Varints", "Message Structure", "Length-Delimited
  Records") and section 4 of RFC 3629, each with its own round trip.
- `WireBytes`: what those primitives are on literal bytes, tags and widths.
- `Codec`: the meaning of a generated class as a function of its field table. A message value is one
  value per field plus the list of unknown fields. `Catalogue` gives the field tables of all
  messages of `coprocessor.proto` and `debugpb.proto` and of everything nested in them.
- `Parsing`, `Stopping`, `RoundTrip`, `MergeLaws`, `Stability`, `FailedParses`, `ExplicitDefaults`,
  `Growth`, `Sizing`, `Prefixes`, `SizeCaching`: the laws, for every field table and every message.
- `ParseSteps`, `Streams`, `FieldSteps`: one turn of the parse loop, with what a failing turn may leave
  in the message; the input and output objects; the steps all classes share.
- `KeyRangeMessage`, `RequestMessage` (with `RequestValues`), `CompactRequestMessage`,
  `RegionSizeRequestMessage`: the generated classes in their own form, objects whose methods update
  fields in place, loop over tags and elements and write into arrays, each proved against the codec.
  `ForeignMessage` stands for a nested class of another package.
- `Nesting`, `Format`, `MessageLaws`, `NestedLaws`, `KnownBytes`: every message spelled out by field number
  and proto type, with its bytes and exactly when it is read back, and numbers one can check by hand.
- `Runs`, `KeyRangeRuns`, `Ownership`: whole sequences of operations, on message values, carried out by
  `KeyRange` objects, and on pointers.

Between them the four classes cover bytes, string, repeated string, open enum, int64, uint32,
uint64, optional and repeated nested messages and unknown fields; bool is covered by the codec alone.

## Main results

- Round trip, exactly: a message is read back from its serialization if and only if no unknown
  field carries a known tag, every string is valid UTF-8 and the nesting fits the recursion limit.
- The first of these conditions holds at every moment of every run of parses, merges, copies, clears,
  swaps and setters, failed parses and what they leave behind included. The other two do not: a
  refused string stays in its message, and a nested message one level too deep is allocated before it
  is refused; a three-byte input shows it. They hold throughout every possible run exactly when no
  setter stores such a value and no parse fails inside a string or too deep.
- Parsing the serialization of `x` followed by that of `y` merges `x` and then `y`. For arbitrary
  inputs this law fails: an explicit default on the wire overwrites, whereas `MergeFrom` skips
  defaults. It holds for two inputs exactly when no scalar field of the second ends on its default
  value where the first has given it another, and a two-record `KeyRange` shows it failing.
- Any input that parses is rewritten to a canonical form of at most twice its length, which parses
  to the same message and is rewritten to itself.
- The streaming parser, failures included, is the field-by-field reading of its input, so the order
  between fields is free; it stops exactly behind complete records at a zero tag or at the end.
- `ByteSizeLong` is the number of bytes written. The serializers, which trust sizes cached in nested
  objects, write the right bytes if and only if every nested object at every depth caches the length
  of its own serialization; `ByteSizeLong` establishes that, and one stale size shows in the output.
- `MergeFrom` makes the messages of a class a monoid. Copies are deep.
- A run of accessor calls keeps every nested object owned exactly once if and only if every
  `set_allocated` and every delete was given an object the program owned and every write went to a
  live object. Then messages have value semantics, a write through a kept pointer is unseen by every
  message exactly when the program owns the object, and presence is decided by the last step that
  installed or removed something.

- All of this is tied to bytes: for each of the 27 messages of the two files and the 27 nested in them,
  which values its fields hold, its serialization field by field, which unknown fields clash with it, and
  that it is read back exactly when its strings are valid and its nesting fits; for every 64-bit varint,
  what a numeric field then holds; and for every wire type, its tag, width and byte order.

## Assumptions

- Sizes cached as `int` and length prefixes are modelled with their conversions; the round trips
  assume a serialization below 2^31 bytes, which is what the parser accepts as a length.
- A varint has at most ten bytes and is cut to 64 bits; a tag is cut to 32 bits; a length beyond
  2^31 - 1 or beyond the current limit is an error. Nested messages and groups spend one unit of the
  recursion limit each.
- The flag that preserves unknown fields is on. Unknown fields are a list of records, groups nested.
- A parse that returns false leaves what the records before the failing one left. A number is then
  unchanged; a blob that is cut short may hold any bytes; a refused string stays; an element of a
  repeated field, a nested message and a length-delimited record or group among the unknown fields
  are there before they are read into, and may be half read.
- Objects live on the ordinary heap, not in an arena, and are not the default instance. Move
  assignment is then a swap.

## Model

| member | source | states |
|---|---|---|
| RoundTrip.SerializeThenParse | kvproto/coprocessor.pb.cc:996-1153 | for every message without clashing unknown fields, parsing its serialization onto any message succeeds if and only if every string is valid UTF-8 and the nesting fits, and the result is then the merge |
| Stability.RoundTripExactly | kvproto/coprocessor.pb.cc:572-689 | a message comes back from its own serialization if and only if its unknown fields carry no known tag, its strings are valid and its nesting fits, at every level |
| Stability.ConcatenationIsMerge | kvproto/coprocessor.pb.cc:1287-1314 | parsing serialize(x) followed by serialize(y) onto z gives z merged with x and then y, and fails exactly when x or y is unreadable by itself |
| Stability.ParseKeeps | kvproto/coprocessor.pb.cc:281-320 | parsing any bytes never puts a record with a known number and wire type among the unknown fields, at any level, and never admits an invalid string or too deep a nesting |
| Stability.MergeKeeps | kvproto/coprocessor.pb.cc:794-812 | merging keeps the dispatch invariant, and separately UTF-8 validity and the nesting bound |
| Stability.Canonical | kvproto/debugpb.pb.cc:4185-4349 | what an accepted input is rewritten to parses to the same message, whatever its field order, repeats and unknown fields |
| Growth.CanonicalForm | kvproto/debugpb.pb.cc:4185-4349 | the same for every accepted input below 2^30 bytes with no assumption on the output, which has at most twice the input's length |
| Growth.ParseGrows | kvproto/debugpb.pb.cc:4185-4460 | a parse adds at most two bytes of serialization for every byte of input, sign-extended enums and nested prefixes included |
| Growth.LexNeverLonger | kvproto/debugpb.pb.cc:4604-4627 | writing the records of an input again never takes more bytes than the input, since no other spelling of a varint is shorter |
| ExplicitDefaults.ParseOntoIsMergeExactly | kvproto/coprocessor.pb.cc:996-1100 | parsing onto every message equals merging the parsed message if and only if no scalar field of the input, at any level, ends on an explicit default |
| ExplicitDefaults.ParseOntoIsMerge | kvproto/coprocessor.pb.cc:996-1100 | parsing an input onto a given message equals merging the parsed message if and only if no scalar field of the input, at any level, ends on its default where the message holds another value |
| ExplicitDefaults.ConcatenatedInputs | kvproto/coprocessor.pb.cc:1287-1314 | for two raw inputs, parse of concatenation is merge of parses if and only if no scalar field of the second ends on its default where the first has given it another value |
| ExplicitDefaults.ExplicitDefaultOverwrites | kvproto/coprocessor.pb.cc:427-442 | a concrete KeyRange input on which parsing overwrites a start key that merging keeps |
| Parsing.AcceptanceIgnoresStart | kvproto/debugpb.pb.cc:4185-4297 | whether an input is accepted does not depend on the message it is parsed onto |
| Parsing.MergePartialIsFold | kvproto/coprocessor.pb.cc:572-650 | a complete parse lexes the whole input into records and applies them in order, and fails exactly when one of the two does |
| Parsing.ParseConcat | kvproto/coprocessor.pb.cc:572-650 | parsing two inputs one after the other is parsing their concatenation, from every message, when the first one parses |
| Parsing.FoldIsByField | kvproto/coprocessor.pb.cc:572-650 | the result of the dispatch loop, failure included, is decided by each field from its own records alone, and unknown records keep their order |
| Parsing.FieldFoldIsMeaning | kvproto/debugpb.pb.cc:2772-2831 | a scalar ends as its last record, a repeated field as its start followed by every payload, an optional message as the parse of its payloads joined; a string fails if any of its records is invalid, overwritten ones included |
| Parsing.ParseMeaning | kvproto/debugpb.pb.cc:3322-3362 | the parser accepts exactly the inputs that lex and whose fields all have a meaning, and computes that meaning |
| Parsing.FieldOrderIsFree | kvproto/coprocessor.pb.cc:572-650 | record sequences that agree field by field and on the order of unknown records parse alike, failures included |
| Parsing.SwapNeighbours | kvproto/coprocessor.pb.cc:572-650 | swapping adjacent records with different numbers, at least one of them known, changes nothing |
| Stopping.StopsExactly | kvproto/debugpb.pb.cc:4604-4627 | the loop returns true exactly when the input is complete applicable records followed by a zero tag or by nothing, having applied those records and nothing else |
| Stopping.OneRecord | kvproto/coprocessor.pb.cc:281-320 | a turn of the loop consumes at least one byte, and depends on no byte behind those it consumes |
| MergeLaws.MergeAssociative | kvproto/coprocessor.pb.cc:1287-1314 | merging is associative through scalars, optional and repeated messages and unknown fields |
| MergeLaws.MergeUnits | kvproto/coprocessor.pb.cc:1323-1328 | the cleared message is a unit on both sides, so clearing and merging copies |
| Sizing.ByteSizeIsLength | kvproto/debugpb.pb.cc:4299-4460 | the size summed field by field with one byte per known tag is the length of the serialization, for every message |
| Sizing.RecordSizesAreLength | kvproto/debugpb.pb.cc:4408-4416 | the size of the unknown fields, groups included, is the number of bytes they are written in |
| SizeCaching.SizeLongCaches | kvproto/coprocessor.pb.cc:1216-1270 | ByteSizeLong returns the length of the serialization, changes no value, and leaves in every object at every depth the length of that object's own serialization |
| SizeCaching.Protocol | kvproto/coprocessor.pb.cc:1102-1153 | the serializers write the serialization if and only if every nested object at every depth caches its own length; otherwise the outputs already differ at a position both have |
| SizeCaching.SizeThenWrite | kvproto/debugpb.pb.cc:3364-3432 | sizing and then writing gives exactly the serialization, in exactly the announced number of bytes |
| FailedParses.ReachedIsClean | kvproto/coprocessor.pb.cc:281-328 | whatever a parse returned and wherever it failed, no known tag got among the unknown fields, at any level |
| FailedParses.StaysReadableExactly | kvproto/debugpb.pb.cc:4191-4297 | everything a parse may leave in a readable message is readable if and only if its input does not fail inside a string or at a nested message too deep |
| FailedParses.RefusedStringStays | kvproto/debugpb.pb.cc:4211-4222 | a concrete three-byte input is refused for its string and leaves that string, and a message merged from it cannot be read back |
| Runs.RunsStayClean | kvproto/debugpb.pb.cc:4191-4297 | at no moment of any run of parses, merges, copies, clears, swaps and setters does a message hold an unknown field with a known tag, failed parses and what is made from them included |
| Runs.RunsStayReadableExactly | kvproto/debugpb.pb.cc:2772-2831 | in every possible run all strings stay valid and all nesting within the limit, in every message at every moment, if and only if no setter stores such a value and no parse fails inside a string or too deep |
| Runs.ReachableRoundTrip | kvproto/debugpb.pb.cc:2796-2859 | every message at every moment of every run is read back from its serialization when its strings are valid and its nesting fits, and refused otherwise |
| Ownership.StepKeepsOwned | kvproto/coprocessor.pb.h:991-1042 | a call of an accessor, clear, merge, copy or swap, or a write through a pointer, keeps every object in exactly one place if and only if the caller owned what it gave away or deleted, or wrote to a live object |
| Ownership.RunsAreSafeExactly | kvproto/coprocessor.pb.h:991-1042 | the same for whole runs, at every step of them |
| Ownership.StepMeans | kvproto/coprocessor.pb.cc:1287-1349 | with single ownership the pointer code acts on nested values as on values that cannot be shared |
| Ownership.RunMeans | kvproto/coprocessor.pb.cc:969-994 | value semantics over whole runs: a write through one message is never seen in another, and a write through a kept pointer only in the field that owns the object |
| Ownership.PresenceIsLastEffect | kvproto/coprocessor.pb.h:991-1042 | after any run a field is non-null exactly when the last effective step installed it, followed through swaps, merges and copies |
| Ownership.CopyIsDeep | kvproto/coprocessor.pb.cc:1323-1328 | CopyFrom gives the target the source's values in objects of its own and changes no other message |
| Ownership.ReleaseThenGiveBack | kvproto/coprocessor.pb.h:1008-1042 | releasing a nested message and setting it back restores everything |
| Ownership.WriteIsUnseenExactly | kvproto/coprocessor.pb.h:1009-1042 | a write through a kept pointer to a live object is seen in no message if and only if the program owns the object |
| Catalogue.CoreMessagesWellFormed | kvproto/debugpb.pb.cc:1146-8555 | every message of the two files has distinct field numbers below 16, at every level, so all laws apply to it |
| CompactRequestMessage.OpenEnumSurvives | kvproto/debugpb.pb.cc:4194-4277 | every 32-bit enum value, declared or not, is written in EnumSize bytes (ten when negative) and read back |
| RoundTrip.NumberRoundTrip | kvproto/coprocessor.pb.cc:594-606 | every value of every varint-coded type survives conversion to the wire and back |
| Wire.VarintRoundTrip | kvproto/coprocessor.pb.cc:594-606 | every unsigned 64-bit value is read back from its varint, whatever follows it |
| Wire.LexRoundTrip | kvproto/coprocessor.pb.cc:684-687 | unknown fields are read back exactly when their groups fit the recursion limit |
| Utf8.ValidIffEncoding | kvproto/debugpb.pb.cc:2796-2806 | the validity check accepts exactly the encodings of sequences of Unicode scalar values |
| FieldSteps.TurnOfField | kvproto/debugpb.pb.cc:4191-4289 | the one-byte tag of a known field brings its record to that field and to no other, and a failing record touches that field alone |
| FieldSteps.TurnUnusual | kvproto/debugpb.pb.cc:4278-4289 | every other tag, known number with wrong wire type included, goes to the unknown fields |
| FieldSteps.ReadStringField | kvproto/debugpb.pb.cc:4211-4222 | a string is read and then verified; an invalid one fails the parse and stays |
| KeyRangeMessage.KeyRange.constructor | kvproto/coprocessor.pb.cc:214-242 | a new message is the cleared message |
| KeyRangeMessage.KeyRange.Copy | kvproto/coprocessor.pb.cc:221-235 | the copy constructor gives the value of its source |
| KeyRangeMessage.KeyRange.Clear | kvproto/coprocessor.pb.cc:265-274 | clearing gives the cleared message |
| KeyRangeMessage.KeyRange.MergePartialFromCodedStream | kvproto/coprocessor.pb.cc:276-328 | the tag loop ends as the codec's parser does from the same message and input, stays inside its limit, and leaves what a failed parse may leave |
| KeyRangeMessage.KeyRange.ParseField | kvproto/coprocessor.pb.cc:285-319 | the switch on cutoff, field number and low tag byte takes one step of the codec's parser, or leaves what a failing step may leave |
| KeyRangeMessage.KeyRange.SerializeWithCachedSizes | kvproto/coprocessor.pb.cc:330-353 | the stream receives the serialization behind what it held |
| KeyRangeMessage.KeyRange.InternalSerializeWithCachedSizesToArray | kvproto/coprocessor.pb.cc:355-382 | the array receives the same bytes, the position moves by their number, no other cell changes |
| KeyRangeMessage.KeyRange.ByteSizeLong | kvproto/coprocessor.pb.cc:384-410 | the result is the length of the serialization and is cached |
| KeyRangeMessage.KeyRange.MergeFrom | kvproto/coprocessor.pb.cc:427-442 | the value becomes the merge; the source is unchanged |
| KeyRangeMessage.KeyRange.CopyFrom | kvproto/coprocessor.pb.cc:451-456 | the value becomes that of the source, also when source and target are one object |
| KeyRangeMessage.KeyRange.Swap | kvproto/coprocessor.pb.cc:462-474 | the two values are exchanged |
| KeyRangeMessage.KeyRange.ReadMessage | kvproto/coprocessor.pb.cc:621-625 | a nested message is parsed inside its declared length, one level deeper, and must use all of it; a refused payload leaves it half read |
| KeyRangeMessage.KeyRange.WriteMessage | kvproto/coprocessor.pb.cc:675-682 | tag, cached size and contents are written, with the cached size as it stands |
| KeyRangeMessage.SizeAll | kvproto/coprocessor.pb.cc:742-751 | the loop over ranges sums their sizes and caches in each element the length of its serialization |
| KeyRangeMessage.SerializeAll | kvproto/coprocessor.pb.cc:675-682 | the loop over ranges writes every element in order with its cached size |
| KeyRangeMessage.SerializeAllToArray | kvproto/coprocessor.pb.cc:717-723 | the array loop writes the same bytes and touches no other cell |
| KeyRangeMessage.CopyAll | kvproto/coprocessor.pb.cc:801 | merging a repeated field appends fresh, distinct copies of equal value in order |
| RequestMessage.Request.constructor | kvproto/coprocessor.pb.cc:500-531 | a new request is the cleared message with nothing nested |
| RequestMessage.Request.Copy | kvproto/coprocessor.pb.cc:507-523 | the copy has the value of the source in fresh nested objects |
| RequestMessage.Request.mutable_context | kvproto/coprocessor.pb.h:659-667 | the nested object is kept when there is one and otherwise allocated at its default |
| RequestMessage.Request.release_context | kvproto/coprocessor.pb.h:652-658 | the nested object is handed over and the field becomes absent |
| RequestMessage.Request.set_allocated_context | kvproto/coprocessor.pb.h:668-685 | the given object is taken over, or the field becomes absent |
| RequestMessage.Request.set_tp | kvproto/coprocessor.pb.h:695-699 | only tp changes |
| RequestMessage.Request.add_ranges | kvproto/coprocessor.pb.h:774-777 | a fresh cleared element is appended |
| RequestMessage.Request.Clear | kvproto/coprocessor.pb.cc:556-570 | clearing gives the cleared message and drops every nested object |
| RequestMessage.Request.ParseField | kvproto/coprocessor.pb.cc:581-639 | the switch takes one step of the codec's parser, or leaves what a failing step may leave, and allocates no shared object |
| RequestMessage.Request.MergePartialFromCodedStream | kvproto/coprocessor.pb.cc:572-650 | the tag loop ends as the codec's parser does, leaves what a failed parse may leave, keeps existing ranges, and appends fresh ones |
| RequestMessage.Request.ParseFrom | kvproto/coprocessor.pb.cc:572-650 | clear and parse accept exactly the complete inputs the codec accepts, and a refused input leaves what its parse reached |
| RequestMessage.Request.ByteSizeLong | kvproto/coprocessor.pb.cc:733-777 | the result is the length of the serialization, and every nested object then caches its own length |
| RequestMessage.Request.WroteIffCached | kvproto/coprocessor.pb.cc:652-689 | what the serializers of this object would write is its serialization if and only if every nested object caches its own length |
| RequestMessage.Request.SerializeWithCachedSizes | kvproto/coprocessor.pb.cc:652-689 | the stream receives the parts in order, with the cached sizes as they stand |
| RequestMessage.Request.InternalSerializeWithCachedSizesToArray | kvproto/coprocessor.pb.cc:691-731 | the array receives the same bytes as the stream, and no other cell changes |
| RequestMessage.Request.SerializeAsString | kvproto/coprocessor.pb.cc:691-777 | sizing and then writing into a buffer of that size fills it with exactly the serialization |
| RequestMessage.Request.MergeFrom | kvproto/coprocessor.pb.cc:794-812 | the value becomes the merge; nested objects are fresh or already this message's; the source is unchanged |
| RequestMessage.Request.CopyFrom | kvproto/coprocessor.pb.cc:821-826 | a deep copy of the source, which keeps its value, and nothing at all on itself |
| RequestMessage.Request.Swap | kvproto/coprocessor.pb.cc:832-844 | values and nested objects change owners without copying |
| RequestValues.CachedSizeProtocol | kvproto/coprocessor.pb.cc:652-731 | written bytes equal the serialization if and only if the context and every range cache their own lengths |
| Prefixes.StaleSizeShows | kvproto/coprocessor.pb.cc:652-689 | a sequence of prefixed parts is the encoding of its records if and only if every prefix is the length of its payload |
| Streams.WriteRawToArray | kvproto/coprocessor.pb.cc:355-382 | bytes are copied in place and every other cell is kept |
| CompactRequestMessage.CompactRequest.constructor | kvproto/debugpb.pb.cc:4107-4143 | a new message is the cleared message |
| CompactRequestMessage.CompactRequest.Copy | kvproto/debugpb.pb.cc:4114-4134 | the copy constructor gives the value of its source |
| CompactRequestMessage.CompactRequest.Clear | kvproto/debugpb.pb.cc:4170-4183 | clearing gives the cleared message |
| CompactRequestMessage.CompactRequest.ParseField | kvproto/debugpb.pb.cc:4191-4289 | the switch over six fields and the unusual case takes one step of the codec's parser, or leaves what a failing step may leave, a refused string included |
| CompactRequestMessage.CompactRequest.MergePartialFromCodedStream | kvproto/debugpb.pb.cc:4185-4297 | the tag loop ends as the codec's parser does and leaves what a failed parse may leave |
| CompactRequestMessage.CompactRequest.SerializeWithCachedSizes | kvproto/debugpb.pb.cc:4299-4349 | the stream receives the serialization, invalid strings included |
| CompactRequestMessage.CompactRequest.InternalSerializeWithCachedSizesToArray | kvproto/debugpb.pb.cc:4351-4406 | the array receives the same bytes and no other cell changes |
| CompactRequestMessage.CompactRequest.ByteSizeLong | kvproto/debugpb.pb.cc:4408-4460 | summed in another order than written, the result is the length of the serialization |
| CompactRequestMessage.CompactRequest.MergeFrom | kvproto/debugpb.pb.cc:4477-4505 | the value becomes the merge |
| CompactRequestMessage.CompactRequest.CopyFrom | kvproto/debugpb.pb.cc:4514-4519 | the value becomes that of the source, also on itself |
| CompactRequestMessage.CompactRequest.Swap | kvproto/debugpb.pb.cc:4525-4541 | the two values are exchanged |
| RegionSizeRequestMessage.RegionSizeRequest.constructor | kvproto/debugpb.pb.cc:2719-2737 | a new message is the cleared message |
| RegionSizeRequestMessage.RegionSizeRequest.Copy | kvproto/debugpb.pb.cc:2726-2733 | the copy constructor gives the value of its source |
| RegionSizeRequestMessage.RegionSizeRequest.Clear | kvproto/debugpb.pb.cc:2761-2770 | clearing gives the cleared message |
| RegionSizeRequestMessage.RegionSizeRequest.ParseField | kvproto/debugpb.pb.cc:2781-2821 | the switch takes one step of the codec's parser; an invalid element fails it and stays appended |
| RegionSizeRequestMessage.RegionSizeRequest.MergePartialFromCodedStream | kvproto/debugpb.pb.cc:2772-2831 | the tag loop ends as the codec's parser does and leaves what a failed parse may leave |
| RegionSizeRequestMessage.RegionSizeRequest.SerializeWithCachedSizes | kvproto/debugpb.pb.cc:2833-2859 | the stream receives the serialization, every element in order, empty and invalid ones included |
| RegionSizeRequestMessage.RegionSizeRequest.InternalSerializeWithCachedSizesToArray | kvproto/debugpb.pb.cc:2861-2889 | the array receives the same bytes and no other cell changes |
| RegionSizeRequestMessage.RegionSizeRequest.ByteSizeLong | kvproto/debugpb.pb.cc:2891-2918 | the result is the length of the serialization |
| RegionSizeRequestMessage.RegionSizeRequest.MergeFrom | kvproto/debugpb.pb.cc:2935-2946 | the value becomes the merge |
| RegionSizeRequestMessage.RegionSizeRequest.CopyFrom | kvproto/debugpb.pb.cc:2955-2960 | the value becomes that of the source, also on itself |
| RegionSizeRequestMessage.RegionSizeRequest.Swap | kvproto/debugpb.pb.cc:2966-2975 | the two values are exchanged |
| RegionSizeRequestMessage.SizeStrings | kvproto/debugpb.pb.cc:2900-2907 | the loop counts one tag byte for each element and then every element's size |
| RegionSizeRequestMessage.WriteStrings | kvproto/debugpb.pb.cc:2844-2851 | the loop writes every element in order |
| RegionSizeRequestMessage.WriteStringsToArray | kvproto/debugpb.pb.cc:2873-2881 | the array loop writes the same bytes and touches no other cell |
| WireBytes.VarintBytes | kvproto/coprocessor.pb.cc:664-667 | a varint is its base-128 digits, least significant first, with continuation bits on all bytes but the last and no byte more than needed |
| WireBytes.VarintIsRead | kvproto/coprocessor.pb.cc:594-606 | any spelling of at most ten bytes is read as its digits modulo 2^64, a longer or unended one is an error |
| WireBytes.RecordBytes | kvproto/coprocessor.pb.cc:658-687 | on literal tags: 8n announces a varint, 8n+2 a length and that many bytes, 8n+3 a group that ends at 8n+4 |
| WireBytes.FixedRecordBytes | kvproto/coprocessor.pb.cc:347-352 | unknown fixed-width fields are written behind 8n+5 and 8n+1 in four and eight bytes, least significant first |
| WireBytes.RecordIsRead | kvproto/coprocessor.pb.cc:310-318 | what each tag makes the parser read, and the tags that are errors |
| WireBytes.FixedIsRead | kvproto/coprocessor.pb.cc:310-318 | 8n+5 takes four bytes and 8n+1 eight, least significant first |
| WireBytes.GroupIsRead | kvproto/coprocessor.pb.cc:310-318 | a group of field n ends at the tag 8n+4 and at no other end tag |
| Utf8.ScalarBits | kvproto/debugpb.pb.cc:4211-4222 | which bits of a scalar value go into which octet |
| Utf8.NeverInUtf8 | kvproto/debugpb.pb.cc:4211-4222 | the octets C0, C1 and F5 to FF appear in no valid string |
| Nesting.ReadableIsDepth | kvproto/coprocessor.pb.cc:583-592 | readable within a recursion limit means valid strings and no more levels of messages and groups than the limit |
| Nesting.ReadBackIff | kvproto/coprocessor.pb.cc:996-1153 | the round trip in these terms: exactly valid strings and depth at most the limit |
| Format.TableMeans | kvproto/debugpb.pb.cc:4185-4349 | a class whose field table is described by typed parts has their value ranges, their bytes, their clashing records, and is read back exactly when they are readable |
| Format.NumberBytes | kvproto/debugpb.pb.cc:4299-4349 | a number is not written when zero, and otherwise as its tag and its value or its 64-bit two's complement |
| KnownBytes.NumberIsRead | kvproto/debugpb.pb.cc:4194-4277 | a varint in a numeric field changes that field alone, to the congruent value in the range of its C++ type; a bool is true unless the varint is 0 |
| KnownBytes.CompactNumbersAreRead | kvproto/debugpb.pb.cc:4251-4262 | for every 64-bit varint v, tag 40 leaves threads as v modulo 2^32 and tag 8 leaves db as the congruent i32 |
| KnownBytes.TpAndAllAreRead | kvproto/coprocessor.pb.cc:594-606 | for every 64-bit varint, tag 16 leaves tp as the signed number with its bits, and the bool of GetMetricsRequest is true unless it is 0 |
| KnownBytes.TpIsWritten | kvproto/coprocessor.pb.cc:664-667 | a request holding only tp is 16 and the varint of tp, of tp + 2^64 when negative, and nothing when zero |
| KnownBytes.CompactNumbersAreWritten | kvproto/debugpb.pb.cc:4299-4349 | the same for a lone db and a lone threads |
| KnownBytes.KeyRangeReadBack | kvproto/coprocessor.pb.cc:276-353 | every KeyRange is written with tags 10 and 18 and read back exactly when its unknown groups fit, whatever bytes its keys hold |
| KnownBytes.CompactRequestReadBack | kvproto/debugpb.pb.cc:4185-4349 | every CompactRequest is written with its literal tags and read back exactly when cf is valid UTF-8 and its unknown groups fit |
| KnownBytes.RegionSizeRequestReadBack | kvproto/debugpb.pb.cc:2772-2859 | every RegionSizeRequest is read back exactly when every element of cfs is valid UTF-8 and its unknown groups fit |
| KnownBytes.RequestReadBack | kvproto/coprocessor.pb.cc:572-689 | every Request is read back exactly when its context, the unknown groups of its ranges one level down, and its own fit |
| KnownBytes.ResponseReadBack | kvproto/coprocessor.pb.cc:996-1153 | every Response is written with its literal tags and read back exactly when other_error is valid UTF-8 and what is nested is readable, whatever bytes data holds |
| FailedParses.UnreadNumberStays | kvproto/debugpb.pb.cc:4251-4262 | a number whose varint cannot be read leaves the whole message as it was |
| Ownership.SwapExchanges | kvproto/coprocessor.pb.cc:1334-1349 | in every nested field each message gets the other's pointer, and nothing else changes |
| Ownership.ClearDeletes | kvproto/coprocessor.pb.cc:969-994 | every nested field of the message becomes null and what it held is deleted; no other message changes |
| Ownership.MergeIsFieldwise | kvproto/coprocessor.pb.cc:1287-1314 | where the source has a nested message it is merged into the target's, allocated when missing; nothing else changes |
| Ownership.AccessorLaws | kvproto/coprocessor.pb.h:991-1042 | what each accessor does to its field and the object in it, and that no other field changes |
| KeyRangeRuns.Perform | kvproto/coprocessor.pb.cc:265-474 | an operation carried out by KeyRange objects is a step of the run model, failed parses included |
| KeyRangeRuns.Execute | kvproto/coprocessor.pb.cc:265-474 | a sequence of operations on KeyRange objects is one of the runs of the run model |
| MessageLaws.ResponseSlots | kvproto/coprocessor.pb.cc:1338-1349 | the ownership machine has a slot for each of the four nested messages of Response |
| MessageLaws.KeyRangeMeans | kvproto/coprocessor.pb.cc:276-328 | fields bytes 1, bytes 2: value ranges, bytes, clashing unknown fields, and exactly when read back |
| MessageLaws.RequestMeans | kvproto/coprocessor.pb.cc:572-650 | fields message 1, int64 2, bytes 3, repeated message 4: value ranges, bytes, clashing unknown fields, and exactly when read back |
| MessageLaws.CompactRequestMeans | kvproto/debugpb.pb.cc:4185-4297 | fields enum 1, string 2, bytes 3, bytes 4, uint32 5, enum 6: value ranges, bytes, clashing unknown fields, and exactly when read back |
| MessageLaws.RegionSizeRequestMeans | kvproto/debugpb.pb.cc:2772-2831 | fields uint64 1, repeated string 2: value ranges, bytes, clashing unknown fields, and exactly when read back |
| MessageLaws.ResponseMeans | kvproto/coprocessor.pb.cc:996-1100 | fields bytes 1, message 2, message 3, string 4, message 5, message 6: value ranges, bytes, clashing unknown fields, and exactly when read back |
| MessageLaws.GetRequestMeans | kvproto/debugpb.pb.cc:1146-1217 | fields enum 1, string 2, bytes 3: value ranges, bytes, clashing unknown fields, and exactly when read back |
| MessageLaws.GetResponseMeans | kvproto/debugpb.pb.cc:1463-1503 | fields bytes 1: value ranges, bytes, clashing unknown fields, and exactly when read back |
| MessageLaws.RaftLogRequestMeans | kvproto/debugpb.pb.cc:1696-1752 | fields uint64 1, uint64 2: value ranges, bytes, clashing unknown fields, and exactly when read back |
| MessageLaws.RaftLogResponseMeans | kvproto/debugpb.pb.cc:1970-2010 | fields message 1: value ranges, bytes, clashing unknown fields, and exactly when read back |
| MessageLaws.RegionInfoRequestMeans | kvproto/debugpb.pb.cc:2194-2236 | fields uint64 1: value ranges, bytes, clashing unknown fields, and exactly when read back |
| MessageLaws.RegionInfoResponseMeans | kvproto/debugpb.pb.cc:2473-2537 | fields message 1, message 2, message 3: value ranges, bytes, clashing unknown fields, and exactly when read back |
| MessageLaws.RegionSizeEntryMeans | kvproto/debugpb.pb.cc:3050-3108 | fields string 1, uint64 2: value ranges, bytes, clashing unknown fields, and exactly when read back |
| MessageLaws.RegionSizeResponseMeans | kvproto/debugpb.pb.cc:3322-3362 | fields repeated message 1: value ranges, bytes, clashing unknown fields, and exactly when read back |
| MessageLaws.ScanMvccRequestMeans | kvproto/debugpb.pb.cc:3568-3634 | fields bytes 1, bytes 2, uint64 3: value ranges, bytes, clashing unknown fields, and exactly when read back |
| MessageLaws.ScanMvccResponseMeans | kvproto/debugpb.pb.cc:3891-3943 | fields bytes 1, message 2: value ranges, bytes, clashing unknown fields, and exactly when read back |
| MessageLaws.NoFieldsMeans | kvproto/debugpb.pb.cc:4604-4627 | no fields, unknown ones only: value ranges, bytes, clashing unknown fields, and exactly when read back |
| MessageLaws.InjectFailPointRequestMeans | kvproto/debugpb.pb.cc:4799-4859 | fields string 1, string 2: value ranges, bytes, clashing unknown fields, and exactly when read back |
| MessageLaws.RecoverFailPointRequestMeans | kvproto/debugpb.pb.cc:5270-5314 | fields string 1: value ranges, bytes, clashing unknown fields, and exactly when read back |
| MessageLaws.FailPointEntryMeans | kvproto/debugpb.pb.cc:5878-5938 | fields string 1, string 2: value ranges, bytes, clashing unknown fields, and exactly when read back |
| MessageLaws.ListFailPointsResponseMeans | kvproto/debugpb.pb.cc:6165-6205 | fields repeated message 1: value ranges, bytes, clashing unknown fields, and exactly when read back |
| MessageLaws.GetMetricsRequestMeans | kvproto/debugpb.pb.cc:6395-6437 | fields bool 1: value ranges, bytes, clashing unknown fields, and exactly when read back |
| MessageLaws.GetMetricsResponseMeans | kvproto/debugpb.pb.cc:6648-6754 | fields string 1, string 2, string 3, string 4, uint64 5: value ranges, bytes, clashing unknown fields, and exactly when read back |
| MessageLaws.RegionConsistencyCheckRequestMeans | kvproto/debugpb.pb.cc:7071-7113 | fields uint64 1: value ranges, bytes, clashing unknown fields, and exactly when read back |
| MessageLaws.ModifyTikvConfigRequestMeans | kvproto/debugpb.pb.cc:7489-7564 | fields enum 1, string 2, string 3: value ranges, bytes, clashing unknown fields, and exactly when read back |
| MessageLaws.PropertyMeans | kvproto/debugpb.pb.cc:8005-8065 | fields string 1, string 2: value ranges, bytes, clashing unknown fields, and exactly when read back |
| MessageLaws.GetRegionPropertiesRequestMeans | kvproto/debugpb.pb.cc:8293-8335 | fields uint64 1: value ranges, bytes, clashing unknown fields, and exactly when read back |
| MessageLaws.GetRegionPropertiesResponseMeans | kvproto/debugpb.pb.cc:8515-8555 | fields repeated message 1: value ranges, bytes, clashing unknown fields, and exactly when read back |
| NestedLaws.ContextMeans | kvproto/kvrpcpb.pb.cc:3537-3703 | fields uint64 1, message 2, message 3, uint64 5, enum 6, enum 7, bool 8, bool 9, bool 10, bool 11: the same laws for a nested message |
| NestedLaws.ErrorMeans | kvproto/errorpb.pb.cc:2561-2701 | fields string 1, message 2, message 3, message 4, message 5, message 6, message 7, message 8, message 9: the same laws for a nested message |
| NestedLaws.RegionEpochMeans | kvproto/metapb.pb.cc:1358-1414 | fields uint64 1, uint64 2: the same laws for a nested message |
| NestedLaws.PeerMeans | kvproto/metapb.pb.cc:2035-2105 | fields uint64 1, uint64 2, bool 3: the same laws for a nested message |
| NestedLaws.RegionMeans | kvproto/metapb.pb.cc:1650-1740 | fields uint64 1, bytes 2, bytes 3, message 4, repeated message 5: the same laws for a nested message |
| NestedLaws.NotLeaderMeans | kvproto/errorpb.pb.cc:471-525 | fields uint64 1, message 2: the same laws for a nested message |
| NestedLaws.RegionNotFoundMeans | kvproto/errorpb.pb.cc:909-951 | fields uint64 1: the same laws for a nested message |
| NestedLaws.KeyNotInRegionMeans | kvproto/errorpb.pb.cc:1156-1234 | fields bytes 1, uint64 2, bytes 3, bytes 4: the same laws for a nested message |
| NestedLaws.StaleEpochMeans | kvproto/errorpb.pb.cc:1495-1535 | fields repeated message 1: the same laws for a nested message |
| NestedLaws.ServerIsBusyMeans | kvproto/errorpb.pb.cc:1733-1791 | fields string 1, uint64 2: the same laws for a nested message |
| NestedLaws.RaftEntryTooLargeMeans | kvproto/errorpb.pb.cc:2192-2248 | fields uint64 1, uint64 2: the same laws for a nested message |
| NestedLaws.LockInfoMeans | kvproto/kvrpcpb.pb.cc:2394-2474 | fields bytes 1, uint64 2, bytes 3, uint64 4: the same laws for a nested message |
| NestedLaws.HandleTimeMeans | kvproto/kvrpcpb.pb.cc:4080-4136 | fields int64 1, int64 2: the same laws for a nested message |
| NestedLaws.ScanInfoMeans | kvproto/kvrpcpb.pb.cc:4345-4401 | fields int64 1, int64 2: the same laws for a nested message |
| NestedLaws.ScanDetailMeans | kvproto/kvrpcpb.pb.cc:4641-4705 | fields message 1, message 2, message 3: the same laws for a nested message |
| NestedLaws.ExecDetailsMeans | kvproto/kvrpcpb.pb.cc:4962-5014 | fields message 1, message 2: the same laws for a nested message |
| NestedLaws.MvccLockMeans | kvproto/kvrpcpb.pb.cc:20690-20771 | fields enum 1, uint64 2, bytes 3, bytes 4: the same laws for a nested message |
| NestedLaws.MvccWriteMeans | kvproto/kvrpcpb.pb.cc:20065-20148 | fields enum 1, uint64 2, uint64 3, bytes 4: the same laws for a nested message |
| NestedLaws.MvccValueMeans | kvproto/kvrpcpb.pb.cc:20406-20460 | fields uint64 1, bytes 2: the same laws for a nested message |
| NestedLaws.MvccInfoMeans | kvproto/kvrpcpb.pb.cc:21042-21106 | fields message 1, repeated message 2, repeated message 3: the same laws for a nested message |
| NestedLaws.EntryMeans | kvproto/eraftpb.pb.cc:488-597 | fields enum 1, uint64 2, uint64 3, bytes 4, bool 5, bytes 6: the same laws for a nested message |
| NestedLaws.HardStateMeans | kvproto/eraftpb.pb.cc:2151-2221 | fields uint64 1, uint64 2, uint64 3: the same laws for a nested message |
| NestedLaws.RaftLocalStateMeans | kvproto/raft_serverpb.pb.cc:3492-3546 | fields message 1, uint64 2: the same laws for a nested message |
| NestedLaws.RaftTruncatedStateMeans | kvproto/raft_serverpb.pb.cc:1247-1303 | fields uint64 1, uint64 2: the same laws for a nested message |
| NestedLaws.RaftApplyStateMeans | kvproto/raft_serverpb.pb.cc:3766-3820 | fields uint64 1, message 2: the same laws for a nested message |
| NestedLaws.MergeStateMeans | kvproto/raft_serverpb.pb.cc:4051-4119 | fields uint64 1, message 2, uint64 3: the same laws for a nested message |
| NestedLaws.RegionLocalStateMeans | kvproto/raft_serverpb.pb.cc:4379-4446 | fields enum 1, message 2, message 3: the same laws for a nested message |

## Left out

- The classes of the other messages, `Response` among them: their code has the shapes of the four
  classes modelled; their field tables are in `Catalogue`, so the laws on values hold of them, and
  the ownership machine has the four nested fields of `Response`.
- RequestMessage.Request.set_allocated_context: does not express that the object held before is deleted, because the class has no manual memory; `Ownership` does.
- RequestMessage.Request.ByteSizeLong: does not say what is cached inside the context, whose class acts as one step on a value; `SizeCaching` does, at every depth.
- ForeignMessage: the nested classes of other packages act as one step on a value; sizes cached
  inside them are covered by `SizeCaching`, not by the class.
- Ownership: values of nested messages are opaque, destroying a message acts as clearing it, the
  debug check that a message is not merged into itself is not part of the machine.
- Arenas, default instances, reflection, descriptors, lazy initialisation and the `Message&`
  overloads with dynamic casts.
- Stream buffering, aliasing of written strings, allocation failure and logging of UTF-8 errors.
- The case in which unknown fields are discarded.
- RPC stubs, and the client headers under `include/`, which have declarations but little code.

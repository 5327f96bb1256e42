/** Bytes and answers one can check by hand: what single numbers are written as and read as, and which
    messages of the classes are read back, in their own fields. */
module KnownBytes {
  import opened Wire
  import opened WireBytes
  import opened Codec
  import opened Parsing
  import opened Nesting
  import opened RoundTrip
  import opened Sizing
  import opened Format
  import opened Growth
  import opened MessageLaws
  import opened Catalogue
  import opened KeyRangeMessage
  import opened RequestValues
  import opened CompactRequestMessage
  import opened RegionSizeRequestMessage
  import Utf8

  // ---------------------------------------------------------------- numbers read

  /** What a varint is stored as, by C++ type. */
  lemma {:induction false} VarintIsStored(t: FieldType, v: u64)
    requires IsNumeric(t)
    ensures t == Int64 ==> FromWire(t, v) == if v < 0x8000_0000_0000_0000 then v else v - 0x1_0000_0000_0000_0000
    ensures t == UInt64 ==> FromWire(t, v) == v
    ensures t == UInt32 ==> FromWire(t, v) == v % 0x1_0000_0000
    ensures t == Enum ==>
              -0x8000_0000 <= FromWire(t, v) < 0x8000_0000 &&
              (FromWire(t, v) == v % 0x1_0000_0000 || FromWire(t, v) == v % 0x1_0000_0000 - 0x1_0000_0000)
    ensures t == Bool ==> FromWire(t, v) == if v != 0 then 1 else 0
  {
  }

  /** One varint of a numeric field, on top of any message: only that field changes, to the value
      congruent to the varint in the range of its C++ type; a bool is true unless the varint is 0. */
  lemma {:induction false} NumberIsRead(s: Schema, k: nat, m: Msg, v: u64, budget: nat) returns (n: int)
    requires WellFormed(s) && Conforms(s, m) && k < |s.fields| && IsNumeric(s.fields[k].typ)
    ensures Parse(s, m, EncodeVarint(8 * s.fields[k].num) + EncodeVarint(v), budget)
         == Some(Msg(m.vals[k := Num(n)], m.unk))
    ensures s.fields[k].typ == Int64 ==>
              -0x8000_0000_0000_0000 <= n < 0x8000_0000_0000_0000 && (n == v || n == v - 0x1_0000_0000_0000_0000)
    ensures s.fields[k].typ == UInt64 ==> n == v
    ensures s.fields[k].typ == UInt32 ==> n == v % 0x1_0000_0000
    ensures s.fields[k].typ == Enum ==>
              -0x8000_0000 <= n < 0x8000_0000 && (n == v % 0x1_0000_0000 || n == v % 0x1_0000_0000 - 0x1_0000_0000)
    ensures s.fields[k].typ == Bool ==> n == if v != 0 then 1 else 0
  {
    var f, r := s.fields[k], Varint(s.fields[k].num, v);
    n := FromWire(f.typ, v);
    VarintIsStored(f.typ, v);
    hide FromWire, EncodeVarint, Parse, Emit;
    TenBytesAtMost(f.num, v);
    OneRecordParse(s, k, m, r, budget);
    RecordBytes(f.num, v, [], []);
  }

  lemma {:induction false} OneRecordParse(s: Schema, k: nat, m: Msg, r: Record, budget: nat)
    requires WellFormed(s) && Conforms(s, m) && k < |s.fields| && Matches(s.fields[k], r) && |Emit(r)| < TWO_TO_THE_31
    ensures Parse(s, m, Emit(r), budget)
         == match ApplyField(s.fields[k], m.vals[k], r, budget)
            case None => None
            case Some(v) => Some(Msg(m.vals[k := v], m.unk))
  {
    SingleRecord(r);
    assert AllShallow([r], budget) by {
      assert !r.Group?;
    }
    LexRoundTrip([r], budget);
    MergePartialIsFold(s, m, Emit(r), budget);
    DispatchOwn(s, k, r);
    assert [r][1..] == [];
  }

  lemma {:induction false} TenBytesAtMost(num: FieldNumber, v: u64)
    ensures |Emit(Varint(num, v))| <= 20
  {
    RecordBytes(num, v, [], []);
    VarintSizeIsLength(v);
    VarintSizeIsLength(8 * num);
    NegativeEnumSizes(0x8000_0000, v);
    NegativeEnumSizes(0x8000_0000, 8 * num);
    hide VarintSize, EncodeVarint;
  }

  /** threads keeps the low 32 bits of its varint, db the i32 congruent to it. */
  lemma {:induction false} CompactNumbersAreRead(m: Msg, v: u64, budget: nat) returns (db: int)
    requires Conforms(COMPACT_REQUEST, m)
    ensures Parse(COMPACT_REQUEST, m, [40] + EncodeVarint(v), budget)
         == Some(Msg(m.vals[4 := Num(v % 0x1_0000_0000)], m.unk))
    ensures Parse(COMPACT_REQUEST, m, [8] + EncodeVarint(v), budget) == Some(Msg(m.vals[0 := Num(db)], m.unk))
    ensures -0x8000_0000 <= db < 0x8000_0000
    ensures db == v % 0x1_0000_0000 || db == v % 0x1_0000_0000 - 0x1_0000_0000
  {
    CompactRequestWellFormed();
    ShortVarints(40);
    ShortVarints(8);
    assert COMPACT_REQUEST.fields[4] == Field(5, UInt32) && COMPACT_REQUEST.fields[0] == Field(1, Enum);
    hide EncodeVarint, Parse, Conforms, WellFormed, COMPACT_REQUEST;
    var threads := NumberIsRead(COMPACT_REQUEST, 4, m, v, budget);
    db := NumberIsRead(COMPACT_REQUEST, 0, m, v, budget);
  }

  /** tp is read as the signed 64-bit number with the bits of its varint, all is true unless it is 0. */
  lemma {:induction false} TpAndAllAreRead(ctx: Schema, m: Msg, a: Msg, v: u64, budget: nat)
    requires WellFormed(ctx) && Conforms(RequestSchema(ctx), m) && Conforms(GET_METRICS_REQUEST, a)
    ensures Parse(RequestSchema(ctx), m, [16] + EncodeVarint(v), budget)
         == Some(Msg(m.vals[1 := Num(if v < 0x8000_0000_0000_0000 then v else v - 0x1_0000_0000_0000_0000)], m.unk))
    ensures Parse(GET_METRICS_REQUEST, a, [8] + EncodeVarint(v), budget)
         == Some(Msg(a.vals[0 := Num(if v != 0 then 1 else 0)], a.unk))
  {
    RequestWellFormed(ctx);
    FlatDebugpbWellFormed();
    ShortVarints(16);
    ShortVarints(8);
    assert RequestSchema(ctx).fields[1] == Field(2, Int64) && GET_METRICS_REQUEST.fields[0] == Field(1, Bool);
    hide EncodeVarint, Parse, Conforms, WellFormed, RequestSchema, Table;
    var tp := NumberIsRead(RequestSchema(ctx), 1, m, v, budget);
    var all := NumberIsRead(GET_METRICS_REQUEST, 0, a, v, budget);
  }

  // ---------------------------------------------------------------- whole messages, with literal tags

  /** A bytes or string field behind its tag byte. */
  function Tagged(tag: byte, b: bytes): bytes {
    if b == [] then [] else Framed(tag, b)
  }

  function Framed(tag: byte, b: bytes): bytes {
    [tag] + (EncodeVarint(|b|) + b)
  }

  function TaggedMessage(tag: byte, sub: Schema, m: Option<Msg>): bytes
    requires m.Some? ==> Conforms(sub, m.value)
  {
    if m.None? then [] else Framed(tag, Serialize(sub, m.value))
  }

  function TaggedNumber(tag: byte, n: int): bytes
    requires -0x8000_0000_0000_0000 <= n
  {
    if n == 0 then [] else [tag] + EncodeVarint(if n < 0 then n + 0x1_0000_0000_0000_0000 else n)
  }

  function AllFramed(tag: byte, ds: seq<bytes>): bytes {
    if ds == [] then [] else Framed(tag, ds[0]) + AllFramed(tag, ds[1..])
  }

  lemma {:induction false} OneByteTags(num: FieldNumber, b: bytes, ds: seq<bytes>)
    requires num < 16
    ensures Delimited(num, b) == Framed(8 * num + 2, b)
    ensures AllDelimited(num, ds) == AllFramed(8 * num + 2, ds)
    ensures EncodeVarint(8 * num) == [8 * num]
    decreases |ds|
  {
    ShortVarints(8 * num + 2);
    ShortVarints(8 * num);
    hide EncodeVarint;
    if ds != [] {
      OneByteTags(num, ds[0], ds[1..]);
    }
  }

  lemma {:induction false} BlobTag(num: FieldNumber, b: bytes)
    requires num < 16
    ensures PartBytes(BytesPart(num, b)) == Tagged(8 * num + 2, b)
    ensures PartBytes(StringPart(num, b)) == Tagged(8 * num + 2, b)
  {
    OneByteTags(num, b, []);
  }

  lemma {:induction false} NumberTag(p: Part)
    requires p.num < 16 && PartFits(p)
    requires p.Int64Part? || p.UInt64Part? || p.UInt32Part? || p.EnumPart?
    ensures PartBytes(p) == TaggedNumber(8 * p.num, p.n)
  {
    OneByteTags(p.num, [], []);
  }

  lemma {:induction false} MessageTag(num: FieldNumber, sub: Schema, m: Option<Msg>)
    requires num < 16 && (m.Some? ==> Conforms(sub, m.value))
    ensures PartBytes(MessagePart(num, sub, m)) == TaggedMessage(8 * num + 2, sub, m)
  {
    OneByteTags(num, if m.None? then [] else Serialize(sub, m.value), []);
  }

  /** Serialize, and exactly when it is read back. */
  ghost predicate ReadBack(s: Schema, m: Msg, out: bytes, readable: bool, budget: nat) {
    && Conforms(s, m) && Serialize(s, m) == out
    && (|out| < 0x8000_0000 ==> Parse(s, Empty(s), out, budget) == if readable then Some(m) else None)
  }

  ghost predicate Fits(m: Option<Msg>, sub: Schema) {
    m.Some? ==> Conforms(sub, m.value) && Clean(sub, m.value)
  }

  /** A nested message that a parser with this recursion limit reads back. */
  ghost predicate NestedReadable(sub: Schema, m: Option<Msg>, budget: nat)
    requires Fits(m, sub)
  {
    m.Some? ==> StringsValid(sub, m.value) && 1 + Depth(sub, m.value) <= budget
  }

  lemma {:induction false} KeyRangeNotTaken(a: Part, b: Part, unk: seq<Record>)
    requires a.BytesPart? && a.num == 1 && b.BytesPart? && b.num == 2
    requires forall j :: 0 <= j < |unk| ==> !(unk[j].Len? && unk[j].num <= 2)
    ensures NoneTaken([a, b], unk)
  {
  }

  lemma {:induction false} RegionSizeRequestNotTaken(a: Part, b: Part, unk: seq<Record>)
    requires a.UInt64Part? && a.num == 1 && b.StringsPart? && b.num == 2
    requires forall j :: 0 <= j < |unk| ==> !(unk[j].Varint? && unk[j].num == 1) && !(unk[j].Len? && unk[j].num == 2)
    ensures NoneTaken([a, b], unk)
  {
  }

  lemma {:induction false} CompactRequestNotTaken(ps: seq<Part>, unk: seq<Record>)
    requires |ps| == 6 && forall i :: 0 <= i < 6 ==> ps[i].num == i + 1
    requires ps[0].EnumPart? && ps[1].StringPart? && ps[2].BytesPart? && ps[3].BytesPart? && ps[4].UInt32Part?
    requires ps[5].EnumPart?
    requires forall j :: 0 <= j < |unk| ==> !(unk[j].Varint? && unk[j].num in {1, 5, 6})
    requires forall j :: 0 <= j < |unk| ==> !(unk[j].Len? && unk[j].num in {2, 3, 4})
    ensures NoneTaken(ps, unk)
  {
  }

  lemma {:induction false} ResponseNotTaken(ps: seq<Part>, unk: seq<Record>)
    requires |ps| == 6 && forall i :: 0 <= i < 6 ==> ps[i].num == i + 1
    requires forall i :: 0 <= i < 6 ==> ps[i].BytesPart? || ps[i].StringPart? || ps[i].MessagePart?
    requires forall j :: 0 <= j < |unk| ==> !(unk[j].Len? && unk[j].num <= 6)
    ensures NoneTaken(ps, unk)
  {
  }

  lemma {:induction false} RequestNotTaken(ps: seq<Part>, unk: seq<Record>)
    requires |ps| == 4 && forall i :: 0 <= i < 4 ==> ps[i].num == i + 1
    requires ps[0].MessagePart? && ps[1].Int64Part? && ps[2].BytesPart? && ps[3].MessagesPart?
    requires forall j :: 0 <= j < |unk| ==> !(unk[j].Len? && unk[j].num in {1, 3, 4})
    requires forall j :: 0 <= j < |unk| ==> !(unk[j].Varint? && unk[j].num == 2)
    ensures NoneTaken(ps, unk)
  {
  }

  lemma {:induction false} MeantReadBack(s: Schema, ps: seq<Part>, unk: seq<Record>, out: bytes, readable: bool,
                                         budget: nat)
    requires Means(s, ps, unk, budget) && AllFit(ps) && NoneTaken(ps, unk) && AllNestedClean(ps)
    requires AllPartBytes(ps) + EmitAll(unk) == out
    requires readable <==> AllPartsReadable(ps, budget) && RecordsDepth(unk) <= budget
    ensures ReadBack(s, Msg(Values(ps), unk), out, readable, budget)
  {
    hide Parse, Serialize, Conforms, Clean, EmitAll, Empty, Values, AllPartBytes, AllNestedClean, NoneTaken, AllFit;
    hide AllPartsReadable;
  }

  /** Any keys at all: start and end are bytes, not strings. */
  lemma {:induction false} KeyRangeReadBack(start: bytes, end: bytes, unk: seq<Record>, budget: nat)
    requires forall j :: 0 <= j < |unk| ==> !(unk[j].Len? && unk[j].num <= 2)
    ensures ReadBack(KEY_RANGE, Msg([Blob(start), Blob(end)], unk),
                     Tagged(10, start) + Tagged(18, end) + EmitAll(unk), RecordsDepth(unk) <= budget, budget)
  {
    var a, b := BytesPart(1, start), BytesPart(2, end);
    KeyRangeMeans(start, end, unk, budget);
    TwoParts(a, b, budget);
    BlobTag(1, start);
    BlobTag(2, end);
    KeyRangeNotTaken(a, b, unk);
    hide Parse, Serialize, Conforms, Clean, EmitAll, Empty, Values, AllPartBytes, AllNestedClean, NoneTaken, AllFit;
    hide AllPartsReadable, PartBytes, Means, ReadBack, Tagged, TaggedNumber, TaggedMessage, AllFramed, Utf8.Valid;
    hide KEY_RANGE;
    MeantReadBack(KEY_RANGE, [a, b], unk, Tagged(10, start) + Tagged(18, end) + EmitAll(unk),
                  RecordsDepth(unk) <= budget, budget);
  }

  lemma {:induction false} CompactRequestParts(db: i32, cf: bytes, fromKey: bytes, toKey: bytes, threads: u32,
                                               level: i32, budget: nat)
    ensures var ps := [EnumPart(1, db), StringPart(2, cf), BytesPart(3, fromKey), BytesPart(4, toKey),
                       UInt32Part(5, threads), EnumPart(6, level)];
            && AllFit(ps) && AllNestedClean(ps)
            && Values(ps) == [Num(db), Blob(cf), Blob(fromKey), Blob(toKey), Num(threads), Num(level)]
            && AllPartBytes(ps)
               == TaggedNumber(8, db) + Tagged(18, cf) + Tagged(26, fromKey) + Tagged(34, toKey)
                  + TaggedNumber(40, threads) + TaggedNumber(48, level)
            && (AllPartsReadable(ps, budget) <==> Utf8.Valid(cf))
  {
    hide EncodeVarint, Utf8.Valid;
    var a, b, c := EnumPart(1, db), StringPart(2, cf), BytesPart(3, fromKey);
    var d, e, f := BytesPart(4, toKey), UInt32Part(5, threads), EnumPart(6, level);
    SixParts(a, b, c, d, e, f, budget);
    NumberTag(a);
    BlobTag(2, cf);
    BlobTag(3, fromKey);
    BlobTag(4, toKey);
    NumberTag(e);
    NumberTag(f);
    hide Values, AllFit, AllNestedClean, AllPartBytes, AllPartsReadable, Tagged, TaggedNumber, PartBytes;
  }

  /** Only cf has to be valid UTF-8. */
  lemma {:induction false} CompactRequestReadBack(db: i32, cf: bytes, fromKey: bytes, toKey: bytes, threads: u32,
                                                  level: i32, unk: seq<Record>, budget: nat)
    requires forall j :: 0 <= j < |unk| ==> !(unk[j].Varint? && unk[j].num in {1, 5, 6})
    requires forall j :: 0 <= j < |unk| ==> !(unk[j].Len? && unk[j].num in {2, 3, 4})
    ensures ReadBack(COMPACT_REQUEST,
                     Msg([Num(db), Blob(cf), Blob(fromKey), Blob(toKey), Num(threads), Num(level)], unk),
                     TaggedNumber(8, db) + Tagged(18, cf) + Tagged(26, fromKey) + Tagged(34, toKey)
                     + TaggedNumber(40, threads) + TaggedNumber(48, level) + EmitAll(unk),
                     Utf8.Valid(cf) && RecordsDepth(unk) <= budget, budget)
  {
    hide *;
    CompactRequestMeans(db, cf, fromKey, toKey, threads, level, unk, budget);
    CompactRequestParts(db, cf, fromKey, toKey, threads, level, budget);
    var ps := [EnumPart(1, db), StringPart(2, cf), BytesPart(3, fromKey), BytesPart(4, toKey),
               UInt32Part(5, threads), EnumPart(6, level)];
    CompactRequestNotTaken(ps, unk);
    MeantReadBack(COMPACT_REQUEST, ps, unk, AllPartBytes(ps) + EmitAll(unk),
                  Utf8.Valid(cf) && RecordsDepth(unk) <= budget, budget);
  }

  /** Every element of cfs has to be valid UTF-8; empty elements are written too. */
  lemma {:induction false} RegionSizeRequestReadBack(regionId: u64, cfs: seq<bytes>, unk: seq<Record>, budget: nat)
    requires forall j :: 0 <= j < |unk| ==> !(unk[j].Varint? && unk[j].num == 1) && !(unk[j].Len? && unk[j].num == 2)
    ensures ReadBack(REGION_SIZE_REQUEST, Msg([Num(regionId), Blobs(cfs)], unk),
                     TaggedNumber(8, regionId) + AllFramed(18, cfs) + EmitAll(unk),
                     (forall i :: 0 <= i < |cfs| ==> Utf8.Valid(cfs[i])) && RecordsDepth(unk) <= budget, budget)
  {
    var a, b := UInt64Part(1, regionId), StringsPart(2, cfs);
    RegionSizeRequestMeans(regionId, cfs, unk, budget);
    TwoParts(a, b, budget);
    NumberTag(a);
    OneByteTags(2, [], cfs);
    assert PartBytes(b) == AllFramed(18, cfs);
    RegionSizeRequestNotTaken(a, b, unk);
    hide Parse, Serialize, Conforms, Clean, EmitAll, Empty, Values, AllPartBytes, AllNestedClean, NoneTaken, AllFit;
    hide AllPartsReadable, PartBytes, Means, ReadBack, Tagged, TaggedNumber, TaggedMessage, AllFramed, Utf8.Valid;
    hide REGION_SIZE_REQUEST;
    MeantReadBack(REGION_SIZE_REQUEST, [a, b], unk, TaggedNumber(8, regionId) + AllFramed(18, cfs) + EmitAll(unk),
                  (forall i :: 0 <= i < |cfs| ==> Utf8.Valid(cfs[i])) && RecordsDepth(unk) <= budget, budget);
  }

  lemma {:induction false} NestedPart(num: FieldNumber, sub: Schema, m: Option<Msg>, budget: nat)
    requires num < 16 && Fits(m, sub)
    ensures var p := MessagePart(num, sub, m);
            && PartFits(p) && NestedClean(p) && PartValue(p) == Opt(m)
            && PartBytes(p) == TaggedMessage(8 * num + 2, sub, m)
            && (PartReadable(p, budget) <==> NestedReadable(sub, m, budget))
  {
    hide Clean, Conforms, StringsValid, Depth, Serialize, EncodeVarint;
    MessageTag(num, sub, m);
  }

  lemma {:induction false} BlobPart(num: FieldNumber, b: bytes, budget: nat)
    requires num < 16
    ensures var p, q := BytesPart(num, b), StringPart(num, b);
            && PartFits(p) && NestedClean(p) && PartValue(p) == Blob(b) && PartBytes(p) == Tagged(8 * num + 2, b)
            && PartFits(q) && NestedClean(q) && PartValue(q) == Blob(b) && PartBytes(q) == Tagged(8 * num + 2, b)
            && PartReadable(p, budget) && (PartReadable(q, budget) <==> Utf8.Valid(b))
  {
    BlobTag(num, b);
  }

  lemma {:induction false} ResponseParts(data: bytes, regionError: Option<Msg>, locked: Option<Msg>,
                                         otherError: bytes, range: Option<Msg>, execDetails: Option<Msg>, budget: nat)
    requires Fits(regionError, ERROR) && Fits(locked, LOCK_INFO) && Fits(range, KEY_RANGE)
    requires Fits(execDetails, EXEC_DETAILS)
    ensures var ps := [BytesPart(1, data), MessagePart(2, ERROR, regionError), MessagePart(3, LOCK_INFO, locked),
                       StringPart(4, otherError), MessagePart(5, KEY_RANGE, range),
                       MessagePart(6, EXEC_DETAILS, execDetails)];
            && AllFit(ps) && AllNestedClean(ps)
            && Values(ps)
               == [Blob(data), Opt(regionError), Opt(locked), Blob(otherError), Opt(range), Opt(execDetails)]
            && AllPartBytes(ps)
               == Tagged(10, data) + TaggedMessage(18, ERROR, regionError) + TaggedMessage(26, LOCK_INFO, locked)
                  + Tagged(34, otherError) + TaggedMessage(42, KEY_RANGE, range)
                  + TaggedMessage(50, EXEC_DETAILS, execDetails)
            && (AllPartsReadable(ps, budget) <==>
                  && Utf8.Valid(otherError)
                  && NestedReadable(ERROR, regionError, budget) && NestedReadable(LOCK_INFO, locked, budget)
                  && NestedReadable(KEY_RANGE, range, budget) && NestedReadable(EXEC_DETAILS, execDetails, budget))
  {
    hide *;
    var a, b, c := BytesPart(1, data), MessagePart(2, ERROR, regionError), MessagePart(3, LOCK_INFO, locked);
    var d, e, f := StringPart(4, otherError), MessagePart(5, KEY_RANGE, range),
                   MessagePart(6, EXEC_DETAILS, execDetails);
    SixParts(a, b, c, d, e, f, budget);
    BlobPart(1, data, budget);
    NestedPart(2, ERROR, regionError, budget);
    NestedPart(3, LOCK_INFO, locked, budget);
    BlobPart(4, otherError, budget);
    NestedPart(5, KEY_RANGE, range, budget);
    NestedPart(6, EXEC_DETAILS, execDetails, budget);
  }

  /** data is bytes and other_error a string; the rest is up to what is nested. */
  lemma {:induction false} ResponseReadBack(data: bytes, regionError: Option<Msg>, locked: Option<Msg>,
                                            otherError: bytes, range: Option<Msg>, execDetails: Option<Msg>,
                                            unk: seq<Record>, budget: nat)
    requires Fits(regionError, ERROR) && Fits(locked, LOCK_INFO) && Fits(range, KEY_RANGE)
    requires Fits(execDetails, EXEC_DETAILS)
    requires forall j :: 0 <= j < |unk| ==> !(unk[j].Len? && unk[j].num <= 6)
    ensures ReadBack(COPROCESSOR_RESPONSE,
                     Msg([Blob(data), Opt(regionError), Opt(locked), Blob(otherError), Opt(range), Opt(execDetails)],
                         unk),
                     Tagged(10, data) + TaggedMessage(18, ERROR, regionError) + TaggedMessage(26, LOCK_INFO, locked)
                     + Tagged(34, otherError) + TaggedMessage(42, KEY_RANGE, range)
                     + TaggedMessage(50, EXEC_DETAILS, execDetails) + EmitAll(unk),
                     && Utf8.Valid(otherError) && RecordsDepth(unk) <= budget
                     && NestedReadable(ERROR, regionError, budget) && NestedReadable(LOCK_INFO, locked, budget)
                     && NestedReadable(KEY_RANGE, range, budget) && NestedReadable(EXEC_DETAILS, execDetails, budget),
                     budget)
  {
    hide *;
    ResponseMeans(data, regionError, locked, otherError, range, execDetails, unk, budget);
    ResponseParts(data, regionError, locked, otherError, range, execDetails, budget);
    var ps := [BytesPart(1, data), MessagePart(2, ERROR, regionError), MessagePart(3, LOCK_INFO, locked),
               StringPart(4, otherError), MessagePart(5, KEY_RANGE, range), MessagePart(6, EXEC_DETAILS, execDetails)];
    ResponseNotTaken(ps, unk);
    MeantReadBack(COPROCESSOR_RESPONSE, ps, unk, AllPartBytes(ps) + EmitAll(unk),
                  RecordsDepth(unk) <= budget && AllPartsReadable(ps, budget), budget);
  }

  lemma {:induction false} RangesReadable(ranges: seq<Msg>, budget: nat)
    requires forall i :: 0 <= i < |ranges| ==> Conforms(KEY_RANGE, ranges[i])
    ensures PartReadable(MessagesPart(4, KEY_RANGE, ranges), budget)
       <==> forall i :: 0 <= i < |ranges| ==> 1 + RecordsDepth(ranges[i].unk) <= budget
  {
    forall i | 0 <= i < |ranges|
      ensures StringsValid(KEY_RANGE, ranges[i]) && Depth(KEY_RANGE, ranges[i]) == RecordsDepth(ranges[i].unk)
    {
      RangeReadable(ranges[i]);
    }
    hide Depth, StringsValid, Conforms, KEY_RANGE, RecordsDepth;
  }

  lemma {:induction false} RangeReadable(range: Msg)
    requires Conforms(KEY_RANGE, range)
    ensures StringsValid(KEY_RANGE, range) && Depth(KEY_RANGE, range) == RecordsDepth(range.unk)
  {
    assert FieldsDepth(KEY_RANGE, range, 2) == 0 && FieldsDepth(KEY_RANGE, range, 1) == 0;
    assert FieldsValid(KEY_RANGE, range, 2) && FieldsValid(KEY_RANGE, range, 1);
  }

  lemma {:induction false} TpPart(tp: int, budget: nat)
    requires -0x8000_0000_0000_0000 <= tp < 0x8000_0000_0000_0000
    ensures var p := Int64Part(2, tp);
            && PartFits(p) && NestedClean(p) && PartValue(p) == Num(tp) && PartBytes(p) == TaggedNumber(16, tp)
            && PartReadable(p, budget)
  {
    hide EncodeVarint;
    NumberTag(Int64Part(2, tp));
  }

  lemma {:induction false} RangesPart(ranges: seq<Msg>)
    requires forall i :: 0 <= i < |ranges| ==> Conforms(KEY_RANGE, ranges[i]) && Clean(KEY_RANGE, ranges[i])
    ensures var p := MessagesPart(4, KEY_RANGE, ranges);
            && PartFits(p) && NestedClean(p) && PartValue(p) == Msgs(ranges)
            && PartBytes(p) == AllFramed(34, Serialized(KEY_RANGE, ranges))
  {
    hide Clean, Conforms, Serialize, EncodeVarint, KEY_RANGE;
    OneByteTags(4, [], Serialized(KEY_RANGE, ranges));
  }

  lemma {:induction false} RequestParts(ctx: Schema, context: Option<Msg>, tp: int, data: bytes, ranges: seq<Msg>,
                                        budget: nat)
    requires Fits(context, ctx) && -0x8000_0000_0000_0000 <= tp < 0x8000_0000_0000_0000
    requires forall i :: 0 <= i < |ranges| ==> Conforms(KEY_RANGE, ranges[i]) && Clean(KEY_RANGE, ranges[i])
    ensures var ps := [MessagePart(1, ctx, context), Int64Part(2, tp), BytesPart(3, data),
                       MessagesPart(4, KEY_RANGE, ranges)];
            && AllFit(ps) && AllNestedClean(ps) && Values(ps) == [Opt(context), Num(tp), Blob(data), Msgs(ranges)]
            && AllPartBytes(ps)
               == TaggedMessage(10, ctx, context) + TaggedNumber(16, tp) + Tagged(26, data)
                  + AllFramed(34, Serialized(KEY_RANGE, ranges))
            && (AllPartsReadable(ps, budget) <==>
                  && NestedReadable(ctx, context, budget)
                  && forall i :: 0 <= i < |ranges| ==> 1 + RecordsDepth(ranges[i].unk) <= budget)
  {
    hide *;
    var a, b, c := MessagePart(1, ctx, context), Int64Part(2, tp), BytesPart(3, data);
    var d := MessagesPart(4, KEY_RANGE, ranges);
    FourParts(a, b, c, d, budget);
    NestedPart(1, ctx, context, budget);
    TpPart(tp, budget);
    BlobPart(3, data, budget);
    RangesPart(ranges);
    RangesReadable(ranges, budget);
  }

  /** data and the keys of the ranges are bytes; the context has its own strings and nesting. */
  lemma {:induction false} RequestReadBack(ctx: Schema, context: Option<Msg>, tp: int, data: bytes, ranges: seq<Msg>,
                                           unk: seq<Record>, budget: nat)
    requires WellFormed(ctx) && Fits(context, ctx)
    requires -0x8000_0000_0000_0000 <= tp < 0x8000_0000_0000_0000
    requires forall i :: 0 <= i < |ranges| ==> Conforms(KEY_RANGE, ranges[i]) && Clean(KEY_RANGE, ranges[i])
    requires forall j :: 0 <= j < |unk| ==> !(unk[j].Len? && unk[j].num in {1, 3, 4})
    requires forall j :: 0 <= j < |unk| ==> !(unk[j].Varint? && unk[j].num == 2)
    ensures ReadBack(RequestSchema(ctx), Msg([Opt(context), Num(tp), Blob(data), Msgs(ranges)], unk),
                     TaggedMessage(10, ctx, context) + TaggedNumber(16, tp) + Tagged(26, data)
                     + AllFramed(34, Serialized(KEY_RANGE, ranges)) + EmitAll(unk),
                     && RecordsDepth(unk) <= budget && NestedReadable(ctx, context, budget)
                     && forall i :: 0 <= i < |ranges| ==> 1 + RecordsDepth(ranges[i].unk) <= budget,
                     budget)
  {
    hide *;
    RequestMeans(ctx, context, tp, data, ranges, unk, budget);
    RequestParts(ctx, context, tp, data, ranges, budget);
    var ps := [MessagePart(1, ctx, context), Int64Part(2, tp), BytesPart(3, data), MessagesPart(4, KEY_RANGE, ranges)];
    RequestNotTaken(ps, unk);
    MeantReadBack(RequestSchema(ctx), ps, unk, AllPartBytes(ps) + EmitAll(unk),
                  RecordsDepth(unk) <= budget && AllPartsReadable(ps, budget), budget);
  }

  // ---------------------------------------------------------------- numbers written

  /** A request that holds only tp. */
  lemma {:induction false} TpIsWritten(ctx: Schema, tp: int)
    requires WellFormed(ctx) && -0x8000_0000_0000_0000 <= tp < 0x8000_0000_0000_0000
    ensures var s, m := RequestSchema(ctx), Msg([Opt(None), Num(tp), Blob([]), Msgs([])], []);
            && Conforms(s, m)
            && (tp == 0 ==> Serialize(s, m) == [])
            && (0 < tp < 0x80 ==> Serialize(s, m) == [16, tp])
            && (0 < tp ==> Serialize(s, m) == [16] + EncodeVarint(tp))
            && (tp < 0 ==> Serialize(s, m) == [16] + EncodeVarint(tp + 0x1_0000_0000_0000_0000))
  {
    RequestReadBack(ctx, None, tp, [], [], [], 0);
    assert EmitAll([]) == [] && Tagged(26, []) == [] && TaggedMessage(10, ctx, None) == [];
    assert AllFramed(34, Serialized(KEY_RANGE, [])) == [];
    if 0 < tp < 0x80 {
      ShortVarints(tp);
    }
    OnlyOne(TaggedNumber(16, tp));
    hide EncodeVarint, Serialize, RequestSchema, Parse, KEY_RANGE, Conforms, AllFramed, Serialized, EmitAll, Tagged;
    hide TaggedMessage;
  }

  lemma {:induction false} OnlyOne(x: bytes)
    ensures [] + x + [] + [] + [] == x
    ensures x + [] + [] + [] + [] + [] + [] == x && [] + [] + [] + [] + x + [] + [] == x
  {
  }

  /** A threads-only and a db-only CompactRequest. */
  lemma {:induction false} CompactNumbersAreWritten(db: i32, threads: u32)
    ensures var s := COMPACT_REQUEST;
            var m, w := Msg([Num(db), Blob([]), Blob([]), Blob([]), Num(0), Num(0)], []),
                        Msg([Num(0), Blob([]), Blob([]), Blob([]), Num(threads), Num(0)], []);
            && Conforms(s, m) && Conforms(s, w)
            && (db > 0 ==> Serialize(s, m) == [8] + EncodeVarint(db))
            && (db < 0 ==> Serialize(s, m) == [8] + EncodeVarint(db + 0x1_0000_0000_0000_0000))
            && (threads > 0 ==> Serialize(s, w) == [40] + EncodeVarint(threads))
  {
    CompactRequestReadBack(db, [], [], [], 0, 0, [], 0);
    CompactRequestReadBack(0, [], [], [], threads, 0, [], 0);
    assert EmitAll([]) == [] && Tagged(18, []) == [] && Tagged(26, []) == [] && Tagged(34, []) == [];
    assert TaggedNumber(8, 0) == [] && TaggedNumber(40, 0) == [] && TaggedNumber(48, 0) == [];
    OnlyOne(TaggedNumber(8, db));
    OnlyOne(TaggedNumber(40, threads));
    TaggedNumbers(db, threads);
    hide EncodeVarint, Serialize, COMPACT_REQUEST, Parse, Conforms, EmitAll, Tagged, TaggedNumber, Utf8.Valid;
  }

  lemma {:induction false} TaggedNumbers(db: i32, threads: u32)
    ensures db > 0 ==> TaggedNumber(8, db) == [8] + EncodeVarint(db)
    ensures db < 0 ==> TaggedNumber(8, db) == [8] + EncodeVarint(db + 0x1_0000_0000_0000_0000)
    ensures threads > 0 ==> TaggedNumber(40, threads) == [40] + EncodeVarint(threads)
  {
  }
}

/** What a message of named, typed parts looks like on the wire and which of them are read back,
    field type by field type as the proto3 language guide has them, and independent of how the codec
    computes it. */
module Format {
  import opened Wire
  import opened WireLaws
  import opened WireBytes
  import opened Codec
  import opened MergeLaws
  import opened Parsing
  import opened Nesting
  import opened RoundTrip
  import opened Sizing
  import Utf8

  datatype Part =
    | Int64Part(num: FieldNumber, n: int)
    | UInt64Part(num: FieldNumber, n: int)
    | UInt32Part(num: FieldNumber, n: int)
    | EnumPart(num: FieldNumber, n: int)
    | BoolPart(num: FieldNumber, n: int)
    | BytesPart(num: FieldNumber, b: bytes)
    | StringPart(num: FieldNumber, b: bytes)
    | StringsPart(num: FieldNumber, bs: seq<bytes>)
    | MessagePart(num: FieldNumber, sub: Schema, m: Option<Msg>)
    | MessagesPart(num: FieldNumber, sub: Schema, ms: seq<Msg>)

  function PartValue(p: Part): Value {
    match p
    case BytesPart(_, b) => Blob(b)
    case StringPart(_, b) => Blob(b)
    case StringsPart(_, bs) => Blobs(bs)
    case MessagePart(_, _, m) => Opt(m)
    case MessagesPart(_, _, ms) => Msgs(ms)
    case _ => Num(p.n)
  }

  /** The values the C++ type of the field can hold. */
  ghost predicate PartFits(p: Part) {
    match p
    case Int64Part(_, n) => -0x8000_0000_0000_0000 <= n < 0x8000_0000_0000_0000
    case UInt64Part(_, n) => 0 <= n < 0x1_0000_0000_0000_0000
    case UInt32Part(_, n) => 0 <= n < 0x1_0000_0000
    case EnumPart(_, n) => -0x8000_0000 <= n < 0x8000_0000
    case BoolPart(_, n) => n == 0 || n == 1
    case MessagePart(_, sub, m) => m.Some? ==> Conforms(sub, m.value)
    case MessagesPart(_, sub, ms) => forall i :: 0 <= i < |ms| ==> Conforms(sub, ms[i])
    case _ => true
  }

  function Delimited(num: FieldNumber, data: bytes): bytes {
    EncodeVarint(8 * num + 2) + (EncodeVarint(|data|) + data)
  }

  function AllDelimited(num: FieldNumber, ds: seq<bytes>): bytes {
    if ds == [] then [] else Delimited(num, ds[0]) + AllDelimited(num, ds[1..])
  }

  function Serialized(sub: Schema, ms: seq<Msg>): (ds: seq<bytes>)
    requires forall i :: 0 <= i < |ms| ==> Conforms(sub, ms[i])
    ensures |ds| == |ms|
  {
    if ms == [] then [] else [Serialize(sub, ms[0])] + Serialized(sub, ms[1..])
  }

  /** Zero, empty and absent parts are not written; elements of repeated ones always are. */
  function PartBytes(p: Part): bytes
    requires PartFits(p)
  {
    match p
    case BytesPart(num, b) => if b == [] then [] else Delimited(num, b)
    case StringPart(num, b) => if b == [] then [] else Delimited(num, b)
    case StringsPart(num, bs) => AllDelimited(num, bs)
    case MessagePart(num, sub, m) => if m.None? then [] else Delimited(num, Serialize(sub, m.value))
    case MessagesPart(num, sub, ms) => AllDelimited(num, Serialized(sub, ms))
    case _ =>
      if p.n == 0 then []
      else EncodeVarint(8 * p.num) + EncodeVarint(if p.n < 0 then p.n + 0x1_0000_0000_0000_0000 else p.n)
  }

  /** What a parser with this recursion limit reads back. */
  ghost predicate PartReadable(p: Part, budget: nat)
    requires PartFits(p)
  {
    match p
    case StringPart(_, b) => Utf8.Valid(b)
    case StringsPart(_, bs) => forall i :: 0 <= i < |bs| ==> Utf8.Valid(bs[i])
    case MessagePart(_, sub, m) => m.Some? ==> StringsValid(sub, m.value) && 1 + Depth(sub, m.value) <= budget
    case MessagesPart(_, sub, ms) =>
      forall i :: 0 <= i < |ms| ==> StringsValid(sub, ms[i]) && 1 + Depth(sub, ms[i]) <= budget
    case _ => true
  }

  /** The records that belong to a part. */
  predicate Takes(p: Part, r: Record) {
    r.num == p.num &&
    match p
    case Int64Part(_, _) => r.Varint?
    case UInt64Part(_, _) => r.Varint?
    case UInt32Part(_, _) => r.Varint?
    case EnumPart(_, _) => r.Varint?
    case BoolPart(_, _) => r.Varint?
    case _ => r.Len?
  }

  ghost predicate NestedClean(p: Part)
    requires PartFits(p)
  {
    match p
    case MessagePart(_, sub, m) => m.Some? ==> Clean(sub, m.value)
    case MessagesPart(_, sub, ms) => forall i :: 0 <= i < |ms| ==> Clean(sub, ms[i])
    case _ => true
  }

  // ---------------------------------------------------------------- all parts

  function Values(ps: seq<Part>): (vs: seq<Value>)
    ensures |vs| == |ps|
  {
    if ps == [] then [] else [PartValue(ps[0])] + Values(ps[1..])
  }

  ghost predicate AllFit(ps: seq<Part>) {
    ps == [] || (PartFits(ps[0]) && AllFit(ps[1..]))
  }

  function AllPartBytes(ps: seq<Part>): bytes
    requires AllFit(ps)
  {
    if ps == [] then [] else PartBytes(ps[0]) + AllPartBytes(ps[1..])
  }

  ghost predicate AllPartsReadable(ps: seq<Part>, budget: nat)
    requires AllFit(ps)
  {
    ps == [] || (PartReadable(ps[0], budget) && AllPartsReadable(ps[1..], budget))
  }

  ghost predicate AllNestedClean(ps: seq<Part>)
    requires AllFit(ps)
  {
    ps == [] || (NestedClean(ps[0]) && AllNestedClean(ps[1..]))
  }

  ghost predicate NoneTaken(ps: seq<Part>, unk: seq<Record>) {
    forall i, j :: 0 <= i < |ps| && 0 <= j < |unk| ==> !Takes(ps[i], unk[j])
  }

  /** A message with these parts: which values it can hold, its bytes, which unknown fields clash,
      and exactly when it is read back. */
  ghost predicate Means(s: Schema, ps: seq<Part>, unk: seq<Record>, budget: nat) {
    var m := Msg(Values(ps), unk);
    && (Conforms(s, m) <==> AllFit(ps))
    && (Conforms(s, m) && AllFit(ps) ==>
          && Serialize(s, m) == AllPartBytes(ps) + EmitAll(unk)
          && (Clean(s, m) <==> NoneTaken(ps, unk) && AllNestedClean(ps))
          && (Clean(s, m) && |Serialize(s, m)| < 0x8000_0000 ==>
                Parse(s, Empty(s), Serialize(s, m), budget)
                == if AllPartsReadable(ps, budget) && RecordsDepth(unk) <= budget then Some(m) else None))
  }

  // ---------------------------------------------------------------- one part

  function TypeOf(p: Part): FieldType {
    match p
    case Int64Part(_, _) => Int64
    case UInt64Part(_, _) => UInt64
    case UInt32Part(_, _) => UInt32
    case EnumPart(_, _) => Enum
    case BoolPart(_, _) => Bool
    case BytesPart(_, _) => Bytes
    case StringPart(_, _) => Str
    case StringsPart(_, _) => RepStr
    case MessagePart(_, sub, _) => Sub(sub)
    case MessagesPart(_, sub, _) => RepSub(sub)
  }

  function FieldOf(p: Part): Field {
    Field(p.num, TypeOf(p))
  }

  lemma {:induction false} PartConforms(p: Part)
    ensures ValueConforms(TypeOf(p), PartValue(p)) <==> PartFits(p)
  {
    hide Conforms;
  }

  lemma {:induction false} RecordsDelimited(num: FieldNumber, bs: seq<bytes>)
    ensures EmitAll(BlobRecords(num, bs)) == AllDelimited(num, bs)
  {
    if bs != [] {
      RecordBytes(num, 0, bs[0], []);
      RecordsDelimited(num, bs[1..]);
      assert BlobRecords(num, bs)[1..] == BlobRecords(num, bs[1..]);
    }
  }

  lemma {:induction false} MessagesDelimited(num: FieldNumber, sub: Schema, ms: seq<Msg>)
    requires forall i :: 0 <= i < |ms| ==> Conforms(sub, ms[i])
    ensures EmitAll(MsgRecords(num, sub, ms)) == AllDelimited(num, Serialized(sub, ms))
  {
    if ms != [] {
      var data := Serialize(sub, ms[0]);
      RecordBytes(num, 0, data, []);
      MessagesDelimited(num, sub, ms[1..]);
      hide Serialize, Emit, EncodeVarint;
      assert MsgRecords(num, sub, ms)[1..] == MsgRecords(num, sub, ms[1..]);
      assert Serialized(sub, ms)[1..] == Serialized(sub, ms[1..]);
    }
  }

  /** A number: nothing when it is zero, otherwise its tag and its value, a negative one as the
      64-bit two's complement. */
  lemma {:induction false} NumberBytes(num: FieldNumber, n: int)
    requires -0x8000_0000_0000_0000 <= n < 0x1_0000_0000_0000_0000
    ensures NumBytes(num, n)
         == if n == 0 then []
            else EncodeVarint(8 * num) + EncodeVarint(if n < 0 then n + 0x1_0000_0000_0000_0000 else n)
  {
    RecordBytes(num, ToWire(n), [], []);
  }

  lemma {:induction false} PartWritten(p: Part)
    requires PartFits(p) && ValueConforms(TypeOf(p), PartValue(p))
    ensures EmitAll(FieldRecords(FieldOf(p), PartValue(p))) == PartBytes(p)
  {
    hide Serialize, Conforms, Emit, EncodeVarint, ToWire;
    match p
    case BytesPart(num, b) => BlobWritten(FieldOf(p), b);
    case StringPart(num, b) => BlobWritten(FieldOf(p), b);
    case StringsPart(num, bs) => RecordsDelimited(num, bs);
    case MessagePart(num, sub, m) =>
      if m.Some? {
        var data := Serialize(sub, m.value);
        RecordBytes(num, 0, data, []);
        SingleRecord(Len(num, data));
      }
    case MessagesPart(num, sub, ms) => MessagesDelimited(num, sub, ms);
    case _ =>
      NumField(FieldOf(p), p.n);
      NumberBytes(p.num, p.n);
  }

  lemma {:induction false} BlobWritten(f: Field, b: bytes)
    requires f.typ.Bytes? || f.typ.Str?
    ensures EmitAll(FieldRecords(f, Blob(b))) == if b == [] then [] else Delimited(f.num, b)
  {
    BlobField(f, b);
    RecordBytes(f.num, 0, b, []);
  }

  lemma {:induction false} DepthOfEach(sub: Schema, ms: seq<Msg>, budget: nat)
    requires forall i :: 0 <= i < |ms| ==> Conforms(sub, ms[i])
    ensures MsgsDepth(sub, ms) <= budget <==> forall i :: 0 <= i < |ms| ==> 1 + Depth(sub, ms[i]) <= budget
  {
    hide Depth, Conforms;
    if ms != [] {
      DepthOfEach(sub, ms[1..], budget);
      assert forall i :: 1 <= i < |ms| ==> ms[i] == ms[1..][i - 1];
    }
  }

  lemma {:induction false} PartRead(p: Part, budget: nat)
    requires PartFits(p) && ValueConforms(TypeOf(p), PartValue(p))
    ensures ValueReadable(TypeOf(p), PartValue(p), budget) <==> PartReadable(p, budget)
    ensures ValueClean(TypeOf(p), PartValue(p)) <==> NestedClean(p)
  {
    hide Conforms, StringsValid, Depth, Clean, Readable;
    ValueReadableIsDepth(TypeOf(p), PartValue(p), budget);
    if p.MessagesPart? {
      DepthOfEach(p.sub, p.ms, budget);
    }
  }

  lemma {:induction false} PartTakes(p: Part, r: Record)
    ensures Takes(p, r) <==> Matches(FieldOf(p), r)
  {
  }

  // ---------------------------------------------------------------- all parts against the table

  ghost predicate Describes(s: Schema, ps: seq<Part>) {
    |ps| == |s.fields| && forall i :: 0 <= i < |ps| ==> s.fields[i] == FieldOf(ps[i])
  }

  lemma {:induction false} ValuesAt(ps: seq<Part>, i: nat)
    requires i < |ps|
    ensures Values(ps)[i] == PartValue(ps[i])
  {
    if i > 0 {
      ValuesAt(ps[1..], i - 1);
    }
  }

  lemma {:induction false} AllFitAt(ps: seq<Part>)
    ensures AllFit(ps) <==> forall i :: 0 <= i < |ps| ==> PartFits(ps[i])
  {
    hide PartFits;
    if ps != [] {
      AllFitAt(ps[1..]);
      assert forall i :: 1 <= i < |ps| ==> ps[i] == ps[1..][i - 1];
      if AllFit(ps) {
        assert forall i :: 0 <= i < |ps| ==> PartFits(ps[i]);
      }
    }
  }

  lemma {:induction false} PartsConform(s: Schema, ps: seq<Part>, unk: seq<Record>)
    requires Describes(s, ps)
    ensures Conforms(s, Msg(Values(ps), unk)) <==> AllFit(ps)
  {
    AllFitAt(ps);
    forall i | 0 <= i < |ps|
      ensures ValueConforms(s.fields[i].typ, Values(ps)[i]) <==> PartFits(ps[i])
    {
      ValuesAt(ps, i);
      PartConforms(ps[i]);
    }
  }

  lemma {:induction false} PartAt(s: Schema, ps: seq<Part>, unk: seq<Record>, i: nat)
    requires Describes(s, ps) && AllFit(ps) && Conforms(s, Msg(Values(ps), unk)) && i < |ps|
    ensures PartFits(ps[i]) && AllFit(ps[i..]) && AllFit(ps[i + 1..])
    ensures ps[i..][0] == ps[i] && ps[i..][1..] == ps[i + 1..]
    ensures s.fields[i] == FieldOf(ps[i]) && Values(ps)[i] == PartValue(ps[i])
    ensures ValueConforms(TypeOf(ps[i]), PartValue(ps[i]))
  {
    AllFitAt(ps);
    AllFitAt(ps[i..]);
    AllFitAt(ps[i + 1..]);
    ValuesAt(ps, i);
    PartConforms(ps[i]);
  }

  lemma {:induction false} PartsWritten(s: Schema, ps: seq<Part>, unk: seq<Record>, i: nat)
    requires Describes(s, ps) && AllFit(ps) && Conforms(s, Msg(Values(ps), unk)) && i <= |ps|
    ensures AllFit(ps[i..]) && BytesFrom(s, Msg(Values(ps), unk), i) == AllPartBytes(ps[i..])
    decreases |ps| - i
  {
    if i < |ps| {
      PartAt(s, ps, unk, i);
      PartWritten(ps[i]);
      PartsWritten(s, ps, unk, i + 1);
      hide Describes, PartBytes, PartFits, FieldRecords, EmitAll, Conforms;
    }
  }

  lemma {:induction false} PartsRead(s: Schema, ps: seq<Part>, unk: seq<Record>, i: nat, budget: nat)
    requires Describes(s, ps) && AllFit(ps) && Conforms(s, Msg(Values(ps), unk)) && i <= |ps|
    ensures AllFit(ps[i..])
    ensures (forall k :: i <= k < |ps| ==> ValueReadable(s.fields[k].typ, Values(ps)[k], budget))
       <==> AllPartsReadable(ps[i..], budget)
    ensures (forall k :: i <= k < |ps| ==> ValueClean(s.fields[k].typ, Values(ps)[k])) <==> AllNestedClean(ps[i..])
    decreases |ps| - i
  {
    if i < |ps| {
      PartAt(s, ps, unk, i);
      PartRead(ps[i], budget);
      PartsRead(s, ps, unk, i + 1, budget);
      hide PartFits, Conforms, PartReadable, NestedClean, ValueReadable, ValueClean;
    }
  }

  lemma {:induction false} UnknownParts(s: Schema, ps: seq<Part>, unk: seq<Record>)
    requires Describes(s, ps)
    ensures (forall j :: 0 <= j < |unk| ==> Dispatch(s, unk[j]) == |s.fields|) <==> NoneTaken(ps, unk)
  {
    hide Takes, Matches;
    forall i, j | 0 <= i < |ps| && 0 <= j < |unk| ensures Takes(ps[i], unk[j]) <==> Matches(s.fields[i], unk[j]) {
      PartTakes(ps[i], unk[j]);
    }
    if NoneTaken(ps, unk) {
      forall j | 0 <= j < |unk| ensures Dispatch(s, unk[j]) == |s.fields| {
        assert forall i :: 0 <= i < |ps| ==> !Takes(ps[i], unk[j]);
        DispatchIs(s, |s.fields|, unk[j]);
      }
    } else {
      var i, j :| 0 <= i < |ps| && 0 <= j < |unk| && Takes(ps[i], unk[j]);
      assert Matches(s.fields[i], unk[j]);
    }
  }

  lemma {:induction false} PartsReadable(s: Schema, ps: seq<Part>, unk: seq<Record>, budget: nat)
    requires Describes(s, ps) && AllFit(ps) && Conforms(s, Msg(Values(ps), unk))
    ensures Readable(s, Msg(Values(ps), unk), budget) <==> AllPartsReadable(ps, budget) && RecordsDepth(unk) <= budget
    ensures Clean(s, Msg(Values(ps), unk)) <==> NoneTaken(ps, unk) && AllNestedClean(ps)
  {
    hide ValueReadable, ValueClean, NoneTaken, AllNestedClean, AllPartsReadable, AllFit, Conforms;
    PartsRead(s, ps, unk, 0, budget);
    UnknownParts(s, ps, unk);
    AllShallowIsDepth(unk, budget);
    assert ps[0..] == ps;
  }

  /** A message class means what the parts that describe its table mean. */
  lemma {:induction false} TableMeans(s: Schema, ps: seq<Part>, unk: seq<Record>, budget: nat)
    requires WellFormed(s) && Describes(s, ps)
    ensures Means(s, ps, unk, budget)
  {
    hide Parse, Serialize, Conforms, WellFormed, BytesFrom, Empty, Readable, Clean, Merge, AllFit, AllPartsReadable;
    hide AllNestedClean, NoneTaken, Describes, AllPartBytes;
    var m := Msg(Values(ps), unk);
    PartsConform(s, ps, unk);
    if AllFit(ps) {
      PartsWritten(s, ps, unk, 0);
      PartsReadable(s, ps, unk, budget);
      SerializeByField(s, m);
      assert ps[0..] == ps;
      if Clean(s, m) && |Serialize(s, m)| < 0x8000_0000 {
        SerializeThenParse(s, Empty(s), m, budget);
        MergeUnits(s, m);
      }
    }
  }

  // ---------------------------------------------------------------- lists of parts

  lemma {:induction false} ConsParts(p: Part, ps: seq<Part>, budget: nat)
    ensures Values([p] + ps) == [PartValue(p)] + Values(ps)
    ensures AllFit([p] + ps) <==> PartFits(p) && AllFit(ps)
    ensures AllFit([p] + ps) ==>
              && AllPartBytes([p] + ps) == PartBytes(p) + AllPartBytes(ps)
              && (AllPartsReadable([p] + ps, budget) <==> PartReadable(p, budget) && AllPartsReadable(ps, budget))
              && (AllNestedClean([p] + ps) <==> NestedClean(p) && AllNestedClean(ps))
  {
    hide PartFits, PartBytes, PartValue, PartReadable, NestedClean;
    assert ([p] + ps)[1..] == ps;
  }

  lemma {:induction false} TwoParts(a: Part, b: Part, budget: nat)
    ensures var ps := [a, b];
            && Values(ps) == [PartValue(a), PartValue(b)]
            && (AllFit(ps) <==> PartFits(a) && PartFits(b))
            && (AllFit(ps) ==>
                  && AllPartBytes(ps) == PartBytes(a) + PartBytes(b)
                  && (AllPartsReadable(ps, budget) <==> PartReadable(a, budget) && PartReadable(b, budget))
                  && (AllNestedClean(ps) <==> NestedClean(a) && NestedClean(b)))
  {
    hide PartFits, PartBytes, PartValue, PartReadable, NestedClean;
    ConsParts(b, [], budget);
    ConsParts(a, [b], budget);
    assert [b] + [] == [b] && [a] + [b] == [a, b];
  }

  lemma {:induction false} FourParts(a: Part, b: Part, c: Part, d: Part, budget: nat)
    ensures var ps := [a, b, c, d];
            && Values(ps) == [PartValue(a), PartValue(b), PartValue(c), PartValue(d)]
            && (AllFit(ps) <==> PartFits(a) && PartFits(b) && PartFits(c) && PartFits(d))
            && (AllFit(ps) ==>
                  && AllPartBytes(ps) == PartBytes(a) + PartBytes(b) + PartBytes(c) + PartBytes(d)
                  && (AllPartsReadable(ps, budget) <==>
                        && PartReadable(a, budget) && PartReadable(b, budget)
                        && PartReadable(c, budget) && PartReadable(d, budget))
                  && (AllNestedClean(ps) <==> NestedClean(a) && NestedClean(b) && NestedClean(c) && NestedClean(d)))
  {
    hide PartFits, PartBytes, PartValue, PartReadable, NestedClean, AllFit, AllPartsReadable, AllPartBytes;
    hide Values, AllNestedClean;
    TwoParts(c, d, budget);
    ConsParts(b, [c, d], budget);
    ConsParts(a, [b, c, d], budget);
    assert [b] + [c, d] == [b, c, d] && [a] + [b, c, d] == [a, b, c, d];
  }

  lemma {:induction false} SixParts(a: Part, b: Part, c: Part, d: Part, e: Part, f: Part, budget: nat)
    ensures var ps := [a, b, c, d, e, f];
            && Values(ps) == [PartValue(a), PartValue(b), PartValue(c), PartValue(d), PartValue(e), PartValue(f)]
            && (AllFit(ps) <==>
                  PartFits(a) && PartFits(b) && PartFits(c) && PartFits(d) && PartFits(e) && PartFits(f))
            && (AllFit(ps) ==>
                  && AllPartBytes(ps)
                     == PartBytes(a) + PartBytes(b) + PartBytes(c) + PartBytes(d) + PartBytes(e) + PartBytes(f)
                  && (AllPartsReadable(ps, budget) <==>
                        && PartReadable(a, budget) && PartReadable(b, budget) && PartReadable(c, budget)
                        && PartReadable(d, budget) && PartReadable(e, budget) && PartReadable(f, budget))
                  && (AllNestedClean(ps) <==>
                        && NestedClean(a) && NestedClean(b) && NestedClean(c)
                        && NestedClean(d) && NestedClean(e) && NestedClean(f)))
  {
    hide PartFits, PartBytes, PartValue, PartReadable, NestedClean, AllFit, AllPartsReadable, AllPartBytes;
    hide Values, AllNestedClean;
    FourParts(c, d, e, f, budget);
    ConsParts(b, [c, d, e, f], budget);
    ConsParts(a, [b, c, d, e, f], budget);
    assert [b] + [c, d, e, f] == [b, c, d, e, f] && [a] + [b, c, d, e, f] == [a, b, c, d, e, f];
  }
}

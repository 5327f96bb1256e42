/** The meaning of a generated proto3 message class, as a function of its field table: what
    parsing, serializing, sizing, merging and clearing do to the value of a message. The
    message classes are proved against these functions. */
module Codec {
  import opened Wire
  import Utf8

  datatype FieldType =
    | Int64 | UInt64 | UInt32 | Enum | Bool
    | Bytes | Str | RepStr
    | Sub(schema: Schema) | RepSub(schema: Schema)
  datatype Field = Field(num: FieldNumber, typ: FieldType)
  datatype Schema = Schema(fields: seq<Field>)

  /** Field values, one per field of the schema. A scalar at its default is not "present". */
  datatype Value =
    | Num(n: int)
    | Blob(b: bytes)
    | Blobs(bs: seq<bytes>)
    | Opt(m: Option<Msg>)
    | Msgs(ms: seq<Msg>)
  datatype Msg = Msg(vals: seq<Value>, unk: seq<Record>)

  predicate IsNumeric(t: FieldType) {
    t.Int64? || t.UInt64? || t.UInt32? || t.Enum? || t.Bool?
  }

  function FieldWireType(t: FieldType): (w: nat)
    ensures w < 8
  {
    if IsNumeric(t) then WIRETYPE_VARINT else WIRETYPE_LENGTH_DELIMITED
  }

  /** Distinct field numbers below 16, so that every tag is one byte. */
  ghost predicate WellFormed(s: Schema)
    decreases s
  {
    && (forall i :: 0 <= i < |s.fields| ==> s.fields[i].num < 16)
    && (forall i, j :: 0 <= i < j < |s.fields| ==> s.fields[i].num != s.fields[j].num)
    && (forall i :: 0 <= i < |s.fields| ==> WellFormedType(s.fields[i].typ))
  }

  ghost predicate WellFormedType(t: FieldType)
    decreases t
  {
    t.Sub? || t.RepSub? ==> WellFormed(t.schema)
  }

  // ---------------------------------------------------------------- numbers

  predicate InRange(t: FieldType, n: int)
    requires IsNumeric(t)
  {
    match t
    case Int64 => -TWO_TO_THE_63 <= n < TWO_TO_THE_63
    case UInt64 => 0 <= n < TWO_TO_THE_64
    case UInt32 => 0 <= n < TWO_TO_THE_32
    case Enum => -TWO_TO_THE_31 <= n < TWO_TO_THE_31
    case _ => 0 <= n < 2
  }

  /** Two's complement in 64 bits: negative enums are sign-extended. */
  function ToWire(n: int): u64 {
    n % TWO_TO_THE_64
  }

  /** What ReadPrimitive stores: 32-bit types keep the low 32 bits, a bool tests for zero. */
  function FromWire(t: FieldType, v: u64): (n: int)
    requires IsNumeric(t)
    ensures InRange(t, n)
  {
    match t
    case Int64 => if v < TWO_TO_THE_63 then v else v - TWO_TO_THE_64
    case UInt64 => v
    case UInt32 => v % TWO_TO_THE_32
    case Enum =>
      var w := v % TWO_TO_THE_32;
      if w < TWO_TO_THE_31 then w else w - TWO_TO_THE_32
    case _ => if v != 0 then 1 else 0
  }

  // ---------------------------------------------------------------- values

  ghost predicate Conforms(s: Schema, m: Msg)
    decreases s, 1
  {
    && |m.vals| == |s.fields|
    && forall i :: 0 <= i < |s.fields| ==> ValueConforms(s.fields[i].typ, m.vals[i])
  }

  ghost predicate ValueConforms(t: FieldType, v: Value)
    decreases t, 0
  {
    match t
    case Bytes => v.Blob?
    case Str => v.Blob?
    case RepStr => v.Blobs?
    case Sub(sub) => v.Opt? && (v.m.Some? ==> Conforms(sub, v.m.value))
    case RepSub(sub) => v.Msgs? && forall i :: 0 <= i < |v.ms| ==> Conforms(sub, v.ms[i])
    case _ => v.Num? && InRange(t, v.n)
  }

  function DefaultValue(t: FieldType): (v: Value)
    ensures ValueConforms(t, v)
  {
    match t
    case Bytes => Blob([])
    case Str => Blob([])
    case RepStr => Blobs([])
    case Sub(_) => Opt(None)
    case RepSub(_) => Msgs([])
    case _ => Num(0)
  }

  /** The cleared message. */
  function Empty(s: Schema): (m: Msg)
    ensures Conforms(s, m)
  {
    Msg(seq(|s.fields|, i requires 0 <= i < |s.fields| => DefaultValue(s.fields[i].typ)), [])
  }

  // ---------------------------------------------------------------- serializing

  function FieldRecords(f: Field, v: Value): seq<Record>
    requires ValueConforms(f.typ, v)
    decreases f, 0
  {
    match f.typ
    case Bytes => if v.b == [] then [] else [Len(f.num, v.b)]
    case Str => if v.b == [] then [] else [Len(f.num, v.b)]
    case RepStr => BlobRecords(f.num, v.bs)
    case Sub(sub) => if v.m.None? then [] else [Len(f.num, Serialize(sub, v.m.value))]
    case RepSub(sub) => MsgRecords(f.num, sub, v.ms)
    case _ => if v.n == 0 then [] else [Varint(f.num, ToWire(v.n))]
  }

  function BlobRecords(num: FieldNumber, bs: seq<bytes>): seq<Record> {
    if bs == [] then [] else [Len(num, bs[0])] + BlobRecords(num, bs[1..])
  }

  function MsgRecords(num: FieldNumber, sub: Schema, ms: seq<Msg>): seq<Record>
    requires forall i :: 0 <= i < |ms| ==> Conforms(sub, ms[i])
    decreases sub, 3, |ms|
  {
    if ms == [] then [] else [Len(num, Serialize(sub, ms[0]))] + MsgRecords(num, sub, ms[1..])
  }

  /** The records of fields i, i+1, ... in schema order. */
  function KnownRecords(s: Schema, m: Msg, i: nat): seq<Record>
    requires Conforms(s, m) && i <= |s.fields|
    decreases s, 1, |s.fields| - i
  {
    if i == |s.fields| then []
    else FieldRecords(s.fields[i], m.vals[i]) + KnownRecords(s, m, i + 1)
  }

  /** Known fields in order of number, then the unknown fields. */
  function Serialize(s: Schema, m: Msg): bytes
    requires Conforms(s, m)
    decreases s, 2
  {
    EmitAll(KnownRecords(s, m, 0) + m.unk)
  }

  // ---------------------------------------------------------------- merging

  function MergeValue(t: FieldType, x: Value, y: Value): (r: Value)
    requires ValueConforms(t, x) && ValueConforms(t, y)
    ensures ValueConforms(t, r)
    decreases t, 0
  {
    match t
    case Bytes => if y.b == [] then x else y
    case Str => if y.b == [] then x else y
    case RepStr => Blobs(x.bs + y.bs)
    case Sub(sub) =>
      if y.m.None? then x
      else Opt(Some(Merge(sub, if x.m.None? then Empty(sub) else x.m.value, y.m.value)))
    case RepSub(_) => Msgs(x.ms + y.ms)
    case _ => if y.n == 0 then x else y
  }

  /** MergeFrom: `y` merged into `x`. */
  function Merge(s: Schema, x: Msg, y: Msg): (r: Msg)
    requires Conforms(s, x) && Conforms(s, y)
    ensures Conforms(s, r)
    decreases s, 1
  {
    Msg(seq(|s.fields|, i requires 0 <= i < |s.fields| =>
          MergeValue(s.fields[i].typ, x.vals[i], y.vals[i])),
        x.unk + y.unk)
  }

  // ---------------------------------------------------------------- parsing

  predicate Matches(f: Field, r: Record) {
    f.num == r.num && FieldWireType(f.typ) == WireType(r)
  }

  /** The first field from `i` on that takes the record, or |fields| when none does. */
  function DispatchFrom(fs: seq<Field>, i: nat, r: Record): (k: nat)
    requires i <= |fs|
    ensures i <= k <= |fs|
    ensures k < |fs| ==> Matches(fs[k], r)
    ensures forall j :: i <= j < k ==> !Matches(fs[j], r)
    decreases |fs| - i
  {
    if i == |fs| || Matches(fs[i], r) then i else DispatchFrom(fs, i + 1, r)
  }

  function Dispatch(s: Schema, r: Record): (k: nat)
    ensures k <= |s.fields|
    ensures k < |s.fields| ==> Matches(s.fields[k], r)
    ensures forall j :: 0 <= j < k ==> !Matches(s.fields[j], r)
  {
    DispatchFrom(s.fields, 0, r)
  }

  lemma {:induction false} DispatchIs(s: Schema, k: nat, r: Record)
    requires k <= |s.fields| && forall j :: 0 <= j < k ==> !Matches(s.fields[j], r)
    requires k < |s.fields| ==> Matches(s.fields[k], r)
    ensures Dispatch(s, r) == k
  {
  }

  /** What the parser does with a record of a known field. A string must be valid UTF-8; a
      sub-message is parsed into the one already there, one level deeper. */
  function ApplyField(f: Field, v: Value, r: Record, budget: nat): (w: Option<Value>)
    requires ValueConforms(f.typ, v) && Matches(f, r)
    ensures w.Some? ==> ValueConforms(f.typ, w.value)
    decreases f, 0
  {
    match f.typ
    case Bytes => Some(Blob(r.data))
    case Str => if Utf8.Valid(r.data) then Some(Blob(r.data)) else None
    case RepStr => if Utf8.Valid(r.data) then Some(Blobs(v.bs + [r.data])) else None
    case Sub(sub) =>
      if budget == 0 then None else
      var m :- Parse(sub, if v.m.None? then Empty(sub) else v.m.value, r.data, budget - 1);
      Some(Opt(Some(m)))
    case RepSub(sub) =>
      if budget == 0 then None else
      var m :- Parse(sub, Empty(sub), r.data, budget - 1);
      Some(Msgs(v.ms + [m]))
    case _ => Some(Num(FromWire(f.typ, r.v)))
  }

  /** What the parser does with any record: dispatch on number and wire type, and keep what no
      field takes among the unknown fields. */
  function Apply(s: Schema, m: Msg, r: Record, budget: nat): (w: Option<Msg>)
    requires Conforms(s, m)
    ensures w.Some? ==> Conforms(s, w.value)
    decreases s, 0
  {
    var k := Dispatch(s, r);
    if k == |s.fields| then Some(m.(unk := m.unk + [r]))
    else
      var v :- ApplyField(s.fields[k], m.vals[k], r, budget);
      Some(m.(vals := m.vals[k := v]))
  }

  /** How MergePartialFromCodedStream ends: it returned false, or it stopped at a zero tag;
      `atEnd` tells whether that was the end of the input (or of the current limit). */
  datatype Outcome = Failed | Stopped(msg: Msg, atEnd: bool)

  function MergePartial(s: Schema, m: Msg, bs: bytes, budget: nat): (o: Outcome)
    requires Conforms(s, m)
    ensures o.Stopped? ==> Conforms(s, o.msg)
    decreases s, 1, |bs|
  {
    var (tag, rest) := ReadTag(bs);
    if tag == 0 then Stopped(m, bs == [])
    else match ReadRecord(tag, rest, budget)
      case None => Failed
      case Some((r, rest1)) =>
        match Apply(s, m, r, budget)
        case None => Failed
        case Some(m1) => MergePartial(s, m1, rest1, budget)
  }

  /** A parse that must consume its whole input, as every caller of the parser demands. */
  function Parse(s: Schema, m: Msg, bs: bytes, budget: nat): (w: Option<Msg>)
    requires Conforms(s, m)
    ensures w.Some? ==> Conforms(s, w.value)
    decreases s, 2
  {
    match MergePartial(s, m, bs, budget)
    case Failed => None
    case Stopped(m1, atEnd) => if atEnd then Some(m1) else None
  }

  // ---------------------------------------------------------------- sizing

  function LengthDelimitedSize(n: nat): nat {
    VarintSize(n) + n
  }

  function BlobSizes(bs: seq<bytes>): nat {
    if bs == [] then 0 else 1 + LengthDelimitedSize(|bs[0]|) + BlobSizes(bs[1..])
  }

  function MsgSizes(sub: Schema, ms: seq<Msg>): nat
    requires forall i :: 0 <= i < |ms| ==> Conforms(sub, ms[i])
    decreases sub, 3, |ms|
  {
    if ms == [] then 0
    else 1 + LengthDelimitedSize(ByteSize(sub, ms[0])) + MsgSizes(sub, ms[1..])
  }

  /** What a field adds to ByteSizeLong; every tag is counted as one byte. */
  function FieldSize(t: FieldType, v: Value): nat
    requires ValueConforms(t, v)
    decreases t, 0
  {
    match t
    case Bytes => if v.b == [] then 0 else 1 + LengthDelimitedSize(|v.b|)
    case Str => if v.b == [] then 0 else 1 + LengthDelimitedSize(|v.b|)
    case RepStr => BlobSizes(v.bs)
    case Sub(sub) => if v.m.None? then 0 else 1 + LengthDelimitedSize(ByteSize(sub, v.m.value))
    case RepSub(sub) => MsgSizes(sub, v.ms)
    case Bool => if v.n == 0 then 0 else 1 + 1
    case _ => if v.n == 0 then 0 else 1 + VarintSize(ToWire(v.n))
  }

  function FieldSizes(s: Schema, m: Msg, i: nat): nat
    requires Conforms(s, m) && i <= |s.fields|
    decreases s, 1, |s.fields| - i
  {
    if i == |s.fields| then 0
    else FieldSize(s.fields[i].typ, m.vals[i]) + FieldSizes(s, m, i + 1)
  }

  /** ComputeUnknownFieldsSize, with the real width of every tag. */
  function RecordSize(r: Record): nat
    decreases r, 0
  {
    VarintSize(Tag(r.num, WireType(r))) +
    match r
    case Varint(_, v) => VarintSize(v)
    case Fixed64(_, _) => 8
    case Len(_, data) => LengthDelimitedSize(|data|)
    case Group(num, body) => RecordSizes(body) + VarintSize(Tag(num, WIRETYPE_END_GROUP))
    case Fixed32(_, _) => 4
  }

  function RecordSizes(rs: seq<Record>): nat
    decreases rs, 0
  {
    if rs == [] then 0 else RecordSize(rs[0]) + RecordSizes(rs[1..])
  }

  /** ByteSizeLong, as a sum over fields that never builds the bytes. */
  function ByteSize(s: Schema, m: Msg): nat
    requires Conforms(s, m)
    decreases s, 2
  {
    RecordSizes(m.unk) + FieldSizes(s, m, 0)
  }
}

/** ByteSizeLong counts exactly the bytes the serializers write. */
module Sizing {
  import opened Wire
  import opened WireLaws
  import opened Codec

  lemma {:induction false} RecordSizeIsLength(r: Record)
    ensures RecordSize(r) == |Emit(r)|
    decreases r, 0
  {
    VarintSizeIsLength(Tag(r.num, WireType(r)));
    match r
    case Varint(_, v) => VarintSizeIsLength(v);
    case Len(_, data) => VarintSizeIsLength(|data|);
    case Group(num, body) =>
      RecordSizesAreLength(body);
      VarintSizeIsLength(Tag(num, WIRETYPE_END_GROUP));
    case _ =>
  }

  lemma {:induction false} RecordSizesAreLength(rs: seq<Record>)
    ensures RecordSizes(rs) == |EmitAll(rs)|
    decreases rs, 0
  {
    if rs != [] {
      RecordSizeIsLength(rs[0]);
      RecordSizesAreLength(rs[1..]);
    }
  }

  lemma {:induction false} NoRecords()
    ensures RecordSizes([]) == 0
  {
  }

  lemma {:induction false} SingleRecord(r: Record)
    ensures EmitAll([r]) == Emit(r)
  {
    assert EmitAll([r]) == Emit(r) + EmitAll([]);
  }

  lemma {:induction false} SmallTagSize(r: Record)
    requires r.num < 16
    ensures |Emit(r)| == 1 + |Payload(r)|
  {
  }

  lemma {:induction false} LenSize(num: FieldNumber, data: bytes)
    requires num < 16
    ensures |Emit(Len(num, data))| == 1 + LengthDelimitedSize(|data|)
  {
    SmallTagSize(Len(num, data));
    VarintSizeIsLength(|data|);
  }

  lemma {:induction false} BlobSizesAreLength(num: FieldNumber, bs: seq<bytes>)
    requires num < 16
    ensures BlobSizes(bs) == |EmitAll(BlobRecords(num, bs))|
  {
    if bs != [] {
      LenSize(num, bs[0]);
      BlobSizesAreLength(num, bs[1..]);
    }
  }

  lemma {:induction false} MsgSizesAreLength(num: FieldNumber, sub: Schema, ms: seq<Msg>)
    requires num < 16 && WellFormed(sub)
    requires forall i :: 0 <= i < |ms| ==> Conforms(sub, ms[i])
    ensures MsgSizes(sub, ms) == |EmitAll(MsgRecords(num, sub, ms))|
    decreases sub, 3, |ms|
  {
    if ms != [] {
      ByteSizeIsLength(sub, ms[0]);
      LenSize(num, Serialize(sub, ms[0]));
      MsgSizesAreLength(num, sub, ms[1..]);
    }
  }

  lemma {:induction false} FieldSizeIsLength(f: Field, v: Value)
    requires f.num < 16 && WellFormedType(f.typ) && ValueConforms(f.typ, v)
    ensures FieldSize(f.typ, v) == |EmitAll(FieldRecords(f, v))|
    decreases f, 0
  {
    var rs := FieldRecords(f, v);
    if |rs| == 1 {
      SingleRecord(rs[0]);
    }
    match f.typ
    case RepStr => BlobSizesAreLength(f.num, v.bs);
    case RepSub(sub) => MsgSizesAreLength(f.num, sub, v.ms);
    case Sub(sub) =>
      if v.m.Some? {
        ByteSizeIsLength(sub, v.m.value);
        LenSize(f.num, Serialize(sub, v.m.value));
      }
    case Bytes => LenSize(f.num, v.b);
    case Str => LenSize(f.num, v.b);
    case _ =>
      SmallTagSize(Varint(f.num, ToWire(v.n)));
      VarintSizeIsLength(ToWire(v.n));
  }

  lemma {:induction false} FieldSizesAreLength(s: Schema, m: Msg, i: nat)
    requires WellFormed(s) && Conforms(s, m) && i <= |s.fields|
    ensures FieldSizes(s, m, i) == |EmitAll(KnownRecords(s, m, i))|
    decreases s, 1, |s.fields| - i
  {
    if i < |s.fields| {
      FieldSizeIsLength(s.fields[i], m.vals[i]);
      FieldSizesAreLength(s, m, i + 1);
      EmitAllConcat(FieldRecords(s.fields[i], m.vals[i]), KnownRecords(s, m, i + 1));
    }
  }

  /** The size computed field by field, with one byte per known tag and without building
      anything, is the number of bytes written, for every message of every schema. */
  lemma {:induction false} ByteSizeIsLength(s: Schema, m: Msg)
    requires WellFormed(s) && Conforms(s, m)
    ensures ByteSize(s, m) == |Serialize(s, m)|
    decreases s, 2
  {
    FieldSizesAreLength(s, m, 0);
    RecordSizesAreLength(m.unk);
    EmitAllConcat(KnownRecords(s, m, 0), m.unk);
  }

  /** Bytes and size of the fields from `i` on, one field at a time. */
  lemma {:induction false} FieldByField(s: Schema, m: Msg, i: nat)
    requires Conforms(s, m) && i <= |s.fields|
    ensures i < |s.fields| ==>
              EmitAll(KnownRecords(s, m, i))
              == EmitAll(FieldRecords(s.fields[i], m.vals[i])) + EmitAll(KnownRecords(s, m, i + 1))
    ensures i < |s.fields| ==>
              FieldSizes(s, m, i) == FieldSize(s.fields[i].typ, m.vals[i]) + FieldSizes(s, m, i + 1)
    ensures i == |s.fields| ==> EmitAll(KnownRecords(s, m, i)) == [] && FieldSizes(s, m, i) == 0
    ensures Serialize(s, m) == EmitAll(KnownRecords(s, m, 0)) + EmitAll(m.unk)
  {
    if i < |s.fields| {
      EmitAllConcat(FieldRecords(s.fields[i], m.vals[i]), KnownRecords(s, m, i + 1));
    }
    EmitAllConcat(KnownRecords(s, m, 0), m.unk);
  }

  function FieldBytes(s: Schema, m: Msg, i: nat): bytes
    requires Conforms(s, m) && i < |s.fields|
  {
    EmitAll(FieldRecords(s.fields[i], m.vals[i]))
  }

  function BytesFrom(s: Schema, m: Msg, i: nat): bytes
    requires Conforms(s, m) && i <= |s.fields|
    decreases |s.fields| - i
  {
    if i == |s.fields| then [] else FieldBytes(s, m, i) + BytesFrom(s, m, i + 1)
  }

  lemma {:induction false} BytesFromKnown(s: Schema, m: Msg, i: nat)
    requires Conforms(s, m) && i <= |s.fields|
    ensures EmitAll(KnownRecords(s, m, i)) == BytesFrom(s, m, i)
    decreases |s.fields| - i
  {
    FieldByField(s, m, i);
    if i < |s.fields| {
      BytesFromKnown(s, m, i + 1);
    }
  }

  lemma {:induction false} SerializeByField(s: Schema, m: Msg)
    requires Conforms(s, m)
    ensures Serialize(s, m) == BytesFrom(s, m, 0) + EmitAll(m.unk)
  {
    BytesFromKnown(s, m, 0);
    FieldByField(s, m, 0);
  }

  lemma {:induction false} FourFields(s: Schema, m: Msg)
    requires Conforms(s, m) && |s.fields| == 4
    ensures Serialize(s, m)
         == FieldBytes(s, m, 0) + FieldBytes(s, m, 1) + FieldBytes(s, m, 2) + FieldBytes(s, m, 3) + EmitAll(m.unk)
  {
    SerializeByField(s, m);
    assert BytesFrom(s, m, 4) == [];
    assert BytesFrom(s, m, 2) == FieldBytes(s, m, 2) + (FieldBytes(s, m, 3) + []);
    FiveParts(FieldBytes(s, m, 0), FieldBytes(s, m, 1), FieldBytes(s, m, 2), FieldBytes(s, m, 3), EmitAll(m.unk));
  }

  lemma {:induction false} FourFieldSizes(s: Schema, m: Msg)
    requires Conforms(s, m) && |s.fields| == 4
    ensures ByteSize(s, m)
         == RecordSizes(m.unk) + FieldSize(s.fields[0].typ, m.vals[0]) + FieldSize(s.fields[1].typ, m.vals[1])
            + FieldSize(s.fields[2].typ, m.vals[2]) + FieldSize(s.fields[3].typ, m.vals[3])
  {
    FieldByField(s, m, 0);
    FieldByField(s, m, 1);
    FieldByField(s, m, 2);
    FieldByField(s, m, 3);
    FieldByField(s, m, 4);
    assert FieldSizes(s, m, 2) == FieldSize(s.fields[2].typ, m.vals[2]) + FieldSize(s.fields[3].typ, m.vals[3]);
  }

  lemma {:induction false} BlobSizesAppend(bs: seq<bytes>, b: bytes)
    ensures BlobSizes(bs + [b]) == BlobSizes(bs) + 1 + LengthDelimitedSize(|b|)
  {
    if bs == [] {
      assert bs + [b] == [b];
    } else {
      assert (bs + [b])[1..] == bs[1..] + [b];
      BlobSizesAppend(bs[1..], b);
    }
  }

  lemma {:induction false} MsgSizesAppend(sub: Schema, ms: seq<Msg>, m: Msg)
    requires forall i :: 0 <= i < |ms| ==> Conforms(sub, ms[i])
    requires Conforms(sub, m)
    ensures MsgSizes(sub, ms + [m]) == MsgSizes(sub, ms) + 1 + LengthDelimitedSize(ByteSize(sub, m))
  {
    if ms == [] {
      assert ms + [m] == [m];
    } else {
      assert (ms + [m])[1..] == ms[1..] + [m];
      MsgSizesAppend(sub, ms[1..], m);
    }
  }

  lemma {:induction false} FiveParts(a: bytes, b: bytes, c: bytes, d: bytes, e: bytes)
    ensures a + (b + (c + (d + []))) + e == a + b + c + d + e
  {
  }

  // ---------------------------------------------------------------- one field, as the classes write it

  function BlobBytes(num: FieldNumber, b: bytes): bytes {
    if b == [] then [] else Emit(Len(num, b))
  }

  function BlobSize(b: bytes): nat {
    if b == [] then 0 else 1 + LengthDelimitedSize(|b|)
  }

  function NumBytes(num: FieldNumber, n: int): bytes {
    if n == 0 then [] else Emit(Varint(num, ToWire(n)))
  }

  function NumSize(n: int): nat {
    if n == 0 then 0 else 1 + VarintSize(ToWire(n))
  }

  function OptBytes(num: FieldNumber, sub: Schema, m: Option<Msg>): bytes
    requires m.Some? ==> Conforms(sub, m.value)
  {
    if m.None? then [] else Emit(Len(num, Serialize(sub, m.value)))
  }

  function OptSize(sub: Schema, m: Option<Msg>): nat
    requires m.Some? ==> Conforms(sub, m.value)
  {
    if m.None? then 0 else 1 + LengthDelimitedSize(|Serialize(sub, m.value)|)
  }

  lemma {:induction false} BlobField(f: Field, b: bytes)
    requires f.typ.Bytes? || f.typ.Str?
    ensures EmitAll(FieldRecords(f, Blob(b))) == BlobBytes(f.num, b) && FieldSize(f.typ, Blob(b)) == BlobSize(b)
  {
    SingleRecord(Len(f.num, b));
  }

  lemma {:induction false} NumField(f: Field, n: int)
    requires IsNumeric(f.typ) && InRange(f.typ, n)
    ensures EmitAll(FieldRecords(f, Num(n))) == NumBytes(f.num, n)
    ensures FieldSize(f.typ, Num(n)) == NumSize(n)
  {
    SingleRecord(Varint(f.num, ToWire(n)));
  }

  lemma {:induction false} OptField(f: Field, m: Option<Msg>)
    requires f.typ.Sub? && WellFormed(f.typ.schema) && (m.Some? ==> Conforms(f.typ.schema, m.value))
    ensures EmitAll(FieldRecords(f, Opt(m))) == OptBytes(f.num, f.typ.schema, m)
    ensures FieldSize(f.typ, Opt(m)) == OptSize(f.typ.schema, m)
  {
    if m.Some? {
      ByteSizeIsLength(f.typ.schema, m.value);
      SingleRecord(Len(f.num, Serialize(f.typ.schema, m.value)));
    }
  }

  lemma {:induction false} MsgsField(f: Field, ms: seq<Msg>)
    requires f.typ.RepSub? && forall i :: 0 <= i < |ms| ==> Conforms(f.typ.schema, ms[i])
    ensures EmitAll(FieldRecords(f, Msgs(ms))) == EmitAll(MsgRecords(f.num, f.typ.schema, ms))
    ensures FieldSize(f.typ, Msgs(ms)) == MsgSizes(f.typ.schema, ms)
  {
  }
}

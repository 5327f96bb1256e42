/** How much larger than its input a parsed message can be when it is written again. */
module Growth {
  import opened Wire
  import opened WireLaws
  import opened Codec
  import opened MergeLaws
  import opened Parsing
  import opened Sizing
  import opened Stability

  // ---------------------------------------------------------------- varints

  lemma {:induction false} SizeMonotone(a: nat, b: nat)
    requires a <= b
    ensures 1 <= VarintSize(a) <= VarintSize(b)
  {
    if b >= 0x80 && a >= 0x80 {
      SizeMonotone(a / 0x80, b / 0x80);
    }
  }

  lemma {:induction false} SizeOfSum(a: nat, b: nat)
    ensures VarintSize(a + b) <= VarintSize(a) + VarintSize(b)
  {
    if a < 0x80 && b < 0x80 {
    } else if a >= b {
      SizeMonotone((a + b) / 0x80, a / 0x80 * 2 + 1);
      SizeOfDouble(a / 0x80);
    } else {
      SizeMonotone((a + b) / 0x80, b / 0x80 * 2 + 1);
      SizeOfDouble(b / 0x80);
    }
  }

  lemma {:induction false} SizeOfDouble(a: nat)
    ensures VarintSize(a * 2 + 1) <= VarintSize(a) + 1
  {
    if a >= 0x80 {
      SizeOfDouble(a / 0x80);
      SizeMonotone((a * 2 + 1) / 0x80, a / 0x80 * 2 + 1);
    }
  }

  /** The canonical varint is the shortest one: no input spells a value in fewer bytes. */
  lemma {:induction false} VarintNeverLonger(bs: bytes, fuel: nat)
    requires DecodeVarint(bs, fuel).Some?
    ensures VarintSize(DecodeVarint(bs, fuel).value.0) <= |bs| - |DecodeVarint(bs, fuel).value.1|
  {
    if bs[0] >= 0x80 {
      VarintNeverLonger(bs[1..], fuel - 1);
      var hi := DecodeVarint(bs[1..], fuel - 1).value.0;
      assert (bs[0] - 0x80 + 0x80 * hi) / 0x80 == hi;
    }
  }

  lemma {:induction false} ReadVarintNeverLonger(bs: bytes, cut: nat)
    requires ReadVarint(bs).Some? && cut <= ReadVarint(bs).value.0
    ensures |EncodeVarint(cut)| <= |bs| - |ReadVarint(bs).value.1|
  {
    VarintNeverLonger(bs, 10);
    SizeMonotone(cut, DecodeVarint(bs, 10).value.0);
    VarintSizeIsLength(cut);
  }

  // ---------------------------------------------------------------- records

  lemma {:induction false} TagNeverLonger(bs: bytes)
    requires ReadTag(bs).0 != 0
    ensures |EncodeVarint(ReadTag(bs).0)| <= |bs| - |ReadTag(bs).1|
  {
    ReadVarintNeverLonger(bs, ReadTag(bs).0);
  }

  lemma {:induction false} RecordNeverLonger(tag: u32, bs: bytes, budget: nat)
    requires ReadRecord(tag, bs, budget).Some?
    ensures |Payload(ReadRecord(tag, bs, budget).value.0)| <= |bs| - |ReadRecord(tag, bs, budget).value.1|
    decreases |bs|, 1
  {
    if tag % 8 == WIRETYPE_VARINT {
      ReadVarintNeverLonger(bs, ReadVarint(bs).value.0);
    } else if tag % 8 == WIRETYPE_LENGTH_DELIMITED {
      ReadVarintNeverLonger(bs, ReadVarint(bs).value.0);
    } else if tag % 8 == WIRETYPE_START_GROUP {
      GroupNeverLonger(tag / 8, bs, budget - 1);
    }
  }

  lemma {:induction false} GroupNeverLonger(num: FieldNumber, bs: bytes, budget: nat)
    requires ReadGroup(num, bs, budget).Some?
    ensures |EmitAll(ReadGroup(num, bs, budget).value.0) + EmitTag(num, WIRETYPE_END_GROUP)|
         <= |bs| - |ReadGroup(num, bs, budget).value.1|
    decreases |bs|, 0
  {
    TagNeverLonger(bs);
    var (tag, rest) := ReadTag(bs);
    if tag % 8 != WIRETYPE_END_GROUP {
      RecordNeverLonger(tag, rest, budget);
      var (first, rest1) := ReadRecord(tag, rest, budget).value;
      GroupNeverLonger(num, rest1, budget);
      EmitAllSplits([first] + ReadGroup(num, rest1, budget).value.0, []);
    }
  }

  /** Writing the records of an input again never takes more bytes than the input had. */
  lemma {:induction false} LexNeverLonger(bs: bytes, budget: nat)
    requires Lex(bs, budget).Some?
    ensures |EmitAll(Lex(bs, budget).value)| <= |bs|
    decreases |bs|
  {
    if bs != [] {
      TagNeverLonger(bs);
      var (tag, rest) := ReadTag(bs);
      RecordNeverLonger(tag, rest, budget);
      var (first, rest1) := ReadRecord(tag, rest, budget).value;
      LexNeverLonger(rest1, budget);
      EmitAllSplits([first] + Lex(rest1, budget).value, []);
    }
  }

  // ---------------------------------------------------------------- fields

  lemma {:induction false} NumberGrows(f: Field, r: Record)
    requires IsNumeric(f.typ) && Matches(f, r)
    ensures |EncodeVarint(ToWire(FromWire(f.typ, r.v)))| <= 2 * |EncodeVarint(r.v)|
  {
    hide VarintSize, EncodeVarint;
    var w := ToWire(FromWire(f.typ, r.v));
    VarintSizeIsLength(w);
    VarintSizeIsLength(r.v);
    if w <= r.v {
      SizeMonotone(w, r.v);
    } else if f.typ.Enum? {
      NegativeEnumSizes(r.v, w);
    }
  }

  lemma {:induction false} NegativeEnumSizes(v: u64, w: u64)
    requires TWO_TO_THE_31 <= v
    ensures VarintSize(w) <= 10 && VarintSize(v) >= 5
  {
    SizeMonotone(0x8000_0000, v);
    SizeMonotone(w, 0xFFFF_FFFF_FFFF_FFFF);
    assert VarintSize(0x8000_0000) == 5;
    assert VarintSize(0x3_FFFF_FFFF) == 5;
    assert VarintSize(0xFFFF_FFFF_FFFF_FFFF) == 5 + VarintSize(0x1FFF_FFFF);
  }

  /** The size of a length-delimited record when its payload grows from `n` by at most `2 * d`. */
  lemma {:induction false} PayloadGrows(n: nat, d: nat, k: nat)
    requires k <= n + 2 * d
    ensures LengthDelimitedSize(k) <= LengthDelimitedSize(n) + 2 * LengthDelimitedSize(d)
  {
    SizeMonotone(k, n + (d + d));
    SizeOfSum(n, d + d);
    SizeOfSum(d, d);
  }

  lemma {:induction false} FieldGrows(f: Field, v: Value, r: Record, budget: nat)
    requires f.num < 16 && WellFormedType(f.typ) && ValueConforms(f.typ, v) && Matches(f, r)
    requires ApplyField(f, v, r, budget).Some?
    ensures FieldSize(f.typ, ApplyField(f, v, r, budget).value) <= FieldSize(f.typ, v) + 2 * |Emit(r)|
    decreases f, 0
  {
    SmallTagSize(r);
    if r.Len? {
      VarintSizeIsLength(|r.data|);
    }
    match f.typ
    case Bytes =>
    case Str =>
    case RepStr => BlobSizesAppend(v.bs, r.data);
    case Sub(sub) => SubGrows(sub, v.m, r.data, budget - 1);
    case RepSub(sub) =>
      SubGrows(sub, None, r.data, budget - 1);
      MsgSizesAppend(sub, v.ms, Parse(sub, Empty(sub), r.data, budget - 1).value);
    case _ =>
      NumberGrows(f, r);
      VarintSizeIsLength(ToWire(FromWire(f.typ, r.v)));
  }

  lemma {:induction false} SubGrows(sub: Schema, was: Option<Msg>, data: bytes, budget: nat)
    requires WellFormed(sub) && (was.Some? ==> Conforms(sub, was.value))
    requires Parse(sub, OrEmpty(sub, was), data, budget).Some?
    ensures LengthDelimitedSize(ByteSize(sub, Parse(sub, OrEmpty(sub, was), data, budget).value))
         <= (if was.None? then 1 else LengthDelimitedSize(ByteSize(sub, was.value))) + 2 * LengthDelimitedSize(|data|)
    decreases sub, 3
  {
    var m := OrEmpty(sub, was);
    ParseGrows(sub, m, data, budget);
    EmptySize(sub);
    PayloadGrows(ByteSize(sub, m), |data|, ByteSize(sub, Parse(sub, m, data, budget).value));
  }

  lemma {:induction false} EmptySize(s: Schema)
    ensures ByteSize(s, Empty(s)) == 0
  {
    EmptyFieldSizes(s, 0);
  }

  lemma {:induction false} EmptyFieldSizes(s: Schema, i: nat)
    requires i <= |s.fields|
    ensures FieldSizes(s, Empty(s), i) == 0
    decreases |s.fields| - i
  {
    if i < |s.fields| {
      EmptyFieldSizes(s, i + 1);
      DefaultSize(s.fields[i].typ);
      assert Empty(s).vals[i] == DefaultValue(s.fields[i].typ);
    }
  }

  lemma {:induction false} DefaultSize(t: FieldType)
    ensures FieldSize(t, DefaultValue(t)) == 0
  {
  }

  lemma {:induction false} FieldSizesUpdate(s: Schema, m: Msg, k: nat, v: Value, i: nat)
    requires Conforms(s, m) && k < |s.fields| && ValueConforms(s.fields[k].typ, v) && i <= |s.fields|
    requires Conforms(s, m.(vals := m.vals[k := v]))
    ensures FieldSizes(s, m.(vals := m.vals[k := v]), i)
         == FieldSizes(s, m, i)
            + if i <= k then FieldSize(s.fields[k].typ, v) - FieldSize(s.fields[k].typ, m.vals[k]) else 0
    decreases |s.fields| - i
  {
    if i < |s.fields| {
      FieldSizesUpdate(s, m, k, v, i + 1);
    }
  }

  lemma {:induction false} RecordSizesAppend(rs: seq<Record>, r: Record)
    ensures RecordSizes(rs + [r]) == RecordSizes(rs) + |Emit(r)|
  {
    RecordSizesAreLength(rs);
    RecordSizesAreLength(rs + [r]);
    EmitAllConcat(rs, [r]);
    SingleRecord(r);
  }

  lemma {:induction false} ApplyGrows(s: Schema, m: Msg, r: Record, budget: nat)
    requires WellFormed(s) && Conforms(s, m) && Apply(s, m, r, budget).Some?
    ensures ByteSize(s, Apply(s, m, r, budget).value) <= ByteSize(s, m) + 2 * |Emit(r)|
    decreases s, 0
  {
    var k := Dispatch(s, r);
    if k == |s.fields| {
      RecordSizesAppend(m.unk, r);
      SameFieldSizes(s, m, m.unk + [r], 0);
    } else {
      FieldGrows(s.fields[k], m.vals[k], r, budget);
      FieldSizesUpdate(s, m, k, ApplyField(s.fields[k], m.vals[k], r, budget).value, 0);
    }
  }

  lemma {:induction false} SameFieldSizes(s: Schema, m: Msg, unk: seq<Record>, i: nat)
    requires Conforms(s, m) && i <= |s.fields|
    ensures Conforms(s, m.(unk := unk)) && FieldSizes(s, m.(unk := unk), i) == FieldSizes(s, m, i)
    decreases |s.fields| - i
  {
    if i < |s.fields| {
      SameFieldSizes(s, m, unk, i + 1);
    }
  }

  lemma {:induction false} FoldGrows(s: Schema, m: Msg, rs: seq<Record>, budget: nat)
    requires WellFormed(s) && Conforms(s, m) && Fold(s, m, rs, budget).Some?
    ensures ByteSize(s, Fold(s, m, rs, budget).value) <= ByteSize(s, m) + 2 * |EmitAll(rs)|
    decreases s, 1, |rs|
  {
    if rs != [] {
      ApplyGrows(s, m, rs[0], budget);
      FoldGrows(s, Apply(s, m, rs[0], budget).value, rs[1..], budget);
    }
  }

  /** A parse adds at most two bytes of output for every byte of input, at every level of nesting. */
  lemma {:induction false} ParseGrows(s: Schema, m: Msg, bs: bytes, budget: nat)
    requires WellFormed(s) && Conforms(s, m) && Parse(s, m, bs, budget).Some?
    ensures ByteSize(s, Parse(s, m, bs, budget).value) <= ByteSize(s, m) + 2 * |bs|
    decreases s, 2
  {
    MergePartialIsFold(s, m, bs, budget);
    LexNeverLonger(bs, budget);
    FoldGrows(s, m, Lex(bs, budget).value, budget);
  }

  /** Hence canonical form with a bound on the input alone: every input below 2^30 bytes that
      parses is rewritten to an output that parses to the same message and is rewritten to itself. */
  lemma {:induction false} CanonicalForm(s: Schema, bs: bytes, budget: nat)
    requires WellFormed(s) && |bs| < 0x4000_0000 && Parse(s, Empty(s), bs, budget).Some?
    ensures var m := Parse(s, Empty(s), bs, budget).value;
            var out := Serialize(s, m);
            && |out| <= 2 * |bs|
            && Parse(s, Empty(s), out, budget) == Some(m)
  {
    ParseGrows(s, Empty(s), bs, budget);
    EmptySize(s);
    ByteSizeIsLength(s, Parse(s, Empty(s), bs, budget).value);
    Canonical(s, bs, budget);
  }
}

/** What the generated classes share: reading one field, and writing the fields one after the
    other, both tied to the field table. */
module FieldSteps {
  import opened Wire
  import opened Codec
  import opened ParseSteps
  import opened Sizing
  import opened Streams
  import Utf8

  // ---------------------------------------------------------------- reading one field

  /** Reading one record of a known field: fails exactly when the record cannot be read or is
      refused, leaving what it may leave, and otherwise puts the field and the input one record
      further. */
  ghost predicate FieldTurn(f: Field, v: Value, bs: bytes, budget: nat, ok: bool, v1: Value, rest: bytes)
    requires ValueConforms(f.typ, v)
  {
    match ReadRecord(FieldTag(f), bs, budget)
    case None => !ok && FieldLeaves(f, v, bs, budget, v1)
    case Some((r, rest2)) =>
      match ApplyField(f, v, r, budget)
      case None => !ok && FieldLeaves(f, v, bs, budget, v1)
      case Some(v2) => ok && v1 == v2 && rest == rest2
  }

  lemma {:induction false} TakerOfField(s: Schema, k: nat)
    requires WellFormed(s) && k < |s.fields|
    ensures Taker(s.fields, 0, FieldTag(s.fields[k])) == k
  {
    forall j | 0 <= j < k ensures FieldTag(s.fields[j]) != FieldTag(s.fields[k]) {
      assert s.fields[j].num != s.fields[k].num;
    }
  }

  /** The tag of a known field, and no other tag, brings its record to that field. */
  lemma {:induction false} TurnOfField(s: Schema, m: Msg, k: nat, bs: bytes, budget: nat,
                                       ok: bool, v1: Value, m1: Msg, rest: bytes)
    requires WellFormed(s) && Conforms(s, m) && k < |s.fields|
    requires FieldTurn(s.fields[k], m.vals[k], bs, budget, ok, v1, rest)
    requires m1 == Msg(m.vals[k := v1], m.unk)
    ensures Turn(s, m, FieldTag(s.fields[k]), bs, budget, ok, m1, rest)
  {
    hide FieldLeaves, ReadRecord, WellFormed;
    var f := s.fields[k];
    TakerOfField(s, k);
    if ReadRecord(FieldTag(f), bs, budget).Some? {
      TakerDispatches(s, FieldTag(f), bs, budget);
    }
  }

  /** Every other tag brings its record to the unknown fields. */
  lemma {:induction false} TurnUnusual(s: Schema, m: Msg, tag: u32, bs: bytes, budget: nat,
                                       ok: bool, r: Record, rest: bytes)
    requires Conforms(s, m)
    requires forall k :: 0 <= k < |s.fields| ==> tag != FieldTag(s.fields[k])
    requires ok <==> ReadRecord(tag, bs, budget).Some?
    requires ok ==> ReadRecord(tag, bs, budget) == Some((r, rest))
    ensures Turn(s, m, tag, bs, budget, ok, if ok then m.(unk := m.unk + [r]) else m, rest)
  {
    hide ReadRecord;
    if ok {
      TakerDispatches(s, tag, bs, budget);
    }
  }

  /** A nested message, parsed into the object the field holds or into a new one. */
  lemma {:induction false} TurnOfMessage(f: Field, v: Value, bs: bytes, budget: nat, ok: bool, c: Msg, rest: bytes)
    requires f.typ.Sub? && ValueConforms(f.typ, v)
    requires ReadsMessage(f.typ.schema, if v.m.None? then Empty(f.typ.schema) else v.m.value, bs, budget, ok, c, rest)
    ensures FieldTurn(f, v, bs, budget, ok, Opt(Some(c)), rest)
  {
    hide NestedLeaves;
    DelimitedStep(f.num, bs, budget);
  }

  /** The same for an element appended to a repeated field. */
  lemma {:induction false} TurnOfElement(f: Field, v: Value, bs: bytes, budget: nat, ok: bool, c: Msg, rest: bytes)
    requires f.typ.RepSub? && ValueConforms(f.typ, v)
    requires ReadsMessage(f.typ.schema, Empty(f.typ.schema), bs, budget, ok, c, rest)
    ensures FieldTurn(f, v, bs, budget, ok, Msgs(v.ms + [c]), rest)
  {
    hide NestedLeaves;
    DelimitedStep(f.num, bs, budget);
  }

  /** ReadPrimitive into a variable that held `was`, which a failed read leaves alone. */
  method ReadNumberField(f: Field, was: int, input: CodedInputStream) returns (ok: bool, n: int)
    requires IsNumeric(f.typ) && InRange(f.typ, was)
    modifies input`window
    ensures InRange(f.typ, n)
    ensures FieldTurn(f, Num(was), old(input.window), input.budget, ok, Num(n), input.window)
  {
    VarintStep(f.num, input.window, input.budget);
    ok, n := input.ReadPrimitive(f.typ);
    if !ok {
      n := was;
    }
  }

  method ReadBytesField(f: Field, ghost v: Value, input: CodedInputStream) returns (ok: bool, data: bytes)
    requires f.typ.Bytes? && ValueConforms(f.typ, v)
    modifies input`window
    ensures FieldTurn(f, v, old(input.window), input.budget, ok, Blob(data), input.window)
  {
    DelimitedStep(f.num, input.window, input.budget);
    ok, data := input.ReadBytes();
  }

  /** ReadString and then VerifyUtf8String, whose refusal fails the parse and leaves the string. */
  method ReadStringField(f: Field, ghost v: Value, input: CodedInputStream) returns (ok: bool, data: bytes)
    requires f.typ.Str? && ValueConforms(f.typ, v)
    modifies input`window
    ensures FieldTurn(f, v, old(input.window), input.budget, ok, Blob(data), input.window)
  {
    DelimitedStep(f.num, input.window, input.budget);
    ok, data := input.ReadBytes();
    ok := ok && Utf8.Valid(data);
  }

  /** The same for an element that is appended to a repeated string field. */
  method ReadRepeatedString(f: Field, ghost v: Value, input: CodedInputStream) returns (ok: bool, data: bytes)
    requires f.typ.RepStr? && ValueConforms(f.typ, v)
    modifies input`window
    ensures FieldTurn(f, v, old(input.window), input.budget, ok, Blobs(v.bs + [data]), input.window)
  {
    DelimitedStep(f.num, input.window, input.budget);
    ok, data := input.ReadBytes();
    ok := ok && Utf8.Valid(data);
  }

  // ---------------------------------------------------------------- writing field after field

  /** The bytes of the first `i` fields. */
  ghost function Prefix(s: Schema, m: Msg, i: nat): bytes
    requires Conforms(s, m) && i <= |s.fields|
  {
    if i == 0 then [] else Cat(Prefix(s, m, i - 1), FieldBytes(s, m, i - 1))
  }

  lemma {:induction false} PrefixThenRest(s: Schema, m: Msg, i: nat)
    requires Conforms(s, m) && i <= |s.fields|
    ensures Serialize(s, m) == Prefix(s, m, i) + (BytesFrom(s, m, i) + EmitAll(m.unk))
  {
    hide EmitAll, Serialize, FieldBytes;
    SerializeByField(s, m);
    if i > 0 {
      PrefixThenRest(s, m, i - 1);
    }
  }

  /** One more field behind the ones already written, with room for all of it. */
  lemma {:induction false} PrefixStep(s: Schema, m: Msg, i: nat, before: bytes)
    requires Conforms(s, m) && i < |s.fields|
    ensures Prefix(s, m, i + 1) == Cat(Prefix(s, m, i), FieldBytes(s, m, i))
    ensures Cat(Cat(before, Prefix(s, m, i)), FieldBytes(s, m, i)) == Cat(before, Prefix(s, m, i + 1))
    ensures |Prefix(s, m, i)| + |FieldBytes(s, m, i)| <= |Serialize(s, m)|
  {
    PrefixThenRest(s, m, i + 1);
    CatAssociative(before, Prefix(s, m, i), FieldBytes(s, m, i));
  }

  lemma {:induction false} PrefixStart(s: Schema, m: Msg, before: bytes)
    requires Conforms(s, m)
    ensures Prefix(s, m, 0) == [] && Cat(before, Prefix(s, m, 0)) == before
  {
  }

  lemma {:induction false} PrefixEnd(s: Schema, m: Msg, before: bytes)
    requires Conforms(s, m)
    ensures Cat(Prefix(s, m, |s.fields|), EmitAll(m.unk)) == Serialize(s, m)
    ensures Cat(Cat(before, Prefix(s, m, |s.fields|)), EmitAll(m.unk)) == Cat(before, Serialize(s, m))
  {
    hide EmitAll, Serialize;
    PrefixThenRest(s, m, |s.fields|);
    assert BytesFrom(s, m, |s.fields|) + EmitAll(m.unk) == EmitAll(m.unk);
    CatAssociative(before, Prefix(s, m, |s.fields|), EmitAll(m.unk));
  }

  /** `target` holds `before`, with the first `i` fields of the message put in from `at` to `here`. */
  ghost predicate Holds(target: array<byte>, s: Schema, m: Msg, i: nat, before: bytes, at: nat, here: nat)
    reads target
  {
    && Conforms(s, m) && i <= |s.fields|
    && |before| == target.Length && at + |Serialize(s, m)| <= |before|
    && here == at + |Prefix(s, m, i)| && here <= |before|
    && target[..] == Splice(before, at, Prefix(s, m, i))
  }

  method StartArray(target: array<byte>, ghost s: Schema, ghost m: Msg, at: nat) returns (here: nat)
    requires Conforms(s, m) && at + |Serialize(s, m)| <= target.Length
    ensures here == at && Holds(target, s, m, 0, target[..], at, here)
  {
    SpliceNothing(target[..], at);
    here := at;
  }

  method AppendNumber(num: FieldNumber, n: int, target: array<byte>, here: nat,
                      ghost s: Schema, ghost m: Msg, ghost i: nat, ghost before: bytes, ghost at: nat)
    returns (next: nat)
    requires Holds(target, s, m, i, before, at, here) && i < |s.fields| && FieldBytes(s, m, i) == NumBytes(num, n)
    modifies target
    ensures Holds(target, s, m, i + 1, before, at, next)
  {
    hide Serialize, FieldBytes, Prefix, Splice, Cat, NumBytes, Conforms;
    PrefixStep(s, m, i, []);
    SpliceTwice(before, at, Prefix(s, m, i), FieldBytes(s, m, i));
    next := WriteNumberToArray(num, n, target, here);
  }

  method AppendBlob(num: FieldNumber, b: bytes, target: array<byte>, here: nat,
                    ghost s: Schema, ghost m: Msg, ghost i: nat, ghost before: bytes, ghost at: nat)
    returns (next: nat)
    requires Holds(target, s, m, i, before, at, here) && i < |s.fields| && FieldBytes(s, m, i) == BlobBytes(num, b)
    modifies target
    ensures Holds(target, s, m, i + 1, before, at, next)
  {
    hide Serialize, FieldBytes, Prefix, Splice, Cat, BlobBytes, Conforms;
    PrefixStep(s, m, i, []);
    SpliceTwice(before, at, Prefix(s, m, i), FieldBytes(s, m, i));
    next := WriteBlobToArray(num, b, target, here);
  }

  method AppendUnknown(rs: seq<Record>, target: array<byte>, here: nat,
                       ghost s: Schema, ghost m: Msg, ghost before: bytes, ghost at: nat)
    returns (next: nat)
    requires Holds(target, s, m, |s.fields|, before, at, here) && rs == m.unk
    modifies target
    ensures next == at + |Serialize(s, m)| && target[..] == Splice(before, at, Serialize(s, m))
  {
    hide Serialize, Prefix, Splice, Cat, EmitAll, Conforms;
    PrefixEnd(s, m, []);
    SpliceTwice(before, at, Prefix(s, m, |s.fields|), EmitAll(rs));
    next := WriteUnknownToArray(rs, target, here);
  }

  // ---------------------------------------------------------------- merging field by field

  lemma {:induction false} MergedFields(s: Schema, x: Msg, y: Msg, z: Msg)
    requires Conforms(s, x) && Conforms(s, y) && |z.vals| == |s.fields|
    requires z.unk == x.unk + y.unk
    requires forall i :: 0 <= i < |s.fields| ==> z.vals[i] == MergeValue(s.fields[i].typ, x.vals[i], y.vals[i])
    ensures z == Merge(s, x, y)
  {
    assert z.vals == Merge(s, x, y).vals;
  }

  lemma {:induction false} MergedNumber(t: FieldType, x: int, y: int)
    requires IsNumeric(t) && InRange(t, x) && InRange(t, y)
    ensures MergeValue(t, Num(x), Num(y)) == Num(if y != 0 then y else x)
  {
  }

  lemma {:induction false} MergedBlob(t: FieldType, x: bytes, y: bytes)
    requires t.Bytes? || t.Str?
    ensures MergeValue(t, Blob(x), Blob(y)) == Blob(if |y| > 0 then y else x)
  {
  }
}

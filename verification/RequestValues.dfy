/** coprocessor.Request on values: its field table, its parts, its parser switch, its layout and
    its size. The class itself is in RequestMessage. */
module RequestValues {
  import opened Wire
  import opened WireLaws
  import opened Codec
  import opened ParseSteps
  import opened MergeLaws
  import opened Sizing
  import opened Streams
  import opened Prefixes
  import opened FieldSteps
  import opened KeyRangeMessage

  /** `ctx` stands for the schema of kvrpcpb.Context, which may be any. */
  function RequestSchema(ctx: Schema): Schema {
    Schema([Field(1, Sub(ctx)), Field(2, Int64), Field(3, Bytes), Field(4, RepSub(KEY_RANGE))])
  }

  lemma {:induction false} RequestWellFormed(ctx: Schema)
    requires WellFormed(ctx)
    ensures WellFormed(RequestSchema(ctx))
  {
    KeyRangeWellFormed();
    var fs := RequestSchema(ctx).fields;
    assert forall i :: 0 <= i < |fs| ==> fs[i].num == i + 1;
    forall i | 0 <= i < |fs| ensures WellFormedType(fs[i].typ) {
    }
  }

  datatype RequestValue =
    RequestValue(context: Option<Msg>, tp: int, data: bytes, ranges: seq<Msg>, unk: seq<Record>)
  {
    ghost predicate Ok(ctx: Schema) {
      && (context.Some? ==> Conforms(ctx, context.value))
      && InRange(Int64, tp)
      && forall i :: 0 <= i < |ranges| ==> Conforms(KEY_RANGE, ranges[i])
    }

    ghost function ToMsg(ctx: Schema): (m: Msg)
      requires Ok(ctx)
      ensures Conforms(RequestSchema(ctx), m)
    {
      var s, m := RequestSchema(ctx), Msg([Opt(context), Num(tp), Blob(data), Msgs(ranges)], unk);
      assert ValueConforms(s.fields[0].typ, m.vals[0]);
      assert ValueConforms(s.fields[1].typ, m.vals[1]);
      assert ValueConforms(s.fields[2].typ, m.vals[2]);
      assert ValueConforms(s.fields[3].typ, m.vals[3]);
      m
    }
  }

  ghost predicate RequestTurn(ctx: Schema, p: RequestValue, tag: u32, bs: bytes, budget: nat,
                              ok: bool, p1: RequestValue, rest: bytes)
  {
    && p.Ok(ctx) && p1.Ok(ctx)
    && Turn(RequestSchema(ctx), p.ToMsg(ctx), tag, bs, budget, ok, p1.ToMsg(ctx), rest)
  }

  lemma {:induction false} TurnContext(ctx: Schema, p: RequestValue, bs: bytes, budget: nat,
                                       ok: bool, c: Msg, rest: bytes)
    requires WellFormed(ctx) && p.Ok(ctx) && Conforms(ctx, c)
    requires ReadsMessage(ctx, OrEmpty(ctx, p.context), bs, budget, ok, c, rest)
    ensures RequestTurn(ctx, p, 10, bs, budget, ok, p.(context := Some(c)), rest)
  {
    var s, m, p1 := RequestSchema(ctx), p.ToMsg(ctx), p.(context := Some(c));
    RequestWellFormed(ctx);
    hide ReadsMessage, Turn, FieldTurn, WellFormed, Conforms;
    TurnOfMessage(s.fields[0], Opt(p.context), bs, budget, ok, c, rest);
    assert p1.ToMsg(ctx).vals == m.vals[0 := Opt(Some(c))];
    TurnOfField(s, m, 0, bs, budget, ok, Opt(Some(c)), p1.ToMsg(ctx), rest);
  }

  lemma {:induction false} TurnTp(ctx: Schema, p: RequestValue, bs: bytes, budget: nat, ok: bool, n: int, rest: bytes)
    requires WellFormed(ctx) && p.Ok(ctx) && InRange(Int64, n)
    requires FieldTurn(Field(2, Int64), Num(p.tp), bs, budget, ok, Num(n), rest)
    ensures RequestTurn(ctx, p, 16, bs, budget, ok, p.(tp := n), rest)
  {
    var s, m, p1 := RequestSchema(ctx), p.ToMsg(ctx), p.(tp := n);
    RequestWellFormed(ctx);
    hide Turn, FieldTurn, WellFormed, Conforms;
    assert p1.ToMsg(ctx).vals == m.vals[1 := Num(n)];
    TurnOfField(s, m, 1, bs, budget, ok, Num(n), p1.ToMsg(ctx), rest);
  }

  lemma {:induction false} TurnData(ctx: Schema, p: RequestValue, bs: bytes, budget: nat,
                                    ok: bool, d: bytes, rest: bytes)
    requires WellFormed(ctx) && p.Ok(ctx)
    requires FieldTurn(Field(3, Bytes), Blob(p.data), bs, budget, ok, Blob(d), rest)
    ensures RequestTurn(ctx, p, 26, bs, budget, ok, p.(data := d), rest)
  {
    var s, m, p1 := RequestSchema(ctx), p.ToMsg(ctx), p.(data := d);
    RequestWellFormed(ctx);
    hide Turn, FieldTurn, WellFormed, Conforms;
    assert p1.ToMsg(ctx).vals == m.vals[2 := Blob(d)];
    TurnOfField(s, m, 2, bs, budget, ok, Blob(d), p1.ToMsg(ctx), rest);
  }

  lemma {:induction false} TurnRange(ctx: Schema, p: RequestValue, bs: bytes, budget: nat,
                                     ok: bool, k: Msg, rest: bytes)
    requires WellFormed(ctx) && p.Ok(ctx) && Conforms(KEY_RANGE, k)
    requires ReadsMessage(KEY_RANGE, Empty(KEY_RANGE), bs, budget, ok, k, rest)
    ensures RequestTurn(ctx, p, 34, bs, budget, ok, p.(ranges := p.ranges + [k]), rest)
  {
    var s, m, p1 := RequestSchema(ctx), p.ToMsg(ctx), p.(ranges := p.ranges + [k]);
    RequestWellFormed(ctx);
    hide ReadsMessage, Turn, FieldTurn, WellFormed, Conforms;
    TurnOfElement(s.fields[3], Msgs(p.ranges), bs, budget, ok, k, rest);
    assert p1.ToMsg(ctx).vals == m.vals[3 := Msgs(p.ranges + [k])];
    TurnOfField(s, m, 3, bs, budget, ok, Msgs(p.ranges + [k]), p1.ToMsg(ctx), rest);
  }

  lemma {:induction false} TurnUnknown(ctx: Schema, p: RequestValue, tag: u32, bs: bytes, budget: nat,
                                       ok: bool, r: Record, rest: bytes)
    requires p.Ok(ctx)
    requires ok <==> ReadRecord(tag, bs, budget).Some?
    requires ok ==> ReadRecord(tag, bs, budget) == Some((r, rest))
    requires tag !in {10, 16, 26, 34}
    ensures RequestTurn(ctx, p, tag, bs, budget, ok, if ok then p.(unk := p.unk + [r]) else p, rest)
  {
    var s := RequestSchema(ctx);
    assert forall k :: 0 <= k < |s.fields| ==> FieldTag(s.fields[k]) in {10, 16, 26, 34};
    hide ReadRecord, Turn;
    TurnUnusual(s, p.ToMsg(ctx), tag, bs, budget, ok, r, rest);
  }

  lemma {:induction false} RequestLayout(ctx: Schema, p: RequestValue)
    requires WellFormed(ctx) && p.Ok(ctx)
    ensures Serialize(RequestSchema(ctx), p.ToMsg(ctx))
         == OptBytes(1, ctx, p.context) + NumBytes(2, p.tp) + BlobBytes(3, p.data)
            + EmitAll(MsgRecords(4, KEY_RANGE, p.ranges)) + EmitAll(p.unk)
    ensures |Serialize(RequestSchema(ctx), p.ToMsg(ctx))|
         == RecordSizes(p.unk) + MsgSizes(KEY_RANGE, p.ranges) + BlobSize(p.data)
            + OptSize(ctx, p.context) + NumSize(p.tp)
  {
    hide Serialize, ByteSize, FieldSize, FieldRecords, MsgRecords, MsgSizes, EmitAll, Emit;
    hide OptBytes, NumBytes, BlobBytes, OptSize, NumSize, BlobSize, Conforms, WellFormed, RecordSizes;
    var s, m := RequestSchema(ctx), p.ToMsg(ctx);
    FourFields(s, m);
    RequestWellFormed(ctx);
    ByteSizeIsLength(s, m);
    FourFieldSizes(s, m);
    OptField(s.fields[0], p.context);
    NumField(s.fields[1], p.tp);
    BlobField(s.fields[2], p.data);
    MsgsField(s.fields[3], p.ranges);
  }

  lemma {:induction false} MsgFits(num: FieldNumber, sub: Schema, ms: seq<Msg>, i: nat)
    requires i < |ms| && forall j :: 0 <= j < |ms| ==> Conforms(sub, ms[j])
    ensures |Serialize(sub, ms[i])| <= |EmitAll(MsgRecords(num, sub, ms))|
  {
    PayloadSize(Len(num, Serialize(sub, ms[0])));
    if i > 0 {
      MsgFits(num, sub, ms[1..], i - 1);
    }
  }

  lemma {:induction false} NestedFit(ctx: Schema, p: RequestValue)
    requires WellFormed(ctx) && p.Ok(ctx)
    ensures p.context.Some? ==> |Serialize(ctx, p.context.value)| <= |Serialize(RequestSchema(ctx), p.ToMsg(ctx))|
    ensures forall i :: 0 <= i < |p.ranges| ==>
              |Serialize(KEY_RANGE, p.ranges[i])| <= |Serialize(RequestSchema(ctx), p.ToMsg(ctx))|
  {
    RequestLayout(ctx, p);
    forall i | 0 <= i < |p.ranges|
      ensures |Serialize(KEY_RANGE, p.ranges[i])| <= |Serialize(RequestSchema(ctx), p.ToMsg(ctx))|
    {
      MsgFits(4, KEY_RANGE, p.ranges, i);
    }
    if p.context.Some? {
      PayloadSize(Len(1, Serialize(ctx, p.context.value)));
    }
  }

  lemma {:induction false} EmptyRequest(ctx: Schema)
    ensures RequestValue(None, 0, [], [], []).ToMsg(ctx) == Empty(RequestSchema(ctx))
  {
    assert RequestValue(None, 0, [], [], []).ToMsg(ctx).vals == Empty(RequestSchema(ctx)).vals;
  }

  lemma {:induction false} MergeRequests(ctx: Schema, p: RequestValue, q: RequestValue)
    requires p.Ok(ctx) && q.Ok(ctx)
    ensures Merge(RequestSchema(ctx), p.ToMsg(ctx), q.ToMsg(ctx))
         == RequestValue(
              if q.context.None? then p.context
              else Some(Merge(ctx, OrEmpty(ctx, p.context), q.context.value)),
              if q.tp != 0 then q.tp else p.tp,
              if q.data != [] then q.data else p.data,
              p.ranges + q.ranges,
              p.unk + q.unk).ToMsg(ctx)
  {
    var want := RequestValue(
      if q.context.None? then p.context else Some(Merge(ctx, OrEmpty(ctx, p.context), q.context.value)),
      if q.tp != 0 then q.tp else p.tp, if q.data != [] then q.data else p.data,
      p.ranges + q.ranges, p.unk + q.unk).ToMsg(ctx);
    assert Merge(RequestSchema(ctx), p.ToMsg(ctx), q.ToMsg(ctx)).vals == want.vals;
  }

  // ---------------------------------------------------------------- with cached sizes

  /** What the serializers write when the context caches size `c` and the ranges cache `cs`. */
  ghost function WroteRequest(ctx: Schema, p: RequestValue, c: int, cs: seq<int>): seq<Written>
    requires p.Ok(ctx) && |cs| == |p.ranges|
  {
    WroteOpt(ctx, p.context, c) + AllExact(NumRecords(2, p.tp) + BlobRecord(3, p.data))
    + WroteMsgs(4, KEY_RANGE, p.ranges, cs) + AllExact(p.unk)
  }

  ghost function WroteOpt(ctx: Schema, m: Option<Msg>, c: int): seq<Written>
    requires m.Some? ==> Conforms(ctx, m.value)
  {
    if m.None? then [] else [Prefixed(1, AsPrefix(c), Serialize(ctx, m.value))]
  }

  ghost function NumRecords(num: FieldNumber, n: int): seq<Record> {
    if n == 0 then [] else [Varint(num, ToWire(n))]
  }

  ghost function BlobRecord(num: FieldNumber, b: bytes): seq<Record> {
    if b == [] then [] else [Len(num, b)]
  }

  ghost predicate CachedRight(ctx: Schema, p: RequestValue, c: int, cs: seq<int>)
    requires p.Ok(ctx) && |cs| == |p.ranges|
  {
    && (p.context.Some? ==> AsPrefix(c) == |Serialize(ctx, p.context.value)|)
    && forall i :: 0 <= i < |p.ranges| ==> AsPrefix(cs[i]) == |Serialize(KEY_RANGE, p.ranges[i])|
  }

  lemma {:induction false} SizesRightConcat(a: seq<Written>, b: seq<Written>)
    ensures SizesRight(a + b) <==> SizesRight(a) && SizesRight(b)
  {
    if SizesRight(a + b) {
      assert forall i :: 0 <= i < |a| ==> a[i] == (a + b)[i];
      assert forall i :: 0 <= i < |b| ==> b[i] == (a + b)[|a| + i];
    }
  }

  lemma {:induction false} WroteRequestSizes(ctx: Schema, p: RequestValue, c: int, cs: seq<int>)
    requires p.Ok(ctx) && |cs| == |p.ranges|
    ensures SizesRight(WroteRequest(ctx, p, c, cs)) <==> CachedRight(ctx, p, c, cs)
  {
    hide Serialize, Conforms, AsPrefix, AllExact, WroteMsgs;
    var w1, w2 := WroteOpt(ctx, p.context, c), AllExact(NumRecords(2, p.tp) + BlobRecord(3, p.data));
    var w3, w4 := WroteMsgs(4, KEY_RANGE, p.ranges, cs), AllExact(p.unk);
    ExactIsEmitted(NumRecords(2, p.tp) + BlobRecord(3, p.data));
    ExactIsEmitted(p.unk);
    WroteMsgsRecords(4, KEY_RANGE, p.ranges, cs);
    SizesRightConcat(w1, w2);
    SizesRightConcat(w1 + w2, w3);
    SizesRightConcat(w1 + w2 + w3, w4);
    assert SizesRight(w1) <==> (p.context.Some? ==> AsPrefix(c) == |Serialize(ctx, p.context.value)|) by {
      if p.context.Some? {
        assert w1[0] == Prefixed(1, AsPrefix(c), Serialize(ctx, p.context.value));
      }
    }
    assert SizesRight(w3) <==>
           forall i :: 0 <= i < |p.ranges| ==> AsPrefix(cs[i]) == |Serialize(KEY_RANGE, p.ranges[i])|;
  }

  /** The parts of the output, in order. */
  lemma {:induction false} WroteRequestBytes(ctx: Schema, p: RequestValue, c: int, cs: seq<int>)
    requires p.Ok(ctx) && |cs| == |p.ranges|
    ensures AllBytes(WroteRequest(ctx, p, c, cs))
         == AllBytes(WroteOpt(ctx, p.context, c)) + (NumBytes(2, p.tp) + BlobBytes(3, p.data))
            + AllBytes(WroteMsgs(4, KEY_RANGE, p.ranges, cs)) + EmitAll(p.unk)
  {
    hide Serialize, Conforms, AllExact, WroteMsgs, Emit, EmitAll, AllBytes, WroteOpt, NumBytes, BlobBytes;
    var rs := NumRecords(2, p.tp) + BlobRecord(3, p.data);
    MiddleRecords(p.tp, p.data);
    ExactIsEmitted(rs);
    ExactIsEmitted(p.unk);
    FourWritten(WroteOpt(ctx, p.context, c), AllExact(rs), WroteMsgs(4, KEY_RANGE, p.ranges, cs), AllExact(p.unk));
  }

  lemma {:induction false} WroteRequestRecords(ctx: Schema, p: RequestValue, c: int, cs: seq<int>)
    requires WellFormed(ctx) && p.Ok(ctx) && |cs| == |p.ranges|
    ensures EmitAll(AllRecords(WroteRequest(ctx, p, c, cs))) == Serialize(RequestSchema(ctx), p.ToMsg(ctx))
  {
    hide Serialize, Conforms, AllExact, WroteMsgs, Emit, EmitAll, AllRecords, WroteOpt;
    hide OptBytes, NumBytes, BlobBytes, MsgRecords, RequestSchema;
    var rs := NumRecords(2, p.tp) + BlobRecord(3, p.data);
    RequestLayout(ctx, p);
    MiddleRecords(p.tp, p.data);
    OptRecords(ctx, p.context, c);
    ExactIsEmitted(rs);
    ExactIsEmitted(p.unk);
    WroteMsgsRecords(4, KEY_RANGE, p.ranges, cs);
    FourRecords(WroteOpt(ctx, p.context, c), AllExact(rs), WroteMsgs(4, KEY_RANGE, p.ranges, cs), AllExact(p.unk));
    Regrouped(OptBytes(1, ctx, p.context), NumBytes(2, p.tp), BlobBytes(3, p.data));
  }

  lemma {:induction false} Regrouped(a: bytes, b: bytes, c: bytes)
    ensures a + b + c == a + (b + c)
  {
  }

  lemma {:induction false} MiddleRecords(tp: int, data: bytes)
    ensures EmitAll(NumRecords(2, tp) + BlobRecord(3, data)) == NumBytes(2, tp) + BlobBytes(3, data)
  {
    EmitAllConcat(NumRecords(2, tp), BlobRecord(3, data));
    SingleRecord(Varint(2, ToWire(tp)));
    SingleRecord(Len(3, data));
  }

  lemma {:induction false} OptRecords(ctx: Schema, m: Option<Msg>, c: int)
    requires m.Some? ==> Conforms(ctx, m.value)
    ensures EmitAll(AllRecords(WroteOpt(ctx, m, c))) == OptBytes(1, ctx, m)
    ensures AllBytes(WroteOpt(ctx, m, c))
         == if m.None? then [] else BytesOf(Prefixed(1, AsPrefix(c), Serialize(ctx, m.value)))
  {
    if m.Some? {
      var w := Prefixed(1, AsPrefix(c), Serialize(ctx, m.value));
      OneWritten(w);
      SingleRecord(RecordOf(w));
    }
  }

  /** The cached-size protocol, exactly: whatever the serializers write with the sizes cached at
      that moment is the serialization of the message if and only if every nested object caches
      the length of its own serialization. */
  lemma {:induction false} CachedSizeProtocol(ctx: Schema, p: RequestValue, c: int, cs: seq<int>)
    requires WellFormed(ctx) && p.Ok(ctx) && |cs| == |p.ranges|
    ensures AllBytes(WroteRequest(ctx, p, c, cs)) == Serialize(RequestSchema(ctx), p.ToMsg(ctx))
       <==> CachedRight(ctx, p, c, cs)
  {
    hide Serialize, Conforms, WellFormed, AllBytes, EmitAll, AllRecords, SizesRight, CachedRight, WroteRequest;
    WroteRequestRecords(ctx, p, c, cs);
    WroteRequestSizes(ctx, p, c, cs);
    StaleSizeShows(WroteRequest(ctx, p, c, cs));
  }

  lemma {:induction false} FreshlyCached(ctx: Schema, p: RequestValue, c: int, cs: seq<int>)
    requires WellFormed(ctx) && p.Ok(ctx) && |cs| == |p.ranges|
    requires |Serialize(RequestSchema(ctx), p.ToMsg(ctx))| < TWO_TO_THE_32
    requires p.context.Some? ==> c == ToCachedSize(|Serialize(ctx, p.context.value)|)
    requires forall i :: 0 <= i < |p.ranges| ==> cs[i] == ToCachedSize(|Serialize(KEY_RANGE, p.ranges[i])|)
    ensures CachedRight(ctx, p, c, cs)
  {
    hide Serialize, Conforms, AsPrefix, ToCachedSize;
    NestedFit(ctx, p);
    if p.context.Some? {
      CachedSizeAsPrefix(|Serialize(ctx, p.context.value)|);
    }
    forall i | 0 <= i < |p.ranges| ensures AsPrefix(cs[i]) == |Serialize(KEY_RANGE, p.ranges[i])| {
      CachedSizeAsPrefix(|Serialize(KEY_RANGE, p.ranges[i])|);
    }
  }

  /** Writing five parts one after the other, in the grouping of WroteRequestBytes. */
  lemma {:induction false} FivePartsInOrder(before: bytes, a: bytes, b: bytes, c: bytes, d: bytes, e: bytes)
    ensures Cat(Cat(Cat(Cat(a, b), c), d), e) == a + (b + c) + d + e
    ensures Cat(Cat(Cat(Cat(Cat(before, a), b), c), d), e) == Cat(before, a + (b + c) + d + e)
  {
  }
}

/** coprocessor.Request: an optional sub-message of another package, an int64, a bytes field and a
    repeated KeyRange. */
module RequestMessage {
  import opened Wire
  import opened Codec
  import opened ParseSteps
  import opened MergeLaws
  import opened Sizing
  import opened Streams
  import opened FieldSteps
  import opened KeyRangeMessage
  import opened ForeignMessage
  import opened RequestValues

  class Request {
    const ctx: Schema
    var context: Foreign?
    var tp: int
    var data: bytes
    var ranges: seq<KeyRange>
    var unknown: seq<Record>
    var cachedSize: int

    ghost predicate Valid()
      reads this, context
    {
      && WellFormed(ctx) && InRange(Int64, tp)
      && (context != null ==> context.schema == ctx && context.Valid())
      && Distinct(ranges)
    }

    /** The parts of the message, read through its nested objects. */
    ghost function Value(): (p: RequestValue)
      reads this, context, ranges
      requires Valid()
      ensures p.Ok(ctx)
    {
      ModelsAt(ranges);
      RequestValue(if context == null then None else Some(context.content), tp, data, Models(ranges), unknown)
    }

    ghost function Model(): (m: Msg)
      reads this, context, ranges
      requires Valid()
      ensures Conforms(RequestSchema(ctx), m)
    {
      Value().ToMsg(ctx)
    }

    constructor (s: Schema)
      requires WellFormed(s)
      ensures Valid() && ctx == s && Model() == Empty(RequestSchema(s))
      ensures context == null && ranges == []
    {
      ctx, context, tp, data, ranges, unknown, cachedSize := s, null, 0, [], [], [], 0;
      new;
      EmptyRequest(s);
    }

    // -------------------------------------------------------------- presence and ownership

    method has_context() returns (has: bool)
      ensures has <==> context != null
    {
      has := context != null;
    }

    /** The nested object, allocated at its default when there is none. */
    method mutable_context() returns (c: Foreign)
      requires Valid()
      modifies `context
      ensures Valid() && context == c
      ensures old(context) != null ==> c == old(context)
      ensures old(context) == null ==> fresh(c) && c.content == Empty(ctx)
    {
      if context == null {
        context := new Foreign(ctx);
      }
      c := context;
    }

    /** Gives the nested object away. */
    method release_context() returns (c: Foreign?)
      requires Valid()
      modifies `context
      ensures Valid() && c == old(context) && context == null
      ensures Value() == old(Value()).(context := None)
    {
      c := context;
      context := null;
    }

    /** Takes the given object over; the object held before is dropped. */
    method set_allocated_context(c: Foreign?)
      requires Valid() && (c != null ==> c.schema == ctx && c.Valid())
      modifies `context
      ensures Valid() && context == c
      ensures Value() == old(Value()).(context := if c == null then None else Some(c.content))
    {
      context := c;
    }

    method set_tp(n: int)
      requires Valid() && InRange(Int64, n)
      modifies `tp
      ensures Valid() && Value() == old(Value()).(tp := n)
    {
      tp := n;
    }

    /** Appends a cleared element to the repeated field and returns it. */
    method add_ranges() returns (k: KeyRange)
      requires Valid()
      modifies `ranges
      ensures Valid() && fresh(k) && ranges == old(ranges) + [k]
      ensures k.Model() == Empty(KEY_RANGE)
    {
      k := new KeyRange();
      ranges := ranges + [k];
    }

    method Clear()
      requires Valid()
      modifies this
      ensures Valid() && Model() == Empty(RequestSchema(ctx))
      ensures context == null && ranges == []
    {
      ranges, data, context, tp, unknown := [], [], null, 0, [];
      EmptyRequest(ctx);
    }

    // -------------------------------------------------------------- parsing

    method ParseContext(input: CodedInputStream) returns (ok: bool)
      requires Valid()
      modifies this, context, input
      ensures Valid() && ranges == old(ranges)
      ensures RequestTurn(ctx, old(Value()), 10, old(input.window), old(input.budget), ok, Value(), input.window)
      ensures ok ==> input.budget == old(input.budget)
      ensures context == old(context) || fresh(context)
    {
      hide RequestTurn, ReadsMessage, Conforms, ValueConforms, WellFormed;
      ghost var p := Value();
      var c := mutable_context();
      ok := c.ReadMessage(input);
      TurnContext(ctx, p, old(input.window), old(input.budget), ok, c.content, input.window);
    }

    method ParseTp(input: CodedInputStream) returns (ok: bool)
      requires Valid()
      modifies `tp, input`window
      ensures Valid()
      ensures RequestTurn(ctx, old(Value()), 16, old(input.window), input.budget, ok, Value(), input.window)
    {
      hide RequestTurn, FieldTurn, Conforms, ValueConforms, WellFormed;
      ghost var p := Value();
      var n;
      ok, n := ReadNumberField(Field(2, Int64), tp, input);
      TurnTp(ctx, p, old(input.window), input.budget, ok, n, input.window);
      tp := n;
    }

    method ParseData(input: CodedInputStream) returns (ok: bool)
      requires Valid()
      modifies `data, input`window
      ensures Valid()
      ensures RequestTurn(ctx, old(Value()), 26, old(input.window), input.budget, ok, Value(), input.window)
    {
      hide RequestTurn, FieldTurn, Conforms, ValueConforms, WellFormed;
      ghost var p := Value();
      var d;
      ok, d := ReadBytesField(Field(3, Bytes), Blob(data), input);
      TurnData(ctx, p, old(input.window), input.budget, ok, d, input.window);
      data := d;
    }

    method ParseRange(input: CodedInputStream) returns (ok: bool)
      requires Valid()
      modifies `ranges, input
      ensures Valid()
      ensures RequestTurn(ctx, old(Value()), 34, old(input.window), old(input.budget), ok, Value(), input.window)
      ensures ok ==> input.budget == old(input.budget)
      ensures |ranges| == |old(ranges)| + 1 && old(ranges) <= ranges && fresh(ranges[|old(ranges)|])
    {
      hide RequestTurn, ReadsMessage, Conforms, ValueConforms, WellFormed;
      ghost var p := Value();
      var k := add_ranges();
      ok := k.ReadMessage(input);
      ModelsAppend(old(ranges), k);
      TurnRange(ctx, p, old(input.window), old(input.budget), ok, k.Model(), input.window);
    }

    method ParseUnusual(input: CodedInputStream, tag: u32) returns (ok: bool)
      requires Valid() && tag !in {10, 16, 26, 34}
      modifies `unknown, input`window
      ensures Valid()
      ensures RequestTurn(ctx, old(Value()), tag, old(input.window), input.budget, ok, Value(), input.window)
    {
      hide RequestTurn, Conforms, ValueConforms, WellFormed, ReadRecord;
      ghost var p := Value();
      var r;
      ok, r := input.SkipField(tag);
      TurnUnknown(ctx, p, tag, old(input.window), input.budget, ok, r, input.window);
      if ok {
        unknown := unknown + [r];
      }
    }

    /** The switch on the field number: a tag above the cutoff or with the wrong wire type is
        handled as unusual. */
    method ParseField(input: CodedInputStream, tag: u32, below: bool) returns (ok: bool)
      requires Valid() && tag != 0 && (below <==> tag <= 127)
      modifies this, context, input
      ensures Valid()
      ensures RequestTurn(ctx, old(Value()), tag, old(input.window), old(input.budget), ok, Value(), input.window)
      ensures ok ==> input.budget == old(input.budget)
      ensures context == old(context) || fresh(context)
      ensures old(ranges) <= ranges && forall i :: |old(ranges)| <= i < |ranges| ==> fresh(ranges[i])
    {
      hide RequestTurn, Conforms, ValueConforms, WellFormed;
      if below && tag / 8 == 1 && tag % 0x100 == 10 {
        ok := ParseContext(input);
      } else if below && tag / 8 == 2 && tag % 0x100 == 16 {
        ok := ParseTp(input);
      } else if below && tag / 8 == 3 && tag % 0x100 == 26 {
        ok := ParseData(input);
      } else if below && tag / 8 == 4 && tag % 0x100 == 34 {
        ok := ParseRange(input);
      } else {
        ok := ParseUnusual(input, tag);
      }
    }

    method MergePartialFromCodedStream(input: CodedInputStream) returns (ok: bool)
      requires Valid()
      modifies this, context, input
      ensures Valid()
      ensures Ends(RequestSchema(ctx), old(Model()), old(input.window), old(input.budget), ok, input.ended, Model())
      ensures ok ==> input.budget == old(input.budget)
      ensures ok && input.ended ==> input.window == []
      ensures context == old(context) || fresh(context)
      ensures old(ranges) <= ranges && forall i :: |old(ranges)| <= i < |ranges| ==> fresh(ranges[i])
    {
      hide Turn, Ends, Leads, Conforms, ValueConforms, WellFormed;
      ghost var s, m0, bs0 := RequestSchema(ctx), Model(), input.window;
      LeadsStart(s, m0, bs0, input.budget);
      while true
        invariant Valid()
        invariant input.budget == old(input.budget)
        invariant Leads(s, m0, bs0, Model(), input.window, input.budget)
        invariant context == old(context) || fresh(context)
        invariant old(ranges) <= ranges && forall i :: |old(ranges)| <= i < |ranges| ==> fresh(ranges[i])
        decreases |input.window|
      {
        ghost var p, bs := Value(), input.window;
        var tag, below := input.ReadTagWithCutoffNoLastTag(127);
        if tag == 0 {
          LeadsToEnd(s, m0, bs0, p.ToMsg(ctx), bs, input.budget);
          return true;
        }
        var read := ParseField(input, tag, below);
        LeadsOn(s, m0, bs0, p.ToMsg(ctx), bs, old(input.budget), read, Model(), input.window);
        if !read {
          return false;
        }
      }
    }

    /** ParseFromString: clear, parse, and accept only if the whole input was used. A refused input
        leaves what its parse reached. */
    method ParseFrom(text: bytes, recursionLimit: nat) returns (ok: bool)
      requires Valid()
      modifies this
      ensures Valid()
      ensures ok <==> Parse(RequestSchema(ctx), Empty(RequestSchema(ctx)), text, recursionLimit).Some?
      ensures ok ==> Parse(RequestSchema(ctx), Empty(RequestSchema(ctx)), text, recursionLimit) == Some(Model())
      ensures Reached(RequestSchema(ctx), Empty(RequestSchema(ctx)), text, recursionLimit, Model())
    {
      hide MergePartial, Conforms, ValueConforms, WellFormed;
      Clear();
      var input := new CodedInputStream(text, recursionLimit);
      ok := MergePartialFromCodedStream(input);
      ok := ok && input.ended;
    }

    // -------------------------------------------------------------- sizes and serializers

    /** What the serializers write, with whatever sizes are cached in the nested objects. */
    ghost function Wrote(): seq<Written>
      reads this, context, ranges
      requires Valid()
    {
      WroteRequest(ctx, Value(), if context == null then 0 else context.cachedSize, CachedSizes(ranges))
    }

    /** Every nested object caches the length of its own serialization. */
    ghost predicate SizesCached()
      reads this, context, ranges
      requires Valid()
    {
      CachedRight(ctx, Value(), if context == null then 0 else context.cachedSize, CachedSizes(ranges))
    }

    /** The output is the serialization of the message exactly when the cached sizes are right. */
    lemma {:induction false} WroteIffCached()
      requires Valid()
      ensures AllBytes(Wrote()) == Serialize(RequestSchema(ctx), Model()) <==> SizesCached()
    {
      CachedSizeProtocol(ctx, Value(), if context == null then 0 else context.cachedSize, CachedSizes(ranges));
    }

    method SizeContext() returns (size: nat)
      requires Valid()
      modifies (if context == null then {} else {context})`cachedSize
      ensures Valid() && Value() == old(Value())
      ensures size == OptSize(ctx, Value().context)
      ensures context != null ==> context.cachedSize == ToCachedSize(|Serialize(ctx, context.content)|)
    {
      size := 0;
      if context != null {
        var n := context.ByteSizeLong();
        size := 1 + LengthDelimitedSize(n);
      }
    }

    /** ByteSizeLong: unknown fields, ranges, data, context, tp, in the order of the code, and as
        a side effect the size of every nested object cached in that object. */
    method ByteSizeLong() returns (total: nat)
      requires Valid()
      modifies `cachedSize, (if context == null then {} else {context})`cachedSize, ranges`cachedSize
      ensures Valid() && Value() == old(Value())
      ensures total == |Serialize(RequestSchema(ctx), Model())| && cachedSize == ToCachedSize(total)
      ensures total < TWO_TO_THE_32 ==> SizesCached()
    {
      hide Serialize, ByteSize, MsgSizes, RecordSizes, ToCachedSize, CachedRight, SizesCached, Conforms, ValueConforms;
      hide WellFormed, OptSize, NumSize, BlobSize, VarintSize;
      ghost var p := Value();
      SizeInOrder();
      total := RecordSizes(unknown);
      var size := SizeAll(ranges);
      assert Value() == p && Models(ranges) == old(Models(ranges));
      total := total + size;
      total := total + BlobSize(data);
      size := SizeContext();
      assert Value() == p;
      total := total + size;
      total := total + NumSize(tp);
      cachedSize := ToCachedSize(total);
      assert Valid() && Value() == p && Model() == old(Model());
      assert total == |Serialize(RequestSchema(ctx), Model())|;
      if total < TWO_TO_THE_32 {
        JustCached();
      }
    }

    lemma {:induction false} SizeInOrder()
      requires Valid()
      ensures |Serialize(RequestSchema(ctx), Model())|
           == RecordSizes(unknown) + MsgSizes(KEY_RANGE, Models(ranges)) + BlobSize(data)
              + OptSize(ctx, Value().context) + NumSize(tp)
    {
      RequestLayout(ctx, Value());
    }

    lemma {:induction false} JustCached()
      requires Valid() && |Serialize(RequestSchema(ctx), Model())| < TWO_TO_THE_32
      requires AllSized(ranges)
      requires context != null ==> context.cachedSize == ToCachedSize(|Serialize(ctx, context.content)|)
      ensures SizesCached()
    {
      ModelsAt(ranges);
      CachedSizesAt(ranges);
      hide Serialize, ToCachedSize, Conforms;
      FreshlyCached(ctx, Value(), if context == null then 0 else context.cachedSize, CachedSizes(ranges));
    }

    method WriteContext(output: CodedOutputStream)
      requires Valid()
      modifies output
      ensures output.out == Cat(old(output.out), ContextBytes())
    {
      if context != null {
        context.WriteMessage(1, output);
      }
    }

    method WriteContextToArray(target: array<byte>, at: nat) returns (next: nat)
      requires Valid() && at + |ContextBytes()| <= target.Length
      modifies target
      ensures next == at + |ContextBytes()|
      ensures target[..] == Splice(old(target[..]), at, ContextBytes())
    {
      next := at;
      SpliceNothing(target[..], at);
      if context != null {
        next := context.WriteMessageToArray(1, target, at);
      }
    }

    ghost function ContextBytes(): bytes
      reads this, context
      requires Valid()
    {
      if context == null then []
      else BytesOf(Prefixed(1, AsPrefix(context.cachedSize), Serialize(ctx, context.content)))
    }

    lemma {:induction false} WroteInOrder(before: bytes)
      requires Valid()
      ensures var w1, w2, w3 := ContextBytes(), NumBytes(2, tp), BlobBytes(3, data);
              var w4, w5 := RangeBytes(4, ranges), EmitAll(unknown);
              && Cat(Cat(Cat(Cat(w1, w2), w3), w4), w5) == AllBytes(Wrote())
              && Cat(Cat(Cat(Cat(Cat(before, w1), w2), w3), w4), w5) == Cat(before, AllBytes(Wrote()))
    {
      var c := if context == null then 0 else context.cachedSize;
      WroteRequestBytes(ctx, Value(), c, CachedSizes(ranges));
      OptRecords(ctx, Value().context, c);
      RangeBytesAreWritten(4, ranges);
      hide NumBytes, BlobBytes, Emit, EmitAll, WroteMsgs, AllBytes, WroteRequest, RangeBytes, BytesOf;
      hide Conforms, Serialize;
      FivePartsInOrder(before, ContextBytes(), NumBytes(2, tp), BlobBytes(3, data), RangeBytes(4, ranges),
                       EmitAll(unknown));
    }

    method SerializeWithCachedSizes(output: CodedOutputStream)
      requires Valid()
      modifies output
      ensures output.out == Cat(old(output.out), AllBytes(Wrote()))
    {
      hide *;
      WroteInOrder(output.out);
      ghost var wrote := AllBytes(Wrote());
      WriteContext(output);
      WriteNumber(2, tp, output);
      WriteBlob(3, data, output);
      SerializeAll(4, ranges, output);
      WriteUnknown(unknown, output);
      assert AllBytes(Wrote()) == wrote;
    }

    method InternalSerializeWithCachedSizesToArray(target: array<byte>, at: nat) returns (next: nat)
      requires Valid() && at + |AllBytes(Wrote())| <= target.Length
      modifies target
      ensures next == at + |AllBytes(Wrote())|
      ensures target[..] == Splice(old(target[..]), at, AllBytes(Wrote()))
    {
      hide *;
      WroteInOrder([]);
      ghost var before, wrote := target[..], AllBytes(Wrote());
      ghost var w1, w2, w3, w4 := ContextBytes(), NumBytes(2, tp), BlobBytes(3, data), RangeBytes(4, ranges);
      next := WriteContextToArray(target, at);
      SpliceTwice(before, at, w1, w2);
      next := WriteNumberToArray(2, tp, target, next);
      SpliceTwice(before, at, Cat(w1, w2), w3);
      next := WriteBlobToArray(3, data, target, next);
      SpliceTwice(before, at, Cat(Cat(w1, w2), w3), w4);
      next := SerializeAllToArray(4, ranges, target, next);
      SpliceTwice(before, at, Cat(Cat(Cat(w1, w2), w3), w4), EmitAll(unknown));
      next := WriteUnknownToArray(unknown, target, next);
      assert AllBytes(Wrote()) == wrote;
    }

    /** SerializeAsString: size everything, then write into a buffer of exactly that size. */
    method SerializeAsString() returns (ok: bool, text: array<byte>)
      requires Valid()
      modifies `cachedSize, (if context == null then {} else {context})`cachedSize, ranges`cachedSize
      ensures Valid() && Value() == old(Value()) && fresh(text)
      ensures ok <==> |Serialize(RequestSchema(ctx), Model())| < TWO_TO_THE_31
      ensures ok ==> text[..] == Serialize(RequestSchema(ctx), Model())
    {
      hide Serialize, Conforms, ValueConforms, WellFormed, CachedRight, WroteRequest, AllBytes, Distinct, Models;
      hide Valid, Value, Model, Wrote, SizesCached, Splice;
      var size := ByteSizeLong();
      ok := size < TWO_TO_THE_31;
      if ok {
        WroteIffCached();
        text := new byte[size](_ => 0);
        SpliceAll(text[..], AllBytes(Wrote()));
        var end := InternalSerializeWithCachedSizesToArray(text, 0);
      } else {
        text := new byte[0];
      }
    }

    // -------------------------------------------------------------- merging and copying

    /** MergeFrom: unknown fields, ranges, data, context, tp. `from` keeps its value and its nested
        objects to itself. */
    method MergeFrom(from: Request)
      requires from != this && Valid() && from.Valid() && from.ctx == ctx
      requires context == null || context != from.context
      modifies this, context
      ensures Valid() && from.Valid()
      ensures from.Value() == old(from.Value())
      ensures Model() == Merge(RequestSchema(ctx), old(Model()), from.Model())
      ensures context == old(context) || fresh(context)
      ensures old(ranges) <= ranges && forall i :: |old(ranges)| <= i < |ranges| ==> fresh(ranges[i])
    {
      ghost var p, q := Value(), from.Value();
      MergeRequests(ctx, p, q);
      hide Conforms, ValueConforms, WellFormed, Merge, Models, Distinct, Valid, Value, OrEmpty, RequestSchema;
      hide RequestValue.ToMsg, RequestValue.Ok;
      MergeUnknownAndRanges(from);
      ghost var p1 := Value();
      MergeData(from);
      ghost var p2 := Value();
      MergeContext(from);
      ghost var p3 := Value();
      assert p3.context == if q.context.None? then p.context
                           else Some(Merge(ctx, OrEmpty(ctx, p.context), q.context.value));
      MergeTp(from);
    }

    method MergeUnknownAndRanges(from: Request)
      requires from != this && Valid() && from.Valid() && from.ctx == ctx
      modifies `unknown, `ranges
      ensures Valid() && from.Valid() && from.Value() == old(from.Value())
      ensures Value() == old(Value()).(unk := old(Value()).unk + from.Value().unk,
                                       ranges := old(Value()).ranges + from.Value().ranges)
      ensures old(ranges) <= ranges && forall i :: |old(ranges)| <= i < |ranges| ==> fresh(ranges[i])
    {
      hide Conforms, ValueConforms, WellFormed, Models, Distinct;
      unknown := unknown + from.unknown;
      var copies := CopyAll(from.ranges);
      DistinctConcat(ranges, copies);
      ModelsConcat(ranges, copies);
      ranges := ranges + copies;
    }

    method MergeData(from: Request)
      requires from != this && Valid() && from.Valid()
      modifies `data
      ensures Valid() && from.Valid() && from.Value() == old(from.Value())
      ensures Value() == old(Value()).(data := if from.Value().data != [] then from.Value().data else old(Value()).data)
    {
      hide Conforms, ValueConforms, WellFormed, Models, Distinct;
      if |from.data| > 0 {
        data := from.data;
      }
    }

    method MergeTp(from: Request)
      requires from != this && Valid() && from.Valid()
      modifies `tp
      ensures Valid() && from.Valid() && from.Value() == old(from.Value())
      ensures Value() == old(Value()).(tp := if from.Value().tp != 0 then from.Value().tp else old(Value()).tp)
    {
      hide Conforms, ValueConforms, WellFormed, Models, Distinct;
      if from.tp != 0 {
        tp := from.tp;
      }
    }

    method MergeContext(from: Request)
      requires from != this && Valid() && from.Valid() && from.ctx == ctx
      requires context == null || context != from.context
      modifies `context, context
      ensures Valid() && from.Valid() && from.Value() == old(from.Value())
      ensures Value() == old(Value()).(context :=
                if from.Value().context.None? then old(Value()).context
                else Some(Merge(ctx, OrEmpty(ctx, old(Value()).context), from.Value().context.value)))
      ensures context == old(context) || fresh(context)
    {
      hide Conforms, ValueConforms, WellFormed, Merge, Models, Distinct;
      if from.context != null {
        var c := mutable_context();
        c.MergeFrom(from.context);
      }
    }

    /** The copy constructor: a fresh copy of every nested object. */
    constructor Copy(from: Request)
      requires from.Valid()
      ensures Valid() && ctx == from.ctx && Value() == from.Value()
      ensures context != null ==> fresh(context)
      ensures fresh(ranges)
    {
      ctx, unknown, cachedSize := from.ctx, from.unknown, 0;
      data := if |from.data| > 0 then from.data else [];
      tp := from.tp;
      context, ranges := null, [];
      new;
      CopyNested(from);
    }

    method CopyNested(from: Request)
      requires from != this && Valid() && from.Valid() && ctx == from.ctx
      requires context == null && ranges == []
      modifies `ranges, `context
      ensures Valid() && Value() == old(Value()).(context := from.Value().context, ranges := from.Value().ranges)
      ensures from.Value() == old(from.Value())
      ensures fresh(ranges) && (context != null ==> fresh(context))
    {
      hide Conforms, ValueConforms, WellFormed, Models, Distinct;
      ranges := CopyAll(from.ranges);
      if from.context != null {
        context := new Foreign.Copy(from.context);
      }
    }

    /** CopyFrom: nothing on itself, otherwise Clear and MergeFrom. */
    method CopyFrom(from: Request)
      requires Valid() && from.Valid() && from.ctx == ctx
      modifies this
      ensures Valid() && from.Valid()
      ensures Model() == old(from.Model()) && from.Value() == old(from.Value())
      ensures from != this ==> context == null || fresh(context)
      ensures from != this ==> fresh(ranges)
      ensures from == this ==> context == old(context) && ranges == old(ranges)
    {
      hide Conforms, ValueConforms, WellFormed, Merge;
      if from == this {
        return;
      }
      Clear();
      MergeUnits(RequestSchema(ctx), from.Model());
      MergeFrom(from);
    }

    /** Swap: the nested objects change owners, nothing is copied. */
    method Swap(other: Request)
      requires Valid() && other.Valid() && other.ctx == ctx
      modifies this, other
      ensures Valid() && other.Valid()
      ensures Value() == old(other.Value()) && other.Value() == old(Value())
      ensures context == old(other.context) && other.context == old(context)
      ensures ranges == old(other.ranges) && other.ranges == old(ranges)
    {
      if other == this {
        return;
      }
      hide Conforms, ValueConforms, WellFormed, Models, Distinct;
      SwapNested(other);
      SwapScalars(other);
    }

    method SwapScalars(other: Request)
      requires other != this && Valid() && other.Valid()
      modifies `data, `tp, `unknown, other`data, other`tp, other`unknown
      ensures Valid() && other.Valid()
      ensures data == old(other.data) && other.data == old(data)
      ensures tp == old(other.tp) && other.tp == old(tp)
      ensures unknown == old(other.unknown) && other.unknown == old(unknown)
    {
      hide Conforms, ValueConforms, WellFormed, Distinct;
      data, other.data := other.data, data;
      tp, other.tp := other.tp, tp;
      unknown, other.unknown := other.unknown, unknown;
    }

    method SwapNested(other: Request)
      requires other != this && Valid() && other.Valid() && other.ctx == ctx
      modifies `ranges, `context, other`ranges, other`context
      ensures Valid() && other.Valid()
      ensures ranges == old(other.ranges) && other.ranges == old(ranges)
      ensures context == old(other.context) && other.context == old(context)
    {
      hide Conforms, ValueConforms, WellFormed, Models, Distinct;
      ranges, other.ranges := other.ranges, ranges;
      context, other.context := other.context, context;
    }
  }
}

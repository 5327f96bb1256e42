/** A sub-message of another package (kvrpcpb.Context and its like): an
    object of any schema, whose operations are the codec itself. */
module ForeignMessage {
  import opened Wire
  import opened Codec
  import opened ParseSteps
  import opened Sizing
  import opened Streams

  class Foreign {
    const schema: Schema
    var content: Msg
    var cachedSize: int

    ghost predicate Valid()
      reads this
    {
      WellFormed(schema) && Conforms(schema, content)
    }

    constructor (s: Schema)
      requires WellFormed(s)
      ensures schema == s && Valid() && content == Empty(s)
    {
      schema, content, cachedSize := s, Empty(s), 0;
    }

    constructor Copy(from: Foreign)
      requires from.Valid()
      ensures schema == from.schema && Valid() && content == from.content
    {
      schema, content, cachedSize := from.schema, from.content, 0;
    }

    method ByteSizeLong() returns (total: nat)
      requires Valid()
      modifies `cachedSize
      ensures Valid() && total == |Serialize(schema, content)| && cachedSize == ToCachedSize(total)
    {
      total := ByteSize(schema, content);
      cachedSize := ToCachedSize(total);
      ByteSizeIsLength(schema, content);
    }

    method SerializeWithCachedSizes(output: CodedOutputStream)
      requires Valid()
      modifies output
      ensures output.out == Cat(old(output.out), Serialize(schema, content))
    {
      output.WriteRaw(Serialize(schema, content));
    }

    method InternalSerializeWithCachedSizesToArray(target: array<byte>, at: nat) returns (next: nat)
      requires Valid() && at + |Serialize(schema, content)| <= target.Length
      modifies target
      ensures next == at + |Serialize(schema, content)|
      ensures target[..] == Splice(old(target[..]), at, Serialize(schema, content))
    {
      next := WriteRawToArray(Serialize(schema, content), target, at);
    }

    /** WriteMessageMaybeToArray: tag, cached size, contents. */
    method WriteMessage(num: FieldNumber, output: CodedOutputStream)
      requires Valid()
      modifies output
      ensures output.out
           == Cat(old(output.out), BytesOf(Prefixed(num, AsPrefix(cachedSize), Serialize(schema, content))))
    {
      hide Serialize, AsPrefix, EmitTag, EncodeVarint, Payload;
      output.WriteRaw(EmitTag(num, WIRETYPE_LENGTH_DELIMITED));
      output.WriteRaw(EncodeVarint(AsPrefix(cachedSize)));
      SerializeWithCachedSizes(output);
    }

    /** InternalWriteMessageToArray: the same into an array. */
    method WriteMessageToArray(num: FieldNumber, target: array<byte>, at: nat) returns (next: nat)
      requires Valid()
      requires at + |BytesOf(Prefixed(num, AsPrefix(cachedSize), Serialize(schema, content)))| <= target.Length
      modifies target
      ensures next == at + |BytesOf(Prefixed(num, AsPrefix(cachedSize), Serialize(schema, content)))|
      ensures target[..]
           == Splice(old(target[..]), at, BytesOf(Prefixed(num, AsPrefix(cachedSize), Serialize(schema, content))))
    {
      hide Serialize, AsPrefix, EmitTag, EncodeVarint, Splice;
      ghost var before := target[..];
      ghost var t, v, d := EmitTag(num, WIRETYPE_LENGTH_DELIMITED), EncodeVarint(AsPrefix(cachedSize)),
                           Serialize(schema, content);
      next := WriteRawToArray(EmitTag(num, WIRETYPE_LENGTH_DELIMITED), target, at);
      SpliceTwice(before, at, t, v);
      next := WriteRawToArray(EncodeVarint(AsPrefix(cachedSize)), target, next);
      SpliceTwice(before, at, Cat(t, v), d);
      next := InternalSerializeWithCachedSizesToArray(target, next);
      assert t + v + d == t + (v + d);
    }

    method MergeFrom(from: Foreign)
      requires from != this && Valid() && from.Valid() && from.schema == schema
      modifies `content
      ensures Valid() && content == Merge(schema, old(content), from.content)
    {
      content := Merge(schema, content, from.content);
    }

    method ReadMessage(input: CodedInputStream) returns (ok: bool)
      requires Valid()
      modifies `content, input
      ensures Valid()
      ensures ReadsMessage(schema, old(content), old(input.window), old(input.budget), ok, content, input.window)
      ensures ok ==> input.budget == old(input.budget)
    {
      var after;
      ok, after := input.PushMessageLimit();
      if !ok {
        return;
      }
      var parsed := Parse(schema, content, input.window, input.budget);
      ok := parsed.Some?;
      if ok {
        content, input.window := parsed.value, [];
        input.PopLimit(after);
      } else {
        content := AfterParse(schema, content, input.window, input.budget);
      }
    }
  }
}

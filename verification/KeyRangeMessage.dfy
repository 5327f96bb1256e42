/** coprocessor.KeyRange: two bytes fields. */
module KeyRangeMessage {
  import opened Wire
  import opened Codec
  import opened ParseSteps
  import opened MergeLaws
  import opened Sizing
  import opened Streams
  import opened FieldSteps

  const KEY_RANGE := Schema([Field(1, Bytes), Field(2, Bytes)])

  lemma {:induction false} KeyRangeLayout(start: bytes, end: bytes, unk: seq<Record>)
    ensures var m := Msg([Blob(start), Blob(end)], unk);
            && Serialize(KEY_RANGE, m) == BlobBytes(1, start) + BlobBytes(2, end) + EmitAll(unk)
            && ByteSize(KEY_RANGE, m) == RecordSizes(unk) + BlobSize(start) + BlobSize(end)
  {
    var m := Msg([Blob(start), Blob(end)], unk);
    FieldByField(KEY_RANGE, m, 0);
    FieldByField(KEY_RANGE, m, 1);
    FieldByField(KEY_RANGE, m, 2);
    BlobField(KEY_RANGE.fields[0], start);
    BlobField(KEY_RANGE.fields[1], end);
  }

  lemma {:induction false} KeyRangeWellFormed()
    ensures WellFormed(KEY_RANGE)
  {
  }

  class KeyRange {
    var start: bytes
    var end: bytes
    var unknown: seq<Record>
    var cachedSize: int

    /** The value of the message; the cached size is not part of it. */
    ghost function Model(): (m: Msg)
      reads `start, `end, `unknown
      ensures Conforms(KEY_RANGE, m)
    {
      Msg([Blob(start), Blob(end)], unknown)
    }

    constructor ()
      ensures Model() == Empty(KEY_RANGE)
    {
      start, end, unknown, cachedSize := [], [], [], 0;
      new;
      assert Model().vals == Empty(KEY_RANGE).vals;
    }

    constructor Copy(from: KeyRange)
      ensures Model() == from.Model()
    {
      unknown := from.unknown;
      start := if |from.start| > 0 then from.start else [];
      end := if |from.end| > 0 then from.end else [];
      cachedSize := 0;
    }

    method Clear()
      modifies this
      ensures Model() == Empty(KEY_RANGE)
    {
      start, end, unknown := [], [], [];
      assert Model().vals == Empty(KEY_RANGE).vals;
    }

    method set_start(value: bytes)
      modifies `start
      ensures Model() == old(Model()).(vals := [Blob(value), Blob(end)])
    {
      start := value;
    }

    method set_end(value: bytes)
      modifies `end
      ensures Model() == old(Model()).(vals := [Blob(start), Blob(value)])
    {
      end := value;
    }

    method MergePartialFromCodedStream(input: CodedInputStream) returns (ok: bool)
      modifies this, input
      ensures Ends(KEY_RANGE, old(Model()), old(input.window), old(input.budget), ok, input.ended, Model())
      ensures ok ==> input.budget == old(input.budget)
      ensures ok && input.ended ==> input.window == []
    {
      hide Turn, Ends, Leads, Conforms;
      LeadsStart(KEY_RANGE, Model(), input.window, input.budget);
      while true
        invariant input.budget == old(input.budget)
        invariant Leads(KEY_RANGE, old(Model()), old(input.window), Model(), input.window, input.budget)
        decreases |input.window|
      {
        ghost var m, bs := Model(), input.window;
        var tag, below := input.ReadTagWithCutoffNoLastTag(127);
        if tag == 0 {
          LeadsToEnd(KEY_RANGE, old(Model()), old(input.window), m, bs, input.budget);
          return true;
        }
        var read := ParseField(input, tag, below);
        LeadsOn(KEY_RANGE, old(Model()), old(input.window), m, bs, input.budget, read, Model(), input.window);
        if !read {
          return false;
        }
      }
    }

    /** The switch on the field number, with everything else handled as unusual. */
    method ParseField(input: CodedInputStream, tag: u32, below: bool) returns (ok: bool)
      requires tag != 0 && (below <==> tag <= 127)
      modifies this, input`window
      ensures Turn(KEY_RANGE, old(Model()), tag, old(input.window), input.budget, ok, Model(), input.window)
    {
      hide Turn;
      if below && tag / 8 == 1 && tag % 0x100 == 10 {
        ok := ParseStart(input);
      } else if below && tag / 8 == 2 && tag % 0x100 == 18 {
        ok := ParseEnd(input);
      } else {
        ok := ParseUnusual(input, tag);
      }
    }

    method ParseStart(input: CodedInputStream) returns (ok: bool)
      modifies `start, input`window
      ensures Turn(KEY_RANGE, old(Model()), 10, old(input.window), input.budget, ok, Model(), input.window)
    {
      hide Turn, FieldTurn;
      ghost var m, bs := Model(), input.window;
      var data;
      ok, data := ReadBytesField(Field(1, Bytes), m.vals[0], input);
      start := data;
      assert Model().vals == m.vals[0 := Blob(data)];
      TurnOfField(KEY_RANGE, m, 0, bs, input.budget, ok, Blob(data), Model(), input.window);
    }

    method ParseEnd(input: CodedInputStream) returns (ok: bool)
      modifies `end, input`window
      ensures Turn(KEY_RANGE, old(Model()), 18, old(input.window), input.budget, ok, Model(), input.window)
    {
      hide Turn, FieldTurn;
      ghost var m, bs := Model(), input.window;
      var data;
      ok, data := ReadBytesField(Field(2, Bytes), m.vals[1], input);
      end := data;
      assert Model().vals == m.vals[1 := Blob(data)];
      TurnOfField(KEY_RANGE, m, 1, bs, input.budget, ok, Blob(data), Model(), input.window);
    }

    method ParseUnusual(input: CodedInputStream, tag: u32) returns (ok: bool)
      requires tag !in {10, 18}
      modifies `unknown, input`window
      ensures Turn(KEY_RANGE, old(Model()), tag, old(input.window), input.budget, ok, Model(), input.window)
    {
      hide Turn, ReadRecord;
      ghost var m, bs := Model(), input.window;
      var r;
      ok, r := input.SkipField(tag);
      TurnUnusual(KEY_RANGE, m, tag, bs, input.budget, ok, r, input.window);
      if ok {
        unknown := unknown + [r];
      }
    }

    lemma {:induction false} WrittenInOrder(before: bytes)
      ensures var w1, w2, w3 := BlobBytes(1, start), BlobBytes(2, end), EmitAll(unknown);
              && Cat(Cat(w1, w2), w3) == Serialize(KEY_RANGE, Model())
              && Cat(Cat(Cat(before, w1), w2), w3) == Cat(before, Serialize(KEY_RANGE, Model()))
    {
      KeyRangeLayout(start, end, unknown);
      hide Serialize, BlobBytes, EmitAll;
      assert before + (BlobBytes(1, start) + BlobBytes(2, end) + EmitAll(unknown))
          == before + BlobBytes(1, start) + BlobBytes(2, end) + EmitAll(unknown);
    }

    method SerializeWithCachedSizes(output: CodedOutputStream)
      modifies output
      ensures output.out == Cat(old(output.out), Serialize(KEY_RANGE, Model()))
    {
      hide *;
      WrittenInOrder(output.out);
      WriteBlob(1, start, output);
      WriteBlob(2, end, output);
      WriteUnknown(unknown, output);
    }

    method InternalSerializeWithCachedSizesToArray(target: array<byte>, at: nat) returns (next: nat)
      requires at + |Serialize(KEY_RANGE, Model())| <= target.Length
      modifies target
      ensures next == at + |Serialize(KEY_RANGE, Model())|
      ensures target[..] == Splice(old(target[..]), at, Serialize(KEY_RANGE, Model()))
    {
      hide *;
      WrittenInOrder([]);
      ghost var before, w1, w2 := target[..], BlobBytes(1, start), BlobBytes(2, end);
      next := WriteBlobToArray(1, start, target, at);
      SpliceTwice(before, at, w1, w2);
      next := WriteBlobToArray(2, end, target, next);
      SpliceTwice(before, at, Cat(w1, w2), EmitAll(unknown));
      next := WriteUnknownToArray(unknown, target, next);
    }

    /** WriteMessageMaybeToArray: tag, cached size, contents. */
    method WriteMessage(num: FieldNumber, output: CodedOutputStream)
      modifies output
      ensures output.out
           == Cat(old(output.out), BytesOf(Prefixed(num, AsPrefix(cachedSize), Serialize(KEY_RANGE, Model()))))
    {
      hide Serialize, AsPrefix, EmitTag, EncodeVarint, Payload;
      output.WriteRaw(EmitTag(num, WIRETYPE_LENGTH_DELIMITED));
      output.WriteRaw(EncodeVarint(AsPrefix(cachedSize)));
      SerializeWithCachedSizes(output);
    }

    /** InternalWriteMessageToArray: the same into an array. */
    method WriteMessageToArray(num: FieldNumber, target: array<byte>, at: nat) returns (next: nat)
      requires at + |BytesOf(Prefixed(num, AsPrefix(cachedSize), Serialize(KEY_RANGE, Model())))| <= target.Length
      modifies target
      ensures next == at + |BytesOf(Prefixed(num, AsPrefix(cachedSize), Serialize(KEY_RANGE, Model())))|
      ensures target[..]
           == Splice(old(target[..]), at, BytesOf(Prefixed(num, AsPrefix(cachedSize), Serialize(KEY_RANGE, Model()))))
    {
      hide Serialize, AsPrefix, EmitTag, EncodeVarint, Splice;
      ghost var before := target[..];
      ghost var t, v, d := EmitTag(num, WIRETYPE_LENGTH_DELIMITED), EncodeVarint(AsPrefix(cachedSize)),
                           Serialize(KEY_RANGE, Model());
      next := WriteRawToArray(EmitTag(num, WIRETYPE_LENGTH_DELIMITED), target, at);
      SpliceTwice(before, at, t, v);
      next := WriteRawToArray(EncodeVarint(AsPrefix(cachedSize)), target, next);
      SpliceTwice(before, at, Cat(t, v), d);
      next := InternalSerializeWithCachedSizesToArray(target, next);
      assert t + v + d == t + (v + d);
    }

    method ByteSizeLong() returns (total: nat)
      modifies `cachedSize
      ensures Model() == old(Model())
      ensures total == |Serialize(KEY_RANGE, Model())| && cachedSize == ToCachedSize(total)
    {
      total := 0;
      if |unknown| > 0 {
        total := total + RecordSizes(unknown);
      }
      if |start| > 0 {
        total := total + 1 + LengthDelimitedSize(|start|);
      }
      if |end| > 0 {
        total := total + 1 + LengthDelimitedSize(|end|);
      }
      cachedSize := ToCachedSize(total);
      KeyRangeLayout(start, end, unknown);
      KeyRangeWellFormed();
      ByteSizeIsLength(KEY_RANGE, Model());
    }

    method MergeFrom(from: KeyRange)
      requires from != this
      modifies this
      ensures Model() == Merge(KEY_RANGE, old(Model()), from.Model())
    {
      unknown := unknown + from.unknown;
      if |from.start| > 0 {
        start := from.start;
      }
      if |from.end| > 0 {
        end := from.end;
      }
      assert Model().vals == Merge(KEY_RANGE, old(Model()), from.Model()).vals;
    }

    method CopyFrom(from: KeyRange)
      modifies this
      ensures Model() == old(from.Model())
    {
      if from == this {
        return;
      }
      Clear();
      MergeFrom(from);
      MergeUnits(KEY_RANGE, from.Model());
    }

    method Swap(other: KeyRange)
      modifies this, other
      ensures Model() == old(other.Model()) && other.Model() == old(Model())
    {
      if other == this {
        return;
      }
      start, other.start := other.start, start;
      end, other.end := other.end, end;
      unknown, other.unknown := other.unknown, unknown;
    }

    /** WireFormatLite::ReadMessage for this class: a length, one level of recursion, a limit, the
        parse, and the demand that the parse used the input up to the limit. */
    method ReadMessage(input: CodedInputStream) returns (ok: bool)
      modifies this, input
      ensures ReadsMessage(KEY_RANGE, old(Model()), old(input.window), old(input.budget), ok, Model(), input.window)
      ensures ok ==> input.budget == old(input.budget)
    {
      ghost var m := Model();
      var after;
      ok, after := input.PushMessageLimit();
      if !ok {
        return;
      }
      ok := MergePartialFromCodedStream(input);
      if !ok {
        return;
      }
      ok := input.ended;
      input.PopLimit(after);
    }
  }

  /** The values of a repeated KeyRange field. */
  ghost function Models(ks: seq<KeyRange>): (ms: seq<Msg>)
    reads ks`start, ks`end, ks`unknown
    ensures |ms| == |ks|
  {
    if ks == [] then [] else [ks[0].Model()] + Models(ks[1..])
  }

  lemma {:induction false} ModelsAt(ks: seq<KeyRange>)
    ensures forall i :: 0 <= i < |ks| ==> Models(ks)[i] == ks[i].Model()
    ensures forall i :: 0 <= i < |ks| ==> Conforms(KEY_RANGE, Models(ks)[i])
  {
    if ks != [] {
      ModelsAt(ks[1..]);
    }
  }

  ghost predicate Distinct(ks: seq<KeyRange>) {
    forall i, j :: 0 <= i < j < |ks| ==> ks[i] != ks[j]
  }

  ghost predicate AllSized(ks: seq<KeyRange>)
    reads ks
  {
    forall i :: 0 <= i < |ks| ==> ks[i].cachedSize == ToCachedSize(|Serialize(KEY_RANGE, ks[i].Model())|)
  }

  /** The size loop over a repeated KeyRange field: one byte of tag each, and every element's size
      computed and cached in it. */
  method SizeAll(ks: seq<KeyRange>) returns (total: nat)
    requires Distinct(ks)
    requires forall i :: 0 <= i < |ks| ==> Conforms(KEY_RANGE, Models(ks)[i])
    modifies ks`cachedSize
    ensures total == MsgSizes(KEY_RANGE, Models(ks)) && AllSized(ks)
  {
    ModelsAt(ks);
    hide Serialize, ByteSize, Conforms, WellFormed, VarintSize, ToCachedSize, Models;
    ghost var ms := Models(ks);
    KeyRangeWellFormed();
    total := 1 * |ks|;
    var i := 0;
    while i < |ks|
      invariant i <= |ks|
      invariant total == |ks| - i + MsgSizes(KEY_RANGE, ms[..i])
      invariant forall j :: 0 <= j < i ==>
                  ks[j].cachedSize == ToCachedSize(|Serialize(KEY_RANGE, ks[j].Model())|)
    {
      var size := ks[i].ByteSizeLong();
      ByteSizeIsLength(KEY_RANGE, ms[i]);
      MsgSizesAppend(KEY_RANGE, ms[..i], ms[i]);
      assert ms[..i + 1] == ms[..i] + [ms[i]];
      total := total + LengthDelimitedSize(size);
      i := i + 1;
    }
    assert ms[..i] == ms;
  }

  /** The sizes cached in the elements. */
  ghost function CachedSizes(ks: seq<KeyRange>): (cs: seq<int>)
    reads ks`cachedSize
    ensures |cs| == |ks|
  {
    if ks == [] then [] else [ks[0].cachedSize] + CachedSizes(ks[1..])
  }

  lemma {:induction false} CachedSizesAt(ks: seq<KeyRange>)
    ensures forall i :: 0 <= i < |ks| ==> CachedSizes(ks)[i] == ks[i].cachedSize
  {
    if ks != [] {
      CachedSizesAt(ks[1..]);
    }
  }

  /** What the output loop has written after `i` elements. */
  ghost function UpTo(num: FieldNumber, ms: seq<Msg>, cs: seq<int>, i: nat): bytes
    requires |ms| == |cs| && i <= |ms| && forall j :: 0 <= j < |ms| ==> Conforms(KEY_RANGE, ms[j])
  {
    AllBytes(WroteMsgs(num, KEY_RANGE, ms[..i], cs[..i]))
  }

  ghost function RangeBytes(num: FieldNumber, ks: seq<KeyRange>): bytes
    reads ks
  {
    ModelsAt(ks);
    UpTo(num, Models(ks), CachedSizes(ks), |ks|)
  }

  lemma {:induction false} RangeBytesAreWritten(num: FieldNumber, ks: seq<KeyRange>)
    requires forall i :: 0 <= i < |ks| ==> Conforms(KEY_RANGE, Models(ks)[i])
    ensures RangeBytes(num, ks) == AllBytes(WroteMsgs(num, KEY_RANGE, Models(ks), CachedSizes(ks)))
  {
    assert Models(ks)[..|ks|] == Models(ks) && CachedSizes(ks)[..|ks|] == CachedSizes(ks);
  }

  lemma {:induction false} UpToStep(num: FieldNumber, ms: seq<Msg>, cs: seq<int>, i: nat)
    requires |ms| == |cs| && i < |ms| && forall j :: 0 <= j < |ms| ==> Conforms(KEY_RANGE, ms[j])
    ensures UpTo(num, ms, cs, 0) == []
    ensures UpTo(num, ms, cs, i + 1)
         == Cat(UpTo(num, ms, cs, i), BytesOf(Prefixed(num, AsPrefix(cs[i]), Serialize(KEY_RANGE, ms[i]))))
  {
    hide Serialize, Conforms, AsPrefix, BytesOf;
    var w := Prefixed(num, AsPrefix(cs[i]), Serialize(KEY_RANGE, ms[i]));
    WroteMsgsAppend(num, KEY_RANGE, ms[..i], cs[..i], ms[i], cs[i]);
    BytesConcat(WroteMsgs(num, KEY_RANGE, ms[..i], cs[..i]), [w]);
    OneWritten(w);
    assert ms[..i + 1] == ms[..i] + [ms[i]] && cs[..i + 1] == cs[..i] + [cs[i]];
  }

  lemma {:induction false} UpToGrows(num: FieldNumber, ms: seq<Msg>, cs: seq<int>, i: nat, k: nat)
    requires |ms| == |cs| && i <= k <= |ms| && forall j :: 0 <= j < |ms| ==> Conforms(KEY_RANGE, ms[j])
    ensures |UpTo(num, ms, cs, i)| <= |UpTo(num, ms, cs, k)|
    decreases k - i
  {
    hide Serialize, Conforms, AsPrefix, BytesOf, UpTo;
    if i < k {
      UpToStep(num, ms, cs, i);
      UpToGrows(num, ms, cs, i + 1, k);
    }
  }

  /** The output loop over a repeated KeyRange field: tag, cached size, element. */
  method SerializeAll(num: FieldNumber, ks: seq<KeyRange>, output: CodedOutputStream)
    modifies output
    ensures output.out == Cat(old(output.out), RangeBytes(num, ks))
  {
    ghost var ms, cs := Models(ks), CachedSizes(ks);
    ModelsAt(ks);
    CachedSizesAt(ks);
    var i := 0;
    assert UpTo(num, ms, cs, 0) == [] && Cat(output.out, []) == output.out;
    hide Serialize, Conforms, AsPrefix, BytesOf, UpTo, Cat, Models, CachedSizes;
    while i < |ks|
      invariant i <= |ks|
      invariant output.out == Cat(old(output.out), UpTo(num, ms, cs, i))
    {
      UpToStep(num, ms, cs, i);
      CatAssociative(old(output.out), UpTo(num, ms, cs, i),
                     BytesOf(Prefixed(num, AsPrefix(cs[i]), Serialize(KEY_RANGE, ms[i]))));
      ks[i].WriteMessage(num, output);
      i := i + 1;
    }
  }

  /** `target` is `before` with the first `i` elements put in from `at` to `here`, and has room
      for the others. */
  ghost predicate Filled(num: FieldNumber, ks: seq<KeyRange>, target: array<byte>, before: bytes, at: nat,
                         i: nat, here: nat)
    reads target, ks
  {
    ModelsAt(ks);
    var ms, cs := Models(ks), CachedSizes(ks);
    && i <= |ks| && |before| == target.Length && at + |UpTo(num, ms, cs, |ks|)| <= |before|
    && here == at + |UpTo(num, ms, cs, i)| && here <= |before|
    && target[..] == Splice(before, at, UpTo(num, ms, cs, i))
  }

  /** One turn of the loop below. */
  method WriteNextToArray(num: FieldNumber, ks: seq<KeyRange>, ghost before: bytes, ghost at: nat, i: nat,
                          target: array<byte>, here: nat) returns (next: nat)
    requires i < |ks| && Filled(num, ks, target, before, at, i, here)
    modifies target
    ensures Filled(num, ks, target, before, at, i + 1, next)
  {
    ghost var ms, cs := Models(ks), CachedSizes(ks);
    ModelsAt(ks);
    CachedSizesAt(ks);
    hide Serialize, Conforms, AsPrefix, BytesOf, UpTo, Splice, Cat, Models, CachedSizes;
    UpToStep(num, ms, cs, i);
    UpToGrows(num, ms, cs, i + 1, |ms|);
    SpliceTwice(before, at, UpTo(num, ms, cs, i),
                BytesOf(Prefixed(num, AsPrefix(cs[i]), Serialize(KEY_RANGE, ms[i]))));
    next := ks[i].WriteMessageToArray(num, target, here);
  }

  method SerializeAllToArray(num: FieldNumber, ks: seq<KeyRange>, target: array<byte>, at: nat) returns (next: nat)
    requires at + |RangeBytes(num, ks)| <= target.Length
    modifies target
    ensures next == at + |RangeBytes(num, ks)|
    ensures target[..] == Splice(old(target[..]), at, RangeBytes(num, ks))
  {
    ghost var before := target[..];
    next := at;
    var i := 0;
    StartFilled(num, ks, target, at);
    hide *;
    while i < |ks|
      invariant i <= |ks| && Filled(num, ks, target, before, at, i, next)
    {
      next := WriteNextToArray(num, ks, before, at, i, target, next);
      i := i + 1;
    }
    EndFilled(num, ks, target, before, at, next);
  }

  lemma {:induction false} StartFilled(num: FieldNumber, ks: seq<KeyRange>, target: array<byte>, at: nat)
    requires at + |RangeBytes(num, ks)| <= target.Length
    ensures Filled(num, ks, target, target[..], at, 0, at)
  {
    ModelsAt(ks);
    assert UpTo(num, Models(ks), CachedSizes(ks), 0) == [];
    SpliceNothing(target[..], at);
    hide Serialize, Conforms, AsPrefix, BytesOf, UpTo, Splice, Models, CachedSizes;
  }

  lemma {:induction false} EndFilled(num: FieldNumber, ks: seq<KeyRange>, target: array<byte>, before: bytes,
                                     at: nat, here: nat)
    requires Filled(num, ks, target, before, at, |ks|, here)
    ensures at + |RangeBytes(num, ks)| <= |before|
    ensures here == at + |RangeBytes(num, ks)| && target[..] == Splice(before, at, RangeBytes(num, ks))
  {
    hide Serialize, Conforms, AsPrefix, BytesOf, UpTo, Splice, Models, CachedSizes;
  }

  lemma {:induction false} ModelsAppend(ks: seq<KeyRange>, k: KeyRange)
    ensures Models(ks + [k]) == Models(ks) + [k.Model()]
  {
    ModelsConcat(ks, [k]);
    assert Models([k]) == [k.Model()] + Models([k][1..]);
  }

  lemma {:induction false} DistinctAppend(ks: seq<KeyRange>, k: KeyRange)
    requires Distinct(ks) && k !in ks
    ensures Distinct(ks + [k])
  {
  }

  lemma {:induction false} DistinctConcat(a: seq<KeyRange>, b: seq<KeyRange>)
    requires Distinct(a) && Distinct(b) && forall k :: k in a ==> k !in b
    ensures Distinct(a + b)
  {
    forall i, j | 0 <= i < j < |a + b| ensures (a + b)[i] != (a + b)[j] {
      if i < |a| <= j {
        assert a[i] in a && b[j - |a|] in b;
      }
    }
  }

  lemma {:induction false} ModelsConcat(a: seq<KeyRange>, b: seq<KeyRange>)
    ensures Models(a + b) == Models(a) + Models(b)
  {
    if a == [] {
      assert a + b == b;
    } else {
      assert (a + b)[1..] == a[1..] + b;
      ModelsConcat(a[1..], b);
    }
  }

  /** A new element that holds a copy of `from`. */
  method CopyOf(from: KeyRange) returns (k: KeyRange)
    ensures fresh(k) && k.Model() == from.Model()
  {
    k := new KeyRange();
    k.MergeFrom(from);
    MergeUnits(KEY_RANGE, from.Model());
  }

  /** What RepeatedPtrField::MergeFrom appends: a fresh copy of every element, in order. */
  method CopyAll(from: seq<KeyRange>) returns (copies: seq<KeyRange>)
    ensures Distinct(copies) && fresh(copies) && Models(copies) == Models(from)
  {
    ghost var ms := Models(from);
    copies := [];
    var i := 0;
    assert Models(copies) == ms[..0] && Distinct(copies);
    ModelsAt(from);
    hide Models, Distinct;
    while i < |from|
      invariant i <= |from| && |copies| == i
      invariant fresh(copies) && Distinct(copies)
      invariant Models(copies) == ms[..i]
    {
      var k := CopyOf(from[i]);
      ModelsAppend(copies, k);
      DistinctAppend(copies, k);
      assert ms[..i + 1] == ms[..i] + [ms[i]];
      copies := copies + [k];
      i := i + 1;
    }
    assert ms[..i] == ms;
  }
}

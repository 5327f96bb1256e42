/** debugpb.RegionSizeRequest: a uint64 and a repeated string. */
module RegionSizeRequestMessage {
  import opened Wire
  import opened WireLaws
  import opened Codec
  import opened ParseSteps
  import opened MergeLaws
  import opened Sizing
  import opened Streams
  import opened FieldSteps

  const REGION_SIZE_REQUEST := Schema([Field(1, UInt64), Field(2, RepStr)])

  lemma {:induction false} RegionSizeRequestWellFormed()
    ensures WellFormed(REGION_SIZE_REQUEST)
  {
  }

  // ---------------------------------------------------------------- loops over a repeated string

  lemma {:induction false} BlobRecordsAppend(num: FieldNumber, bs: seq<bytes>, b: bytes)
    ensures BlobRecords(num, bs + [b]) == BlobRecords(num, bs) + [Len(num, b)]
  {
    if bs == [] {
      assert bs + [b] == [b];
    } else {
      assert (bs + [b])[1..] == bs[1..] + [b];
      BlobRecordsAppend(num, bs[1..], b);
    }
  }

  /** What the output loop has written after `i` elements. */
  ghost function StringsUpTo(num: FieldNumber, bs: seq<bytes>, i: nat): bytes
    requires i <= |bs|
  {
    EmitAll(BlobRecords(num, bs[..i]))
  }

  lemma {:induction false} StringsStep(num: FieldNumber, bs: seq<bytes>, i: nat)
    requires i < |bs|
    ensures StringsUpTo(num, bs, 0) == []
    ensures StringsUpTo(num, bs, i + 1) == Cat(StringsUpTo(num, bs, i), Emit(Len(num, bs[i])))
  {
    hide Emit;
    assert bs[..i + 1] == bs[..i] + [bs[i]];
    BlobRecordsAppend(num, bs[..i], bs[i]);
    EmitAllConcat(BlobRecords(num, bs[..i]), [Len(num, bs[i])]);
    SingleRecord(Len(num, bs[i]));
  }

  lemma {:induction false} StringsGrow(num: FieldNumber, bs: seq<bytes>, i: nat, k: nat)
    requires i <= k <= |bs|
    ensures |StringsUpTo(num, bs, i)| <= |StringsUpTo(num, bs, k)|
    decreases k - i
  {
    hide StringsUpTo, Emit;
    if i < k {
      StringsStep(num, bs, i);
      StringsGrow(num, bs, i + 1, k);
    }
  }

  lemma {:induction false} StringsAll(num: FieldNumber, bs: seq<bytes>)
    ensures StringsUpTo(num, bs, 0) == []
    ensures StringsUpTo(num, bs, |bs|) == EmitAll(BlobRecords(num, bs))
  {
    assert bs[..|bs|] == bs;
  }

  /** Every element is written, empty ones too, and whether or not it is valid UTF-8. */
  method WriteStrings(num: FieldNumber, bs: seq<bytes>, output: CodedOutputStream)
    modifies output
    ensures output.out == Cat(old(output.out), EmitAll(BlobRecords(num, bs)))
  {
    var i := 0;
    StringsAll(num, bs);
    assert Cat(output.out, []) == output.out;
    hide StringsUpTo, EmitAll, BlobRecords, Emit;
    while i < |bs|
      invariant i <= |bs|
      invariant output.out == Cat(old(output.out), StringsUpTo(num, bs, i))
    {
      StringsStep(num, bs, i);
      CatAssociative(old(output.out), StringsUpTo(num, bs, i), Emit(Len(num, bs[i])));
      output.WriteRaw(Emit(Len(num, bs[i])));
      i := i + 1;
    }
  }

  method WriteStringsToArray(num: FieldNumber, bs: seq<bytes>, target: array<byte>, at: nat) returns (next: nat)
    requires at + |EmitAll(BlobRecords(num, bs))| <= target.Length
    modifies target
    ensures next == at + |EmitAll(BlobRecords(num, bs))|
    ensures target[..] == Splice(old(target[..]), at, EmitAll(BlobRecords(num, bs)))
  {
    ghost var before := target[..];
    next := at;
    var i := 0;
    StringsAll(num, bs);
    SpliceNothing(before, at);
    hide *;
    while i < |bs|
      invariant i <= |bs|
      invariant next == at + |StringsUpTo(num, bs, i)| && next <= |before|
      invariant target[..] == Splice(before, at, StringsUpTo(num, bs, i))
    {
      StringsStep(num, bs, i);
      StringsGrow(num, bs, i + 1, |bs|);
      SpliceTwice(before, at, StringsUpTo(num, bs, i), Emit(Len(num, bs[i])));
      next := WriteRawToArray(Emit(Len(num, bs[i])), target, next);
      i := i + 1;
    }
  }

  method AppendStrings(num: FieldNumber, bs: seq<bytes>, target: array<byte>, here: nat,
                       ghost s: Schema, ghost m: Msg, ghost i: nat, ghost before: bytes, ghost at: nat)
    returns (next: nat)
    requires Holds(target, s, m, i, before, at, here) && i < |s.fields|
    requires FieldBytes(s, m, i) == EmitAll(BlobRecords(num, bs))
    modifies target
    ensures Holds(target, s, m, i + 1, before, at, next)
  {
    hide Serialize, FieldBytes, Prefix, Splice, Cat, EmitAll, BlobRecords, Conforms;
    PrefixStep(s, m, i, []);
    SpliceTwice(before, at, Prefix(s, m, i), FieldBytes(s, m, i));
    next := WriteStringsToArray(num, bs, target, here);
  }

  /** The size loop: one byte of tag for each element, then every element's size. */
  method SizeStrings(bs: seq<bytes>) returns (total: nat)
    ensures total == BlobSizes(bs)
  {
    hide LengthDelimitedSize;
    total := 1 * |bs|;
    var i := 0;
    while i < |bs|
      invariant i <= |bs|
      invariant total == |bs| - i + BlobSizes(bs[..i])
    {
      BlobSizesAppend(bs[..i], bs[i]);
      assert bs[..i + 1] == bs[..i] + [bs[i]];
      total := total + LengthDelimitedSize(|bs[i]|);
      i := i + 1;
    }
    assert bs[..i] == bs;
  }

  class RegionSizeRequest {
    var regionId: u64
    var cfs: seq<bytes>
    var unknown: seq<Record>
    var cachedSize: int

    ghost function Model(): (m: Msg)
      reads `regionId, `cfs, `unknown
      ensures Conforms(REGION_SIZE_REQUEST, m)
    {
      Msg([Num(regionId), Blobs(cfs)], unknown)
    }

    constructor ()
      ensures Model() == Empty(REGION_SIZE_REQUEST)
    {
      regionId, cfs, unknown, cachedSize := 0, [], [], 0;
      new;
      assert Model().vals == Empty(REGION_SIZE_REQUEST).vals;
    }

    constructor Copy(from: RegionSizeRequest)
      ensures Model() == from.Model()
    {
      cfs, unknown, regionId, cachedSize := from.cfs, from.unknown, from.regionId, 0;
    }

    method Clear()
      modifies this
      ensures Model() == Empty(REGION_SIZE_REQUEST)
    {
      cfs, regionId, unknown := [], 0, [];
      assert Model().vals == Empty(REGION_SIZE_REQUEST).vals;
    }

    // -------------------------------------------------------------- parsing

    method ParseRegionId(input: CodedInputStream) returns (ok: bool)
      modifies `regionId, input`window
      ensures Turn(REGION_SIZE_REQUEST, old(Model()), 8, old(input.window), input.budget, ok, Model(), input.window)
    {
      hide Turn, FieldTurn, Conforms;
      ghost var m, bs := Model(), input.window;
      RegionSizeRequestWellFormed();
      var n;
      ok, n := ReadNumberField(Field(1, UInt64), regionId, input);
      regionId := n;
      assert Model().vals == m.vals[0 := Num(n)];
      TurnOfField(REGION_SIZE_REQUEST, m, 0, bs, input.budget, ok, Num(n), Model(), input.window);
    }

    /** add_cfs, ReadString into the new element, VerifyUtf8String of the new element. */
    method ParseCfs(input: CodedInputStream) returns (ok: bool)
      modifies `cfs, input`window
      ensures Turn(REGION_SIZE_REQUEST, old(Model()), 18, old(input.window), input.budget, ok, Model(), input.window)
    {
      hide Turn, FieldTurn, Conforms;
      ghost var m, bs := Model(), input.window;
      RegionSizeRequestWellFormed();
      var data;
      ok, data := ReadRepeatedString(Field(2, RepStr), m.vals[1], input);
      cfs := cfs + [data];
      assert Model().vals == m.vals[1 := Blobs(cfs)];
      TurnOfField(REGION_SIZE_REQUEST, m, 1, bs, input.budget, ok, Blobs(cfs), Model(), input.window);
    }

    method ParseUnusual(input: CodedInputStream, tag: u32) returns (ok: bool)
      requires tag !in {8, 18}
      modifies `unknown, input`window
      ensures Turn(REGION_SIZE_REQUEST, old(Model()), tag, old(input.window), input.budget, ok, Model(), input.window)
    {
      hide Turn, ReadRecord, Conforms;
      ghost var m, bs := Model(), input.window;
      var r;
      ok, r := input.SkipField(tag);
      TurnUnusual(REGION_SIZE_REQUEST, m, tag, bs, input.budget, ok, r, input.window);
      if ok {
        unknown := unknown + [r];
      }
    }

    method ParseField(input: CodedInputStream, tag: u32, below: bool) returns (ok: bool)
      requires tag != 0 && (below <==> tag <= 127)
      modifies this, input`window
      ensures Turn(REGION_SIZE_REQUEST, old(Model()), tag, old(input.window), input.budget, ok, Model(), input.window)
    {
      hide Turn, Conforms;
      if below && tag / 8 == 1 && tag % 0x100 == 8 {
        ok := ParseRegionId(input);
      } else if below && tag / 8 == 2 && tag % 0x100 == 18 {
        ok := ParseCfs(input);
      } else {
        ok := ParseUnusual(input, tag);
      }
    }

    method MergePartialFromCodedStream(input: CodedInputStream) returns (ok: bool)
      modifies this, input
      ensures Ends(REGION_SIZE_REQUEST, old(Model()), old(input.window), old(input.budget), ok, input.ended, Model())
      ensures ok ==> input.budget == old(input.budget)
      ensures ok && input.ended ==> input.window == []
    {
      hide Turn, Ends, Leads, Conforms;
      LeadsStart(REGION_SIZE_REQUEST, Model(), input.window, input.budget);
      while true
        invariant input.budget == old(input.budget)
        invariant Leads(REGION_SIZE_REQUEST, old(Model()), old(input.window), Model(), input.window, input.budget)
        decreases |input.window|
      {
        ghost var m, bs := Model(), input.window;
        var tag, below := input.ReadTagWithCutoffNoLastTag(127);
        if tag == 0 {
          LeadsToEnd(REGION_SIZE_REQUEST, old(Model()), old(input.window), m, bs, input.budget);
          return true;
        }
        var read := ParseField(input, tag, below);
        LeadsOn(REGION_SIZE_REQUEST, old(Model()), old(input.window), m, bs, input.budget, read, Model(), input.window);
        if !read {
          return false;
        }
      }
    }

    // -------------------------------------------------------------- sizes and serializers

    lemma {:induction false} Parts()
      ensures var s, m := REGION_SIZE_REQUEST, Model();
              && FieldBytes(s, m, 0) == NumBytes(1, regionId)
              && FieldBytes(s, m, 1) == EmitAll(BlobRecords(2, cfs))
    {
      NumField(Field(1, UInt64), regionId);
    }

    method SerializeWithCachedSizes(output: CodedOutputStream)
      modifies output
      ensures output.out == Cat(old(output.out), Serialize(REGION_SIZE_REQUEST, Model()))
    {
      ghost var s, m, before := REGION_SIZE_REQUEST, Model(), output.out;
      hide *;
      Parts();
      PrefixStart(s, m, before);
      WriteNumber(1, regionId, output);
      PrefixStep(s, m, 0, before);
      WriteStrings(2, cfs, output);
      PrefixStep(s, m, 1, before);
      WriteUnknown(unknown, output);
      PrefixEnd(s, m, before);
    }

    method InternalSerializeWithCachedSizesToArray(target: array<byte>, at: nat) returns (next: nat)
      requires at + |Serialize(REGION_SIZE_REQUEST, Model())| <= target.Length
      modifies target
      ensures next == at + |Serialize(REGION_SIZE_REQUEST, Model())|
      ensures target[..] == Splice(old(target[..]), at, Serialize(REGION_SIZE_REQUEST, Model()))
    {
      ghost var s, m, before := REGION_SIZE_REQUEST, Model(), target[..];
      hide *;
      Parts();
      next := StartArray(target, s, m, at);
      next := AppendNumber(1, regionId, target, next, s, m, 0, before, at);
      next := AppendStrings(2, cfs, target, next, s, m, 1, before, at);
      next := AppendUnknown(unknown, target, next, s, m, before, at);
    }

    lemma {:induction false} SizeInOrder()
      ensures |Serialize(REGION_SIZE_REQUEST, Model())| == RecordSizes(unknown) + BlobSizes(cfs) + NumSize(regionId)
    {
      var s, m := REGION_SIZE_REQUEST, Model();
      RegionSizeRequestWellFormed();
      ByteSizeIsLength(s, m);
      NumField(s.fields[0], regionId);
      FieldByField(s, m, 0);
      FieldByField(s, m, 1);
      FieldByField(s, m, 2);
    }

    method ByteSizeLong() returns (total: nat)
      modifies `cachedSize
      ensures Model() == old(Model())
      ensures total == |Serialize(REGION_SIZE_REQUEST, Model())| && cachedSize == ToCachedSize(total)
    {
      hide Serialize, RecordSizes, VarintSize, ToCachedSize, ToWire, BlobSizes;
      SizeInOrder();
      NoRecords();
      total := 0;
      if |unknown| > 0 {
        total := total + RecordSizes(unknown);
      }
      var strings := SizeStrings(cfs);
      total := total + strings;
      if regionId != 0 {
        total := total + 1 + VarintSize(ToWire(regionId));
      }
      cachedSize := ToCachedSize(total);
    }

    // -------------------------------------------------------------- merging and copying

    method MergeFrom(from: RegionSizeRequest)
      requires from != this
      modifies this
      ensures Model() == Merge(REGION_SIZE_REQUEST, old(Model()), from.Model())
    {
      ghost var m := Model();
      MergedNumber(UInt64, regionId, from.regionId);
      hide Merge;
      unknown := unknown + from.unknown;
      cfs := cfs + from.cfs;
      if from.regionId != 0 {
        regionId := from.regionId;
      }
      MergedFields(REGION_SIZE_REQUEST, m, from.Model(), Model());
    }

    method CopyFrom(from: RegionSizeRequest)
      modifies this
      ensures Model() == old(from.Model())
    {
      if from == this {
        return;
      }
      Clear();
      MergeFrom(from);
      MergeUnits(REGION_SIZE_REQUEST, from.Model());
    }

    method Swap(other: RegionSizeRequest)
      modifies this, other
      ensures Model() == old(other.Model()) && other.Model() == old(Model())
    {
      if other == this {
        return;
      }
      cfs, other.cfs := other.cfs, cfs;
      regionId, other.regionId := other.regionId, regionId;
      unknown, other.unknown := other.unknown, unknown;
    }
  }
}

/** debugpb.CompactRequest: two open enums, a string, two bytes fields and a uint32. */
module CompactRequestMessage {
  import opened Wire
  import opened Codec
  import opened ParseSteps
  import opened MergeLaws
  import opened Sizing
  import opened Streams
  import opened FieldSteps

  const COMPACT_REQUEST :=
    Schema([Field(1, Enum), Field(2, Str), Field(3, Bytes), Field(4, Bytes), Field(5, UInt32), Field(6, Enum)])

  lemma {:induction false} CompactRequestWellFormed()
    ensures WellFormed(COMPACT_REQUEST)
  {
    var fs := COMPACT_REQUEST.fields;
    assert forall i :: 0 <= i < |fs| ==> fs[i].num == i + 1;
    forall i | 0 <= i < |fs| ensures WellFormedType(fs[i].typ) {
    }
  }

  // ---------------------------------------------------------------- open enums

  /** The library's size of an enum: ten bytes for every negative value. */
  function EnumSize(n: i32): nat {
    if n < 0 then 10 else VarintSize(n)
  }

  lemma {:induction false} SizeBetweenPowers(v: nat, k: nat)
    requires Power128(k) <= v < Power128(k + 1)
    ensures VarintSize(v) == k + 1
  {
    if k > 0 {
      SizeBetweenPowers(v / 0x80, k - 1);
    }
  }

  lemma {:induction false} EnumSizeIsVarintSize(n: i32)
    ensures VarintSize(ToWire(n)) == EnumSize(n)
  {
    if n < 0 {
      NinthPower();
      assert ToWire(n) == n + TWO_TO_THE_64;
      hide VarintSize, Power128;
      SizeBetweenPowers(ToWire(n), 9);
    }
  }

  lemma {:induction false} NinthPower()
    ensures Power128(9) == TWO_TO_THE_63 && Power128(10) >= TWO_TO_THE_64
  {
    assert Power128(5) == 0x8_0000_0000;
    assert Power128(9) == 0x80 * (0x80 * (0x80 * (0x80 * Power128(5))));
  }

  /** Every 32-bit enum value, declared or not, is written in EnumSize bytes and read back. */
  lemma {:induction false} OpenEnumSurvives(n: i32, rest: bytes)
    ensures |EncodeVarint(ToWire(n))| == EnumSize(n)
    ensures ReadVarint(EncodeVarint(ToWire(n)) + rest) == Some((ToWire(n), rest))
    ensures FromWire(Enum, ToWire(n)) == n
  {
    hide EncodeVarint, ReadVarint, VarintSize, EnumSize;
    EnumSizeIsVarintSize(n);
    VarintSizeIsLength(ToWire(n));
    VarintRoundTrip(ToWire(n), rest);
  }

  class CompactRequest {
    var db: i32
    var cf: bytes
    var fromKey: bytes
    var toKey: bytes
    var threads: u32
    var bottommostLevelCompaction: i32
    var unknown: seq<Record>
    var cachedSize: int

    ghost function Model(): (m: Msg)
      reads `db, `cf, `fromKey, `toKey, `threads, `bottommostLevelCompaction, `unknown
      ensures Conforms(COMPACT_REQUEST, m)
    {
      Msg([Num(db), Blob(cf), Blob(fromKey), Blob(toKey), Num(threads), Num(bottommostLevelCompaction)], unknown)
    }

    constructor ()
      ensures Model() == Empty(COMPACT_REQUEST)
    {
      db, cf, fromKey, toKey, threads, bottommostLevelCompaction, unknown, cachedSize := 0, [], [], [], 0, 0, [], 0;
      new;
      assert Model().vals == Empty(COMPACT_REQUEST).vals;
    }

    constructor Copy(from: CompactRequest)
      ensures Model() == from.Model()
    {
      unknown := from.unknown;
      cf := if |from.cf| > 0 then from.cf else [];
      fromKey := if |from.fromKey| > 0 then from.fromKey else [];
      toKey := if |from.toKey| > 0 then from.toKey else [];
      db, threads, bottommostLevelCompaction := from.db, from.threads, from.bottommostLevelCompaction;
      cachedSize := 0;
    }

    method Clear()
      modifies this
      ensures Model() == Empty(COMPACT_REQUEST)
    {
      cf, fromKey, toKey := [], [], [];
      db, threads, bottommostLevelCompaction := 0, 0, 0;
      unknown := [];
      assert Model().vals == Empty(COMPACT_REQUEST).vals;
    }

    // -------------------------------------------------------------- parsing

    method ParseDb(input: CodedInputStream) returns (ok: bool)
      modifies `db, input`window
      ensures Turn(COMPACT_REQUEST, old(Model()), 8, old(input.window), input.budget, ok, Model(), input.window)
    {
      hide Turn, FieldTurn, Conforms;
      ghost var m, bs := Model(), input.window;
      CompactRequestWellFormed();
      var n;
      ok, n := ReadNumberField(Field(1, Enum), db, input);
      db := n;
      assert Model().vals == m.vals[0 := Num(n)];
      TurnOfField(COMPACT_REQUEST, m, 0, bs, input.budget, ok, Num(n), Model(), input.window);
    }

    method ParseCf(input: CodedInputStream) returns (ok: bool)
      modifies `cf, input`window
      ensures Turn(COMPACT_REQUEST, old(Model()), 18, old(input.window), input.budget, ok, Model(), input.window)
    {
      hide Turn, FieldTurn, Conforms;
      ghost var m, bs := Model(), input.window;
      CompactRequestWellFormed();
      var data;
      ok, data := ReadStringField(Field(2, Str), m.vals[1], input);
      cf := data;
      assert Model().vals == m.vals[1 := Blob(data)];
      TurnOfField(COMPACT_REQUEST, m, 1, bs, input.budget, ok, Blob(data), Model(), input.window);
    }

    method ParseFromKey(input: CodedInputStream) returns (ok: bool)
      modifies `fromKey, input`window
      ensures Turn(COMPACT_REQUEST, old(Model()), 26, old(input.window), input.budget, ok, Model(), input.window)
    {
      hide Turn, FieldTurn, Conforms;
      ghost var m, bs := Model(), input.window;
      CompactRequestWellFormed();
      var data;
      ok, data := ReadBytesField(Field(3, Bytes), m.vals[2], input);
      fromKey := data;
      assert Model().vals == m.vals[2 := Blob(data)];
      TurnOfField(COMPACT_REQUEST, m, 2, bs, input.budget, ok, Blob(data), Model(), input.window);
    }

    method ParseToKey(input: CodedInputStream) returns (ok: bool)
      modifies `toKey, input`window
      ensures Turn(COMPACT_REQUEST, old(Model()), 34, old(input.window), input.budget, ok, Model(), input.window)
    {
      hide Turn, FieldTurn, Conforms;
      ghost var m, bs := Model(), input.window;
      CompactRequestWellFormed();
      var data;
      ok, data := ReadBytesField(Field(4, Bytes), m.vals[3], input);
      toKey := data;
      assert Model().vals == m.vals[3 := Blob(data)];
      TurnOfField(COMPACT_REQUEST, m, 3, bs, input.budget, ok, Blob(data), Model(), input.window);
    }

    method ParseThreads(input: CodedInputStream) returns (ok: bool)
      modifies `threads, input`window
      ensures Turn(COMPACT_REQUEST, old(Model()), 40, old(input.window), input.budget, ok, Model(), input.window)
    {
      hide Turn, FieldTurn, Conforms;
      ghost var m, bs := Model(), input.window;
      CompactRequestWellFormed();
      var n;
      ok, n := ReadNumberField(Field(5, UInt32), threads, input);
      threads := n;
      assert Model().vals == m.vals[4 := Num(n)];
      TurnOfField(COMPACT_REQUEST, m, 4, bs, input.budget, ok, Num(n), Model(), input.window);
    }

    method ParseBottommost(input: CodedInputStream) returns (ok: bool)
      modifies `bottommostLevelCompaction, input`window
      ensures Turn(COMPACT_REQUEST, old(Model()), 48, old(input.window), input.budget, ok, Model(), input.window)
    {
      hide Turn, FieldTurn, Conforms;
      ghost var m, bs := Model(), input.window;
      CompactRequestWellFormed();
      var n;
      ok, n := ReadNumberField(Field(6, Enum), bottommostLevelCompaction, input);
      bottommostLevelCompaction := n;
      assert Model().vals == m.vals[5 := Num(n)];
      TurnOfField(COMPACT_REQUEST, m, 5, bs, input.budget, ok, Num(n), Model(), input.window);
    }

    method ParseUnusual(input: CodedInputStream, tag: u32) returns (ok: bool)
      requires tag !in {8, 18, 26, 34, 40, 48}
      modifies `unknown, input`window
      ensures Turn(COMPACT_REQUEST, old(Model()), tag, old(input.window), input.budget, ok, Model(), input.window)
    {
      hide Turn, ReadRecord, Conforms;
      ghost var m, bs := Model(), input.window;
      var r;
      ok, r := input.SkipField(tag);
      TurnUnusual(COMPACT_REQUEST, m, tag, bs, input.budget, ok, r, input.window);
      if ok {
        unknown := unknown + [r];
      }
    }

    /** The switch on the field number: a tag above the cutoff or with the wrong wire type is
        handled as unusual. */
    method ParseField(input: CodedInputStream, tag: u32, below: bool) returns (ok: bool)
      requires tag != 0 && (below <==> tag <= 127)
      modifies this, input`window
      ensures Turn(COMPACT_REQUEST, old(Model()), tag, old(input.window), input.budget, ok, Model(), input.window)
    {
      hide Turn, Conforms;
      if below && tag / 8 == 1 && tag % 0x100 == 8 {
        ok := ParseDb(input);
      } else if below && tag / 8 == 2 && tag % 0x100 == 18 {
        ok := ParseCf(input);
      } else if below && tag / 8 == 3 && tag % 0x100 == 26 {
        ok := ParseFromKey(input);
      } else if below && tag / 8 == 4 && tag % 0x100 == 34 {
        ok := ParseToKey(input);
      } else if below && tag / 8 == 5 && tag % 0x100 == 40 {
        ok := ParseThreads(input);
      } else if below && tag / 8 == 6 && tag % 0x100 == 48 {
        ok := ParseBottommost(input);
      } else {
        ok := ParseUnusual(input, tag);
      }
    }

    method MergePartialFromCodedStream(input: CodedInputStream) returns (ok: bool)
      modifies this, input
      ensures Ends(COMPACT_REQUEST, old(Model()), old(input.window), old(input.budget), ok, input.ended, Model())
      ensures ok ==> input.budget == old(input.budget)
      ensures ok && input.ended ==> input.window == []
    {
      hide Turn, Ends, Leads, Conforms;
      LeadsStart(COMPACT_REQUEST, Model(), input.window, input.budget);
      while true
        invariant input.budget == old(input.budget)
        invariant Leads(COMPACT_REQUEST, old(Model()), old(input.window), Model(), input.window, input.budget)
        decreases |input.window|
      {
        ghost var m, bs := Model(), input.window;
        var tag, below := input.ReadTagWithCutoffNoLastTag(127);
        if tag == 0 {
          LeadsToEnd(COMPACT_REQUEST, old(Model()), old(input.window), m, bs, input.budget);
          return true;
        }
        var read := ParseField(input, tag, below);
        LeadsOn(COMPACT_REQUEST, old(Model()), old(input.window), m, bs, input.budget, read, Model(), input.window);
        if !read {
          return false;
        }
      }
    }

    // -------------------------------------------------------------- sizes and serializers

    lemma {:induction false} Parts()
      ensures var s, m := COMPACT_REQUEST, Model();
              && FieldBytes(s, m, 0) == NumBytes(1, db) && FieldBytes(s, m, 1) == BlobBytes(2, cf)
              && FieldBytes(s, m, 2) == BlobBytes(3, fromKey) && FieldBytes(s, m, 3) == BlobBytes(4, toKey)
              && FieldBytes(s, m, 4) == NumBytes(5, threads)
              && FieldBytes(s, m, 5) == NumBytes(6, bottommostLevelCompaction)
    {
      NumField(Field(1, Enum), db);
      BlobField(Field(2, Str), cf);
      BlobField(Field(3, Bytes), fromKey);
      BlobField(Field(4, Bytes), toKey);
      NumField(Field(5, UInt32), threads);
      NumField(Field(6, Enum), bottommostLevelCompaction);
    }

    method SerializeWithCachedSizes(output: CodedOutputStream)
      modifies output
      ensures output.out == Cat(old(output.out), Serialize(COMPACT_REQUEST, Model()))
    {
      ghost var s, m, before := COMPACT_REQUEST, Model(), output.out;
      hide *;
      Parts();
      PrefixStart(s, m, before);
      WriteNumber(1, db, output);
      PrefixStep(s, m, 0, before);
      WriteBlob(2, cf, output);
      PrefixStep(s, m, 1, before);
      WriteBlob(3, fromKey, output);
      PrefixStep(s, m, 2, before);
      WriteBlob(4, toKey, output);
      PrefixStep(s, m, 3, before);
      WriteNumber(5, threads, output);
      PrefixStep(s, m, 4, before);
      WriteNumber(6, bottommostLevelCompaction, output);
      PrefixStep(s, m, 5, before);
      WriteUnknown(unknown, output);
      PrefixEnd(s, m, before);
    }

    method InternalSerializeWithCachedSizesToArray(target: array<byte>, at: nat) returns (next: nat)
      requires at + |Serialize(COMPACT_REQUEST, Model())| <= target.Length
      modifies target
      ensures next == at + |Serialize(COMPACT_REQUEST, Model())|
      ensures target[..] == Splice(old(target[..]), at, Serialize(COMPACT_REQUEST, Model()))
    {
      ghost var s, m, before := COMPACT_REQUEST, Model(), target[..];
      hide *;
      Parts();
      next := StartArray(target, s, m, at);
      next := AppendNumber(1, db, target, next, s, m, 0, before, at);
      next := AppendBlob(2, cf, target, next, s, m, 1, before, at);
      next := AppendBlob(3, fromKey, target, next, s, m, 2, before, at);
      next := AppendBlob(4, toKey, target, next, s, m, 3, before, at);
      next := AppendNumber(5, threads, target, next, s, m, 4, before, at);
      next := AppendNumber(6, bottommostLevelCompaction, target, next, s, m, 5, before, at);
      next := AppendUnknown(unknown, target, next, s, m, before, at);
    }

    lemma {:induction false} SizeInOrder()
      ensures |Serialize(COMPACT_REQUEST, Model())|
           == RecordSizes(unknown) + BlobSize(cf) + BlobSize(fromKey) + BlobSize(toKey)
              + (if db == 0 then 0 else 1 + EnumSize(db)) + NumSize(threads)
              + (if bottommostLevelCompaction == 0 then 0 else 1 + EnumSize(bottommostLevelCompaction))
    {
      var s, m := COMPACT_REQUEST, Model();
      CompactRequestWellFormed();
      ByteSizeIsLength(s, m);
      NumField(s.fields[0], db);
      BlobField(s.fields[1], cf);
      BlobField(s.fields[2], fromKey);
      BlobField(s.fields[3], toKey);
      NumField(s.fields[4], threads);
      NumField(s.fields[5], bottommostLevelCompaction);
      EnumSizeIsVarintSize(db);
      EnumSizeIsVarintSize(bottommostLevelCompaction);
      hide Serialize, EmitAll, FieldRecords, FieldSize, RecordSizes, BlobSize, VarintSize, EnumSize, Conforms, ToWire;
      hide WellFormed;
      FieldByField(s, m, 0);
      FieldByField(s, m, 1);
      FieldByField(s, m, 2);
      FieldByField(s, m, 3);
      FieldByField(s, m, 4);
      FieldByField(s, m, 5);
      FieldByField(s, m, 6);
    }

    /** ByteSizeLong: the strings first, then the numbers, one byte for every tag, ten bytes for a
        negative enum. */
    method ByteSizeLong() returns (total: nat)
      modifies `cachedSize
      ensures Model() == old(Model())
      ensures total == |Serialize(COMPACT_REQUEST, Model())| && cachedSize == ToCachedSize(total)
    {
      hide Serialize, RecordSizes, VarintSize, EnumSize, ToCachedSize, ToWire;
      SizeInOrder();
      total := 0;
      if |unknown| > 0 {
        total := total + RecordSizes(unknown);
      } else {
        NoRecords();
      }
      if |cf| > 0 {
        total := total + 1 + LengthDelimitedSize(|cf|);
      }
      assert total == RecordSizes(unknown) + BlobSize(cf);
      if |fromKey| > 0 {
        total := total + 1 + LengthDelimitedSize(|fromKey|);
      }
      if |toKey| > 0 {
        total := total + 1 + LengthDelimitedSize(|toKey|);
      }
      assert total == RecordSizes(unknown) + BlobSize(cf) + BlobSize(fromKey) + BlobSize(toKey);
      if db != 0 {
        total := total + 1 + EnumSize(db);
      }
      if threads != 0 {
        total := total + 1 + VarintSize(ToWire(threads));
      }
      if bottommostLevelCompaction != 0 {
        total := total + 1 + EnumSize(bottommostLevelCompaction);
      }
      cachedSize := ToCachedSize(total);
    }

    // -------------------------------------------------------------- merging and copying

    method MergeFrom(from: CompactRequest)
      requires from != this
      modifies this
      ensures Model() == Merge(COMPACT_REQUEST, old(Model()), from.Model())
    {
      ghost var m := Model();
      MergedNumber(Enum, db, from.db);
      MergedBlob(Str, cf, from.cf);
      MergedBlob(Bytes, fromKey, from.fromKey);
      MergedBlob(Bytes, toKey, from.toKey);
      MergedNumber(UInt32, threads, from.threads);
      MergedNumber(Enum, bottommostLevelCompaction, from.bottommostLevelCompaction);
      hide Merge, MergeValue, Conforms, ValueConforms;
      unknown := unknown + from.unknown;
      MergeBytes(from);
      MergeNumbers(from);
      MergedFields(COMPACT_REQUEST, m, from.Model(), Model());
    }

    method MergeBytes(from: CompactRequest)
      requires from != this
      modifies `cf, `fromKey, `toKey
      ensures cf == if |from.cf| > 0 then from.cf else old(cf)
      ensures fromKey == if |from.fromKey| > 0 then from.fromKey else old(fromKey)
      ensures toKey == if |from.toKey| > 0 then from.toKey else old(toKey)
    {
      if |from.cf| > 0 {
        cf := from.cf;
      }
      if |from.fromKey| > 0 {
        fromKey := from.fromKey;
      }
      if |from.toKey| > 0 {
        toKey := from.toKey;
      }
    }

    method MergeNumbers(from: CompactRequest)
      requires from != this
      modifies `db, `threads, `bottommostLevelCompaction
      ensures db == if from.db != 0 then from.db else old(db)
      ensures threads == if from.threads != 0 then from.threads else old(threads)
      ensures bottommostLevelCompaction
           == if from.bottommostLevelCompaction != 0 then from.bottommostLevelCompaction
              else old(bottommostLevelCompaction)
    {
      if from.db != 0 {
        db := from.db;
      }
      if from.threads != 0 {
        threads := from.threads;
      }
      if from.bottommostLevelCompaction != 0 {
        bottommostLevelCompaction := from.bottommostLevelCompaction;
      }
    }

    method CopyFrom(from: CompactRequest)
      modifies this
      ensures Model() == old(from.Model())
    {
      if from == this {
        return;
      }
      Clear();
      MergeFrom(from);
      MergeUnits(COMPACT_REQUEST, from.Model());
    }

    method Swap(other: CompactRequest)
      modifies this, other
      ensures Model() == old(other.Model()) && other.Model() == old(Model())
    {
      if other == this {
        return;
      }
      cf, other.cf := other.cf, cf;
      fromKey, other.fromKey := other.fromKey, fromKey;
      toKey, other.toKey := other.toKey, toKey;
      db, other.db := other.db, db;
      threads, other.threads := other.threads, threads;
      bottommostLevelCompaction, other.bottommostLevelCompaction :=
        other.bottommostLevelCompaction, bottommostLevelCompaction;
      unknown, other.unknown := other.unknown, unknown;
    }
  }
}

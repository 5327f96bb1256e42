/** How reading behaves on inputs that continue, and what every record read satisfies. */
module WireLaws {
  import opened Wire

  lemma {:induction false} DecodeVarintExtends(bs: bytes, fuel: nat, more: bytes)
    requires DecodeVarint(bs, fuel).Some?
    ensures DecodeVarint(bs + more, fuel)
         == Some((DecodeVarint(bs, fuel).value.0, DecodeVarint(bs, fuel).value.1 + more))
    decreases fuel
  {
    assert (bs + more)[1..] == bs[1..] + more;
    if bs[0] >= 0x80 {
      DecodeVarintExtends(bs[1..], fuel - 1, more);
    }
  }

  lemma {:induction false} ReadFixedExtends(bs: bytes, width: nat, more: bytes)
    requires ReadFixed(bs, width).Some?
    ensures ReadFixed(bs + more, width)
         == Some((ReadFixed(bs, width).value.0, ReadFixed(bs, width).value.1 + more))
    decreases width
  {
    if width > 0 {
      assert (bs + more)[1..] == bs[1..] + more;
      ReadFixedExtends(bs[1..], width - 1, more);
    }
  }

  lemma {:induction false} ReadDelimitedExtends(bs: bytes, more: bytes)
    requires ReadDelimited(bs).Some?
    ensures ReadDelimited(bs + more)
         == Some((ReadDelimited(bs).value.0, ReadDelimited(bs).value.1 + more))
  {
    DecodeVarintExtends(bs, 10, more);
    var (n, rest) := ReadVarint(bs).value;
    assert (rest + more)[..n] == rest[..n] && (rest + more)[n..] == rest[n..] + more;
  }

  lemma {:induction false} ReadTagExtends(bs: bytes, more: bytes)
    requires ReadTag(bs).0 != 0
    ensures ReadTag(bs + more) == (ReadTag(bs).0, ReadTag(bs).1 + more)
  {
    DecodeVarintExtends(bs, 10, more);
  }

  lemma {:induction false} ReadRecordExtends(tag: u32, bs: bytes, budget: nat, more: bytes)
    requires ReadRecord(tag, bs, budget).Some?
    ensures ReadRecord(tag, bs + more, budget)
         == Some((ReadRecord(tag, bs, budget).value.0, ReadRecord(tag, bs, budget).value.1 + more))
    decreases |bs|, 1
  {
    if tag % 8 == WIRETYPE_VARINT {
      DecodeVarintExtends(bs, 10, more);
    } else if tag % 8 == WIRETYPE_FIXED64 {
      ReadFixedExtends(bs, 8, more);
    } else if tag % 8 == WIRETYPE_LENGTH_DELIMITED {
      ReadDelimitedExtends(bs, more);
    } else if tag % 8 == WIRETYPE_START_GROUP {
      ReadGroupExtends(tag / 8, bs, budget - 1, more);
    } else {
      ReadFixedExtends(bs, 4, more);
    }
  }

  lemma {:induction false} ReadGroupExtends(num: FieldNumber, bs: bytes, budget: nat, more: bytes)
    requires ReadGroup(num, bs, budget).Some?
    ensures ReadGroup(num, bs + more, budget)
         == Some((ReadGroup(num, bs, budget).value.0, ReadGroup(num, bs, budget).value.1 + more))
    decreases |bs|, 0
  {
    ReadTagExtends(bs, more);
    var (tag, rest) := ReadTag(bs);
    if tag % 8 != WIRETYPE_END_GROUP {
      ReadRecordExtends(tag, rest, budget, more);
      ReadGroupExtends(num, ReadRecord(tag, rest, budget).value.1, budget, more);
    }
  }

  /** Two inputs that both lex, one after the other, lex to both record sequences in order;
      a first input that lexes leaves the second one exactly as readable as it was alone. */
  lemma {:induction false} LexConcat(bs: bytes, more: bytes, budget: nat)
    requires Lex(bs, budget).Some?
    ensures Lex(bs + more, budget)
         == match Lex(more, budget)
            case None => None
            case Some(rs) => Some(Lex(bs, budget).value + rs)
    decreases |bs|
  {
    if bs == [] {
      assert bs + more == more;
      assert Lex(more, budget).Some? ==> [] + Lex(more, budget).value == Lex(more, budget).value;
    } else {
      ReadTagExtends(bs, more);
      var (tag, rest) := ReadTag(bs);
      ReadRecordExtends(tag, rest, budget, more);
      var (first, rest1) := ReadRecord(tag, rest, budget).value;
      LexConcat(rest1, more, budget);
      if Lex(more, budget).Some? {
        var rs := Lex(more, budget).value;
        assert [first] + Lex(rest1, budget).value + rs == [first] + (Lex(rest1, budget).value + rs);
      }
    }
  }

  lemma {:induction false} RecordReadIsShallow(tag: u32, bs: bytes, budget: nat)
    requires ReadRecord(tag, bs, budget).Some?
    ensures Shallow(ReadRecord(tag, bs, budget).value.0, budget)
    decreases |bs|, 1
  {
    if tag % 8 == WIRETYPE_START_GROUP {
      GroupReadIsShallow(tag / 8, bs, budget - 1);
    }
  }

  lemma {:induction false} GroupReadIsShallow(num: FieldNumber, bs: bytes, budget: nat)
    requires ReadGroup(num, bs, budget).Some?
    ensures AllShallow(ReadGroup(num, bs, budget).value.0, budget)
    decreases |bs|, 0
  {
    var (tag, rest) := ReadTag(bs);
    if tag % 8 != WIRETYPE_END_GROUP {
      RecordReadIsShallow(tag, rest, budget);
      GroupReadIsShallow(num, ReadRecord(tag, rest, budget).value.1, budget);
    }
  }

  /** Whatever lexes within a budget nests its groups within that budget. */
  lemma {:induction false} LexIsShallow(bs: bytes, budget: nat)
    requires Lex(bs, budget).Some?
    ensures AllShallow(Lex(bs, budget).value, budget)
    decreases |bs|
  {
    if bs != [] {
      var (tag, rest) := ReadTag(bs);
      RecordReadIsShallow(tag, rest, budget);
      LexIsShallow(ReadRecord(tag, rest, budget).value.1, budget);
    }
  }

  lemma {:induction false} EmitAllConcat(a: seq<Record>, b: seq<Record>)
    ensures EmitAll(a + b) == EmitAll(a) + EmitAll(b)
  {
    if a == [] {
      assert a + b == b;
    } else {
      assert (a + b)[1..] == a[1..] + b;
      EmitAllConcat(a[1..], b);
    }
  }

  lemma {:induction false} AllShallowConcat(a: seq<Record>, b: seq<Record>, budget: nat)
    ensures AllShallow(a + b, budget) <==> AllShallow(a, budget) && AllShallow(b, budget)
  {
    if AllShallow(a + b, budget) {
      assert forall i :: 0 <= i < |a| ==> a[i] == (a + b)[i];
      assert forall i :: 0 <= i < |b| ==> b[i] == (a + b)[|a| + i];
    }
  }
}

/** The wire primitives on literal bytes, tags and widths, as the Protocol Buffers Encoding
    specification gives them: "Base 128 Varints", "Message Structure" and "Length-Delimited
    Records". Nothing here is stated through the code that it is about. */
module WireBytes {
  import opened Wire

  // ---------------------------------------------------------------- varints

  /** The low seven bits of every byte, least significant byte first. */
  function Digits(bs: bytes): nat {
    if bs == [] then 0 else bs[0] % 0x80 + 0x80 * Digits(bs[1..])
  }

  predicate Continues(bs: bytes) {
    forall i :: 0 <= i < |bs| ==> bs[i] >= 0x80
  }

  /** A varint: continuation bits on all bytes but the last, base-128 digits that make up the value,
      and no byte more than needed. */
  lemma {:induction false} VarintBytes(v: nat)
    ensures var bs := EncodeVarint(v);
            && Continues(bs[..|bs| - 1]) && bs[|bs| - 1] < 0x80
            && Digits(bs) == v && (|bs| > 1 ==> bs[|bs| - 1] != 0)
  {
    if v >= 0x80 {
      VarintBytes(v / 0x80);
      var bs, rest := EncodeVarint(v), EncodeVarint(v / 0x80);
      assert bs[1..] == rest && bs[|bs| - 1] == rest[|rest| - 1];
      assert forall i :: 1 <= i < |bs| - 1 ==> bs[i] == rest[..|rest| - 1][i - 1];
    }
  }

  lemma {:induction false} ShortVarints(v: nat)
    ensures v < 0x80 ==> EncodeVarint(v) == [v]
    ensures 0x80 <= v < 0x4000 ==> EncodeVarint(v) == [v % 0x80 + 0x80, v / 0x80]
  {
    if 0x80 <= v < 0x4000 {
      assert EncodeVarint(v / 0x80) == [v / 0x80];
    }
  }

  lemma {:induction false} DecodesDigits(front: bytes, last: byte, rest: bytes, fuel: nat)
    requires Continues(front) && last < 0x80
    ensures DecodeVarint(front + [last] + rest, fuel)
         == if |front| < fuel then Some((Digits(front + [last]), rest)) else None
  {
    var bs := front + [last] + rest;
    if front == [] {
      assert bs[1..] == rest && (front + [last])[1..] == [];
    } else if fuel > 0 {
      assert bs[1..] == front[1..] + [last] + rest;
      assert (front + [last])[1..] == front[1..] + [last];
      DecodesDigits(front[1..], last, rest, fuel - 1);
    }
  }

  lemma {:induction false} NeverEnds(bs: bytes, fuel: nat)
    requires Continues(bs)
    ensures DecodeVarint(bs, fuel) == None
  {
    if bs != [] && fuel > 0 {
      NeverEnds(bs[1..], fuel - 1);
    }
  }

  /** Reading: at most ten bytes, up to and including the first without the continuation bit; the
      digits modulo 2^64. */
  lemma {:induction false} VarintIsRead(front: bytes, last: byte, rest: bytes)
    requires Continues(front) && last < 0x80
    ensures ReadVarint(front + [last] + rest)
         == if |front| < 10 then Some((Digits(front + [last]) % 0x1_0000_0000_0000_0000, rest)) else None
    ensures ReadVarint(front) == None
  {
    DecodesDigits(front, last, rest, 10);
    NeverEnds(front, 10);
  }

  /** Tags are read as varints and cut to 32 bits; what is no varint reads as zero. */
  lemma {:induction false} TagIsRead(v: u64, rest: bytes, bs: bytes)
    ensures ReadTag(EncodeVarint(v) + rest) == (v % 0x1_0000_0000, rest)
    ensures ReadVarint(bs) == None ==> ReadTag(bs) == (0, bs)
  {
    VarintRoundTrip(v, rest);
  }

  // ---------------------------------------------------------------- fixed widths

  lemma {:induction false} FixedBytes(b: byte, hi: nat, width: nat, more: bytes)
    ensures EncodeFixed(b + 0x100 * hi, width + 1) == [b] + EncodeFixed(hi, width)
    ensures ReadFixed([b] + more, width + 1)
         == match ReadFixed(more, width)
            case None => None
            case Some((v, rest)) => Some((b + 0x100 * v, rest))
  {
    assert (b + 0x100 * hi) / 0x100 == hi;
    assert ([b] + more)[1..] == more;
  }

  /** Four bytes, least significant first. */
  lemma {:induction false} FourBytes(a: byte, b: byte, c: byte, d: byte, hi: nat, width: nat, more: bytes)
    ensures EncodeFixed(a + 0x100 * b + 0x1_0000 * c + 0x100_0000 * d + 0x1_0000_0000 * hi, width + 4)
         == [a, b, c, d] + EncodeFixed(hi, width)
    ensures ReadFixed([a, b, c, d] + more, width + 4)
         == match ReadFixed(more, width)
            case None => None
            case Some((v, rest)) =>
              Some((a + 0x100 * b + 0x1_0000 * c + 0x100_0000 * d + 0x1_0000_0000 * v, rest))
  {
    var x3 := d + 0x100 * hi;
    var x2 := c + 0x100 * x3;
    var x1 := b + 0x100 * x2;
    hide EncodeFixed, ReadFixed;
    FixedBytes(d, hi, width, more);
    FixedBytes(c, x3, width + 1, [d] + more);
    FixedBytes(b, x2, width + 2, [c] + ([d] + more));
    FixedBytes(a, x1, width + 3, [b] + ([c] + ([d] + more)));
    assert [a, b, c, d] + more == [a] + ([b] + ([c] + ([d] + more)));
    assert [a, b, c, d] + EncodeFixed(hi, width) == [a] + ([b] + ([c] + ([d] + EncodeFixed(hi, width))));
  }

  // ---------------------------------------------------------------- what each tag announces

  /** Wire types 0 to 5 on the written side: the low three bits of the tag and what follows it. */
  lemma {:induction false} RecordBytes(num: FieldNumber, v: u64, data: bytes, body: seq<Record>)
    ensures Emit(Varint(num, v)) == EncodeVarint(8 * num) + EncodeVarint(v)
    ensures Emit(Len(num, data)) == EncodeVarint(8 * num + 2) + (EncodeVarint(|data|) + data)
    ensures Emit(Group(num, body)) == EncodeVarint(8 * num + 3) + (EmitAll(body) + EncodeVarint(8 * num + 4))
  {
  }

  function Word(bs: bytes): u32
    requires |bs| == 4
  {
    var o: seq<int> := bs;
    o[0] + 0x100 * o[1] + 0x1_0000 * o[2] + 0x100_0000 * o[3]
  }

  lemma {:induction false} OneWord(lo: bytes, hi: nat, width: nat, more: bytes)
    requires |lo| == 4
    ensures EncodeFixed(Word(lo) + 0x1_0000_0000 * hi, width + 4) == lo + EncodeFixed(hi, width)
    ensures ReadFixed(lo + more, width + 4)
         == match ReadFixed(more, width)
            case None => None
            case Some((v, rest)) => Some((Word(lo) + 0x1_0000_0000 * v, rest))
  {
    hide EncodeFixed, ReadFixed;
    FourBytes(lo[0], lo[1], lo[2], lo[3], hi, width, more);
    assert lo == [lo[0], lo[1], lo[2], lo[3]];
  }

  lemma {:induction false} NoWidth(bs: bytes)
    ensures EncodeFixed(0, 0) == [] && ReadFixed(bs, 0) == Some((0, bs))
  {
  }

  lemma {:induction false} WordBytes(lo: bytes, hi: bytes)
    requires |lo| == 4 && |hi| == 4
    ensures EncodeFixed(Word(lo), 4) == lo
    ensures EncodeFixed(Word(lo) + 0x1_0000_0000 * Word(hi), 8) == lo + hi
  {
    hide EncodeFixed, ReadFixed, Word;
    NoWidth([]);
    OneWord(lo, 0, 0, []);
    OneWord(hi, 0, 0, []);
    OneWord(lo, Word(hi), 4, []);
    assert lo + [] == lo && hi + [] == hi;
  }

  lemma {:induction false} FixedRecordBytes(num: FieldNumber, lo: bytes, hi: bytes)
    requires |lo| == 4 && |hi| == 4
    ensures Emit(Fixed32(num, Word(lo))) == EncodeVarint(8 * num + 5) + lo
    ensures Emit(Fixed64(num, Word(lo) + 0x1_0000_0000 * Word(hi))) == EncodeVarint(8 * num + 1) + (lo + hi)
  {
    hide EncodeFixed, EncodeVarint, Word;
    WordBytes(lo, hi);
  }

  /** The same on the reading side, with the errors. */
  lemma {:induction false} RecordIsRead(num: FieldNumber, bs: bytes, budget: nat)
    ensures ReadRecord(8 * num, bs, budget)
         == match ReadVarint(bs)
            case None => None
            case Some((v, rest)) => Some((Varint(num, v), rest))
    ensures ReadRecord(8 * num + 2, bs, budget)
         == match ReadVarint(bs)
            case None => None
            case Some((n, rest)) =>
              if n < 0x8000_0000 && n <= |rest| then Some((Len(num, rest[..n]), rest[n..])) else None
    ensures ReadRecord(8 * num + 3, bs, budget)
         == if budget == 0 then None
            else match ReadGroup(num, bs, budget - 1)
              case None => None
              case Some((body, rest)) => Some((Group(num, body), rest))
    ensures ReadRecord(8 * num + 4, bs, budget) == None
    ensures ReadRecord(8 * num + 6, bs, budget) == None && ReadRecord(8 * num + 7, bs, budget) == None
    ensures forall tag: u32 :: tag < 8 ==> ReadRecord(tag, bs, budget) == None
  {
    hide ReadVarint, ReadFixed, ReadGroup;
  }

  lemma {:induction false} FixedStep(num: FieldNumber, bs: bytes, budget: nat)
    ensures ReadRecord(8 * num + 5, bs, budget)
         == match ReadFixed(bs, 4)
            case None => None
            case Some((w, rest)) => Some((Fixed32(num, w % 0x1_0000_0000), rest))
    ensures ReadRecord(8 * num + 1, bs, budget)
         == match ReadFixed(bs, 8)
            case None => None
            case Some((v, rest)) => Some((Fixed64(num, v % 0x1_0000_0000_0000_0000), rest))
  {
    hide ReadFixed, ReadVarint, ReadGroup;
  }

  lemma {:induction false} WordIsRead(lo: bytes, hi: bytes, rest: bytes)
    requires |lo| == 4 && |hi| == 4
    ensures ReadFixed(lo + rest, 4) == Some((Word(lo), rest))
    ensures ReadFixed(lo + (hi + rest), 8) == Some((Word(lo) + 0x1_0000_0000 * Word(hi), rest))
  {
    hide EncodeFixed, ReadFixed, Word;
    NoWidth(rest);
    OneWord(lo, 0, 0, rest);
    OneWord(hi, 0, 0, rest);
    OneWord(lo, 0, 4, hi + rest);
  }

  /** Four and eight bytes, least significant first. */
  lemma {:induction false} FixedIsRead(num: FieldNumber, lo: bytes, hi: bytes, rest: bytes, budget: nat)
    requires |lo| == 4 && |hi| == 4
    ensures ReadRecord(8 * num + 5, lo + rest, budget) == Some((Fixed32(num, Word(lo)), rest))
    ensures ReadRecord(8 * num + 1, lo + (hi + rest), budget)
         == Some((Fixed64(num, Word(lo) + 0x1_0000_0000 * Word(hi)), rest))
  {
    WordIsRead(lo, hi, rest);
    FixedStep(num, lo + rest, budget);
    FixedStep(num, lo + (hi + rest), budget);
    hide ReadFixed, ReadRecord, Word;
  }

  /** Too few bytes for a fixed width are an error. */
  lemma {:induction false} FixedNeedsAll(num: FieldNumber, bs: bytes, budget: nat)
    ensures |bs| < 4 ==> ReadRecord(8 * num + 5, bs, budget) == None
    ensures |bs| < 8 ==> ReadRecord(8 * num + 1, bs, budget) == None
  {
  }

  /** The inside of a group ends at the tag 8 * num + 4 and at no other end tag. */
  lemma {:induction false} GroupIsRead(num: FieldNumber, v: u64, bs: bytes, budget: nat)
    ensures v % 0x1_0000_0000 == 8 * num + 4 ==> ReadGroup(num, EncodeVarint(v) + bs, budget) == Some(([], bs))
    ensures v % 0x1_0000_0000 != 8 * num + 4 && v % 8 == 4 ==> ReadGroup(num, EncodeVarint(v) + bs, budget) == None
    ensures v % 0x1_0000_0000 == 0 ==> ReadGroup(num, EncodeVarint(v) + bs, budget) == None
    ensures v % 8 != 4 && v % 0x1_0000_0000 != 0 ==>
              (var first := ReadRecord(v % 0x1_0000_0000, bs, budget);
               var more := if first.None? then None else ReadGroup(num, first.value.1, budget);
               ReadGroup(num, EncodeVarint(v) + bs, budget)
               == if more.None? then None else Some(([first.value.0] + more.value.0, more.value.1)))
  {
    TagIsRead(v, bs, bs);
    hide ReadTag, ReadRecord, EncodeVarint;
  }
}

/** The wire primitives the generated code calls: base-128 varints, tags, fixed-width
    little-endian integers, length-delimited payloads and (for unknown fields only) groups.
    They follow the Protocol Buffers Encoding specification, sections "Base 128 Varints",
    "Message Structure" and "Length-Delimited Records". */
module Wire {
  datatype Option<+T> = None | Some(value: T) {
    predicate IsFailure() {
      None?
    }

    function PropagateFailure<U>(): Option<U>
      requires None?
    {
      None
    }

    function Extract(): T
      requires Some?
    {
      value
    }
  }

  const TWO_TO_THE_31 := 0x8000_0000
  const TWO_TO_THE_32 := 0x1_0000_0000
  const TWO_TO_THE_63 := 0x8000_0000_0000_0000
  const TWO_TO_THE_64 := 0x1_0000_0000_0000_0000

  type byte = b: int | 0 <= b < 0x100
  type bytes = seq<byte>
  type i32 = v: int | -0x8000_0000 <= v < 0x8000_0000
  type u32 = v: int | 0 <= v < 0x1_0000_0000
  type u64 = v: int | 0 <= v < 0x1_0000_0000_0000_0000
  type FieldNumber = n: int | 1 <= n < 0x2000_0000 witness 1

  const WIRETYPE_VARINT := 0
  const WIRETYPE_FIXED64 := 1
  const WIRETYPE_LENGTH_DELIMITED := 2
  const WIRETYPE_START_GROUP := 3
  const WIRETYPE_END_GROUP := 4
  const WIRETYPE_FIXED32 := 5

  /** One field as it stands on the wire. An unknown field set is a sequence of these. */
  datatype Record =
    | Varint(num: FieldNumber, v: u64)
    | Fixed64(num: FieldNumber, v: u64)
    | Len(num: FieldNumber, data: bytes)
    | Group(num: FieldNumber, body: seq<Record>)
    | Fixed32(num: FieldNumber, w: u32)

  function WireType(r: Record): (t: nat)
    ensures t < 8
  {
    match r
    case Varint(_, _) => WIRETYPE_VARINT
    case Fixed64(_, _) => WIRETYPE_FIXED64
    case Len(_, _) => WIRETYPE_LENGTH_DELIMITED
    case Group(_, _) => WIRETYPE_START_GROUP
    case Fixed32(_, _) => WIRETYPE_FIXED32
  }

  function Tag(num: FieldNumber, wireType: nat): (tag: u32)
    requires wireType < 8
    ensures tag != 0 && tag / 8 == num && tag % 8 == wireType
  {
    num * 8 + wireType
  }

  // ---------------------------------------------------------------- writing

  function EncodeVarint(v: nat): (bs: bytes)
    ensures |bs| >= 1
  {
    if v < 0x80 then [v] else [v % 0x80 + 0x80] + EncodeVarint(v / 0x80)
  }

  /** The size functions of the library, by repeated division and independent of the writer. */
  function VarintSize(v: nat): (n: nat)
  {
    if v < 0x80 then 1 else 1 + VarintSize(v / 0x80)
  }

  function EncodeFixed(v: nat, width: nat): (bs: bytes)
    ensures |bs| == width
  {
    if width == 0 then [] else [v % 0x100] + EncodeFixed(v / 0x100, width - 1)
  }

  function EmitTag(num: FieldNumber, wireType: nat): bytes
    requires wireType < 8
  {
    EncodeVarint(Tag(num, wireType))
  }

  function Payload(r: Record): bytes
    decreases r, 0
  {
    match r
    case Varint(_, v) => EncodeVarint(v)
    case Fixed64(_, v) => EncodeFixed(v, 8)
    case Len(_, data) => EncodeVarint(|data|) + data
    case Group(num, body) => EmitAll(body) + EmitTag(num, WIRETYPE_END_GROUP)
    case Fixed32(_, w) => EncodeFixed(w, 4)
  }

  function Emit(r: Record): bytes
    decreases r, 1
  {
    EmitTag(r.num, WireType(r)) + Payload(r)
  }

  function EmitAll(rs: seq<Record>): bytes
    decreases rs
  {
    if rs == [] then [] else Emit(rs[0]) + EmitAll(rs[1..])
  }

  // ---------------------------------------------------------------- reading

  /** Reads at most `fuel` bytes of a varint; too long or cut short is an error. */
  function DecodeVarint(bs: bytes, fuel: nat): (r: Option<(nat, bytes)>)
    ensures r.Some? ==> |r.value.1| < |bs|
  {
    if bs == [] || fuel == 0 then None
    else if bs[0] < 0x80 then Some((bs[0], bs[1..]))
    else
      var (hi, rest) :- DecodeVarint(bs[1..], fuel - 1);
      Some((bs[0] - 0x80 + 0x80 * hi, rest))
  }

  /** Ten bytes carry 70 bits; what does not fit in 64 is dropped. */
  function ReadVarint(bs: bytes): (r: Option<(u64, bytes)>)
    ensures r.Some? ==> |r.value.1| < |bs|
  {
    var (v, rest) :- DecodeVarint(bs, 10);
    Some((v % TWO_TO_THE_64, rest))
  }

  function ReadFixed(bs: bytes, width: nat): (r: Option<(nat, bytes)>)
    ensures r.Some? ==> |r.value.1| + width == |bs|
  {
    if width == 0 then Some((0, bs))
    else if bs == [] then None
    else
      var (hi, rest) :- ReadFixed(bs[1..], width - 1);
      Some((bs[0] + 0x100 * hi, rest))
  }

  /** A length, and the payload it announces. A length beyond the signed 32-bit range or
      beyond the end of the input is an error. */
  function ReadDelimited(bs: bytes): (r: Option<(bytes, bytes)>)
    ensures r.Some? ==> |r.value.0| + |r.value.1| < |bs| && |r.value.0| < TWO_TO_THE_31
  {
    var (n, rest) :- ReadVarint(bs);
    if n < TWO_TO_THE_31 && n <= |rest| then Some((rest[..n], rest[n..])) else None
  }

  /** The next tag, cut to 32 bits. Zero stands for the end of the input, for a varint that
      cannot be read, and for a tag that really is zero. */
  function ReadTag(bs: bytes): (r: (u32, bytes))
    ensures |r.1| <= |bs|
    ensures r.0 != 0 ==> |r.1| < |bs|
  {
    match ReadVarint(bs)
    case None => (0, bs)
    case Some((v, rest)) => (v % TWO_TO_THE_32, rest)
  }

  /** What the library's SkipField reads after `tag`, and what it stores in the unknown
      field set. Field number 0, a stray end-group tag and wire types 6 and 7 are errors;
      each group costs one unit of the recursion budget. */
  function ReadRecord(tag: u32, bs: bytes, budget: nat): (r: Option<(Record, bytes)>)
    ensures r.Some? ==> |r.value.1| <= |bs|
    ensures r.Some? ==> tag / 8 == r.value.0.num && tag % 8 == WireType(r.value.0)
    decreases |bs|, 1
  {
    var num := tag / 8;
    if num == 0 then None
    else if tag % 8 == WIRETYPE_VARINT then
      var (v, rest) :- ReadVarint(bs);
      Some((Varint(num, v), rest))
    else if tag % 8 == WIRETYPE_FIXED64 then
      var (v, rest) :- ReadFixed(bs, 8);
      Some((Fixed64(num, v % TWO_TO_THE_64), rest))
    else if tag % 8 == WIRETYPE_LENGTH_DELIMITED then
      var (data, rest) :- ReadDelimited(bs);
      Some((Len(num, data), rest))
    else if tag % 8 == WIRETYPE_START_GROUP then
      if budget == 0 then None else
      var (body, rest) :- ReadGroup(num, bs, budget - 1);
      Some((Group(num, body), rest))
    else if tag % 8 == WIRETYPE_FIXED32 then
      var (w, rest) :- ReadFixed(bs, 4);
      Some((Fixed32(num, w % TWO_TO_THE_32), rest))
    else None
  }

  /** The inside of a group, up to and including the end-group tag that must match `num`. */
  function ReadGroup(num: FieldNumber, bs: bytes, budget: nat): (r: Option<(seq<Record>, bytes)>)
    ensures r.Some? ==> |r.value.1| <= |bs|
    decreases |bs|, 0
  {
    var (tag, rest) := ReadTag(bs);
    if tag == 0 then None
    else if tag % 8 == WIRETYPE_END_GROUP then
      if tag == Tag(num, WIRETYPE_END_GROUP) then Some(([], rest)) else None
    else
      var (first, rest1) :- ReadRecord(tag, rest, budget);
      var (more, rest2) :- ReadGroup(num, rest1, budget);
      Some(([first] + more, rest2))
  }

  /** A whole input as a sequence of records. */
  function Lex(bs: bytes, budget: nat): (r: Option<seq<Record>>)
    decreases |bs|
  {
    if bs == [] then Some([]) else
    var (tag, rest) := ReadTag(bs);
    if tag == 0 then None else
    var (first, rest1) :- ReadRecord(tag, rest, budget);
    var more :- Lex(rest1, budget);
    Some([first] + more)
  }

  // ---------------------------------------------------------------- varints

  lemma {:induction false} VarintSizeIsLength(v: nat)
    ensures |EncodeVarint(v)| == VarintSize(v)
  {
    if v >= 0x80 {
      VarintSizeIsLength(v / 0x80);
    }
  }

  function Power128(k: nat): nat {
    if k == 0 then 1 else 0x80 * Power128(k - 1)
  }

  lemma {:induction false} DecodeEncodeVarint(v: nat, fuel: nat, rest: bytes)
    requires 0 < fuel && v < Power128(fuel)
    ensures DecodeVarint(EncodeVarint(v) + rest, fuel) == Some((v, rest))
    decreases fuel
  {
    var bs := EncodeVarint(v) + rest;
    if v < 0x80 {
      assert bs[1..] == rest;
    } else {
      assert bs[1..] == EncodeVarint(v / 0x80) + rest;
      DecodeEncodeVarint(v / 0x80, fuel - 1, rest);
    }
  }

  lemma {:induction false} Power128Ten()
    ensures Power128(10) >= TWO_TO_THE_64
  {
    assert Power128(5) == 0x8_0000_0000;
    assert Power128(10) == 0x80 * (0x80 * (0x80 * (0x80 * (0x80 * Power128(5)))));
  }

  /** Base-128 varints: every unsigned 64-bit value is read back, whatever follows it. */
  lemma {:induction false} VarintRoundTrip(v: u64, rest: bytes)
    ensures ReadVarint(EncodeVarint(v) + rest) == Some((v, rest))
  {
    Power128Ten();
    DecodeEncodeVarint(v, 10, rest);
  }

  lemma {:induction false} TagRoundTrip(num: FieldNumber, wireType: nat, rest: bytes)
    requires wireType < 8
    ensures ReadTag(EmitTag(num, wireType) + rest) == (Tag(num, wireType), rest)
  {
    VarintRoundTrip(Tag(num, wireType), rest);
  }

  // ---------------------------------------------------------------- fixed-width integers

  function Power256(k: nat): nat {
    if k == 0 then 1 else 0x100 * Power256(k - 1)
  }

  lemma {:induction false} FixedRoundTrip(v: nat, width: nat, rest: bytes)
    requires v < Power256(width)
    ensures ReadFixed(EncodeFixed(v, width) + rest, width) == Some((v, rest))
    decreases width
  {
    var bs := EncodeFixed(v, width) + rest;
    if width == 0 {
      assert bs == rest;
    } else {
      assert bs[1..] == EncodeFixed(v / 0x100, width - 1) + rest;
      FixedRoundTrip(v / 0x100, width - 1, rest);
    }
  }

  lemma {:induction false} Power256Widths()
    ensures Power256(4) == TWO_TO_THE_32 && Power256(8) == TWO_TO_THE_64
  {
    assert Power256(4) == TWO_TO_THE_32;
    assert Power256(8) == 0x100 * (0x100 * (0x100 * (0x100 * Power256(4))));
  }

  lemma {:induction false} DelimitedRoundTrip(data: bytes, rest: bytes)
    requires |data| < TWO_TO_THE_31
    ensures ReadDelimited(EncodeVarint(|data|) + data + rest) == Some((data, rest))
  {
    assert EncodeVarint(|data|) + data + rest == EncodeVarint(|data|) + (data + rest);
    VarintRoundTrip(|data|, data + rest);
    assert (data + rest)[..|data|] == data && (data + rest)[|data|..] == rest;
  }

  // ---------------------------------------------------------------- records

  /** The groups of `r` nest no deeper than the recursion budget allows. */
  ghost predicate Shallow(r: Record, budget: nat)
    decreases r, 1
  {
    r.Group? ==> budget > 0 && AllShallow(r.body, budget - 1)
  }

  ghost predicate AllShallow(rs: seq<Record>, budget: nat)
    decreases rs, 0
  {
    forall i :: 0 <= i < |rs| ==> Shallow(rs[i], budget)
  }

  lemma {:induction false} PayloadSize(r: Record)
    ensures |Payload(r)| < |Emit(r)|
    ensures r.Len? ==> |r.data| < |Payload(r)|
    ensures r.Group? ==> |EmitAll(r.body)| < |Payload(r)|
  {
  }

  lemma {:induction false} FlatRecordRoundTrip(r: Record, rest: bytes, budget: nat)
    requires !r.Group?
    requires r.Len? ==> |r.data| < TWO_TO_THE_31
    ensures ReadRecord(Tag(r.num, WireType(r)), Payload(r) + rest, budget) == Some((r, rest))
  {
    if r.Varint? {
      VarintRoundTrip(r.v, rest);
    } else if r.Fixed64? {
      Power256Widths();
      FixedRoundTrip(r.v, 8, rest);
    } else if r.Fixed32? {
      Power256Widths();
      FixedRoundTrip(r.w, 4, rest);
    } else {
      DelimitedRoundTrip(r.data, rest);
    }
  }

  /** One record is read back, whatever follows it, exactly when its groups fit the budget. */
  lemma {:induction false} RecordRoundTrip(r: Record, rest: bytes, budget: nat)
    requires |Emit(r)| < TWO_TO_THE_31
    ensures ReadRecord(Tag(r.num, WireType(r)), Payload(r) + rest, budget)
         == if Shallow(r, budget) then Some((r, rest)) else None
    decreases r, 1
  {
    PayloadSize(r);
    if r.Group? {
      var close := EmitTag(r.num, WIRETYPE_END_GROUP);
      assert Payload(r) + rest == EmitAll(r.body) + (close + rest);
      if budget > 0 {
        GroupRoundTrip(r.num, r.body, rest, budget - 1);
      }
    } else {
      FlatRecordRoundTrip(r, rest, budget);
    }
  }

  lemma {:induction false} GroupRoundTrip(num: FieldNumber, body: seq<Record>, rest: bytes, budget: nat)
    requires |EmitAll(body)| < TWO_TO_THE_31
    ensures ReadGroup(num, EmitAll(body) + (EmitTag(num, WIRETYPE_END_GROUP) + rest), budget)
         == if AllShallow(body, budget) then Some((body, rest)) else None
    decreases body, 0
  {
    var close := EmitTag(num, WIRETYPE_END_GROUP) + rest;
    if body == [] {
      assert EmitAll(body) + close == close;
      TagRoundTrip(num, WIRETYPE_END_GROUP, rest);
    } else {
      var r, tail := body[0], EmitAll(body[1..]) + close;
      EmitAllSplits(body, close);
      TagRoundTrip(r.num, WireType(r), Payload(r) + tail);
      RecordRoundTrip(r, tail, budget);
      GroupRoundTrip(num, body[1..], rest, budget);
      AllShallowSplits(body, budget);
      assert body == [r] + body[1..];
    }
  }

  lemma {:induction false} AllShallowSplits(rs: seq<Record>, budget: nat)
    requires rs != []
    ensures AllShallow(rs, budget) <==> Shallow(rs[0], budget) && AllShallow(rs[1..], budget)
  {
    if Shallow(rs[0], budget) && AllShallow(rs[1..], budget) {
      forall i | 0 <= i < |rs| ensures Shallow(rs[i], budget) {
        assert i > 0 ==> rs[i] == rs[1..][i - 1];
      }
    }
  }

  lemma {:induction false} EmitAllSplits(rs: seq<Record>, rest: bytes)
    requires rs != []
    ensures EmitAll(rs) + rest
         == EmitTag(rs[0].num, WireType(rs[0])) + (Payload(rs[0]) + (EmitAll(rs[1..]) + rest))
    ensures |EmitAll(rs)| == |Emit(rs[0])| + |EmitAll(rs[1..])|
  {
    Regroup(EmitTag(rs[0].num, WireType(rs[0])), Payload(rs[0]), EmitAll(rs[1..]), rest);
  }

  lemma {:induction false} Regroup<T>(a: seq<T>, b: seq<T>, c: seq<T>, d: seq<T>)
    ensures a + b + c + d == a + (b + (c + d))
  {
  }

  /** A record sequence is read back exactly when its groups fit the budget. */
  lemma {:induction false} LexRoundTrip(rs: seq<Record>, budget: nat)
    requires |EmitAll(rs)| < TWO_TO_THE_31
    ensures Lex(EmitAll(rs), budget) == if AllShallow(rs, budget) then Some(rs) else None
  {
    if rs != [] {
      var r, tail := rs[0], EmitAll(rs[1..]);
      EmitAllSplits(rs, []);
      assert EmitAll(rs) == EmitTag(r.num, WireType(r)) + (Payload(r) + tail) by {
        assert EmitAll(rs) + [] == EmitAll(rs) && tail + [] == tail;
      }
      TagRoundTrip(r.num, WireType(r), Payload(r) + tail);
      RecordRoundTrip(r, tail, budget);
      LexRoundTrip(rs[1..], budget);
      AllShallowSplits(rs, budget);
      assert rs == [r] + rs[1..];
    }
  }
}

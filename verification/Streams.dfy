/** The objects the generated code reads from and writes to. */
module Streams {
  import opened Wire
  import opened WireLaws
  import opened Codec
  import opened Sizing

  /** An input with a current limit. `window` is what may still be read before the limit;
      pushing a limit sets the bytes behind it aside, popping it puts them back. */
  class CodedInputStream {
    var window: bytes
    var budget: nat
    var ended: bool

    constructor (data: bytes, recursionLimit: nat)
      ensures window == data && budget == recursionLimit && !ended
    {
      window, budget, ended := data, recursionLimit, false;
    }

    /** The next tag, or 0; `below` only for tags from 1 to the cutoff. A 0 at the end of the
        window is a legitimate end of message, any other 0 is not. */
    method ReadTagWithCutoffNoLastTag(cutoff: u32) returns (tag: u32, below: bool)
      modifies `window, `ended
      ensures (tag, window) == ReadTag(old(window))
      ensures below <==> 0 < tag <= cutoff
      ensures ended == (tag == 0 && old(window) == [])
    {
      ended := window == [];
      var r := ReadTag(window);
      tag, window := r.0, r.1;
      below := 0 < tag <= cutoff;
    }

    method ReadVarint64() returns (ok: bool, v: u64)
      modifies `window
      ensures ok <==> ReadVarint(old(window)).Some?
      ensures ok ==> ReadVarint(old(window)) == Some((v, window))
    {
      var r := ReadVarint(window);
      ok, v := r.Some?, 0;
      if ok {
        v, window := r.value.0, r.value.1;
      }
    }

    /** ReadPrimitive for every varint-coded type. */
    method ReadPrimitive(t: FieldType) returns (ok: bool, n: int)
      requires IsNumeric(t)
      modifies `window
      ensures ok <==> ReadVarint(old(window)).Some?
      ensures InRange(t, n)
      ensures ok ==> exists v: u64 :: ReadVarint(old(window)) == Some((v, window)) && n == FromWire(t, v)
    {
      var v: u64;
      ok, v := ReadVarint64();
      n := FromWire(t, v);
    }

    method ReadBytes() returns (ok: bool, data: bytes)
      modifies `window
      ensures ok <==> ReadDelimited(old(window)).Some?
      ensures ok ==> ReadDelimited(old(window)) == Some((data, window))
    {
      var r := ReadDelimited(window);
      ok, data := r.Some?, [];
      if ok {
        data, window := r.value.0, r.value.1;
      }
    }

    /** SkipField: reads the field after `tag` for the unknown field set. */
    method SkipField(tag: u32) returns (ok: bool, r: Record)
      modifies `window
      ensures ok <==> ReadRecord(tag, old(window), budget).Some?
      ensures ok ==> ReadRecord(tag, old(window), budget) == Some((r, window))
    {
      var read := ReadRecord(tag, window, budget);
      ok, r := read.Some?, Varint(1, 0);
      if ok {
        r, window := read.value.0, read.value.1;
      }
    }

    /** Reads a length, spends one unit of the recursion budget and limits reading to that many
        bytes; `after` is what the matching PopLimit gives back. */
    method PushMessageLimit() returns (ok: bool, after: bytes)
      modifies `window, `budget
      ensures ok <==> ReadDelimited(old(window)).Some? && old(budget) > 0
      ensures ok ==> ReadDelimited(old(window)) == Some((window, after)) && budget == old(budget) - 1
    {
      var r := ReadDelimited(window);
      ok, after := r.Some? && budget > 0, [];
      if ok {
        window, after, budget := r.value.0, r.value.1, budget - 1;
      }
    }

    method PopLimit(after: bytes)
      modifies this
      ensures window == old(window) + after && budget == old(budget) + 1 && !ended
    {
      window, budget, ended := window + after, budget + 1, false;
    }
  }

  class CodedOutputStream {
    var out: bytes

    constructor ()
      ensures out == []
    {
      out := [];
    }

    method WriteRaw(bs: bytes)
      modifies this
      ensures out == old(out) + bs
    {
      out := out + bs;
    }
  }

  /** Concatenation under a name, so that long outputs can be put together step by step. */
  ghost function Cat(a: bytes, b: bytes): (c: bytes)
    ensures |c| == |a| + |b|
  {
    a + b
  }

  lemma {:induction false} CatAssociative(a: bytes, b: bytes, c: bytes)
    ensures Cat(Cat(a, b), c) == Cat(a, Cat(b, c))
  {
  }

  /** `s` with `bs` in place of as many elements from `at` on, and nothing else changed. */
  ghost function Splice(s: bytes, at: nat, bs: bytes): (t: bytes)
    requires at + |bs| <= |s|
    ensures |t| == |s|
  {
    s[..at] + bs + s[at + |bs|..]
  }

  lemma {:induction false} SpliceTwice(s: bytes, at: nat, a: bytes, b: bytes)
    requires at + |a| + |b| <= |s|
    ensures Splice(Splice(s, at, a), at + |a|, b) == Splice(s, at, Cat(a, b))
  {
  }

  lemma {:induction false} SpliceNothing(s: bytes, at: nat)
    requires at <= |s|
    ensures Splice(s, at, []) == s
  {
  }

  lemma {:induction false} SpliceAll(s: bytes, bs: bytes)
    requires |s| == |bs|
    ensures Splice(s, 0, bs) == bs
  {
  }

  /** Copies `bs` into the array and returns the position behind it. */
  method WriteRawToArray(bs: bytes, target: array<byte>, at: nat) returns (next: nat)
    requires at + |bs| <= target.Length
    modifies target
    ensures next == at + |bs|
    ensures target[..] == Splice(old(target[..]), at, bs)
  {
    var i := 0;
    while i < |bs|
      invariant i <= |bs|
      invariant forall j :: 0 <= j < target.Length ==>
                  target[j] == if at <= j < at + i then bs[j - at] else old(target[j])
    {
      target[at + i] := bs[i];
      i := i + 1;
    }
    next := at + |bs|;
    SpliceAt(target[..], old(target[..]), at, bs);
  }

  lemma {:induction false} SpliceAt(t: bytes, s: bytes, at: nat, bs: bytes)
    requires at + |bs| <= |s| == |t|
    requires forall j :: 0 <= j < |s| ==> t[j] == if at <= j < at + |bs| then bs[j - at] else s[j]
    ensures t == Splice(s, at, bs)
  {
  }

  // ---------------------------------------------------------------- one field at a time

  /** A bytes or string field: nothing when it is empty. */
  method WriteBlob(num: FieldNumber, b: bytes, output: CodedOutputStream)
    modifies output
    ensures output.out == Cat(old(output.out), BlobBytes(num, b))
  {
    if |b| > 0 {
      output.WriteRaw(Emit(Len(num, b)));
    }
  }

  method WriteBlobToArray(num: FieldNumber, b: bytes, target: array<byte>, at: nat) returns (next: nat)
    requires at + |BlobBytes(num, b)| <= target.Length
    modifies target
    ensures next == at + |BlobBytes(num, b)|
    ensures target[..] == Splice(old(target[..]), at, BlobBytes(num, b))
  {
    next := at;
    SpliceNothing(target[..], at);
    if |b| > 0 {
      next := WriteRawToArray(Emit(Len(num, b)), target, at);
    }
  }

  /** A varint-coded field: nothing when it is zero. */
  method WriteNumber(num: FieldNumber, n: int, output: CodedOutputStream)
    modifies output
    ensures output.out == Cat(old(output.out), NumBytes(num, n))
  {
    if n != 0 {
      output.WriteRaw(Emit(Varint(num, ToWire(n))));
    }
  }

  method WriteNumberToArray(num: FieldNumber, n: int, target: array<byte>, at: nat) returns (next: nat)
    requires at + |NumBytes(num, n)| <= target.Length
    modifies target
    ensures next == at + |NumBytes(num, n)|
    ensures target[..] == Splice(old(target[..]), at, NumBytes(num, n))
  {
    next := at;
    SpliceNothing(target[..], at);
    if n != 0 {
      next := WriteRawToArray(Emit(Varint(num, ToWire(n))), target, at);
    }
  }

  /** SerializeUnknownFields, when there are any. */
  method WriteUnknown(rs: seq<Record>, output: CodedOutputStream)
    modifies output
    ensures output.out == Cat(old(output.out), EmitAll(rs))
  {
    if |rs| > 0 {
      output.WriteRaw(EmitAll(rs));
    }
  }

  method WriteUnknownToArray(rs: seq<Record>, target: array<byte>, at: nat) returns (next: nat)
    requires at + |EmitAll(rs)| <= target.Length
    modifies target
    ensures next == at + |EmitAll(rs)|
    ensures target[..] == Splice(old(target[..]), at, EmitAll(rs))
  {
    next := at;
    SpliceNothing(target[..], at);
    if |rs| > 0 {
      next := WriteRawToArray(EmitAll(rs), target, at);
    }
  }

  // ---------------------------------------------------------------- cached sizes

  /** Conversion of a 64-bit size to the signed 32-bit cell it is cached in, and its use as an
      unsigned length prefix. */
  function ToCachedSize(n: nat): (c: int)
    ensures -0x8000_0000 <= c < 0x8000_0000
    ensures n < 0x8000_0000 ==> c == n
  {
    var w := n % TWO_TO_THE_32;
    if w < TWO_TO_THE_31 then w else w - TWO_TO_THE_32
  }

  function AsPrefix(cached: int): (r: u32)
    ensures 0 <= cached < 0x1_0000_0000 ==> r == cached
  {
    cached % TWO_TO_THE_32
  }

  lemma {:induction false} CachedSizeAsPrefix(n: nat)
    ensures AsPrefix(ToCachedSize(n)) == n <==> n < TWO_TO_THE_32
  {
  }

  /** What a serializer writes for one field: a record, or a sub-message announced with the size
      cached in it, right or wrong. */
  datatype Written = Exact(r: Record) | Prefixed(num: FieldNumber, size: u32, data: bytes)

  function RecordOf(w: Written): Record {
    match w
    case Exact(r) => r
    case Prefixed(num, _, data) => Len(num, data)
  }

  function BytesOf(w: Written): bytes {
    match w
    case Exact(r) => Emit(r)
    case Prefixed(num, size, data) => EmitTag(num, WIRETYPE_LENGTH_DELIMITED) + (EncodeVarint(size) + data)
  }

  function AllBytes(ws: seq<Written>): bytes {
    if ws == [] then [] else BytesOf(ws[0]) + AllBytes(ws[1..])
  }

  function AllRecords(ws: seq<Written>): seq<Record> {
    if ws == [] then [] else [RecordOf(ws[0])] + AllRecords(ws[1..])
  }

  ghost predicate SizesRight(ws: seq<Written>) {
    forall i :: 0 <= i < |ws| ==> ws[i].Prefixed? ==> ws[i].size == |ws[i].data|
  }

  lemma {:induction false} BytesConcat(a: seq<Written>, b: seq<Written>)
    ensures AllBytes(a + b) == AllBytes(a) + AllBytes(b)
  {
    hide BytesOf;
    if a == [] {
      assert a + b == b;
    } else {
      assert (a + b)[1..] == a[1..] + b;
      BytesConcat(a[1..], b);
      assert BytesOf(a[0]) + (AllBytes(a[1..]) + AllBytes(b)) == AllBytes(a) + AllBytes(b);
    }
  }

  lemma {:induction false} RecordsConcat(a: seq<Written>, b: seq<Written>)
    ensures AllRecords(a + b) == AllRecords(a) + AllRecords(b)
  {
    hide RecordOf;
    if a == [] {
      assert a + b == b;
    } else {
      assert (a + b)[1..] == a[1..] + b;
      RecordsConcat(a[1..], b);
    }
  }

  function AllExact(rs: seq<Record>): seq<Written> {
    if rs == [] then [] else [Exact(rs[0])] + AllExact(rs[1..])
  }

  lemma {:induction false} ExactIsEmitted(rs: seq<Record>)
    ensures AllBytes(AllExact(rs)) == EmitAll(rs) && AllRecords(AllExact(rs)) == rs
    ensures SizesRight(AllExact(rs))
  {
    if rs != [] {
      ExactIsEmitted(rs[1..]);
      assert AllExact(rs)[1..] == AllExact(rs[1..]);
      assert forall i :: 1 <= i < |AllExact(rs)| ==> AllExact(rs)[i] == AllExact(rs[1..])[i - 1];
    }
  }

  /** What is written for the elements of a repeated message field with these cached sizes. */
  function WroteMsgs(num: FieldNumber, sub: Schema, ms: seq<Msg>, cached: seq<int>): seq<Written>
    requires |ms| == |cached| && forall i :: 0 <= i < |ms| ==> Conforms(sub, ms[i])
  {
    if ms == [] then []
    else [Prefixed(num, AsPrefix(cached[0]), Serialize(sub, ms[0]))] + WroteMsgs(num, sub, ms[1..], cached[1..])
  }

  lemma {:induction false} WroteMsgsAppend(num: FieldNumber, sub: Schema, ms: seq<Msg>, cached: seq<int>,
                                           m: Msg, c: int)
    requires |ms| == |cached| && forall i :: 0 <= i < |ms| ==> Conforms(sub, ms[i])
    requires Conforms(sub, m)
    ensures WroteMsgs(num, sub, ms + [m], cached + [c])
         == WroteMsgs(num, sub, ms, cached) + [Prefixed(num, AsPrefix(c), Serialize(sub, m))]
  {
    hide Serialize, Conforms, AsPrefix;
    if ms == [] {
      assert ms + [m] == [m] && cached + [c] == [c];
    } else {
      assert (ms + [m])[1..] == ms[1..] + [m] && (cached + [c])[1..] == cached[1..] + [c];
      WroteMsgsAppend(num, sub, ms[1..], cached[1..], m, c);
    }
  }

  lemma {:induction false} WroteMsgsRecords(num: FieldNumber, sub: Schema, ms: seq<Msg>, cached: seq<int>)
    requires |ms| == |cached| && forall i :: 0 <= i < |ms| ==> Conforms(sub, ms[i])
    ensures AllRecords(WroteMsgs(num, sub, ms, cached)) == MsgRecords(num, sub, ms)
    ensures |WroteMsgs(num, sub, ms, cached)| == |ms|
    ensures forall i :: 0 <= i < |ms| ==>
              WroteMsgs(num, sub, ms, cached)[i] == Prefixed(num, AsPrefix(cached[i]), Serialize(sub, ms[i]))
  {
    hide Serialize, Conforms, AsPrefix;
    if ms != [] {
      WroteMsgsRecords(num, sub, ms[1..], cached[1..]);
    }
  }

  lemma {:induction false} OneWritten(w: Written)
    ensures AllBytes([w]) == BytesOf(w) && AllRecords([w]) == [RecordOf(w)]
  {
    assert AllBytes([w]) == BytesOf(w) + AllBytes([]);
  }

  lemma {:induction false} FourWritten(a: seq<Written>, b: seq<Written>, c: seq<Written>, d: seq<Written>)
    ensures AllBytes(a + b + c + d) == AllBytes(a) + AllBytes(b) + AllBytes(c) + AllBytes(d)
  {
    hide AllBytes;
    BytesConcat(a, b);
    BytesConcat(a + b, c);
    BytesConcat(a + b + c, d);
  }

  lemma {:induction false} FourRecords(a: seq<Written>, b: seq<Written>, c: seq<Written>, d: seq<Written>)
    ensures EmitAll(AllRecords(a + b + c + d))
         == EmitAll(AllRecords(a)) + EmitAll(AllRecords(b)) + EmitAll(AllRecords(c)) + EmitAll(AllRecords(d))
  {
    hide AllRecords, EmitAll;
    RecordsConcat(a, b);
    RecordsConcat(a + b, c);
    RecordsConcat(a + b + c, d);
    EmitAllConcat(AllRecords(a), AllRecords(b));
    EmitAllConcat(AllRecords(a) + AllRecords(b), AllRecords(c));
    EmitAllConcat(AllRecords(a) + AllRecords(b) + AllRecords(c), AllRecords(d));
  }
}

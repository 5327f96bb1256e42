/** The cached-size protocol at every depth: messages as trees of objects that each cache a size,
    ByteSizeLong as the pass that fills the caches, and the serializers as the pass that trusts
    them. */
module SizeCaching {
  import opened Wire
  import opened WireLaws
  import opened Codec
  import opened RoundTrip
  import opened Sizing
  import opened Streams
  import opened Prefixes

  datatype Cell =
    | NumCell(n: int)
    | BlobCell(b: bytes)
    | BlobsCell(bs: seq<bytes>)
    | OptCell(o: Option<Obj>)
    | ObjsCell(os: seq<Obj>)
  datatype Obj = Obj(cells: seq<Cell>, unk: seq<Record>, cached: int)

  ghost predicate Shaped(s: Schema, o: Obj)
    decreases s, 1
  {
    && |o.cells| == |s.fields|
    && forall i :: 0 <= i < |s.fields| ==> CellShaped(s.fields[i].typ, o.cells[i])
  }

  ghost predicate CellShaped(t: FieldType, c: Cell)
    decreases t, 0
  {
    match t
    case Bytes => c.BlobCell?
    case Str => c.BlobCell?
    case RepStr => c.BlobsCell?
    case Sub(sub) => c.OptCell? && (c.o.Some? ==> Shaped(sub, c.o.value))
    case RepSub(sub) => c.ObjsCell? && forall i :: 0 <= i < |c.os| ==> Shaped(sub, c.os[i])
    case _ => c.NumCell? && InRange(t, c.n)
  }

  /** The value of a tree: everything but the cached sizes. */
  function Erase(s: Schema, o: Obj): (m: Msg)
    requires Shaped(s, o)
    ensures Conforms(s, m)
    decreases s, 1
  {
    Msg(seq(|s.fields|, i requires 0 <= i < |s.fields| => EraseCell(s.fields[i].typ, o.cells[i])), o.unk)
  }

  function EraseCell(t: FieldType, c: Cell): (v: Value)
    requires CellShaped(t, c)
    ensures ValueConforms(t, v)
    decreases t, 0
  {
    match t
    case Bytes => Blob(c.b)
    case Str => Blob(c.b)
    case RepStr => Blobs(c.bs)
    case Sub(sub) => if c.o.None? then Opt(None) else Opt(Some(Erase(sub, c.o.value)))
    case RepSub(sub) => Msgs(EraseAll(sub, c.os))
    case _ => Num(c.n)
  }

  function EraseAll(sub: Schema, os: seq<Obj>): (ms: seq<Msg>)
    requires forall i :: 0 <= i < |os| ==> Shaped(sub, os[i])
    ensures |ms| == |os| && forall i :: 0 <= i < |ms| ==> Conforms(sub, ms[i])
    decreases sub, 2, |os|
  {
    if os == [] then [] else [Erase(sub, os[0])] + EraseAll(sub, os[1..])
  }

  // ---------------------------------------------------------------- filling the caches

  /** ByteSizeLong: the total, and the tree with every size of this call cached. */
  function SizeLong(s: Schema, o: Obj): (r: (nat, Obj))
    requires Shaped(s, o)
    ensures Shaped(s, r.1)
    decreases s, 1
  {
    var sized := seq(|s.fields|, i requires 0 <= i < |s.fields| => SizeCell(s.fields[i].typ, o.cells[i]));
    var total := RecordSizes(o.unk) + Total(sized);
    (total, Obj(seq(|s.fields|, i requires 0 <= i < |s.fields| => sized[i].1), o.unk, ToCachedSize(total)))
  }

  function Total(sized: seq<(nat, Cell)>): nat {
    if sized == [] then 0 else sized[0].0 + Total(sized[1..])
  }

  function SizeCell(t: FieldType, c: Cell): (r: (nat, Cell))
    requires CellShaped(t, c)
    ensures CellShaped(t, r.1)
    decreases t, 0
  {
    match t
    case Bytes => (if c.b == [] then 0 else 1 + LengthDelimitedSize(|c.b|), c)
    case Str => (if c.b == [] then 0 else 1 + LengthDelimitedSize(|c.b|), c)
    case RepStr => (BlobSizes(c.bs), c)
    case Sub(sub) =>
      if c.o.None? then (0, c) else
      var (n, o) := SizeLong(sub, c.o.value);
      (1 + LengthDelimitedSize(n), OptCell(Some(o)))
    case RepSub(sub) =>
      var (n, os) := SizeObjs(sub, c.os);
      (n, ObjsCell(os))
    case Bool => (if c.n == 0 then 0 else 1 + 1, c)
    case _ => (if c.n == 0 then 0 else 1 + VarintSize(ToWire(c.n)), c)
  }

  function SizeObjs(sub: Schema, os: seq<Obj>): (r: (nat, seq<Obj>))
    requires forall i :: 0 <= i < |os| ==> Shaped(sub, os[i])
    ensures forall i :: 0 <= i < |r.1| ==> Shaped(sub, r.1[i])
    decreases sub, 2, |os|
  {
    if os == [] then (0, [])
    else
      var (n, o) := SizeLong(sub, os[0]);
      var (rest, more) := SizeObjs(sub, os[1..]);
      (1 + LengthDelimitedSize(n) + rest, [o] + more)
  }

  // ---------------------------------------------------------------- trusting the caches

  /** What the serializers write: nested objects with the sizes cached in them. */
  function WriteObj(s: Schema, o: Obj): bytes
    requires Shaped(s, o)
    decreases s, 2
  {
    AllBytes(Parts(s, o, 0) + AllExact(o.unk))
  }

  function Parts(s: Schema, o: Obj, i: nat): seq<Written>
    requires Shaped(s, o) && i <= |s.fields|
    decreases s, 1, |s.fields| - i
  {
    if i == |s.fields| then [] else CellParts(s.fields[i], o.cells[i]) + Parts(s, o, i + 1)
  }

  function CellParts(f: Field, c: Cell): seq<Written>
    requires CellShaped(f.typ, c)
    decreases f, 0
  {
    match f.typ
    case Bytes => if c.b == [] then [] else [Exact(Len(f.num, c.b))]
    case Str => if c.b == [] then [] else [Exact(Len(f.num, c.b))]
    case RepStr => AllExact(BlobRecords(f.num, c.bs))
    case Sub(sub) => if c.o.None? then [] else [ObjPart(f.num, sub, c.o.value)]
    case RepSub(sub) => ObjParts(f.num, sub, c.os)
    case _ => if c.n == 0 then [] else [Exact(Varint(f.num, ToWire(c.n)))]
  }

  function ObjPart(num: FieldNumber, sub: Schema, o: Obj): Written
    requires Shaped(sub, o)
    decreases sub, 3
  {
    Prefixed(num, AsPrefix(o.cached), WriteObj(sub, o))
  }

  function ObjParts(num: FieldNumber, sub: Schema, os: seq<Obj>): seq<Written>
    requires forall i :: 0 <= i < |os| ==> Shaped(sub, os[i])
    decreases sub, 4, |os|
  {
    if os == [] then [] else [ObjPart(num, sub, os[0])] + ObjParts(num, sub, os[1..])
  }

  // ---------------------------------------------------------------- when the caches are right

  /** Every object nested in `o`, at any depth, caches the length of its own serialization. */
  ghost predicate NestedRight(s: Schema, o: Obj)
    requires Shaped(s, o)
    decreases s, 1
  {
    forall i :: 0 <= i < |s.fields| ==> CellRight(s.fields[i].typ, o.cells[i])
  }

  ghost predicate CellRight(t: FieldType, c: Cell)
    requires CellShaped(t, c)
    decreases t, 0
  {
    match t
    case Sub(sub) => c.o.Some? ==> ObjRight(sub, c.o.value)
    case RepSub(sub) => ObjsRight(sub, c.os)
    case _ => true
  }

  ghost predicate ObjRight(sub: Schema, o: Obj)
    requires Shaped(sub, o)
    decreases sub, 2
  {
    AsPrefix(o.cached) == |Serialize(sub, Erase(sub, o))| && NestedRight(sub, o)
  }

  ghost predicate ObjsRight(sub: Schema, os: seq<Obj>)
    requires forall i :: 0 <= i < |os| ==> Shaped(sub, os[i])
    decreases sub, 3, |os|
  {
    os == [] || (ObjRight(sub, os[0]) && ObjsRight(sub, os[1..]))
  }

  // ---------------------------------------------------------------- the protocol

  lemma {:induction false} ObjCompared(num: FieldNumber, sub: Schema, o: Obj)
    requires Shaped(sub, o)
    ensures Comparable(ObjPart(num, sub, o), Len(num, Serialize(sub, Erase(sub, o))))
    ensures Right(ObjPart(num, sub, o), Len(num, Serialize(sub, Erase(sub, o)))) <==> ObjRight(sub, o)
    decreases sub, 3
  {
    Protocol(sub, o);
  }

  lemma {:induction false} ObjsCompared(num: FieldNumber, sub: Schema, os: seq<Obj>)
    requires forall i :: 0 <= i < |os| ==> Shaped(sub, os[i])
    ensures var ws, rs := ObjParts(num, sub, os), MsgRecords(num, sub, EraseAll(sub, os));
            AllComparable(ws, rs) && (AllRight(ws, rs) <==> ObjsRight(sub, os))
    decreases sub, 4, |os|
  {
    hide Comparable, Right, ObjRight, Serialize, ObjPart;
    if os != [] {
      ObjCompared(num, sub, os[0]);
      ObjsCompared(num, sub, os[1..]);
      var w, r := ObjPart(num, sub, os[0]), Len(num, Serialize(sub, Erase(sub, os[0])));
      assert AllComparable([w], [r]) && (AllRight([w], [r]) <==> Right(w, r)) by {
        assert [w][0] == w && [r][0] == r;
      }
      ConcatCompared([w], [r], ObjParts(num, sub, os[1..]), MsgRecords(num, sub, EraseAll(sub, os[1..])));
      assert EraseAll(sub, os)[1..] == EraseAll(sub, os[1..]);
    }
  }

  lemma {:induction false} CellCompared(f: Field, c: Cell)
    requires CellShaped(f.typ, c)
    ensures var ws, rs := CellParts(f, c), FieldRecords(f, EraseCell(f.typ, c));
            AllComparable(ws, rs) && (AllRight(ws, rs) <==> CellRight(f.typ, c))
    decreases f, 0
  {
    match f.typ
    case RepStr => ExactCompared(BlobRecords(f.num, c.bs));
    case Sub(sub) =>
      if c.o.Some? {
        ObjCompared(f.num, sub, c.o.value);
        var ws, rs := CellParts(f, c), FieldRecords(f, EraseCell(f.typ, c));
        assert ws[0] == ObjPart(f.num, sub, c.o.value) && rs[0] == Len(f.num, Serialize(sub, Erase(sub, c.o.value)));
        assert AllRight(ws, rs) <==> Right(ws[0], rs[0]);
      }
    case RepSub(sub) => ObjsCompared(f.num, sub, c.os);
    case _ =>
  }

  lemma {:induction false} PartsCompared(s: Schema, o: Obj, i: nat)
    requires Shaped(s, o) && i <= |s.fields|
    ensures var ws, rs := Parts(s, o, i), KnownRecords(s, Erase(s, o), i);
            && AllComparable(ws, rs)
            && (AllRight(ws, rs) <==> forall j :: i <= j < |s.fields| ==> CellRight(s.fields[j].typ, o.cells[j]))
    decreases s, 1, |s.fields| - i
  {
    hide Comparable, Right, CellRight;
    if i < |s.fields| {
      CellCompared(s.fields[i], o.cells[i]);
      PartsCompared(s, o, i + 1);
      ConcatCompared(CellParts(s.fields[i], o.cells[i]), FieldRecords(s.fields[i], Erase(s, o).vals[i]),
                     Parts(s, o, i + 1), KnownRecords(s, Erase(s, o), i + 1));
    }
  }

  /** The cached-size protocol, exactly and at every depth: the serializers write the serialization
      of the message if and only if every nested object caches the length of its own; and a
      single stale size anywhere already shows in the bytes both outputs have. */
  lemma {:induction false} Protocol(s: Schema, o: Obj)
    requires Shaped(s, o)
    ensures NestedRight(s, o) ==> WriteObj(s, o) == Serialize(s, Erase(s, o))
    ensures !NestedRight(s, o) ==> Diverge(WriteObj(s, o), Serialize(s, Erase(s, o)))
    decreases s, 2
  {
    hide Comparable, Right, CellRight;
    PartsCompared(s, o, 0);
    ExactCompared(o.unk);
    var ws, rs := Parts(s, o, 0), KnownRecords(s, Erase(s, o), 0);
    ConcatCompared(ws, rs, AllExact(o.unk), o.unk);
    AllCompared(ws + AllExact(o.unk), rs + o.unk);
  }

  // ---------------------------------------------------------------- after ByteSizeLong

  /** This object and everything nested in it caches what ByteSizeLong computed for it. */
  ghost predicate Cached(s: Schema, o: Obj)
    requires Shaped(s, o)
    decreases s, 1
  {
    && o.cached == ToCachedSize(|Serialize(s, Erase(s, o))|)
    && forall i :: 0 <= i < |s.fields| ==> CellCached(s.fields[i].typ, o.cells[i])
  }

  ghost predicate CellCached(t: FieldType, c: Cell)
    requires CellShaped(t, c)
    decreases t, 0
  {
    match t
    case Sub(sub) => c.o.Some? ==> Cached(sub, c.o.value)
    case RepSub(sub) => AllCached(sub, c.os)
    case _ => true
  }

  ghost predicate AllCached(sub: Schema, os: seq<Obj>)
    requires forall i :: 0 <= i < |os| ==> Shaped(sub, os[i])
    decreases sub, 2, |os|
  {
    os == [] || (Cached(sub, os[0]) && AllCached(sub, os[1..]))
  }

  lemma {:induction false} SizeObjsCaches(sub: Schema, os: seq<Obj>)
    requires WellFormed(sub) && forall i :: 0 <= i < |os| ==> Shaped(sub, os[i])
    ensures var (n, sized) := SizeObjs(sub, os);
            && EraseAll(sub, sized) == EraseAll(sub, os)
            && n == MsgSizes(sub, EraseAll(sub, os))
            && AllCached(sub, sized)
    decreases sub, 2, |os|
  {
    if os != [] {
      SizeLongCaches(sub, os[0]);
      SizeObjsCaches(sub, os[1..]);
      ByteSizeIsLength(sub, Erase(sub, os[0]));
      var sized := SizeObjs(sub, os).1;
      assert sized[1..] == SizeObjs(sub, os[1..]).1;
      assert EraseAll(sub, os)[1..] == EraseAll(sub, os[1..]);
    }
  }

  lemma {:induction false} SizeCellCaches(t: FieldType, c: Cell)
    requires WellFormedType(t) && CellShaped(t, c)
    ensures var (n, sized) := SizeCell(t, c);
            && EraseCell(t, sized) == EraseCell(t, c)
            && n == FieldSize(t, EraseCell(t, c))
            && CellCached(t, sized)
    decreases t, 0
  {
    match t
    case Sub(sub) =>
      if c.o.Some? {
        SizeLongCaches(sub, c.o.value);
        ByteSizeIsLength(sub, Erase(sub, c.o.value));
      }
    case RepSub(sub) => SizeObjsCaches(sub, c.os);
    case _ =>
  }

  lemma {:induction false} TotalIsFieldSizes(s: Schema, m: Msg, sized: seq<(nat, Cell)>, i: nat)
    requires Conforms(s, m) && |sized| == |s.fields| && i <= |s.fields|
    requires forall j :: 0 <= j < |sized| ==> sized[j].0 == FieldSize(s.fields[j].typ, m.vals[j])
    ensures Total(sized[i..]) == FieldSizes(s, m, i)
    decreases |s.fields| - i
  {
    if i < |s.fields| {
      assert sized[i..][1..] == sized[i + 1..];
      TotalIsFieldSizes(s, m, sized, i + 1);
    }
  }

  /** ByteSizeLong returns the length of the serialization, changes no value, and leaves in every
      object, at every depth, the length of that object's own serialization. */
  lemma {:induction false} SizeLongCaches(s: Schema, o: Obj)
    requires WellFormed(s) && Shaped(s, o)
    ensures var (n, sized) := SizeLong(s, o);
            && Erase(s, sized) == Erase(s, o)
            && n == |Serialize(s, Erase(s, o))|
            && Cached(s, sized)
    decreases s, 1
  {
    var m := Erase(s, o);
    var cells := seq(|s.fields|, i requires 0 <= i < |s.fields| => SizeCell(s.fields[i].typ, o.cells[i]));
    forall i | 0 <= i < |s.fields|
      ensures EraseCell(s.fields[i].typ, cells[i].1) == EraseCell(s.fields[i].typ, o.cells[i])
      ensures cells[i].0 == FieldSize(s.fields[i].typ, m.vals[i]) && CellCached(s.fields[i].typ, cells[i].1)
    {
      SizeCellCaches(s.fields[i].typ, o.cells[i]);
    }
    TotalIsFieldSizes(s, m, cells, 0);
    assert cells[0..] == cells;
    ByteSizeIsLength(s, m);
    assert Erase(s, SizeLong(s, o).1).vals == m.vals;
  }

  lemma {:induction false} CachedObjsRight(num: FieldNumber, sub: Schema, os: seq<Obj>)
    requires forall i :: 0 <= i < |os| ==> Shaped(sub, os[i])
    requires AllCached(sub, os) && |EmitAll(MsgRecords(num, sub, EraseAll(sub, os)))| < TWO_TO_THE_32
    ensures ObjsRight(sub, os)
    decreases sub, 2, |os|
  {
    if os != [] {
      var r, rest := Len(num, Serialize(sub, Erase(sub, os[0]))), MsgRecords(num, sub, EraseAll(sub, os[1..]));
      assert MsgRecords(num, sub, EraseAll(sub, os)) == [r] + rest by {
        assert EraseAll(sub, os)[1..] == EraseAll(sub, os[1..]);
      }
      assert EmitAll([r] + rest) == Emit(r) + EmitAll(rest) by {
        assert ([r] + rest)[1..] == rest;
      }
      PayloadSize(r);
      CachedSizeAsPrefix(|r.data|);
      CachedIsRight(sub, os[0]);
      CachedObjsRight(num, sub, os[1..]);
    }
  }

  lemma {:induction false} CachedIsRight(s: Schema, o: Obj)
    requires Shaped(s, o) && Cached(s, o) && |Serialize(s, Erase(s, o))| < TWO_TO_THE_32
    ensures NestedRight(s, o)
    decreases s, 1
  {
    var m := Erase(s, o);
    EmitAllConcat(KnownRecords(s, m, 0), m.unk);
    forall i | 0 <= i < |s.fields| ensures CellRight(s.fields[i].typ, o.cells[i]) {
      var f, c := s.fields[i], o.cells[i];
      FieldRecordsFit(s, m, 0, i);
      match f.typ
      case Sub(sub) =>
        if c.o.Some? {
          var r := Len(f.num, Serialize(sub, Erase(sub, c.o.value)));
          assert FieldRecords(f, m.vals[i]) == [r];
          SingleRecord(r);
          PayloadSize(r);
          CachedSizeAsPrefix(|r.data|);
          CachedIsRight(sub, c.o.value);
        }
      case RepSub(sub) => CachedObjsRight(f.num, sub, c.os);
      case _ =>
    }
  }

  /** Size, then write: exactly the serialization, in exactly the number of bytes announced. */
  lemma {:induction false} SizeThenWrite(s: Schema, o: Obj)
    requires WellFormed(s) && Shaped(s, o) && |Serialize(s, Erase(s, o))| < TWO_TO_THE_32
    ensures var (n, sized) := SizeLong(s, o);
            WriteObj(s, sized) == Serialize(s, Erase(s, o)) && |WriteObj(s, sized)| == n
  {
    SizeLongCaches(s, o);
    CachedIsRight(s, SizeLong(s, o).1);
    Protocol(s, SizeLong(s, o).1);
  }
}

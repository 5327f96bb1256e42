/** Serializing and parsing back: when it works, what it gives, and that it is stable. */
module RoundTrip {
  import opened Wire
  import opened WireLaws
  import opened Codec
  import opened MergeLaws
  import opened Parsing
  import Utf8

  /** No unknown field carries the number and wire type of a known one, at any level. */
  ghost predicate Clean(s: Schema, m: Msg)
    requires Conforms(s, m)
    decreases s, 1
  {
    && (forall i :: 0 <= i < |m.unk| ==> Dispatch(s, m.unk[i]) == |s.fields|)
    && forall i :: 0 <= i < |s.fields| ==> ValueClean(s.fields[i].typ, m.vals[i])
  }

  ghost predicate ValueClean(t: FieldType, v: Value)
    requires ValueConforms(t, v)
    decreases t, 0
  {
    match t
    case Sub(sub) => v.m.Some? ==> Clean(sub, v.m.value)
    case RepSub(sub) => forall i :: 0 <= i < |v.ms| ==> Clean(sub, v.ms[i])
    case _ => true
  }

  /** Every string is valid UTF-8 and sub-messages and groups nest within the recursion budget. */
  ghost predicate Readable(s: Schema, m: Msg, budget: nat)
    requires Conforms(s, m)
    decreases s, 1
  {
    AllShallow(m.unk, budget) && FieldsReadable(s, m, budget)
  }

  ghost predicate FieldsReadable(s: Schema, m: Msg, budget: nat)
    requires Conforms(s, m)
    decreases s, 0
  {
    forall i :: 0 <= i < |s.fields| ==> ValueReadable(s.fields[i].typ, m.vals[i], budget)
  }

  ghost predicate ValueReadable(t: FieldType, v: Value, budget: nat)
    requires ValueConforms(t, v)
    decreases t, 0
  {
    match t
    case Str => Utf8.Valid(v.b)
    case RepStr => forall i :: 0 <= i < |v.bs| ==> Utf8.Valid(v.bs[i])
    case Sub(sub) => v.m.Some? ==> budget > 0 && Readable(sub, v.m.value, budget - 1)
    case RepSub(sub) => AllReadable(sub, v.ms, budget)
    case _ => true
  }

  ghost predicate AllReadable(sub: Schema, ms: seq<Msg>, budget: nat)
    requires forall i :: 0 <= i < |ms| ==> Conforms(sub, ms[i])
    decreases sub, 2, |ms|
  {
    ms == [] || (budget > 0 && Readable(sub, ms[0], budget - 1) && AllReadable(sub, ms[1..], budget))
  }

  lemma {:induction false} AllReadableConcat(sub: Schema, a: seq<Msg>, b: seq<Msg>, budget: nat)
    requires forall i :: 0 <= i < |a| ==> Conforms(sub, a[i])
    requires forall i :: 0 <= i < |b| ==> Conforms(sub, b[i])
    ensures AllReadable(sub, a + b, budget) <==> AllReadable(sub, a, budget) && AllReadable(sub, b, budget)
    decreases |a|
  {
    if a == [] {
      assert a + b == b;
    } else {
      assert (a + b)[1..] == a[1..] + b;
      AllReadableConcat(sub, a[1..], b, budget);
    }
  }

  // ---------------------------------------------------------------- which records go where

  lemma {:induction false} DispatchOwn(s: Schema, i: nat, r: Record)
    requires WellFormed(s) && i < |s.fields| && Matches(s.fields[i], r)
    ensures Dispatch(s, r) == i
  {
  }

  lemma {:induction false} SelectUniform(s: Schema, k: nat, i: nat, rs: seq<Record>)
    requires forall j :: 0 <= j < |rs| ==> Dispatch(s, rs[j]) == i
    ensures Select(s, k, rs) == if k == i then rs else []
  {
    if rs != [] {
      SelectUniform(s, k, i, rs[1..]);
    }
  }

  lemma {:induction false} BlobRecordsMatch(f: Field, bs: seq<bytes>)
    requires f.typ.RepStr?
    ensures AllMatch(f, BlobRecords(f.num, bs))
  {
    if bs != [] {
      BlobRecordsMatch(f, bs[1..]);
    }
  }

  lemma {:induction false} MsgRecordsMatch(f: Field, ms: seq<Msg>)
    requires f.typ.RepSub? && forall i :: 0 <= i < |ms| ==> Conforms(f.typ.schema, ms[i])
    ensures AllMatch(f, MsgRecords(f.num, f.typ.schema, ms))
    decreases |ms|
  {
    if ms != [] {
      MsgRecordsMatch(f, ms[1..]);
      var sub := f.typ.schema;
      var first := Len(f.num, Serialize(sub, ms[0]));
      assert MsgRecords(f.num, sub, ms) == [first] + MsgRecords(f.num, sub, ms[1..]);
      assert Matches(f, first);
    }
  }

  lemma {:induction false} FieldRecordsMatch(f: Field, v: Value)
    requires ValueConforms(f.typ, v)
    ensures AllMatch(f, FieldRecords(f, v))
  {
    match f.typ
    case RepStr => BlobRecordsMatch(f, v.bs);
    case RepSub(_) => MsgRecordsMatch(f, v.ms);
    case _ =>
  }

  lemma {:induction false} SelectKnown(s: Schema, m: Msg, i: nat, k: nat)
    requires WellFormed(s) && Conforms(s, m) && i <= |s.fields|
    ensures Select(s, k, KnownRecords(s, m, i))
         == if i <= k < |s.fields| then FieldRecords(s.fields[k], m.vals[k]) else []
    decreases |s.fields| - i
  {
    if i < |s.fields| {
      var here := FieldRecords(s.fields[i], m.vals[i]);
      FieldRecordsMatch(s.fields[i], m.vals[i]);
      forall j | 0 <= j < |here| ensures Dispatch(s, here[j]) == i {
        DispatchOwn(s, i, here[j]);
      }
      SelectUniform(s, k, i, here);
      SelectKnown(s, m, i + 1, k);
      SelectConcat(s, k, here, KnownRecords(s, m, i + 1));
    }
  }

  lemma {:induction false} KnownAreShallow(s: Schema, m: Msg, i: nat, budget: nat)
    requires Conforms(s, m) && i <= |s.fields|
    ensures AllShallow(KnownRecords(s, m, i), budget)
    decreases |s.fields| - i
  {
    if i < |s.fields| {
      FieldRecordsMatch(s.fields[i], m.vals[i]);
      var here := FieldRecords(s.fields[i], m.vals[i]);
      forall j | 0 <= j < |here| ensures Shallow(here[j], budget) {
        assert Matches(s.fields[i], here[j]);
      }
      KnownAreShallow(s, m, i + 1, budget);
      AllShallowConcat(here, KnownRecords(s, m, i + 1), budget);
    }
  }

  lemma {:induction false} FieldRecordsFit(s: Schema, m: Msg, i: nat, k: nat)
    requires Conforms(s, m) && i <= k < |s.fields|
    ensures |EmitAll(FieldRecords(s.fields[k], m.vals[k]))| <= |EmitAll(KnownRecords(s, m, i))|
    decreases |s.fields| - i
  {
    EmitAllConcat(FieldRecords(s.fields[i], m.vals[i]), KnownRecords(s, m, i + 1));
    if i < k {
      FieldRecordsFit(s, m, i + 1, k);
    }
  }

  // ---------------------------------------------------------------- parsing what was written

  lemma {:induction false} NumberRoundTrip(t: FieldType, n: int)
    requires IsNumeric(t) && InRange(t, n)
    ensures FromWire(t, ToWire(n)) == n
  {
  }

  lemma {:induction false} BlobsRoundTrip(f: Field, v: Value, bs: seq<bytes>, budget: nat)
    requires f.typ.RepStr? && v.Blobs?
    requires AllMatch(f, BlobRecords(f.num, bs))
    ensures FieldFold(f, v, BlobRecords(f.num, bs), budget)
         == if ValueReadable(f.typ, Blobs(bs), budget) then Some(Blobs(v.bs + bs)) else None
    decreases |bs|
  {
    if bs == [] {
      assert v.bs + bs == v.bs;
    } else {
      var rs := BlobRecords(f.num, bs);
      assert rs[1..] == BlobRecords(f.num, bs[1..]);
      if Utf8.Valid(bs[0]) {
        BlobRecordsMatch(f, bs[1..]);
        BlobsRoundTrip(f, Blobs(v.bs + [bs[0]]), bs[1..], budget);
        assert v.bs + [bs[0]] + bs[1..] == v.bs + bs;
        assert forall i :: 1 <= i < |bs| ==> bs[i] == bs[1..][i - 1];
      }
    }
  }

  lemma {:induction false} MsgThenParse(f: Field, v: Value, m: Msg, budget: nat)
    requires f.typ.RepSub? && WellFormedType(f.typ) && ValueConforms(f.typ, v)
    requires Conforms(f.typ.schema, m) && Clean(f.typ.schema, m)
    requires |Serialize(f.typ.schema, m)| < TWO_TO_THE_31
    ensures ApplyField(f, v, Len(f.num, Serialize(f.typ.schema, m)), budget)
         == if budget > 0 && Readable(f.typ.schema, m, budget - 1) then Some(Msgs(v.ms + [m])) else None
    decreases f, 0
  {
    if budget > 0 {
      SerializeThenParse(f.typ.schema, Empty(f.typ.schema), m, budget - 1);
      MergeUnits(f.typ.schema, m);
    }
  }

  lemma {:induction false} MsgsRoundTrip(f: Field, v: Value, ms: seq<Msg>, budget: nat)
    requires f.typ.RepSub? && WellFormedType(f.typ)
    requires ValueConforms(f.typ, v) && ValueConforms(f.typ, Msgs(ms)) && ValueClean(f.typ, Msgs(ms))
    requires |EmitAll(MsgRecords(f.num, f.typ.schema, ms))| < TWO_TO_THE_31
    requires AllMatch(f, MsgRecords(f.num, f.typ.schema, ms))
    ensures FieldFold(f, v, MsgRecords(f.num, f.typ.schema, ms), budget)
         == if ValueReadable(f.typ, Msgs(ms), budget) then Some(Msgs(v.ms + ms)) else None
    decreases f, 1, |ms|
  {
    if ms == [] {
      assert v.ms + ms == v.ms;
    } else {
      var sub := f.typ.schema;
      var first, rest := ms[0], MsgRecords(f.num, sub, ms[1..]);
      var r := Len(f.num, Serialize(sub, first));
      var rs := [r] + rest;
      assert MsgRecords(f.num, sub, ms) == rs && rs[1..] == rest;
      assert EmitAll(rs) == Emit(r) + EmitAll(rest);
      PayloadSize(r);
      MsgThenParse(f, v, first, budget);
      assert ValueReadable(f.typ, Msgs(ms), budget)
        <==> budget > 0 && Readable(sub, first, budget - 1) && ValueReadable(f.typ, Msgs(ms[1..]), budget);
      assert FieldFold(f, v, rs, budget)
          == match ApplyField(f, v, r, budget)
             case None => None
             case Some(v1) => FieldFold(f, v1, rest, budget);
      if budget > 0 && Readable(sub, first, budget - 1) {
        MsgRecordsMatch(f, ms[1..]);
        MsgsRoundTrip(f, Msgs(v.ms + [first]), ms[1..], budget);
        assert v.ms + [first] + ms[1..] == v.ms + ms;
      }
    }
  }

  lemma {:induction false} FieldThenParse(f: Field, x: Value, y: Value, budget: nat)
    requires WellFormedType(f.typ)
    requires ValueConforms(f.typ, x) && ValueConforms(f.typ, y) && ValueClean(f.typ, y)
    requires |EmitAll(FieldRecords(f, y))| < TWO_TO_THE_31
    requires AllMatch(f, FieldRecords(f, y))
    ensures FieldFold(f, x, FieldRecords(f, y), budget)
         == if ValueReadable(f.typ, y, budget) then Some(MergeValue(f.typ, x, y)) else None
    decreases f, 2
  {
    var rs := FieldRecords(f, y);
    match f.typ
    case RepStr => BlobsRoundTrip(f, x, y.bs, budget);
    case RepSub(_) => MsgsRoundTrip(f, x, y.ms, budget);
    case Sub(sub) =>
      if y.m.Some? {
        assert rs[1..] == [];
        PayloadSize(rs[0]);
        if budget > 0 {
          SerializeThenParse(sub, OrEmpty(sub, x.m), y.m.value, budget - 1);
        }
      }
    case Bytes =>
    case Str =>
    case _ => NumberRoundTrip(f.typ, y.n);
  }

  /** Parsing what `y` serializes to, on top of any `x`: it succeeds exactly when every string of
      `y` is valid UTF-8 and its nesting fits the budget, and the result is `y` merged into `x`. */
  lemma {:induction false} SerializeThenParse(s: Schema, x: Msg, y: Msg, budget: nat)
    requires WellFormed(s) && Conforms(s, x) && Conforms(s, y) && Clean(s, y)
    requires |Serialize(s, y)| < TWO_TO_THE_31
    ensures Parse(s, x, Serialize(s, y), budget)
         == if Readable(s, y, budget) then Some(Merge(s, x, y)) else None
    decreases s, 4
  {
    var n := |s.fields|;
    var known := KnownRecords(s, y, 0);
    var rs := known + y.unk;
    MergePartialIsFold(s, x, Serialize(s, y), budget);
    LexRoundTrip(rs, budget);
    KnownAreShallow(s, y, 0, budget);
    AllShallowConcat(known, y.unk, budget);
    FoldIsByField(s, x, rs, budget);
    EmitAllConcat(known, y.unk);
    SelectUniform(s, n, n, y.unk);
    SelectConcat(s, n, known, y.unk);
    SelectKnown(s, y, 0, n);
    forall k | 0 <= k < n
      ensures FieldFold(s.fields[k], x.vals[k], Select(s, k, rs), budget)
           == if ValueReadable(s.fields[k].typ, y.vals[k], budget)
              then Some(MergeValue(s.fields[k].typ, x.vals[k], y.vals[k])) else None
    {
      FieldOfMessageThenParse(s, x, y, k, budget);
    }
    ByFieldMerges(s, x, y, rs, budget);
  }

  lemma {:induction false} FieldOfMessageThenParse(s: Schema, x: Msg, y: Msg, k: nat, budget: nat)
    requires WellFormed(s) && Conforms(s, x) && Conforms(s, y) && Clean(s, y)
    requires |Serialize(s, y)| < TWO_TO_THE_31 && k < |s.fields|
    ensures FieldFold(s.fields[k], x.vals[k], Select(s, k, KnownRecords(s, y, 0) + y.unk), budget)
         == if ValueReadable(s.fields[k].typ, y.vals[k], budget)
            then Some(MergeValue(s.fields[k].typ, x.vals[k], y.vals[k])) else None
    decreases s, 3
  {
    var known := KnownRecords(s, y, 0);
    EmitAllConcat(known, y.unk);
    SelectConcat(s, k, known, y.unk);
    SelectKnown(s, y, 0, k);
    SelectUniform(s, k, |s.fields|, y.unk);
    assert Select(s, k, known + y.unk) == FieldRecords(s.fields[k], y.vals[k]);
    FieldRecordsFit(s, y, 0, k);
    FieldThenParse(s.fields[k], x.vals[k], y.vals[k], budget);
  }

  lemma {:induction false} ByFieldMerges(s: Schema, x: Msg, y: Msg, rs: seq<Record>, budget: nat)
    requires Conforms(s, x) && Conforms(s, y)
    requires Select(s, |s.fields|, rs) == y.unk
    requires forall k :: 0 <= k < |s.fields| ==>
               FieldFold(s.fields[k], x.vals[k], Select(s, k, rs), budget)
               == if ValueReadable(s.fields[k].typ, y.vals[k], budget)
                  then Some(MergeValue(s.fields[k].typ, x.vals[k], y.vals[k])) else None
    ensures ByField(s, x, rs, budget)
         == if FieldsReadable(s, y, budget) then Some(Merge(s, x, y)) else None
  {
    if FieldsFold(s, x, rs, budget) {
      assert ByField(s, x, rs, budget).value.vals == Merge(s, x, y).vals;
    }
  }
}
